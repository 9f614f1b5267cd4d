/** The conventional optional value, standing for the source's `X | None`. */
module Options {

  datatype Option<+T> = None | Some(value: T)
}
