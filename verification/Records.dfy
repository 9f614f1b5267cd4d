/**
 Claims, inference edges, and their content addresses.

 A content address is a free term over what was hashed: two addresses are equal
 exactly when the hashed byte strings are. A byte string is classified by what it
 is: the canonical encoding of a node, an edge or a roster, one of the three
 domain-separated strings hashed by the Merkle tree, or any other string together
 with what the two record decoders make of it.
 */
module Records {
  import opened Options
  import opened KappaAlgebra

  type Bytes = seq<int>

  datatype EdgeType = Definition | Deduction | Numerical | Spectral | Reduction | Refutation | Analogy | Citation

  datatype Verdict = Pass | SoftFlag | HardVeto

  datatype Node = Node(claim: string, domain: string, polarity: bool)

  datatype Edge = Edge(
    kind: EdgeType,
    premises: seq<Hash>,
    conclusion: Hash,
    rule: string,
    proofHash: Option<Hash>,
    verdict: Verdict,
    kappa: Kappa,
    signer: Bytes)

  datatype Blob =
    | NodeRec(node: Node)
    | EdgeRec(edge: Edge)
    | RosterRec(bindings: seq<(string, Bytes)>)
    | LeafPre(leaf: Hash)                  // 0x00 then a hash
    | InternalPre(left: Hash, right: Hash) // 0x01 then two hashes
    | EmptyPre                             // 0x02
    | Other(bytes: Bytes, asNode: Option<Node>, asEdge: Option<Edge>)

  /** `Zero` is the all-zero sentinel, which is the hash of nothing. */
  datatype Hash = Zero | Digest(preimage: Blob)

  function HashBytes(data: Blob): Hash {
    Digest(data)
  }

  function NodeId(n: Node): Hash {
    HashBytes(NodeRec(n))
  }

  function EdgeHash(e: Edge): Hash {
    HashBytes(EdgeRec(e))
  }

  /** `Node.from_bytes`, with every decoding exception turned into None. */
  function DecodeNode(data: Blob): Option<Node> {
    match data
    case NodeRec(n) => Some(n)
    case Other(_, n, _) => n
    case _ => None
  }

  /** `Edge.from_bytes`, with every decoding exception turned into None. */
  function DecodeEdge(data: Blob): Option<Edge> {
    match data
    case EdgeRec(e) => Some(e)
    case Other(_, _, e) => e
    case _ => None
  }

  type Objects = map<Hash, Blob>

  function ResolveNode(h: Hash, objects: Objects): Option<Node> {
    if h in objects then DecodeNode(objects[h]) else None
  }

  function ResolveEdge(h: Hash, objects: Objects): Option<Edge> {
    if h in objects then DecodeEdge(objects[h]) else None
  }

  /** Encoding and decoding: a stored record is read back under its address, and neither kind of
      record is ever taken for the other. */
  lemma {:induction false} StoredRecordsResolve(objects: Objects, n: Node, e: Edge)
    requires forall h | h in objects :: h == Digest(objects[h])
    ensures NodeId(n) in objects ==>
            ResolveNode(NodeId(n), objects) == Some(n) && ResolveEdge(NodeId(n), objects) == None
    ensures EdgeHash(e) in objects ==>
            ResolveEdge(EdgeHash(e), objects) == Some(e) && ResolveNode(EdgeHash(e), objects) == None
    ensures NodeId(n) !in objects ==> ResolveNode(NodeId(n), objects) == None
    ensures EdgeHash(e) !in objects ==> ResolveEdge(EdgeHash(e), objects) == None
  {
    if NodeId(n) in objects {
      assert Digest(objects[NodeId(n)]) == Digest(NodeRec(n));
    }
    if EdgeHash(e) in objects {
      assert Digest(objects[EdgeHash(e)]) == Digest(EdgeRec(e));
    }
  }

  /** Any other string resolves to what its decoders make of it. */
  lemma {:induction false} OtherBlobsResolve(objects: Objects, h: Hash, bytes: Bytes, n: Option<Node>, e: Option<Edge>)
    requires h in objects && objects[h] == Other(bytes, n, e)
    ensures ResolveNode(h, objects) == n && ResolveEdge(h, objects) == e
  {
  }
}
