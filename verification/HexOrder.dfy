/** Addresses in the order of their hex forms, in which reports list them. */
module HexOrder {
  import opened Records
  import opened ByteKeys

  /** How addresses print, as character codes. */
  type Hex = Hash -> ByteString

  /** No address comes twice, and none before one that prints lower. */
  ghost predicate Ascending(hs: seq<Hash>, hex: Hex) {
    forall i, j | 0 <= i < j < |hs| :: hs[i] != hs[j] && !Less(hex(hs[j]), hex(hs[i]))
  }

  method InsertByHex(hs: seq<Hash>, h: Hash, hex: Hex) returns (out: seq<Hash>)
    requires Ascending(hs, hex) && h !in hs
    ensures Ascending(out, hex) && forall x :: x in out <==> x in hs || x == h
  {
    var i := 0;
    while i < |hs| && Less(hex(hs[i]), hex(h))
      invariant 0 <= i <= |hs|
      invariant forall j | 0 <= j < i :: Less(hex(hs[j]), hex(h))
    {
      i := i + 1;
    }
    forall j | 0 <= j < |hs|
      ensures if j < i then !Less(hex(h), hex(hs[j])) else !Less(hex(hs[j]), hex(h))
    {
      InsertionPoint(hs, h, hex, i, j);
    }
    out := hs[..i] + [h] + hs[i..];
    InsertedAscending(hs, h, hex, i);
  }

  lemma {:induction false} InsertedAscending(hs: seq<Hash>, h: Hash, hex: Hex, i: nat)
    requires Ascending(hs, hex) && h !in hs && i <= |hs|
    requires forall j | 0 <= j < |hs| :: if j < i then !Less(hex(h), hex(hs[j])) else !Less(hex(hs[j]), hex(h))
    ensures var out := hs[..i] + [h] + hs[i..];
            Ascending(out, hex) && forall x :: x in out <==> x in hs || x == h
  {
    hide Less;
    var out := hs[..i] + [h] + hs[i..];
    assert hs == hs[..i] + hs[i..];
    forall a, b | 0 <= a < b < |out|
      ensures out[a] != out[b] && !Less(hex(out[b]), hex(out[a]))
    {
      assert out[a] == if a < i then hs[a] else if a == i then h else hs[a - 1];
      assert out[b] == if b < i then hs[b] else if b == i then h else hs[b - 1];
    }
  }

  lemma {:induction false} InsertionPoint(hs: seq<Hash>, h: Hash, hex: Hex, i: nat, j: nat)
    requires Ascending(hs, hex) && j < |hs| && i <= |hs|
    requires j < i ==> Less(hex(hs[j]), hex(h))
    requires i < |hs| ==> !Less(hex(hs[i]), hex(h))
    ensures if j < i then !Less(hex(h), hex(hs[j])) else !Less(hex(hs[j]), hex(h))
  {
    LessIrreflexive(hex(h));
    if j < i {
      if Less(hex(h), hex(hs[j])) {
        LessTransitive(hex(h), hex(hs[j]), hex(h));
      }
    } else if i < j && Less(hex(hs[j]), hex(h)) {
      LessTotal(hex(hs[i]), hex(hs[j]));
      if Less(hex(hs[i]), hex(hs[j])) {
        LessTransitive(hex(hs[i]), hex(hs[j]), hex(h));
      }
    }
  }

  /** `sorted` by hex. */
  method SortByHex(s: set<Hash>, hex: Hex) returns (out: seq<Hash>)
    ensures Ascending(out, hex) && forall h :: h in out <==> h in s
  {
    out := [];
    var rest := s;
    while rest != {}
      invariant rest <= s && Ascending(out, hex)
      invariant forall h :: h in out <==> h in s && h !in rest
      decreases rest
    {
      var h :| h in rest;
      rest := rest - {h};
      out := InsertByHex(out, h, hex);
    }
  }

  ghost predicate Injective(hex: Hex) {
    forall a, b | hex(a) == hex(b) :: a == b
  }

  /** Where addresses print differently, a set is listed in one way only: reports are
      deterministic. */
  lemma {:induction false} AscendingUnique(a: seq<Hash>, b: seq<Hash>, hex: Hex)
    requires Injective(hex) && Ascending(a, hex) && Ascending(b, hex)
    requires forall h :: h in a <==> h in b
    ensures a == b
  {
    var x, y := Printed(a, hex), Printed(b, hex);
    PrintedSorted(a, hex);
    PrintedSorted(b, hex);
    forall k
      ensures k in x <==> k in y
    {
      PrintedMembers(a, b, hex, k);
      PrintedMembers(b, a, hex, k);
    }
    ListingUnique(x, y);
    forall i | 0 <= i < |a|
      ensures a[i] == b[i]
    {
      assert x[i] == y[i];
    }
  }

  ghost function Printed(hs: seq<Hash>, hex: Hex): (ks: seq<ByteString>)
    ensures |ks| == |hs| && forall i | 0 <= i < |hs| :: ks[i] == hex(hs[i])
  {
    seq(|hs|, i requires 0 <= i < |hs| => hex(hs[i]))
  }

  lemma {:induction false} PrintedSorted(hs: seq<Hash>, hex: Hex)
    requires Injective(hex) && Ascending(hs, hex)
    ensures Sorted(Printed(hs, hex))
  {
    forall i, j | 0 <= i < j < |hs|
      ensures Less(hex(hs[i]), hex(hs[j]))
    {
      LessTotal(hex(hs[i]), hex(hs[j]));
    }
  }

  lemma {:induction false} PrintedMembers(a: seq<Hash>, b: seq<Hash>, hex: Hex, k: ByteString)
    requires forall h | h in a :: h in b
    ensures k in Printed(a, hex) ==> k in Printed(b, hex)
  {
    if k in Printed(a, hex) {
      var i :| 0 <= i < |a| && Printed(a, hex)[i] == k;
      assert a[i] in b;
      var j :| 0 <= j < |b| && b[j] == a[i];
      assert Printed(b, hex)[j] == k;
    }
  }
}
