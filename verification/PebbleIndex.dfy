/**
 The graph index over an ordered byte map: key layout, writes, and prefix-scan reads.

 One map holds everything. The first byte of a key says what it is about; hashes have fixed
 width, so keys parse without separators. `Represents` says when the map holds exactly what
 a set of relational tables holds.
 */
module PebbleIndex {
  import opened Options
  import opened ByteKeys
  import opened GraphTables

  type KeyMap = map<ByteString, ByteString>

  function Lookup(m: KeyMap, k: ByteString): Option<ByteString> {
    if k in m then Some(m[k]) else None
  }

  const HASH_SIZE := 34

  const NODE: Byte := 'n' as int
  const EDGE: Byte := 'e' as int
  const PREMISE: Byte := 'p' as int
  const INCOMING: Byte := 'c' as int
  const OUTGOING: Byte := 'o' as int

  // ----- Keys -----

  function NodeKey(node: Hash34): ByteString { [NODE] + node }

  function EdgeKey(edge: Hash34): ByteString { [EDGE] + edge }

  function PremisePrefix(edge: Hash34): ByteString { [PREMISE] + edge }

  function PremiseKey(edge: Hash34, pos: nat): ByteString { PremisePrefix(edge) + BigEndian(pos, 8) }

  function IncomingPrefix(node: Hash34): ByteString { [INCOMING] + node }

  function IncomingKey(conclusion: Hash34, edge: Hash34): ByteString { IncomingPrefix(conclusion) + edge }

  function OutgoingPrefix(node: Hash34): ByteString { [OUTGOING] + node }

  function OutgoingKey(premise: Hash34, edge: Hash34): ByteString { OutgoingPrefix(premise) + edge }

  /** The graph's keys, byte for byte: n, e, p, c and o, then hashes and a position. */
  lemma {:induction false} GraphKeyLayout(a: Hash34, b: Hash34, pos: nat)
    ensures NodeKey(a) == [0x6e] + a && EdgeKey(a) == [0x65] + a
    ensures PremiseKey(a, pos) == [0x70] + a + BigEndian(pos, 8) && |PremiseKey(a, pos)| == 43
    ensures IncomingKey(a, b) == [0x63] + a + b && OutgoingKey(a, b) == [0x6f] + a + b
  {
  }

  /** A tag, then one hash. */
  ghost predicate IsOneHash(k: ByteString, tag: Byte, h: Hash34) {
    |k| == 1 + HASH_SIZE && k[0] == tag && k[1..] == h
  }

  /** A tag, a hash, and something more. */
  ghost predicate IsHashAnd(k: ByteString, tag: Byte, h: Hash34, rest: ByteString) {
    |k| == 1 + HASH_SIZE + |rest| && k[0] == tag && k[1..1 + HASH_SIZE] == h && k[1 + HASH_SIZE..] == rest
  }

  lemma {:induction false} OneHashParses(k: ByteString, tag: Byte, h: Hash34)
    ensures k == [tag] + h <==> IsOneHash(k, tag, h)
  {
    if IsOneHash(k, tag, h) {
      assert k == [k[0]] + k[1..];
    }
  }

  lemma {:induction false} HashAndParses(k: ByteString, tag: Byte, h: Hash34, rest: ByteString)
    ensures k == [tag] + h + rest <==> IsHashAnd(k, tag, h, rest)
  {
    if IsHashAnd(k, tag, h, rest) {
      assert k == [k[0]] + k[1..1 + HASH_SIZE] + k[1 + HASH_SIZE..];
    }
    if k == [tag] + h + rest {
      assert k[1..1 + HASH_SIZE] == h && k[1 + HASH_SIZE..] == rest;
    }
  }

  /** Whether a key holds premise `pos` of `edge` can be read off the key. */
  lemma {:induction false} PremiseKeyParses(k: ByteString, edge: Hash34, pos: nat)
    requires pos < Pow256(8)
    ensures k == PremiseKey(edge, pos) <==>
            |k| == 1 + HASH_SIZE + 8 && k[0] == PREMISE && k[1..1 + HASH_SIZE] == edge &&
                FromBigEndian(k[1 + HASH_SIZE..]) == pos
  {
    HashAndParses(k, PREMISE, edge, BigEndian(pos, 8));
    BigEndianRoundTrip(pos, 8);
    if |k| == 1 + HASH_SIZE + 8 {
      FromBigEndianRoundTrip(k[1 + HASH_SIZE..]);
    }
  }

  // ----- What the map must hold for given tables -----

  predicate IsGraphKey(k: ByteString) {
    k != [] && (k[0] == NODE || k[0] == EDGE || k[0] == PREMISE || k[0] == INCOMING || k[0] == OUTGOING)
  }

  ghost predicate HasPremise(t: Tables<Hash34>, edge: Hash34, premise: Hash34) {
    exists i: nat :: (edge, i) in t.premises && t.premises[(edge, i)] == premise
  }

  ghost function GraphValue(t: Tables<Hash34>, k: ByteString): Option<ByteString> {
    if |k| == 1 + HASH_SIZE && k[0] == NODE then
      if k[1..] in t.nodes then Some([]) else None
    else if |k| == 1 + HASH_SIZE && k[0] == EDGE then
      if k[1..] in t.edges then Some(t.edges[k[1..]]) else None
    else if |k| == 1 + HASH_SIZE + 8 && k[0] == PREMISE then
      var at := (k[1..1 + HASH_SIZE], FromBigEndian(k[1 + HASH_SIZE..]));
      if at in t.premises then Some(t.premises[at]) else None
    else if |k| == 1 + 2 * HASH_SIZE && k[0] == INCOMING then
      var node, edge := k[1..1 + HASH_SIZE], k[1 + HASH_SIZE..];
      if edge in t.edges && t.edges[edge] == node then Some([]) else None
    else if |k| == 1 + 2 * HASH_SIZE && k[0] == OUTGOING then
      if HasPremise(t, k[1 + HASH_SIZE..], k[1..1 + HASH_SIZE]) then Some([]) else None
    else None
  }

  /** On every graph key the map answers as the tables do; other keys are not looked at. */
  ghost predicate Represents(m: KeyMap, t: Tables<Hash34>) {
    forall k | IsGraphKey(k) :: Lookup(m, k) == GraphValue(t, k)
  }

  // ----- Writes -----

  class PebbleDb {
    var data: KeyMap

    constructor ()
      ensures data == map[]
    {
      data := map[];
    }
  }

  /** An indexed batch: reads see the database through the batch's own writes. */
  class IndexedBatch {
    const db: PebbleDb
    var pending: KeyMap

    ghost function View(): KeyMap
      reads this, db
    {
      db.data + pending
    }

    constructor (db: PebbleDb)
      ensures this.db == db && pending == map[]
    {
      this.db := db;
      pending := map[];
    }

    method Set(k: ByteString, v: ByteString)
      modifies this
      ensures pending == old(pending)[k := v]
    {
      pending := pending[k := v];
    }

    method Get(k: ByteString) returns (v: Option<ByteString>)
      ensures v == Lookup(View(), k)
    {
      v := if k in pending then Some(pending[k]) else if k in db.data then Some(db.data[k]) else None;
    }

    method Commit()
      modifies db
      ensures db.data == old(View())
    {
      db.data := db.data + pending;
    }
  }

  function SetNodes(m: KeyMap, ps: seq<Hash34>): KeyMap {
    if ps == [] then m else SetNodes(m, ps[..|ps| - 1])[NodeKey(ps[|ps| - 1]) := []]
  }

  function SetPremises(m: KeyMap, edge: Hash34, ps: seq<Hash34>): KeyMap {
    if ps == [] then m else SetPremises(m, edge, ps[..|ps| - 1])[PremiseKey(edge, |ps| - 1) := ps[|ps| - 1]]
  }

  function SetOutgoing(m: KeyMap, edge: Hash34, ps: seq<Hash34>): KeyMap {
    if ps == [] then m else SetOutgoing(m, edge, ps[..|ps| - 1])[OutgoingKey(ps[|ps| - 1], edge) := []]
  }

  /** All the writes of one registration, in order; later ones win. */
  function EdgeWrites(m: KeyMap, edge: Hash34, ps: seq<Hash34>, conclusion: Hash34): KeyMap {
    var named := SetNodes(m[NodeKey(conclusion) := []], ps)[EdgeKey(edge) := conclusion];
    SetOutgoing(SetPremises(named, edge, ps)[IncomingKey(conclusion, edge) := []], edge, ps)
  }

  /** `RegisterEdge`. */
  method RegisterEdgeInBatch(b: IndexedBatch, edge: Hash34, ps: seq<Hash34>, conclusion: Hash34)
    modifies b
    ensures b.pending == EdgeWrites(old(b.pending), edge, ps, conclusion)
  {
    hide NodeKey, EdgeKey, PremiseKey, IncomingKey, OutgoingKey;
    b.Set(NodeKey(conclusion), []);
    ghost var m0 := b.pending;
    for i := 0 to |ps|
      invariant b.pending == SetNodes(m0, ps[..i])
    {
      assert ps[..i + 1][..i] == ps[..i];
      b.Set(NodeKey(ps[i]), []);
    }
    assert ps[..|ps|] == ps;
    b.Set(EdgeKey(edge), conclusion);
    ghost var m1 := b.pending;
    for i := 0 to |ps|
      invariant b.pending == SetPremises(m1, edge, ps[..i])
    {
      assert ps[..i + 1][..i] == ps[..i];
      b.Set(PremiseKey(edge, i), ps[i]);
    }
    b.Set(IncomingKey(conclusion, edge), []);
    ghost var m2 := b.pending;
    for i := 0 to |ps|
      invariant b.pending == SetOutgoing(m2, edge, ps[..i])
    {
      assert ps[..i + 1][..i] == ps[..i];
      b.Set(OutgoingKey(ps[i], edge), []);
    }
  }

  // ----- What the writes leave at each key -----

  lemma {:induction false} SetNodesAt(m: KeyMap, ps: seq<Hash34>, k: ByteString)
    ensures Lookup(SetNodes(m, ps), k) ==
            if |k| == 1 + HASH_SIZE && k[0] == NODE && k[1..] in ps then Some([]) else Lookup(m, k)
    decreases |ps|
  {
    if ps != [] {
      var last := ps[|ps| - 1];
      assert ps == ps[..|ps| - 1] + [last];
      SetNodesAt(m, ps[..|ps| - 1], k);
      OneHashParses(k, NODE, last);
    }
  }

  lemma {:induction false} SetPremisesAt(m: KeyMap, edge: Hash34, ps: seq<Hash34>, k: ByteString)
    requires |ps| <= Pow256(8)
    ensures Lookup(SetPremises(m, edge, ps), k) ==
            if |k| == 1 + HASH_SIZE + 8 && k[0] == PREMISE && k[1..1 + HASH_SIZE] == edge &&
                FromBigEndian(k[1 + HASH_SIZE..]) < |ps|
            then Some(ps[FromBigEndian(k[1 + HASH_SIZE..])]) else Lookup(m, k)
    decreases |ps|
  {
    if ps != [] {
      SetPremisesAt(m, edge, ps[..|ps| - 1], k);
      PremiseKeyParses(k, edge, |ps| - 1);
    }
  }

  lemma {:induction false} SetOutgoingAt(m: KeyMap, edge: Hash34, ps: seq<Hash34>, k: ByteString)
    ensures Lookup(SetOutgoing(m, edge, ps), k) ==
            if |k| == 1 + 2 * HASH_SIZE && k[0] == OUTGOING && k[1..1 + HASH_SIZE] in ps &&
                k[1 + HASH_SIZE..] == edge then Some([]) else Lookup(m, k)
    decreases |ps|
  {
    if ps != [] {
      var last := ps[|ps| - 1];
      assert ps == ps[..|ps| - 1] + [last];
      SetOutgoingAt(m, edge, ps[..|ps| - 1], k);
      HashAndParses(k, OUTGOING, last, edge);
    }
  }

  /** The write that decides key `k`, if any does. */
  ghost function WriteAt(edge: Hash34, ps: seq<Hash34>, conclusion: Hash34, k: ByteString): Option<ByteString> {
    if |k| == 1 + HASH_SIZE && k[0] == NODE then
      if k[1..] == conclusion || k[1..] in ps then Some([]) else None
    else if |k| == 1 + HASH_SIZE && k[0] == EDGE then
      if k[1..] == edge then Some(conclusion) else None
    else if |k| == 1 + HASH_SIZE + 8 && k[0] == PREMISE then
      if k[1..1 + HASH_SIZE] == edge &&
          FromBigEndian(k[1 + HASH_SIZE..]) < |ps| then Some(ps[FromBigEndian(k[1 + HASH_SIZE..])]) else None
    else if |k| == 1 + 2 * HASH_SIZE && k[0] == INCOMING then
      if k[1..1 + HASH_SIZE] == conclusion && k[1 + HASH_SIZE..] == edge then Some([]) else None
    else if |k| == 1 + 2 * HASH_SIZE && k[0] == OUTGOING then
      if k[1..1 + HASH_SIZE] in ps && k[1 + HASH_SIZE..] == edge then Some([]) else None
    else None
  }

  lemma {:induction false} EdgeWritesAt(m: KeyMap, edge: Hash34, ps: seq<Hash34>, conclusion: Hash34, k: ByteString)
    requires |ps| <= Pow256(8)
    ensures Lookup(EdgeWrites(m, edge, ps, conclusion), k) ==
            if WriteAt(edge, ps, conclusion, k).Some? then WriteAt(edge, ps, conclusion, k) else Lookup(m, k)
  {
    var m0 := m[NodeKey(conclusion) := []];
    var m1 := SetNodes(m0, ps)[EdgeKey(edge) := conclusion];
    var m2 := SetPremises(m1, edge, ps)[IncomingKey(conclusion, edge) := []];
    OneHashParses(k, NODE, conclusion);
    OneHashParses(k, EDGE, edge);
    HashAndParses(k, INCOMING, conclusion, edge);
    SetNodesAt(m0, ps, k);
    SetPremisesAt(m1, edge, ps, k);
    SetOutgoingAt(m2, edge, ps, k);
    hide SetNodes, SetPremises, SetOutgoing, FromBigEndian;
  }

  /** Nothing the tables keep contradicts the registration: an edge already there has this
      conclusion, and a premise row already there holds this premise. */
  ghost predicate Agrees(t: Tables<Hash34>, edge: Hash34, ps: seq<Hash34>, conclusion: Hash34) {
    && (edge in t.edges ==> t.edges[edge] == conclusion)
    && forall i: nat | i < |ps| && (edge, i) in t.premises :: t.premises[(edge, i)] == ps[i]
  }

  lemma {:induction false} RegisteredPremises(t: Tables<Hash34>, edge: Hash34, ps: seq<Hash34>, conclusion: Hash34,
      e: Hash34, i: nat)
    requires Agrees(t, edge, ps, conclusion)
    ensures var t' := RegisterEdge(t, edge, ps, conclusion);
            && ((e, i) in t'.premises <==> (e, i) in t.premises || (e == edge && i < |ps|))
            && ((e, i) in t'.premises ==>
                 t'.premises[(e, i)] == if e == edge && i < |ps| then ps[i] else t.premises[(e, i)])
  {
    assert (e, i) in PremiseRows(edge, ps) <==> e == edge && i < |ps|;
  }

  lemma {:induction false} RegisteredHasPremise(t: Tables<Hash34>, edge: Hash34, ps: seq<Hash34>, conclusion: Hash34,
      e: Hash34, p: Hash34)
    requires Agrees(t, edge, ps, conclusion)
    ensures HasPremise(RegisterEdge(t, edge, ps, conclusion), e, p) <==> HasPremise(t, e, p) || (e == edge && p in ps)
  {
    var t' := RegisterEdge(t, edge, ps, conclusion);
    forall i: nat
      ensures (e, i) in t'.premises <==> (e, i) in t.premises || (e == edge && i < |ps|)
      ensures (e, i) in t'.premises ==>
              t'.premises[(e, i)] == if e == edge && i < |ps| then ps[i] else t.premises[(e, i)]
    {
      RegisteredPremises(t, edge, ps, conclusion, e, i);
    }
    hide RegisterEdge;
    if e == edge && p in ps {
      var i :| 0 <= i < |ps| && ps[i] == p;
      assert (e, i) in t'.premises;
    }
    if HasPremise(t, e, p) {
      var i: nat :| (e, i) in t.premises && t.premises[(e, i)] == p;
      assert (e, i) in t'.premises && t'.premises[(e, i)] == p;
    }
  }

  /** Key by key, the tables change as the map does. */
  lemma {:induction false} RegisteredValue(t: Tables<Hash34>, edge: Hash34, ps: seq<Hash34>, conclusion: Hash34,
      k: ByteString)
    requires Agrees(t, edge, ps, conclusion)
    ensures GraphValue(RegisterEdge(t, edge, ps, conclusion), k) ==
            if WriteAt(edge, ps, conclusion, k).Some? then WriteAt(edge, ps, conclusion, k) else GraphValue(t, k)
  {
    if |k| == 1 + HASH_SIZE + 8 && k[0] == PREMISE {
      RegisteredPremises(t, edge, ps, conclusion, k[1..1 + HASH_SIZE], FromBigEndian(k[1 + HASH_SIZE..]));
    } else if |k| == 1 + 2 * HASH_SIZE && k[0] == OUTGOING {
      RegisteredHasPremise(t, edge, ps, conclusion, k[1 + HASH_SIZE..], k[1..1 + HASH_SIZE]);
    }
  }

  /** Registering an edge in the map is registering it in the tables. */
  lemma {:induction false} RegisterRefines(m: KeyMap, t: Tables<Hash34>, edge: Hash34, ps: seq<Hash34>,
      conclusion: Hash34)
    requires Represents(m, t) && Agrees(t, edge, ps, conclusion) && |ps| <= Pow256(8)
    ensures Represents(EdgeWrites(m, edge, ps, conclusion), RegisterEdge(t, edge, ps, conclusion))
  {
    hide EdgeWrites, RegisterEdge, GraphValue, WriteAt, IsGraphKey, Lookup, Agrees;
    forall k | IsGraphKey(k)
      ensures Lookup(EdgeWrites(m, edge, ps, conclusion), k) == GraphValue(RegisterEdge(t, edge, ps, conclusion), k)
    {
      EdgeWritesAt(m, edge, ps, conclusion, k);
      RegisteredValue(t, edge, ps, conclusion, k);
    }
  }

  /** And only if nothing is contradicted: the map takes what the tables refuse. */
  lemma {:induction false} RegisterDiverges(m: KeyMap, t: Tables<Hash34>, edge: Hash34, ps: seq<Hash34>,
      conclusion: Hash34)
    requires !Agrees(t, edge, ps, conclusion) && |ps| <= Pow256(8)
    ensures !Represents(EdgeWrites(m, edge, ps, conclusion), RegisterEdge(t, edge, ps, conclusion))
  {
    var m', t' := EdgeWrites(m, edge, ps, conclusion), RegisterEdge(t, edge, ps, conclusion);
    hide EdgeWrites, Lookup;
    if edge in t.edges && t.edges[edge] != conclusion {
      var k := EdgeKey(edge);
      OneHashParses(k, EDGE, edge);
      EdgeWritesAt(m, edge, ps, conclusion, k);
      assert Lookup(m', k) == Some(conclusion) && GraphValue(t', k) == Some(t.edges[edge]);
    } else {
      var i: nat :| i < |ps| && (edge, i) in t.premises && t.premises[(edge, i)] != ps[i];
      var k := PremiseKey(edge, i);
      PremiseKeyParses(k, edge, i);
      EdgeWritesAt(m, edge, ps, conclusion, k);
      assert Lookup(m', k) == Some(ps[i]) && GraphValue(t', k) == Some(t.premises[(edge, i)]);
    }
  }

  /** Registering a node likewise. */
  lemma {:induction false} RegisterNodeRefines(m: KeyMap, t: Tables<Hash34>, node: Hash34)
    requires Represents(m, t)
    ensures Represents(m[NodeKey(node) := []], RegisterNode(t, node))
  {
    forall k | IsGraphKey(k)
      ensures Lookup(m[NodeKey(node) := []], k) == GraphValue(RegisterNode(t, node), k)
    {
      OneHashParses(k, NODE, node);
      assert Lookup(m, k) == GraphValue(t, k);
    }
  }
}
