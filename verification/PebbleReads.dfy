/**
 Prefix-scan reads of the graph index, and their agreement with the relational one.

 An iterator visits the keys of a range in byte order; that is the engine's contract and is
 stated here with a body that sorts. Each read is then proved to return the one sorted list
 that the relational query, ordered by hash or position, returns.
 */
module PebbleReads {
  import opened Options
  import opened ByteKeys
  import opened GraphTables
  import opened PebbleIndex

  // ----- The iterator -----

  method InsertSorted(ks: seq<ByteString>, k: ByteString) returns (out: seq<ByteString>)
    requires Sorted(ks) && k !in ks
    ensures Sorted(out) && forall x :: x in out <==> x in ks || x == k
  {
    var i := 0;
    while i < |ks| && Less(ks[i], k)
      invariant 0 <= i <= |ks|
      invariant forall j | 0 <= j < i :: Less(ks[j], k)
    {
      i := i + 1;
    }
    forall j | i <= j < |ks|
      ensures Less(k, ks[j])
    {
      LessTotal(ks[i], k);
      if i < j {
        LessTransitive(k, ks[i], ks[j]);
      }
    }
    assert ks == ks[..i] + ks[i..];
    out := ks[..i] + [k] + ks[i..];
  }

  /** The keys of a range in ascending order. */
  method NewIter(data: KeyMap, lower: ByteString, upper: Option<ByteString>) returns (ks: seq<ByteString>)
    ensures Sorted(ks)
    ensures forall k :: k in ks <==> k in data && InRange(k, lower, upper)
  {
    ks := [];
    var todo := data.Keys;
    while todo != {}
      invariant todo <= data.Keys && Sorted(ks)
      invariant forall k :: k in ks <==> k in data && k !in todo && InRange(k, lower, upper)
      decreases todo
    {
      var k :| k in todo;
      todo := todo - {k};
      if InRange(k, lower, upper) {
        ks := InsertSorted(ks, k);
      }
    }
  }

  /** The keys with a prefix in ascending order. */
  method ScanPrefix(data: KeyMap, prefix: ByteString) returns (ks: seq<ByteString>)
    ensures Sorted(ks)
    ensures forall k :: k in ks <==> k in data && prefix <= k
  {
    var upper := PrefixUpperBound(prefix);
    ks := NewIter(data, prefix, upper);
    forall k
      ensures k in ks <==> k in data && prefix <= k
    {
      RangeIsPrefix(k, prefix);
    }
  }

  /** What follows the prefix in each of its keys, in ascending order: the loop shared by the
      listing reads. */
  method ScanSuffixes(data: KeyMap, prefix: ByteString) returns (out: seq<ByteString>)
    ensures Sorted(out)
    ensures forall s :: s in out <==> prefix + s in data
  {
    var ks := ScanPrefix(data, prefix);
    out := [];
    for i := 0 to |ks|
      invariant |out| == i && forall j | 0 <= j < i :: ks[j] == prefix + out[j]
    {
      assert ks[i] in ks;
      assert ks[i] == prefix + ks[i][|prefix|..];
      out := out + [ks[i][|prefix|..]];
    }
    forall i, j | 0 <= i < j < |out|
      ensures Less(out[i], out[j])
    {
      LessAfterPrefix(prefix, out[i], out[j]);
    }
    forall s
      ensures s in out <==> prefix + s in data
    {
      if prefix + s in data {
        assert prefix + s in ks;
        var i :| 0 <= i < |ks| && ks[i] == prefix + s;
        assert out[i] == (prefix + out[i])[|prefix|..] == (prefix + s)[|prefix|..] == s;
      }
      if s in out {
        var i :| 0 <= i < |out| && out[i] == s;
        assert ks[i] in ks;
      }
    }
  }

  // ----- Reads -----

  ghost function IncomingOf(t: Tables<Hash34>, node: Hash34): set<ByteString> {
    set e | e in t.edges && t.edges[e] == node
  }

  ghost function OutgoingOf(t: Tables<Hash34>, node: Hash34): set<ByteString> {
    set row | row in t.premises && t.premises[row] == node :: row.0
  }

  ghost function NodesOf(t: Tables<Hash34>): set<ByteString> {
    set n | n in t.nodes
  }

  ghost function EdgesOf(t: Tables<Hash34>): set<ByteString> {
    set e | e in t.edges
  }

  lemma {:induction false} RepresentedKey(m: KeyMap, t: Tables<Hash34>, k: ByteString)
    requires Represents(m, t) && IsGraphKey(k)
    ensures k in m <==> GraphValue(t, k).Some?
    ensures k in m ==> GraphValue(t, k) == Some(m[k])
  {
    assert Lookup(m, k) == GraphValue(t, k);
  }

  /** `IncomingEdges`. */
  method IncomingEdges(db: PebbleDb, node: Hash34, ghost t: Tables<Hash34>) returns (out: seq<ByteString>)
    requires Represents(db.data, t)
    ensures Lists(out, IncomingOf(t, node))
  {
    out := ScanSuffixes(db.data, IncomingPrefix(node));
    forall s
      ensures s in out <==> s in IncomingOf(t, node)
    {
      var k := IncomingPrefix(node) + s;
      RepresentedKey(db.data, t, k);
      assert k[1..1 + HASH_SIZE] == node && k[1 + HASH_SIZE..] == s;
    }
  }

  /** `OutgoingEdges`. */
  method OutgoingEdges(db: PebbleDb, node: Hash34, ghost t: Tables<Hash34>) returns (out: seq<ByteString>)
    requires Represents(db.data, t)
    ensures Lists(out, OutgoingOf(t, node))
  {
    out := ScanSuffixes(db.data, OutgoingPrefix(node));
    forall s
      ensures s in out <==> s in OutgoingOf(t, node)
    {
      var k := OutgoingPrefix(node) + s;
      RepresentedKey(db.data, t, k);
      assert k[1..1 + HASH_SIZE] == node && k[1 + HASH_SIZE..] == s;
    }
  }

  /** `AllNodes`. */
  method AllNodes(db: PebbleDb, ghost t: Tables<Hash34>) returns (out: seq<ByteString>)
    requires Represents(db.data, t)
    ensures Lists(out, NodesOf(t))
  {
    out := ScanSuffixes(db.data, [NODE]);
    forall s
      ensures s in out <==> s in NodesOf(t)
    {
      var k := [NODE] + s;
      RepresentedKey(db.data, t, k);
      assert k[1..] == s;
    }
  }

  /** `AllEdges`. */
  method AllEdges(db: PebbleDb, ghost t: Tables<Hash34>) returns (out: seq<ByteString>)
    requires Represents(db.data, t)
    ensures Lists(out, EdgesOf(t))
  {
    out := ScanSuffixes(db.data, [EDGE]);
    forall s
      ensures s in out <==> s in EdgesOf(t)
    {
      var k := [EDGE] + s;
      RepresentedKey(db.data, t, k);
      assert k[1..] == s;
    }
  }

  /** The premise keys of an edge whose stored premises are `ps`. */
  ghost function PremiseKeys(edge: Hash34, n: nat): (ks: seq<ByteString>)
    ensures |ks| == n && forall i | 0 <= i < n :: ks[i] == PremiseKey(edge, i)
  {
    seq(n, i requires 0 <= i < n => PremiseKey(edge, i))
  }

  lemma {:induction false} PremiseKeysSorted(edge: Hash34, n: nat)
    requires n <= Pow256(8)
    ensures Sorted(PremiseKeys(edge, n))
  {
    forall i, j | 0 <= i < j < n
      ensures Less(PremiseKey(edge, i), PremiseKey(edge, j))
    {
      BigEndianOrder(i, j, 8);
      LessAfterPrefix(PremisePrefix(edge), BigEndian(i, 8), BigEndian(j, 8));
    }
  }

  lemma {:induction false} PremiseKeyPresent(m: KeyMap, t: Tables<Hash34>, edge: Hash34, ps: seq<Hash34>, k: ByteString)
    requires Represents(m, t) && PremisesAre(t, edge, ps) && |ps| <= Pow256(8)
    ensures (k in m && PremisePrefix(edge) <= k) <==> exists i :: 0 <= i < |ps| && k == PremiseKey(edge, i)
    ensures forall i | 0 <= i < |ps| :: PremiseKey(edge, i) in m && m[PremiseKey(edge, i)] == ps[i]
  {
    forall i | 0 <= i < |ps|
      ensures PremiseKey(edge, i) in m && m[PremiseKey(edge, i)] == ps[i] && PremisePrefix(edge) <= PremiseKey(edge, i)
    {
      PremiseKeyParses(PremiseKey(edge, i), edge, i);
      RepresentedKey(m, t, PremiseKey(edge, i));
    }
    if k in m && PremisePrefix(edge) <= k {
      assert k[0] == PREMISE && k[1..1 + HASH_SIZE] == edge;
      RepresentedKey(m, t, k);
      var i := FromBigEndian(k[1 + HASH_SIZE..]);
      FromBigEndianRoundTrip(k[1 + HASH_SIZE..]);
      PremiseKeyParses(k, edge, i);
      assert (edge, i) in t.premises;
    }
  }

  /** `GetConnectivity`: the premises come back in position order. */
  method GetConnectivity(db: PebbleDb, edge: Hash34, ghost t: Tables<Hash34>, ghost ps: seq<Hash34>)
      returns (r: Option<(seq<ByteString>, ByteString)>)
    requires Represents(db.data, t) && PremisesAre(t, edge, ps) && |ps| <= Pow256(8)
    ensures r == if edge in t.edges then Some((ps, t.edges[edge])) else None
  {
    var k := EdgeKey(edge);
    OneHashParses(k, EDGE, edge);
    RepresentedKey(db.data, t, k);
    if k !in db.data {
      return None;
    }
    var conclusion := db.data[k];
    var ks := ScanPrefix(db.data, PremisePrefix(edge));
    forall x
      ensures x in ks <==> x in PremiseKeys(edge, |ps|)
    {
      PremiseKeyPresent(db.data, t, edge, ps, x);
    }
    PremiseKeysSorted(edge, |ps|);
    ListingUnique(ks, PremiseKeys(edge, |ps|));
    PremiseKeyPresent(db.data, t, edge, ps, k);
    var premises: seq<ByteString> := [];
    for i := 0 to |ks|
      invariant |premises| == i && forall j | 0 <= j < i :: premises[j] == ps[j]
    {
      assert ks[i] == PremiseKey(edge, i);
      premises := premises + [db.data[ks[i]]];
    }
    assert premises == ps;
    r := Some((premises, conclusion));
  }

  // ----- Agreement with the relational index -----

  datatype IndexOp = RegNode(node: Hash34) | RegEdge(edge: Hash34, premises: seq<Hash34>, conclusion: Hash34)

  ghost function RunTables(ops: seq<IndexOp>): Tables<Hash34>
    decreases |ops|
  {
    if ops == [] then NoTables()
    else
      var t := RunTables(ops[..|ops| - 1]);
      match ops[|ops| - 1]
      case RegNode(n) => RegisterNode(t, n)
      case RegEdge(e, ps, c) => RegisterEdge(t, e, ps, c)
  }

  ghost function RunKeys(ops: seq<IndexOp>): KeyMap
    decreases |ops|
  {
    if ops == [] then map[]
    else
      var m := RunKeys(ops[..|ops| - 1]);
      match ops[|ops| - 1]
      case RegNode(n) => m[NodeKey(n) := []]
      case RegEdge(e, ps, c) => EdgeWrites(m, e, ps, c)
  }

  /** Two registrations of one edge name one conclusion, and one premise at each position
      that both have. */
  predicate SameEdgeAgrees(a: IndexOp, b: IndexOp) {
    a.RegEdge? && b.RegEdge? && a.edge == b.edge ==>
      a.conclusion == b.conclusion && forall i | 0 <= i < |a.premises| &&
          i < |b.premises| :: a.premises[i] == b.premises[i]
  }

  /** In particular every run is compatible in which an edge's connectivity is a function of
      its hash. */
  ghost predicate Compatible(ops: seq<IndexOp>) {
    forall a, b | a in ops && b in ops :: SameEdgeAgrees(a, b)
  }

  /** No list of premises is longer than a 64-bit position can number. */
  ghost predicate Numbered(ops: seq<IndexOp>) {
    forall a | a in ops && a.RegEdge? :: |a.premises| <= Pow256(8)
  }

  ghost predicate Registers(a: IndexOp, e: Hash34) {
    a.RegEdge? && a.edge == e
  }

  /** The tables hold every registration in full, and nothing else. */
  ghost predicate HoldsAll(t: Tables<Hash34>, ops: seq<IndexOp>) {
    && (forall e | e in t.edges :: exists a :: a in ops && Registers(a, e))
    && (forall e, i: nat | (e, i) in t.premises :: exists a :: a in ops && Registers(a, e) && i < |a.premises|)
    && (forall a | a in ops && a.RegEdge? :: a.edge in t.edges && t.edges[a.edge] == a.conclusion)
    && forall a, i: nat | a in ops && a.RegEdge? && i < |a.premises| ::
         (a.edge, i) in t.premises && t.premises[(a.edge, i)] == a.premises[i]
  }

  /** Against such tables a registration agrees exactly when it agrees with every earlier one. */
  lemma {:induction false} AgreesWithRun(t: Tables<Hash34>, ops: seq<IndexOp>, op: IndexOp)
    requires HoldsAll(t, ops) && op.RegEdge?
    ensures Agrees(t, op.edge, op.premises, op.conclusion) <==> forall a | a in ops :: SameEdgeAgrees(a, op)
  {
    if forall a | a in ops :: SameEdgeAgrees(a, op) {
      forall i: nat | i < |op.premises| && (op.edge, i) in t.premises
        ensures t.premises[(op.edge, i)] == op.premises[i]
      {
        var a :| a in ops && Registers(a, op.edge) && i < |a.premises|;
      }
    }
  }

  lemma {:induction false} CompatibleNext(ops: seq<IndexOp>, op: IndexOp)
    ensures Compatible(ops + [op]) <==> Compatible(ops) && forall a | a in ops :: SameEdgeAgrees(a, op)
  {
    var more := ops + [op];
    assert forall a :: a in more <==> a in ops || a == op;
    assert SameEdgeAgrees(op, op);
    assert forall a, b :: SameEdgeAgrees(a, b) <==> SameEdgeAgrees(b, a);
  }

  lemma {:induction false} HoldsNext(t: Tables<Hash34>, ops: seq<IndexOp>, op: IndexOp)
    requires HoldsAll(t, ops) && op.RegEdge? && Agrees(t, op.edge, op.premises, op.conclusion)
    ensures HoldsAll(RegisterEdge(t, op.edge, op.premises, op.conclusion), ops + [op])
  {
    var more, t' := ops + [op], RegisterEdge(t, op.edge, op.premises, op.conclusion);
    assert forall a :: a in more <==> a in ops || a == op;
    forall e, i: nat
      ensures (e, i) in t'.premises <==> (e, i) in t.premises || (e == op.edge && i < |op.premises|)
      ensures (e, i) in t'.premises ==>
                t'.premises[(e, i)] == if e == op.edge && i < |op.premises| then op.premises[i] else t.premises[(e, i)]
    {
      RegisteredPremises(t, op.edge, op.premises, op.conclusion, e, i);
    }
    assert t'.edges == t.edges[op.edge := op.conclusion];
    assert forall i: nat | i < |op.premises| &&
        (op.edge, i) in t.premises :: t.premises[(op.edge, i)] == op.premises[i];
    hide RegisterEdge, Agrees;
    forall e, i: nat | (e, i) in t'.premises
      ensures exists a :: a in more && Registers(a, e) && i < |a.premises|
    {
      if (e, i) in t.premises {
        var a :| a in ops && Registers(a, e) && i < |a.premises|;
        assert a in more;
      } else {
        assert op in more && Registers(op, e);
      }
    }
    forall e | e in t'.edges
      ensures exists a :: a in more && Registers(a, e)
    {
      if e in t.edges {
        var a :| a in ops && Registers(a, e);
        assert a in more;
      } else {
        assert op in more && Registers(op, e);
      }
    }
  }

  /** After a compatible run the tables hold exactly what was registered. */
  lemma {:induction false} RunHoldsAll(ops: seq<IndexOp>)
    requires Compatible(ops)
    ensures HoldsAll(RunTables(ops), ops)
    decreases |ops|
  {
    if ops != [] {
      var before, op := ops[..|ops| - 1], ops[|ops| - 1];
      assert ops == before + [op];
      CompatibleNext(before, op);
      RunHoldsAll(before);
      if op.RegEdge? {
        AgreesWithRun(RunTables(before), before, op);
        HoldsNext(RunTables(before), before, op);
      } else {
        hide Compatible;
        assert forall a :: a in ops <==> a in before || a == op;
      }
    }
  }

  lemma {:induction false} LongestRegistered(ops: seq<IndexOp>, e: Hash34) returns (ps: seq<Hash34>)
    ensures forall a | a in ops && Registers(a, e) :: |a.premises| <= |ps|
    ensures ps == [] || exists a :: a in ops && Registers(a, e) && a.premises == ps
    decreases |ops|
  {
    ps := [];
    if ops != [] {
      var before, op := ops[..|ops| - 1], ops[|ops| - 1];
      assert forall a :: a in ops <==> a in before || a == op;
      ps := LongestRegistered(before, e);
      if Registers(op, e) && |ps| < |op.premises| {
        ps := op.premises;
      }
    }
  }

  /** What a query for an edge's premises finds after a compatible run: the longest list
      registered for it, in order and without a gap. */
  lemma {:induction false} RunPremises(ops: seq<IndexOp>, e: Hash34) returns (ps: seq<Hash34>)
    requires Compatible(ops)
    ensures PremisesAre(RunTables(ops), e, ps)
    ensures forall a | a in ops && Registers(a, e) :: a.premises <= ps
    ensures ps == [] || exists a :: a in ops && Registers(a, e) && a.premises == ps
  {
    RunHoldsAll(ops);
    ps := LongestRegistered(ops, e);
    var t := RunTables(ops);
    hide Compatible;
    forall i: nat
      ensures (e, i) in t.premises <==> i < |ps|
      ensures i < |ps| ==> t.premises[(e, i)] == ps[i]
    {
      if i < |ps| {
        var a :| a in ops && Registers(a, e) && a.premises == ps;
      }
    }
    forall a | a in ops && Registers(a, e)
      ensures a.premises <= ps
    {
      forall i | 0 <= i < |a.premises|
        ensures a.premises[i] == ps[i]
      {
        assert t.premises[(e, i)] == a.premises[i];
      }
    }
  }

  /** The key-value index refines the relational one: after any compatible run of
      registrations the map represents the tables. */
  lemma {:induction false} IndexRefines(ops: seq<IndexOp>)
    requires Compatible(ops) && Numbered(ops)
    ensures Represents(RunKeys(ops), RunTables(ops))
    decreases |ops|
  {
    if ops == [] {
      EmptyRepresents();
    } else {
      var before, op := ops[..|ops| - 1], ops[|ops| - 1];
      assert ops == before + [op];
      CompatibleNext(before, op);
      IndexRefines(before);
      match op
      case RegNode(n) => RegisterNodeRefines(RunKeys(before), RunTables(before), n);
      case RegEdge(e, ps, c) =>
        RunHoldsAll(before);
        AgreesWithRun(RunTables(before), before, op);
        RegisterRefines(RunKeys(before), RunTables(before), e, ps, c);
    }
  }

  ghost predicate AgreeThroughout(ops: seq<IndexOp>) {
    forall n | 0 <= n <= |ops| :: Represents(RunKeys(ops[..n]), RunTables(ops[..n]))
  }

  lemma {:induction false} FirstConflictDiverges(ops: seq<IndexOp>, op: IndexOp)
    requires Compatible(ops) && !Compatible(ops + [op]) && Numbered(ops + [op])
    ensures !Represents(RunKeys(ops + [op]), RunTables(ops + [op]))
  {
    var more := ops + [op];
    assert more[..|more| - 1] == ops && more[|more| - 1] == op && op in more;
    CompatibleNext(ops, op);
    RunHoldsAll(ops);
    hide Compatible, HoldsAll, Represents, EdgeWrites, RegisterEdge, Agrees, Pow256;
    AgreesWithRun(RunTables(ops), ops, op);
    RegisterDiverges(RunKeys(ops), RunTables(ops), op.edge, op.premises, op.conclusion);
  }

  /** The two indexes agree after every step of a run exactly when the run is compatible. */
  lemma {:induction false} AgreeThroughoutIff(ops: seq<IndexOp>)
    requires Numbered(ops)
    ensures AgreeThroughout(ops) <==> Compatible(ops)
    decreases |ops|
  {
    hide Represents, RunKeys, RunTables, Pow256;
    if Compatible(ops) {
      forall n | 0 <= n <= |ops|
        ensures Represents(RunKeys(ops[..n]), RunTables(ops[..n]))
      {
        IndexRefines(ops[..n]);
      }
    } else if ops != [] {
      var before, op := ops[..|ops| - 1], ops[|ops| - 1];
      assert ops == before + [op] == ops[..|ops|];
      AgreeThroughoutIff(before);
      if Compatible(before) {
        FirstConflictDiverges(before, op);
      } else {
        var n :| 0 <= n <= |before| && !Represents(RunKeys(before[..n]), RunTables(before[..n]));
        assert ops[..n] == before[..n];
      }
    }
  }

  // ----- The last write -----

  ghost function OpWriteAt(op: IndexOp, k: ByteString): Option<ByteString> {
    match op
    case RegNode(n) => if k == NodeKey(n) then Some([]) else None
    case RegEdge(e, ps, c) => WriteAt(e, ps, c, k)
  }

  /** Some operation put `v` at `k`, and none after it put anything else. */
  ghost predicate LastWrote(ops: seq<IndexOp>, k: ByteString, v: ByteString) {
    exists j :: WroteLast(ops, k, v, j)
  }

  ghost predicate WroteLast(ops: seq<IndexOp>, k: ByteString, v: ByteString, j: int) {
    && 0 <= j < |ops| && OpWriteAt(ops[j], k) == Some(v)
    && forall l | j < l < |ops| && OpWriteAt(ops[l], k).Some? :: OpWriteAt(ops[l], k) == Some(v)
  }

  lemma {:induction false} LastWroteNext(ops: seq<IndexOp>, op: IndexOp, k: ByteString, v: ByteString)
    ensures LastWrote(ops + [op], k, v) <==>
            if OpWriteAt(op, k).Some? then OpWriteAt(op, k) == Some(v) else LastWrote(ops, k, v)
  {
    hide OpWriteAt;
    var more := ops + [op];
    if OpWriteAt(op, k) == Some(v) {
      assert WroteLast(more, k, v, |ops|);
    } else if OpWriteAt(op, k).None? {
      if LastWrote(more, k, v) {
        var j :| WroteLast(more, k, v, j);
        assert forall l | j <= l < |ops| :: more[l] == ops[l];
        assert WroteLast(ops, k, v, j);
      }
      if LastWrote(ops, k, v) {
        var j :| WroteLast(ops, k, v, j);
        assert WroteLast(more, k, v, j);
      }
    } else {
      forall j
        ensures !WroteLast(more, k, v, j)
      {
        assert more[|ops|] == op;
      }
    }
  }

  /** A key holds what was last put there. */
  lemma {:induction false} RunKeysAt(ops: seq<IndexOp>, k: ByteString, v: ByteString)
    requires Numbered(ops)
    ensures Lookup(RunKeys(ops), k) == Some(v) <==> LastWrote(ops, k, v)
    decreases |ops|
  {
    if ops != [] {
      var before, op := ops[..|ops| - 1], ops[|ops| - 1];
      assert ops == before + [op] && op in ops;
      RunKeysAt(before, k, v);
      LastWroteNext(before, op, k, v);
      if op.RegEdge? {
        EdgeWritesAt(RunKeys(before), op.edge, op.premises, op.conclusion, k);
      }
      hide LastWrote, WriteAt, Numbered, EdgeWrites;
    }
  }

  ghost predicate ConcludedLast(ops: seq<IndexOp>, e: Hash34, c: Hash34, j: int) {
    && 0 <= j < |ops| && Registers(ops[j], e) && ops[j].conclusion == c
    && forall l | j < l < |ops| && Registers(ops[l], e) :: ops[l].conclusion == c
  }

  ghost predicate PremiseLast(ops: seq<IndexOp>, e: Hash34, i: nat, p: Hash34, j: int) {
    && 0 <= j < |ops| && Registers(ops[j], e) && i < |ops[j].premises| && ops[j].premises[i] == p
    && forall l | j < l < |ops| && Registers(ops[l], e) && i < |ops[l].premises| :: ops[l].premises[i] == p
  }

  /** For the conclusion and for each premise position, some registration of the edge put
      there what this one puts, and no later one put anything else. */
  ghost predicate Stands(ops: seq<IndexOp>, e: Hash34, ps: seq<Hash34>, c: Hash34) {
    ConclusionStands(ops, e, c) && forall i: nat | i < |ps| :: PremiseStands(ops, e, i, ps[i])
  }

  ghost predicate ConclusionStands(ops: seq<IndexOp>, e: Hash34, c: Hash34) {
    exists j :: ConcludedLast(ops, e, c, j)
  }

  ghost predicate PremiseStands(ops: seq<IndexOp>, e: Hash34, i: nat, p: Hash34) {
    exists j :: PremiseLast(ops, e, i, p, j)
  }

  lemma {:induction false} EdgeKeyWrites(a: IndexOp, e: Hash34)
    ensures OpWriteAt(a, EdgeKey(e)) == if Registers(a, e) then Some(a.conclusion) else None
  {
    OneHashParses(EdgeKey(e), EDGE, e);
  }

  lemma {:induction false} PremiseKeyWrites(a: IndexOp, e: Hash34, i: nat)
    requires i < Pow256(8)
    ensures OpWriteAt(a, PremiseKey(e, i)) == if Registers(a, e) && i < |a.premises| then Some(a.premises[i]) else None
  {
    PremiseKeyParses(PremiseKey(e, i), e, i);
  }

  lemma {:induction false} ConcludedIff(ops: seq<IndexOp>, e: Hash34, c: Hash34, j: int)
    ensures ConcludedLast(ops, e, c, j) <==> WroteLast(ops, EdgeKey(e), c, j)
  {
    forall l | 0 <= l < |ops|
      ensures OpWriteAt(ops[l], EdgeKey(e)) == if Registers(ops[l], e) then Some(ops[l].conclusion) else None
    {
      EdgeKeyWrites(ops[l], e);
    }
    hide OpWriteAt, EdgeKey;
  }

  lemma {:induction false} PremiseIff(ops: seq<IndexOp>, e: Hash34, i: nat, p: Hash34, j: int)
    requires i < Pow256(8)
    ensures PremiseLast(ops, e, i, p, j) <==> WroteLast(ops, PremiseKey(e, i), p, j)
  {
    forall l | 0 <= l < |ops|
      ensures OpWriteAt(ops[l], PremiseKey(e, i)) ==
              if Registers(ops[l], e) && i < |ops[l].premises| then Some(ops[l].premises[i]) else None
    {
      PremiseKeyWrites(ops[l], e, i);
    }
    hide OpWriteAt, PremiseKey, Pow256;
  }

  predicate IsFlagKey(k: ByteString) {
    k != [] && (k[0] == NODE || k[0] == INCOMING || k[0] == OUTGOING)
  }

  /** A key without a value is present once anything has put it there. */
  lemma {:induction false} FlagKept(ops: seq<IndexOp>, j: int, k: ByteString)
    requires Numbered(ops) && 0 <= j < |ops| && IsFlagKey(k) && OpWriteAt(ops[j], k).Some?
    ensures Lookup(RunKeys(ops), k) == Some([])
  {
    assert forall a | OpWriteAt(a, k).Some? :: OpWriteAt(a, k) == Some([]);
    assert WroteLast(ops, k, [], j);
    RunKeysAt(ops, k, []);
  }

  /** Exactly when registering an edge, after any run, changes no graph key. */
  lemma {:induction false} RewriteIff(ops: seq<IndexOp>, e: Hash34, ps: seq<Hash34>, c: Hash34)
    requires Numbered(ops) && |ps| <= Pow256(8)
    ensures (forall k | IsGraphKey(k) :: Lookup(EdgeWrites(RunKeys(ops), e, ps, c), k) == Lookup(RunKeys(ops), k)) <==>
            Stands(ops, e, ps, c)
  {
    var m := RunKeys(ops);
    hide RunKeys, EdgeWrites, Numbered, Pow256, Lookup;
    if Stands(ops, e, ps, c) {
      forall k | IsGraphKey(k)
        ensures Lookup(EdgeWrites(m, e, ps, c), k) == Lookup(m, k)
      {
        EdgeWritesAt(m, e, ps, c, k);
        if WriteAt(e, ps, c, k).Some? {
          StandsAt(ops, e, ps, c, k);
        }
      }
    }
    if forall k | IsGraphKey(k) :: Lookup(EdgeWrites(m, e, ps, c), k) == Lookup(m, k) {
      RewriteStands(ops, e, ps, c);
    }
  }

  lemma {:induction false} RewriteStands(ops: seq<IndexOp>, e: Hash34, ps: seq<Hash34>, c: Hash34)
    requires Numbered(ops) && |ps| <= Pow256(8)
    requires forall k | IsGraphKey(k) :: Lookup(EdgeWrites(RunKeys(ops), e, ps, c), k) == Lookup(RunKeys(ops), k)
    ensures Stands(ops, e, ps, c)
  {
    var m, op := RunKeys(ops), RegEdge(e, ps, c);
    hide RunKeys, EdgeWrites, Numbered, Pow256, Lookup, EdgeKey, PremiseKey, WroteLast, ConcludedLast, PremiseLast,
        WriteAt;
    GraphKeysAre(e, 0);
    EdgeWritesAt(m, e, ps, c, EdgeKey(e));
    EdgeKeyWrites(op, e);
    RunKeysAt(ops, EdgeKey(e), c);
    var j :| WroteLast(ops, EdgeKey(e), c, j);
    ConcludedIff(ops, e, c, j);
    forall i: nat | i < |ps|
      ensures PremiseStands(ops, e, i, ps[i])
    {
      GraphKeysAre(e, i);
      EdgeWritesAt(m, e, ps, c, PremiseKey(e, i));
      PremiseKeyWrites(op, e, i);
      RunKeysAt(ops, PremiseKey(e, i), ps[i]);
      var j :| WroteLast(ops, PremiseKey(e, i), ps[i], j);
      PremiseIff(ops, e, i, ps[i], j);
    }
  }

  lemma {:induction false} GraphKeysAre(e: Hash34, i: nat)
    ensures IsGraphKey(EdgeKey(e)) && IsGraphKey(PremiseKey(e, i))
  {
  }

  lemma {:induction false} StandsAt(ops: seq<IndexOp>, e: Hash34, ps: seq<Hash34>, c: Hash34, k: ByteString)
    requires Numbered(ops) && |ps| <= Pow256(8) && Stands(ops, e, ps, c)
    requires WriteAt(e, ps, c, k).Some?
    ensures Lookup(RunKeys(ops), k) == WriteAt(e, ps, c, k)
  {
    var j :| ConcludedLast(ops, e, c, j);
    hide RunKeys, Numbered, Pow256, Lookup;
    if k[0] == EDGE {
      ConcludedIff(ops, e, c, j);
      OneHashParses(k, EDGE, e);
      RunKeysAt(ops, k, c);
    } else if k[0] == PREMISE {
      var i := FromBigEndian(k[1 + HASH_SIZE..]);
      assert PremiseStands(ops, e, i, ps[i]);
      var l :| PremiseLast(ops, e, i, ps[i], l);
      PremiseKeyParses(k, e, i);
      PremiseIff(ops, e, i, ps[i], l);
      RunKeysAt(ops, k, ps[i]);
    } else if k[0] == INCOMING || k[1..] == c {
      FlagKept(ops, j, k);
    } else {
      var p := if k[0] == NODE then k[1..] else k[1..1 + HASH_SIZE];
      var i :| 0 <= i < |ps| && ps[i] == p;
      assert PremiseStands(ops, e, i, ps[i]);
      var l :| PremiseLast(ops, e, i, ps[i], l);
      assert p in ops[l].premises;
      FlagKept(ops, l, k);
    }
  }

  // ----- Edges and their ends -----

  lemma {:induction false} EdgeKeyRegistered(ops: seq<IndexOp>, e: Hash34)
    requires Numbered(ops)
    ensures EdgeKey(e) in RunKeys(ops) <==> exists a :: a in ops && Registers(a, e)
    decreases |ops|
  {
    if ops != [] {
      var before, op := ops[..|ops| - 1], ops[|ops| - 1];
      assert ops == before + [op] && op in ops;
      EdgeKeyRegistered(before, e);
      EdgeKeyWrites(op, e);
      assert forall a :: a in ops <==> a in before || a == op;
      if op.RegEdge? {
        EdgeWritesAt(RunKeys(before), op.edge, op.premises, op.conclusion, EdgeKey(e));
      }
      hide Numbered, EdgeWrites, WriteAt, EdgeKey;
    }
  }

  /** The conclusion an edge is indexed with is a registered node. */
  lemma {:induction false} EdgeEndsRegistered(ops: seq<IndexOp>, e: Hash34)
    requires Numbered(ops) && EdgeKey(e) in RunKeys(ops)
    ensures [NODE] + RunKeys(ops)[EdgeKey(e)] in RunKeys(ops)
  {
    var c := RunKeys(ops)[EdgeKey(e)];
    RunKeysAt(ops, EdgeKey(e), c);
    var j :| WroteLast(ops, EdgeKey(e), c, j);
    EdgeKeyWrites(ops[j], e);
    hide RunKeys, Numbered, EdgeKey;
    var k := [NODE] + c;
    assert k[1..] == c;
    FlagKept(ops, j, k);
  }

  /** And so is every premise. */
  lemma {:induction false} PremiseEndsRegistered(ops: seq<IndexOp>, e: Hash34, i: nat)
    requires Numbered(ops) && i < Pow256(8) && PremiseKey(e, i) in RunKeys(ops)
    ensures [NODE] + RunKeys(ops)[PremiseKey(e, i)] in RunKeys(ops)
  {
    var p := RunKeys(ops)[PremiseKey(e, i)];
    RunKeysAt(ops, PremiseKey(e, i), p);
    var j :| WroteLast(ops, PremiseKey(e, i), p, j);
    PremiseKeyWrites(ops[j], e, i);
    hide RunKeys, Numbered, PremiseKey, Pow256;
    var k := [NODE] + p;
    assert k[1..] == p && p in ops[j].premises;
    FlagKept(ops, j, k);
  }

  lemma {:induction false} EmptyRepresents()
    ensures Represents(map[], NoTables())
  {
  }

  /** Two sorted listings of one set are one list: so every list the two indexes order by
      hash is the same list. */
  lemma {:induction false} ListingsAgree(a: seq<ByteString>, b: seq<ByteString>, s: set<ByteString>)
    requires Lists(a, s) && Lists(b, s)
    ensures a == b
  {
    ListingUnique(a, b);
  }

  // ----- Outgoing edges -----

  /** The relational query's rows: one per position at which the node is a premise. */
  ghost predicate OutgoingRows(rows: seq<(Hash34, nat)>, t: Tables<Hash34>, node: Hash34) {
    && (forall e: Hash34, i: nat :: (e, i) in rows <==> (e, i) in t.premises && t.premises[(e, i)] == node)
    && (forall a, b | 0 <= a < b < |rows| :: rows[a] != rows[b])
    && forall a, b | 0 <= a < b < |rows| :: rows[a].0 == rows[b].0 || Less(rows[a].0, rows[b].0)
  }

  ghost function Firsts(rows: seq<(Hash34, nat)>): (es: seq<ByteString>)
    ensures |es| == |rows| && forall i | 0 <= i < |rows| :: es[i] == rows[i].0
  {
    seq(|rows|, i requires 0 <= i < |rows| => rows[i].0)
  }

  ghost predicate NamesOnce(t: Tables<Hash34>, node: Hash34) {
    forall e: Hash34, i: nat, j: nat |
      (e, i) in t.premises && t.premises[(e, i)] == node && (e, j) in t.premises && t.premises[(e, j)] == node :: i == j
  }

  /** The relational index lists an edge once per occurrence of the premise, the key-value
      index once: the same edges always, the same list exactly when no edge names the node
      as a premise twice. */
  lemma {:induction false} OutgoingAgreesIff(rows: seq<(Hash34, nat)>, out: seq<ByteString>, t: Tables<Hash34>,
      node: Hash34)
    requires OutgoingRows(rows, t, node) && Lists(out, OutgoingOf(t, node))
    ensures forall e :: e in Firsts(rows) <==> e in out
    ensures Firsts(rows) == out <==> NamesOnce(t, node)
  {
    var es := Firsts(rows);
    forall e
      ensures e in es <==> e in out
    {
      if e in out {
        var i: nat :| (e, i) in t.premises && t.premises[(e, i)] == node;
        assert (e, i) in rows;
        var a :| 0 <= a < |rows| && rows[a] == (e, i);
        assert es[a] == e;
      }
      if e in es {
        var a :| 0 <= a < |es| && es[a] == e;
        assert rows[a] in rows && rows[a] == (rows[a].0, rows[a].1);
      }
    }
    if NamesOnce(t, node) {
      forall a, b | 0 <= a < b < |es|
        ensures Less(es[a], es[b])
      {
        assert rows[a] in rows && rows[b] in rows;
        assert rows[a] == (rows[a].0, rows[a].1) && rows[b] == (rows[b].0, rows[b].1);
      }
      ListingUnique(es, out);
    }
    if es == out {
      forall e: Hash34, i: nat, j: nat | (e, i) in t.premises && t.premises[(e, i)] == node && (e, j) in t.premises &&
          t.premises[(e, j)] == node
        ensures i == j
      {
        var a :| 0 <= a < |rows| && rows[a] == (e, i);
        var b :| 0 <= b < |rows| && rows[b] == (e, j);
        LessIrreflexive(e);
        assert es[a] == e && es[b] == e;
        assert a == b;
      }
    }
  }

  // ----- Where the two part -----

  /** One edge that names a premise twice: the relational rows list it twice, the keys once. */
  lemma {:induction false} TwicePremise(e: Hash34, p: Hash34, c: Hash34)
    ensures var t := RegisterEdge(NoTables(), e, [p, p], c);
            var rows: seq<(Hash34, nat)> := [(e, 0), (e, 1)];
            && OutgoingRows(rows, t, p) && Firsts(rows) == [e, e] && Lists([e], OutgoingOf(t, p))
  {
    var t := RegisterEdge(NoTables(), e, [p, p], c);
    var rows: seq<(Hash34, nat)> := [(e, 0), (e, 1)];
    forall x: Hash34, i: nat
      ensures (x, i) in t.premises <==> x == e && i < 2
      ensures (x, i) in t.premises ==> t.premises[(x, i)] == p
      ensures (x, i) in rows <==> x == e && i < 2
    {
      assert (x, i) in PremiseRows(e, [p, p]) <==> x == e && i < 2;
      assert rows[0] == (e, 0) && rows[1] == (e, 1);
      assert (x, i) in rows <==> (x, i) == (e, 0) || (x, i) == (e, 1);
    }
    hide RegisterEdge;
    assert (e, 0) in t.premises;
    forall h
      ensures h in OutgoingOf(t, p) <==> h == e
    {
    }
    assert Firsts(rows)[0] == e && Firsts(rows)[1] == e;
  }

  /** Registering one edge with two conclusions: the tables keep the first, the map takes the
      last, and lists the edge as incoming under both. */
  lemma {:induction false} ConflictingRegistrations(e: Hash34, c1: Hash34, c2: Hash34)
    requires c1 != c2
    ensures var ops := [RegEdge(e, [], c1), RegEdge(e, [], c2)];
            && RunTables(ops).edges[e] == c1
            && Lookup(RunKeys(ops), EdgeKey(e)) == Some(c2)
            && IncomingKey(c1, e) in RunKeys(ops) && IncomingKey(c2, e) in RunKeys(ops)
            && !Represents(RunKeys(ops), RunTables(ops))
  {
    var ops := [RegEdge(e, [], c1), RegEdge(e, [], c2)];
    assert ops[..1] == [RegEdge(e, [], c1)] && ops[..1][..0] == [];
    var m1 := EdgeWrites(map[], e, [], c1);
    assert RunKeys(ops[..1]) == m1;
    assert RunTables(ops[..1]) == RegisterEdge(NoTables(), e, [], c1);
    OneHashParses(EdgeKey(e), EDGE, e);
    HashAndParses(IncomingKey(c1, e), INCOMING, c1, e);
    HashAndParses(IncomingKey(c2, e), INCOMING, c2, e);
    EdgeWritesAt(map[], e, [], c1, IncomingKey(c1, e));
    EdgeWritesAt(m1, e, [], c2, IncomingKey(c1, e));
    EdgeWritesAt(m1, e, [], c2, IncomingKey(c2, e));
    EdgeWritesAt(m1, e, [], c2, EdgeKey(e));
    assert GraphValue(RunTables(ops), EdgeKey(e)) == Some(c1);
    assert IsGraphKey(EdgeKey(e));
  }
}
