/**
 The storage facade and its atomic commit.

 The graph tables and the log share one database connection: a commit runs inside BEGIN and
 COMMIT, and any exception in between rolls both back. Any statement may raise; a budget
 says how many succeed before one does. Blobs are written first and are never rolled back.
 */
module Storage {
  import opened Options
  import opened Records
  import opened AppendLog
  import opened GraphTables

  // ----- The store as a value -----

  datatype State = State(objects: Objects, graph: Tables<Hash>, entries: seq<LogEntry>)

  /** Who signs, fixed for the life of a store. */
  datatype Signer = Signer(scheme: Scheme, priv: Bytes, pub: Bytes)

  datatype Commit = Commit(premises: seq<Hash>, conclusion: Hash, data: Blob, proof: Option<Blob>, now: int)

  /** `put`: a blob already present is left alone. */
  function Put(objects: Objects, data: Blob): Objects {
    InsertOrIgnore(objects, HashBytes(data), data)
  }

  /** Statements a commit executes: blobs, BEGIN, node and edge and premise inserts, the
      log insert, COMMIT. */
  function BlobSteps(c: Commit): nat {
    if c.proof.Some? then 2 else 1
  }

  function Steps(c: Commit): nat {
    BlobSteps(c) + 1 + (1 + |c.premises| + 1 + |c.premises|) + 1 + 1
  }

  function PutAll(objects: Objects, c: Commit, budget: nat): Objects {
    if budget == 0 then objects
    else if c.proof.None? || budget == 1 then Put(objects, c.data)
    else Put(Put(objects, c.data), c.proof.value)
  }

  /** What a commit does when `budget` statements succeed: all of it, or blobs only. */
  function Committed(s: State, who: Signer, c: Commit, budget: nat): State {
    var objects := PutAll(s.objects, c, budget);
    if budget < Steps(c) then s.(objects := objects)
    else State(objects,
               RegisterEdge(s.graph, HashBytes(c.data), c.premises, c.conclusion),
               s.entries + [NewEntry(who.scheme, who.priv, who.pub, s.entries, c.now, c.data)])
  }

  // ----- The store as an object -----

  class Store {
    const log: Log
    var objects: Objects
    var nodes: set<Hash>
    var edges: map<Hash, Hash>
    var premises: map<(Hash, nat), Hash>

    ghost predicate Valid()
      reads this, log
    {
      log.Valid() && KeyPair(log.scheme, log.priv, log.pub)
    }

    ghost function Now(): State
      reads this, log
    {
      State(objects, Tables(nodes, edges, premises), log.entries)
    }

    ghost function Owner(): Signer {
      Signer(log.scheme, log.priv, log.pub)
    }

    constructor (scheme: Scheme, priv: Bytes, pub: Bytes)
      requires KeyPair(scheme, priv, pub)
      ensures Valid() && fresh(log)
      ensures Now() == State(map[], NoTables(), []) && Owner() == Signer(scheme, priv, pub)
    {
      log := new Log(scheme, priv, pub);
      objects, nodes, edges, premises := map[], {}, map[], map[];
    }

    method PutObject(data: Blob) returns (h: Hash)
      modifies this`objects
      ensures objects == Put(old(objects), data) && h == HashBytes(data)
    {
      h := HashBytes(data);
      if h in objects {
        return;
      }
      objects := objects[h := data];
    }

    /** `register_edge`, statement by statement; None when the budget runs out part way. */
    method RegisterEdgeRows(edge: Hash, ps: seq<Hash>, conclusion: Hash, budget: nat) returns (left: Option<nat>)
      modifies this`nodes, this`edges, this`premises
      ensures left.Some? <==> 2 + 2 * |ps| <= budget
      ensures left.Some? ==> left.value == budget - (2 + 2 * |ps|)
      ensures left.Some? ==>
              Tables(nodes, edges, premises) == RegisterEdge(old(Tables(nodes, edges, premises)), edge, ps, conclusion)
    {
      if budget == 0 {
        return None;
      }
      nodes := nodes + {conclusion};
      for i := 0 to |ps|
        invariant nodes == old(nodes) + {conclusion} + (set p | p in ps[..i])
        invariant i + 1 <= budget && edges == old(edges) && premises == old(premises)
      {
        if budget == i + 1 {
          return None;
        }
        assert ps[..i + 1] == ps[..i] + [ps[i]];
        nodes := nodes + {ps[i]};
      }
      assert ps[..|ps|] == ps;
      if budget == |ps| + 1 {
        return None;
      }
      edges := InsertOrIgnore(edges, edge, conclusion);
      for i := 0 to |ps|
        invariant |ps| + 2 + i <= budget
        invariant nodes == old(nodes) + {conclusion} + (set p | p in ps) &&
                  edges == InsertOrIgnore(old(edges), edge, conclusion)
        invariant premises == PremiseRows(edge, ps[..i]) + old(premises)
      {
        if budget == |ps| + 2 + i {
          return None;
        }
        PremiseRowsNext(edge, ps, i, old(premises));
        premises := InsertOrIgnore(premises, (edge, i), ps[i]);
      }
      left := Some(budget - (2 + 2 * |ps|));
    }

    /** The body of the transaction: graph rows, log row, COMMIT. None means it raised,
        having changed anything or nothing. */
    method GraphThenLog(c: Commit, budget: nat) returns (e: Option<LogEntry>)
      requires Valid()
      modifies this`nodes, this`edges, this`premises, log
      ensures e.Some? <==> 2 + 2 * |c.premises| + 2 <= budget
      ensures e.Some? ==> Valid()
      ensures e.Some? ==> Now() == Committed(old(Now()), Owner(), c, Steps(c)).(objects := objects)
      ensures e.Some? ==> log.entries == old(log.entries) + [e.value]
      ensures e.Some? ==> e.value.payload == c.data && e.value.timestamp == c.now
    {
      var left := RegisterEdgeRows(HashBytes(c.data), c.premises, c.conclusion, budget);
      if left.None? || left.value == 0 {
        return None;
      }
      var entry := log.Append(c.data, c.now);
      if left.value == 1 {
        return None;
      }
      e := Some(entry);
    }

    /** `commit_edge_tx`: the edge's address and log entry, or None for a raised exception. */
    method CommitEdgeTx(c: Commit, budget: nat) returns (r: Option<(Hash, LogEntry)>)
      requires Valid()
      modifies this, log
      ensures Valid()
      ensures Now() == Committed(old(Now()), Owner(), c, budget)
      ensures r.Some? <==> Steps(c) <= budget
      ensures r.Some? ==> r.value.0 == HashBytes(c.data) && log.entries == old(log.entries) + [r.value.1]
      ensures r.Some? ==> r.value.1.payload == c.data && r.value.1.timestamp == c.now
    {
      if budget == 0 {
        return None;
      }
      var edgeHash := PutObject(c.data);
      if c.proof.Some? {
        if budget == 1 {
          return None;
        }
        var _ := PutObject(c.proof.value);
      }
      if budget == BlobSteps(c) {
        return None;
      }
      // BEGIN
      var nodes0, edges0, premises0, rows0 := nodes, edges, premises, log.rows;
      ghost var entries0 := log.entries;
      var entry := GraphThenLog(c, budget - BlobSteps(c) - 1);
      if entry.None? {
        // ROLLBACK
        nodes, edges, premises, log.rows := nodes0, edges0, premises0, rows0;
        log.entries := entries0;
        return None;
      }
      r := Some((edgeHash, entry.value));
    }
  }

  // ----- Runs -----

  datatype Op =
    | DoCommit(commit: Commit, budget: nat)
    | DoPut(data: Blob)
    | DoAppend(payload: Blob, now: int)

  predicate Succeeds(op: Op) {
    op.DoCommit? && Steps(op.commit) <= op.budget
  }

  function Apply(s: State, who: Signer, op: Op): State {
    match op
    case DoCommit(c, budget) => Committed(s, who, c, budget)
    case DoPut(data) => s.(objects := Put(s.objects, data))
    case DoAppend(payload, now) =>
      s.(entries := s.entries + [NewEntry(who.scheme, who.priv, who.pub, s.entries, now, payload)])
  }

  function Run(s: State, who: Signer, ops: seq<Op>): State
    decreases |ops|
  {
    if ops == [] then s else Apply(Run(s, who, ops[..|ops| - 1]), who, ops[|ops| - 1])
  }

  const EMPTY: State := State(map[], NoTables(), [])

  /** The payloads a run logs, in order: those of its successful commits and its appends. */
  function Logged(ops: seq<Op>): seq<Blob>
    decreases |ops|
  {
    if ops == [] then []
    else
      var op := ops[|ops| - 1];
      Logged(ops[..|ops| - 1]) +
      (if Succeeds(op) then [op.commit.data] else if op.DoAppend? then [op.payload] else [])
  }

  ghost predicate CommittedIn(ops: seq<Op>, h: Hash) {
    exists op :: op in ops && Succeeds(op) && HashBytes(op.commit.data) == h
  }

  /** An edge's blob is stored under its address, and its ends are registered nodes. */
  ghost predicate EdgeStored(s: State, h: Hash) {
    && h in s.objects && HashBytes(s.objects[h]) == h
    && h in s.graph.edges && s.graph.edges[h] in s.graph.nodes
    && forall i: nat | (h, i) in s.graph.premises :: s.graph.premises[(h, i)] in s.graph.nodes
  }

  ghost predicate ContentAddressed(objects: Objects) {
    forall h | h in objects :: HashBytes(objects[h]) == h
  }

  ghost predicate CoversCommits(graph: Tables<Hash>, ops: seq<Op>) {
    forall op | op in ops &&
        Succeeds(op) :: Covers(graph, HashBytes(op.commit.data), op.commit.premises, op.commit.conclusion)
  }

  ghost predicate Consistent(s: State, ops: seq<Op>) {
    && ContentAddressed(s.objects)
    && WellFormedTables(s.graph)
    && (forall h :: h in s.graph.edges <==> CommittedIn(ops, h))
    && (forall h | h in s.graph.edges :: h in s.objects)
    && CoversCommits(s.graph, ops)
  }

  lemma {:induction false} PutAllFacts(objects: Objects, c: Commit, budget: nat)
    requires ContentAddressed(objects)
    ensures ContentAddressed(PutAll(objects, c, budget))
    ensures forall h | h in objects :: h in PutAll(objects, c, budget)
    ensures Steps(c) <= budget ==> HashBytes(c.data) in PutAll(objects, c, budget)
  {
  }

  lemma {:induction false} CommittedInStep(ops: seq<Op>, h: Hash)
    requires ops != []
    ensures var op := ops[|ops| - 1];
            CommittedIn(ops, h) <==>
                CommittedIn(ops[..|ops| - 1], h) || (Succeeds(op) && HashBytes(op.commit.data) == h)
  {
    assert ops == ops[..|ops| - 1] + [ops[|ops| - 1]];
    if CommittedIn(ops[..|ops| - 1], h) {
      var op :| op in ops[..|ops| - 1] && Succeeds(op) && HashBytes(op.commit.data) == h;
      assert op in ops;
    }
  }

  lemma {:induction false} StepKeepsCovers(s: State, who: Signer, before: seq<Op>, op: Op)
    requires CoversCommits(s.graph, before)
    ensures CoversCommits(Apply(s, who, op).graph, before + [op])
  {
    hide Covers, Steps, PutAll, RegisterEdge;
    var graph := Apply(s, who, op).graph;
    forall o | o in before + [op] && Succeeds(o)
      ensures Covers(graph, HashBytes(o.commit.data), o.commit.premises, o.commit.conclusion)
    {
      if Succeeds(op) {
        var c := op.commit;
        RegisterCovers(s.graph, HashBytes(c.data), c.premises, c.conclusion);
        if o in before {
          RegisterKeepsCover(s.graph, HashBytes(o.commit.data), o.commit.premises, o.commit.conclusion,
              HashBytes(c.data), c.premises, c.conclusion);
        }
      }
    }
  }

  lemma {:induction false} StepKeepsTables(s: State, who: Signer, before: seq<Op>, op: Op)
    requires WellFormedTables(s.graph)
    requires forall h :: h in s.graph.edges <==> CommittedIn(before, h)
    ensures WellFormedTables(Apply(s, who, op).graph)
    ensures forall h :: h in Apply(s, who, op).graph.edges <==> CommittedIn(before + [op], h)
  {
    hide WellFormedTables, CommittedIn, Steps, PutAll;
    forall h
      ensures CommittedIn(before + [op], h) <==>
              CommittedIn(before, h) || (Succeeds(op) && HashBytes(op.commit.data) == h)
    {
      assert (before + [op])[..|before|] == before;
      CommittedInStep(before + [op], h);
    }
    if Succeeds(op) {
      RegisterKeepsWellFormed(s.graph, HashBytes(op.commit.data), op.commit.premises, op.commit.conclusion);
    }
  }

  lemma {:induction false} StepKeepsBlobs(s: State, who: Signer, op: Op)
    requires ContentAddressed(s.objects) && forall h | h in s.graph.edges :: h in s.objects
    ensures var t := Apply(s, who, op);
            ContentAddressed(t.objects) && forall h | h in t.graph.edges :: h in t.objects
  {
    if op.DoCommit? {
      PutAllFacts(s.objects, op.commit, op.budget);
    }
  }

  /** What every step keeps, with a fault allowed after any statement of any commit. */
  lemma {:induction false} StepKeepsConsistent(s: State, who: Signer, before: seq<Op>, op: Op)
    requires Consistent(s, before)
    ensures Consistent(Apply(s, who, op), before + [op])
  {
    hide Apply, ContentAddressed, WellFormedTables, CommittedIn, CoversCommits;
    StepKeepsBlobs(s, who, op);
    StepKeepsTables(s, who, before, op);
    StepKeepsCovers(s, who, before, op);
  }

  lemma {:induction false} RunConsistent(who: Signer, ops: seq<Op>)
    ensures Consistent(Run(EMPTY, who, ops), ops)
    decreases |ops|
  {
    if ops != [] {
      RunConsistent(who, ops[..|ops| - 1]);
      StepKeepsConsistent(Run(EMPTY, who, ops[..|ops| - 1]), who, ops[..|ops| - 1], ops[|ops| - 1]);
      assert ops == ops[..|ops| - 1] + [ops[|ops| - 1]];
    }
  }

  lemma {:induction false} RunLogs(who: Signer, ops: seq<Op>)
    ensures var s := Run(EMPTY, who, ops);
            |s.entries| == |Logged(ops)| && forall i | 0 <= i < |s.entries| :: s.entries[i].payload == Logged(ops)[i]
    decreases |ops|
  {
    if ops != [] {
      RunLogs(who, ops[..|ops| - 1]);
    }
  }

  lemma {:induction false} CommitsAreLogged(ops: seq<Op>, op: Op)
    requires op in ops && Succeeds(op)
    ensures op.commit.data in Logged(ops)
    decreases |ops|
  {
    if op != ops[|ops| - 1] {
      CommitsAreLogged(ops[..|ops| - 1], op);
    }
  }

  /**
   Whatever runs, and wherever it fails: the graph's edges are exactly the addresses of
   what the commits logged, each with its blob and its ends in place; the log holds exactly
   the successful commits' and the appends' payloads, in order.
   */
  lemma {:induction false} AtomicRun(who: Signer, ops: seq<Op>)
    ensures var s := Run(EMPTY, who, ops);
            && (forall h :: h in s.graph.edges <==> CommittedIn(ops, h))
            && (forall h | h in s.graph.edges :: EdgeStored(s, h))
            && |s.entries| == |Logged(ops)|
            && (forall i | 0 <= i < |s.entries| :: s.entries[i].payload == Logged(ops)[i])
            && (forall h | h in s.graph.edges :: exists d :: d in Logged(ops) && HashBytes(d) == h)
  {
    RunConsistent(who, ops);
    RunLogs(who, ops);
    var s := Run(EMPTY, who, ops);
    forall h | h in s.graph.edges
      ensures EdgeStored(s, h)
      ensures exists d :: d in Logged(ops) && HashBytes(d) == h
    {
      var op :| op in ops && Succeeds(op) && HashBytes(op.commit.data) == h;
      CommitsAreLogged(ops, op);
    }
  }

  // ----- What the log, the blobs and the index then hold -----

  /** When the payloads of a run were logged, in order. */
  function Times(ops: seq<Op>): seq<int>
    decreases |ops|
  {
    if ops == [] then []
    else
      var before, op := Times(ops[..|ops| - 1]), ops[|ops| - 1];
      if Succeeds(op) then before + [op.commit.now] else if op.DoAppend? then before + [op.now] else before
  }

  /** The entry that logs payload i at its time, field by field. */
  function EntryOf(who: Signer, payloads: seq<Blob>, times: seq<int>, i: nat): LogEntry
    requires i < |payloads| == |times|
  {
    var h, prev := Digest(payloads[i]), if i == 0 then Zero else Digest(payloads[i - 1]);
    LogEntry(i, times[i], who.pub, h, prev,
             who.scheme.sign(who.priv, Message(i, times[i], who.pub, h, prev)), payloads[i])
  }

  /** Every entry of the log, after any run. */
  lemma {:induction false} RunEntries(who: Signer, ops: seq<Op>)
    ensures var entries, payloads, times := Run(EMPTY, who, ops).entries, Logged(ops), Times(ops);
            && |entries| == |payloads| == |times|
            && forall i | 0 <= i < |entries| :: entries[i] == EntryOf(who, payloads, times, i)
    decreases |ops|
  {
    if ops != [] {
      var before, op := ops[..|ops| - 1], ops[|ops| - 1];
      RunEntries(who, before);
      RunLast(who, ops);
      var s := Run(EMPTY, who, before);
      hide Steps, PutAll, RegisterEdge, EntryOf, NewEntry, Run;
      if Succeeds(op) {
        NextEntry(who, s.entries, Logged(before), Times(before), op.commit.now, op.commit.data);
      } else if op.DoAppend? {
        NextEntry(who, s.entries, Logged(before), Times(before), op.now, op.payload);
      }
    }
  }

  /** Every successful commit and every append is in the log, at its time. */
  lemma {:induction false} OpIsLogged(who: Signer, ops: seq<Op>, op: Op)
    requires op in ops && (Succeeds(op) || op.DoAppend?)
    ensures var entries := Run(EMPTY, who, ops).entries;
            exists i :: 0 <= i < |entries|
                        && entries[i].payload == (if op.DoAppend? then op.payload else op.commit.data)
                        && entries[i].timestamp == (if op.DoAppend? then op.now else op.commit.now)
    decreases |ops|
  {
    hide Steps, PutAll, RegisterEdge;
    var before := Run(EMPTY, who, ops[..|ops| - 1]);
    RunLast(who, ops);
    if op == ops[|ops| - 1] {
      var i := |before.entries|;
      assert Run(EMPTY, who, ops).entries[i].payload == (if op.DoAppend? then op.payload else op.commit.data);
    } else {
      OpIsLogged(who, ops[..|ops| - 1], op);
      assert before.entries <= Run(EMPTY, who, ops).entries;
    }
  }

  lemma {:induction false} NextEntry(who: Signer, entries: seq<LogEntry>, payloads: seq<Blob>, times: seq<int>,
      now: int,
      payload: Blob)
    requires |entries| == |payloads| == |times|
    requires forall i | 0 <= i < |entries| :: entries[i] == EntryOf(who, payloads, times, i)
    ensures var more := entries + [NewEntry(who.scheme, who.priv, who.pub, entries, now, payload)];
            forall i | 0 <= i < |more| :: more[i] == EntryOf(who, payloads + [payload], times + [now], i)
  {
    NewEntryIs(who.scheme, who.priv, who.pub, entries, now, payload);
    hide NewEntry;
    var more := entries + [NewEntry(who.scheme, who.priv, who.pub, entries, now, payload)];
    forall i | 0 <= i < |more|
      ensures more[i] == EntryOf(who, payloads + [payload], times + [now], i)
    {
      if i > 0 {
        assert (payloads + [payload])[i - 1] == payloads[i - 1];
        assert entries[i - 1] == EntryOf(who, payloads, times, i - 1);
      }
    }
  }

  ghost predicate Holds(objects: Objects, data: Blob) {
    Digest(data) in objects && objects[Digest(data)] == data
  }

  /** The blobs an operation gets to write: a commit its edge record with the first statement
      and its proof, if it has one, with the second. */
  ghost predicate Writes(op: Op, data: Blob) {
    match op
    case DoCommit(c, budget) => (budget >= 1 && data == c.data) || (budget >= 2 && c.proof == Some(data))
    case DoPut(blob) => data == blob
    case DoAppend(_, _) => false
  }

  /** Whatever runs later, and wherever it fails: the store holds exactly the blobs written. */
  lemma {:induction false} RunHoldsBlobs(who: Signer, ops: seq<Op>, data: Blob)
    ensures Holds(Run(EMPTY, who, ops).objects, data) <==> exists op :: op in ops && Writes(op, data)
    ensures forall h | h in Run(EMPTY, who, ops).objects :: h.Digest? && Holds(Run(EMPTY, who, ops).objects, h.preimage)
    decreases |ops|
  {
    if ops != [] {
      var before, op := ops[..|ops| - 1], ops[|ops| - 1];
      RunHoldsBlobs(who, before, data);
      OpHoldsBlobs(Run(EMPTY, who, before), who, op, data);
      hide Run, Apply, Writes, Holds;
      assert forall o :: o in ops <==> o in before || o == op;
      assert Run(EMPTY, who, ops) == Apply(Run(EMPTY, who, before), who, op) by { RunLast(who, ops); }
    }
  }

  lemma {:induction false} RunLast(who: Signer, ops: seq<Op>)
    requires ops != []
    ensures Run(EMPTY, who, ops) == Apply(Run(EMPTY, who, ops[..|ops| - 1]), who, ops[|ops| - 1])
  {
  }

  lemma {:induction false} OpHoldsBlobs(s: State, who: Signer, op: Op, data: Blob)
    requires forall h | h in s.objects :: h.Digest? && Holds(s.objects, h.preimage)
    ensures var objects := Apply(s, who, op).objects;
            && (Holds(objects, data) <==> Holds(s.objects, data) || Writes(op, data))
            && forall h | h in objects :: h.Digest? && Holds(objects, h.preimage)
  {
    hide RegisterEdge, NewEntry;
  }

  ghost predicate Registers(op: Op, h: Hash) {
    Succeeds(op) && HashBytes(op.commit.data) == h
  }

  /** The first commit to register the edge. */
  ghost predicate FirstEdge(ops: seq<Op>, h: Hash, j: int) {
    && 0 <= j < |ops| && Registers(ops[j], h)
    && forall l | 0 <= l < j :: !Registers(ops[l], h)
  }

  /** The first of them with a premise at that position. */
  ghost predicate FirstPremise(ops: seq<Op>, h: Hash, i: nat, j: int) {
    && 0 <= j < |ops| && Registers(ops[j], h) && i < |ops[j].commit.premises|
    && forall l | 0 <= l < j && Registers(ops[l], h) :: |ops[l].commit.premises| <= i
  }

  /** The index names the conclusion and, at each position, the premise of the first commit
      that registered the edge with one; and a node for each end and no other. */
  ghost predicate IndexesFirst(graph: Tables<Hash>, ops: seq<Op>) {
    && (forall h :: h in graph.edges <==> exists j :: FirstEdge(ops, h, j))
    && (forall h, j | FirstEdge(ops, h, j) :: graph.edges[h] == ops[j].commit.conclusion)
    && (forall h, i: nat :: (h, i) in graph.premises <==> exists j :: FirstPremise(ops, h, i, j))
    && (forall h, i: nat, j | FirstPremise(ops, h, i, j) :: graph.premises[(h, i)] == ops[j].commit.premises[i])
    && (forall n :: n in graph.nodes <==> exists op :: op in ops && NamesNode(op, n))
  }

  ghost predicate NamesNode(op: Op, n: Hash) {
    Succeeds(op) && (n == op.commit.conclusion || n in op.commit.premises)
  }

  lemma {:induction false} RunIndexesFirst(who: Signer, ops: seq<Op>)
    ensures IndexesFirst(Run(EMPTY, who, ops).graph, ops)
    decreases |ops|
  {
    if ops != [] {
      var before, op := ops[..|ops| - 1], ops[|ops| - 1];
      RunIndexesFirst(who, before);
      assert ops == before + [op];
      var s := Run(EMPTY, who, before);
      RunLast(who, ops);
      hide IndexesFirst, Run;
      if Succeeds(op) {
        NextIndexes(s.graph, before, op);
      } else {
        NoneIndexed(s.graph, before, op);
      }
    }
  }

  lemma {:induction false} FirstEdgeNext(ops: seq<Op>, op: Op, h: Hash, j: int)
    ensures FirstEdge(ops + [op], h, j) <==>
              FirstEdge(ops, h, j) || (j == |ops| && Registers(op, h) && !exists l :: FirstEdge(ops, h, l))
  {
    hide Registers;
    var more := ops + [op];
    assert more[|ops|] == op && forall l | 0 <= l < |ops| :: more[l] == ops[l];
    if j == |ops| && Registers(op, h) {
      if l :| 0 <= l < |ops| && Registers(ops[l], h) {
        var first := LeastEdge(ops, h, l);
      }
    }
  }

  lemma {:induction false} LeastEdge(ops: seq<Op>, h: Hash, l: nat) returns (j: nat)
    requires l < |ops| && Registers(ops[l], h)
    ensures FirstEdge(ops, h, j)
  {
    hide Registers;
    if k: nat :| k < l && Registers(ops[k], h) {
      j := LeastEdge(ops, h, k);
    } else {
      j := l;
    }
  }

  lemma {:induction false} FirstPremiseNext(ops: seq<Op>, op: Op, h: Hash, i: nat, j: int)
    ensures FirstPremise(ops + [op], h, i, j) <==>
              || FirstPremise(ops, h, i, j)
              || (j == |ops| && Registers(op, h) && i < |op.commit.premises| && !exists l :: FirstPremise(ops, h, i, l))
  {
    var more := ops + [op];
    assert more[|ops|] == op && forall l | 0 <= l < |ops| :: more[l] == ops[l];
    if j == |ops| && Registers(op, h) {
      if l :| 0 <= l < |ops| && Registers(ops[l], h) && i < |ops[l].commit.premises| {
        var first := LeastPremise(ops, h, i, l);
      }
    }
  }

  lemma {:induction false} LeastPremise(ops: seq<Op>, h: Hash, i: nat, l: nat) returns (j: nat)
    requires l < |ops| && Registers(ops[l], h) && i < |ops[l].commit.premises|
    ensures FirstPremise(ops, h, i, j)
  {
    if k: nat :| k < l && Registers(ops[k], h) && i < |ops[k].commit.premises| {
      j := LeastPremise(ops, h, i, k);
    } else {
      j := l;
    }
  }

  lemma {:induction false} NoneIndexed(graph: Tables<Hash>, ops: seq<Op>, op: Op)
    requires IndexesFirst(graph, ops) && !Succeeds(op)
    ensures IndexesFirst(graph, ops + [op])
  {
    forall h, j
      ensures FirstEdge(ops + [op], h, j) <==> FirstEdge(ops, h, j)
    {
      FirstEdgeNext(ops, op, h, j);
    }
    forall h, i: nat, j
      ensures FirstPremise(ops + [op], h, i, j) <==> FirstPremise(ops, h, i, j)
    {
      FirstPremiseNext(ops, op, h, i, j);
    }
    assert forall o :: o in ops + [op] <==> o in ops || o == op;
    hide FirstEdge, FirstPremise, Succeeds;
  }

  lemma {:induction false} NextIndexes(graph: Tables<Hash>, ops: seq<Op>, op: Op)
    requires IndexesFirst(graph, ops) && Succeeds(op)
    ensures var c := op.commit;
            IndexesFirst(RegisterEdge(graph, HashBytes(c.data), c.premises, c.conclusion), ops + [op])
  {
    var c, more := op.commit, ops + [op];
    var e := HashBytes(c.data);
    var graph' := RegisterEdge(graph, e, c.premises, c.conclusion);
    hide Succeeds;
    NextEdges(graph, ops, op);
    NextPremises(graph, ops, op);
    assert forall o :: o in more <==> o in ops || o == op;
    forall n
      ensures n in graph'.nodes <==> exists o :: o in more && NamesNode(o, n)
    {
      if n in graph.nodes {
        var o :| o in ops && NamesNode(o, n);
        assert o in more;
      } else if NamesNode(op, n) {
        assert op in more;
      }
    }
  }

  lemma {:induction false} NextEdges(graph: Tables<Hash>, ops: seq<Op>, op: Op)
    requires IndexesFirst(graph, ops) && Succeeds(op)
    ensures var c, more := op.commit, ops + [op];
            var graph' := RegisterEdge(graph, HashBytes(c.data), c.premises, c.conclusion);
            && (forall h :: h in graph'.edges <==> exists j :: FirstEdge(more, h, j))
            && (forall h, j | FirstEdge(more, h, j) :: graph'.edges[h] == more[j].commit.conclusion)
  {
    var c, more := op.commit, ops + [op];
    var graph' := RegisterEdge(graph, HashBytes(c.data), c.premises, c.conclusion);
    assert graph'.edges == InsertOrIgnore(graph.edges, HashBytes(c.data), c.conclusion);
    hide FirstEdge, FirstPremise, RegisterEdge, NamesNode;
    forall h, j
      ensures FirstEdge(more, h, j) <==>
                FirstEdge(ops, h, j) || (j == |ops| && Registers(op, h) && !exists l :: FirstEdge(ops, h, l))
    {
      FirstEdgeNext(ops, op, h, j);
    }
    assert more[|ops|] == op;
    forall h
      ensures h in graph'.edges <==> exists j :: FirstEdge(more, h, j)
    {
      if h in graph.edges {
        var j :| FirstEdge(ops, h, j);
        assert FirstEdge(more, h, j);
      } else if Registers(op, h) {
        assert FirstEdge(more, h, |ops|);
      }
    }
    forall h, j | FirstEdge(more, h, j)
      ensures 0 <= j < |more| && more[j].DoCommit? && graph'.edges[h] == more[j].commit.conclusion
    {
      FirstEdgeIn(more, h, j);
      if FirstEdge(ops, h, j) {
        FirstEdgeIn(ops, h, j);
        assert more[j] == ops[j];
      }
    }
  }

  lemma {:induction false} FirstEdgeIn(ops: seq<Op>, h: Hash, j: int)
    requires FirstEdge(ops, h, j)
    ensures 0 <= j < |ops| && ops[j].DoCommit?
  {
  }

  lemma {:induction false} FirstPremiseIn(ops: seq<Op>, h: Hash, i: nat, j: int)
    requires FirstPremise(ops, h, i, j)
    ensures 0 <= j < |ops| && ops[j].DoCommit? && i < |ops[j].commit.premises|
  {
  }

  lemma {:induction false} NextPremises(graph: Tables<Hash>, ops: seq<Op>, op: Op)
    requires IndexesFirst(graph, ops) && Succeeds(op)
    ensures var c, more := op.commit, ops + [op];
            var graph' := RegisterEdge(graph, HashBytes(c.data), c.premises, c.conclusion);
            && (forall h, i: nat :: (h, i) in graph'.premises <==> exists j :: FirstPremise(more, h, i, j))
            && (forall h, i: nat, j | FirstPremise(more, h, i, j) ::
                  graph'.premises[(h, i)] == more[j].commit.premises[i])
  {
    var c, more := op.commit, ops + [op];
    var graph' := RegisterEdge(graph, HashBytes(c.data), c.premises, c.conclusion);
    var rows := PremiseRows(HashBytes(c.data), c.premises);
    assert graph'.premises == rows + graph.premises;
    hide FirstEdge, FirstPremise, RegisterEdge, NamesNode;
    forall h, i: nat, j
      ensures FirstPremise(more, h, i, j) <==>
                || FirstPremise(ops, h, i, j)
                || (j == |ops| && Registers(op, h) && i < |c.premises| && !exists l :: FirstPremise(ops, h, i, l))
    {
      FirstPremiseNext(ops, op, h, i, j);
    }
    assert more[|ops|] == op;
    forall h, i: nat
      ensures (h, i) in graph'.premises <==> exists j :: FirstPremise(more, h, i, j)
    {
      if (h, i) in graph.premises {
        var j :| FirstPremise(ops, h, i, j);
        assert FirstPremise(more, h, i, j);
      } else if Registers(op, h) && i < |c.premises| {
        assert FirstPremise(more, h, i, |ops|);
      }
    }
    forall h, i: nat, j | FirstPremise(more, h, i, j)
      ensures 0 <= j < |more| && more[j].DoCommit? && i < |more[j].commit.premises|
      ensures graph'.premises[(h, i)] == more[j].commit.premises[i]
    {
      FirstPremiseIn(more, h, i, j);
      if FirstPremise(ops, h, i, j) {
        FirstPremiseIn(ops, h, i, j);
        assert more[j] == ops[j];
      }
    }
  }

  /** A run without the commits that failed. */
  function WithoutFailures(ops: seq<Op>): seq<Op>
    decreases |ops|
  {
    if ops == [] then []
    else
      var before, op := WithoutFailures(ops[..|ops| - 1]), ops[|ops| - 1];
      if op.DoCommit? && !Succeeds(op) then before else before + [op]
  }

  lemma {:induction false} MoreBlobsIn(s: State, t: State, who: Signer, op: Op)
    requires t.objects.Keys <= s.objects.Keys
    ensures Apply(t, who, op).objects.Keys <= Apply(s, who, op).objects.Keys
    ensures t.objects.Keys <= Apply(s, who, op).objects.Keys
  {
    hide RegisterEdge, NewEntry;
  }

  /** Commits that fail, at whatever statement, leave no trace: graph and log are those of the
      run without them, and so is every blob of that run. */
  lemma {:induction false} FailuresLeaveNoTrace(who: Signer, ops: seq<Op>)
    ensures var s, t := Run(EMPTY, who, ops), Run(EMPTY, who, WithoutFailures(ops));
            && s.graph == t.graph && s.entries == t.entries
            && forall h | h in t.objects :: h in s.objects && s.objects[h] == t.objects[h]
    decreases |ops|
  {
    RunConsistent(who, ops);
    RunConsistent(who, WithoutFailures(ops));
    if ops != [] {
      var before, op := ops[..|ops| - 1], ops[|ops| - 1];
      FailuresLeaveNoTrace(who, before);
      var kept := WithoutFailures(before);
      MoreBlobsIn(Run(EMPTY, who, before), Run(EMPTY, who, kept), who, op);
      assert (kept + [op])[..|kept|] == kept;
      hide RegisterEdge, NewEntry, PutAll, WellFormedTables, CoversCommits, CommittedIn;
    }
  }

  /** Committing again what some earlier commit put in grows the log by one entry and
      leaves every table as it is, whatever ran in between. */
  lemma {:induction false} RecommitOnlyLogs(who: Signer, ops: seq<Op>, op: Op)
    requires op in ops && Succeeds(op)
    ensures var s := Run(EMPTY, who, ops);
            var again := Apply(s, who, op);
            && again.graph == s.graph
            && |again.entries| == |s.entries| + 1 && again.entries[..|s.entries|] == s.entries
            && again.entries[|s.entries|].payload == op.commit.data
  {
    RunConsistent(who, ops);
    var s := Run(EMPTY, who, ops);
    CoveredIsFixed(s.graph, HashBytes(op.commit.data), op.commit.premises, op.commit.conclusion);
  }
}
