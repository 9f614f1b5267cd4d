/** Runs of commits through the key-value engine, with faults, against the relational index. */
module PebbleRuns {
  import opened Options
  import opened ByteKeys
  import opened PebbleIndex
  import opened PebbleReads
  import opened PebbleStorage

  function RunEngine(lib: Primitives, pub: ByteString, ops: seq<CommitOp>): EngineState
    decreases |ops|
  {
    if ops == [] then EngineState(map[], map[], [])
    else Step(RunEngine(lib, pub, ops[..|ops| - 1]), lib, pub, ops[|ops| - 1])
  }

  /** The registrations of the commits that succeed. */
  function Registrations(lib: Primitives, ops: seq<CommitOp>): seq<IndexOp>
    decreases |ops|
  {
    if ops == [] then []
    else
      var before, op := Registrations(lib, ops[..|ops| - 1]), ops[|ops| - 1];
      if op.Succeeds() then before + [RegEdge(lib.hash(op.edgeData), op.premises, op.conclusion)] else before
  }

  /** Entries are numbered, timed, hashed, chained and signed, and their payloads are those
      committed. */
  ghost predicate LogsCommits(entries: seq<LogEntry>, lib: Primitives, pub: ByteString, payloads: seq<ByteString>,
      times: seq<int>) {
    |entries| == |payloads| == |times| &&
        forall i | 0 <= i < |entries| :: LogsCommit(entries, lib, pub, payloads[i], times[i], i)
  }

  ghost predicate LogsCommit(entries: seq<LogEntry>, lib: Primitives, pub: ByteString, payload: ByteString, time: int,
      i: nat)
    requires i < |entries|
  {
    var e := entries[i];
    && e.seqno == i && e.timestamp == time && e.signer == pub && e.payload == payload &&
         e.entryHash == lib.hash(payload)
    && e.prevHash == (if i == 0 then GENESIS else entries[i - 1].entryHash)
    && e.signature == lib.sign(i, time, pub, e.entryHash, e.prevHash)
  }

  /** When the successful commits were made, in order. */
  function Times(ops: seq<CommitOp>): seq<int>
    decreases |ops|
  {
    if ops == [] then []
    else
      var before, op := Times(ops[..|ops| - 1]), ops[|ops| - 1];
      if op.Succeeds() then before + [op.now] else before
  }

  function Payloads(ops: seq<CommitOp>): seq<ByteString>
    decreases |ops|
  {
    if ops == [] then []
    else
      var before, op := Payloads(ops[..|ops| - 1]), ops[|ops| - 1];
      if op.Succeeds() then before + [op.edgeData] else before
  }

  lemma {:induction false} LogNext(entries: seq<LogEntry>, lib: Primitives, pub: ByteString, payloads: seq<ByteString>,
      times: seq<int>, now: int, payload: ByteString)
    requires LogsCommits(entries, lib, pub, payloads, times)
    ensures LogsCommits(entries + [NewEntry(lib, pub, entries, now, payload)], lib, pub, payloads + [payload],
                        times + [now])
  {
    var n, more := |entries|, entries + [NewEntry(lib, pub, entries, now, payload)];
    var logged, timed := payloads + [payload], times + [now];
    forall i | 0 <= i < |more|
      ensures LogsCommit(more, lib, pub, logged[i], timed[i], i)
    {
      if i > 0 {
        assert more[i - 1] == entries[i - 1];
      }
      if i < n {
        assert LogsCommit(entries, lib, pub, payloads[i], times[i], i);
        assert more[i] == entries[i] && logged[i] == payloads[i] && timed[i] == times[i];
      }
    }
  }

  ghost predicate IsLoggedAt(entries: seq<LogEntry>, i: int, payload: ByteString, time: int) {
    0 <= i < |entries| && entries[i].payload == payload && entries[i].timestamp == time
  }

  /** Every successful commit's record is in the log at its time. */
  lemma {:induction false} CommitIsLogged(lib: Primitives, pub: ByteString, ops: seq<CommitOp>, op: CommitOp)
    requires op in ops && op.Succeeds()
    ensures var entries := RunEngine(lib, pub, ops).entries;
            exists i :: IsLoggedAt(entries, i, op.edgeData, op.now)
    decreases |ops|
  {
    var before, last := ops[..|ops| - 1], ops[|ops| - 1];
    var s, t := RunEngine(lib, pub, before), RunEngine(lib, pub, ops);
    assert ops == before + [last];
    StepLogs(s, lib, pub, last);
    assert t == Step(s, lib, pub, last);
    hide Step;
    if op == last {
      assert IsLoggedAt(RunEngine(lib, pub, ops).entries, |s.entries|, op.edgeData, op.now);
    } else {
      CommitIsLogged(lib, pub, before, op);
      var i :| IsLoggedAt(s.entries, i, op.edgeData, op.now);
      assert t.entries[i] == s.entries[i];
      assert IsLoggedAt(RunEngine(lib, pub, ops).entries, i, op.edgeData, op.now);
    }
  }

  lemma {:induction false} StepLogs(s: EngineState, lib: Primitives, pub: ByteString, op: CommitOp)
    ensures s.entries <= Step(s, lib, pub, op).entries
    ensures op.Succeeds() ==>
              var entries, n := Step(s, lib, pub, op).entries, |s.entries|;
              n < |entries| && entries[n].payload == op.edgeData && entries[n].timestamp == op.now
  {
    hide LogWrites, EdgeWrites, PutBlobs;
  }

  lemma {:induction false} LogWritesKeepGraphKey(m: KeyMap, e: LogEntry, lib: Primitives, k: ByteString)
    requires IsGraphKey(k) && e.seqno < Pow256(8)
    ensures Lookup(LogWrites(m, e, lib), k) == Lookup(m, k)
  {
    LogKeysDistinct(e.seqno, e.seqno);
  }

  lemma {:induction false} NumberedPrefix(ops: seq<IndexOp>, op: IndexOp)
    requires Numbered(ops + [op])
    ensures Numbered(ops)
    ensures op.RegEdge? ==> |op.premises| <= Pow256(8)
  {
    assert forall a :: a in ops + [op] <==> a in ops || a == op;
  }

  /**
   Over every run of commits, faults included, and whatever they register: the map holds
   exactly the chained log of the successful commits, and on graph keys it is the map that
   their registrations alone would leave.
   */
  lemma {:induction false} EngineLogs(lib: Primitives, pub: ByteString, ops: seq<CommitOp>)
    requires |ops| <= MAX_INT64 && Numbered(Registrations(lib, ops))
    ensures var s := RunEngine(lib, pub, ops);
            && HoldsLog(s.data, s.entries, lib) && |s.entries| <= |ops|
            && LogsCommits(s.entries, lib, pub, Payloads(ops), Times(ops))
            && forall k | IsGraphKey(k) :: Lookup(s.data, k) == Lookup(RunKeys(Registrations(lib, ops)), k)
    decreases |ops|
  {
    if ops != [] {
      var before, op := ops[..|ops| - 1], ops[|ops| - 1];
      var regs, s := Registrations(lib, before), RunEngine(lib, pub, before);
      if op.Succeeds() {
        var h := lib.hash(op.edgeData);
        var e := NewEntry(lib, pub, s.entries, op.now, op.edgeData);
        var reg := RegEdge(h, op.premises, op.conclusion);
        NumberedPrefix(regs, reg);
        EngineLogs(lib, pub, before);
        assert (regs + [reg])[..|regs|] == regs;
        var graph, keys := EdgeWrites(s.data, h, op.premises, op.conclusion), RunKeys(regs);
        assert RunKeys(regs + [reg]) == EdgeWrites(keys, h, op.premises, op.conclusion);
        hide HoldsLog, LogsCommits, EdgeWrites, LogWrites, RunKeys, Numbered, Pow256, WriteAt, IsGraphKey;
        EightBytes();
        EdgeWritesKeepLog(s.data, h, op.premises, op.conclusion, s.entries, lib);
        LogWritesExtend(graph, s.entries, e, lib);
        LogNext(s.entries, lib, pub, Payloads(before), Times(before), op.now, op.edgeData);
        forall k | IsGraphKey(k)
          ensures Lookup(LogWrites(graph, e, lib), k) == Lookup(EdgeWrites(keys, h, op.premises, op.conclusion), k)
        {
          LogWritesKeepGraphKey(graph, e, lib, k);
          EdgeWritesAt(s.data, h, op.premises, op.conclusion, k);
          EdgeWritesAt(keys, h, op.premises, op.conclusion, k);
        }
      } else {
        EngineLogs(lib, pub, before);
      }
    }
  }

  /** When moreover the registrations are compatible, as they are when an edge's connectivity
      is a function of its content, the map represents the relational tables that the
      successful commits would have built. */
  lemma {:induction false} EngineRefines(lib: Primitives, pub: ByteString, ops: seq<CommitOp>)
    requires |ops| <= MAX_INT64 && Numbered(Registrations(lib, ops))
    requires Compatible(Registrations(lib, ops))
    ensures Represents(RunEngine(lib, pub, ops).data, RunTables(Registrations(lib, ops)))
  {
    EngineLogs(lib, pub, ops);
    IndexRefines(Registrations(lib, ops));
    hide HoldsLog, LogsCommits, RunEngine, RunKeys, RunTables, GraphValue, IsGraphKey, Lookup;
  }

  // ----- What a run leaves, whatever it registers -----

  ghost predicate ContentAddressed(objects: BlobMap, lib: Primitives) {
    forall h | h in objects :: lib.hash(objects[h]) == h
  }

  /** Blobs sit under their own addresses, those of the successful commits among them. */
  lemma {:induction false} RunBlobs(lib: Primitives, pub: ByteString, ops: seq<CommitOp>)
    ensures var objects := RunEngine(lib, pub, ops).objects;
            ContentAddressed(objects, lib) && forall op | op in ops && op.Succeeds() :: lib.hash(op.edgeData) in objects
    decreases |ops|
  {
    if ops != [] {
      RunBlobs(lib, pub, ops[..|ops| - 1]);
      assert forall op :: op in ops <==> op in ops[..|ops| - 1] || op == ops[|ops| - 1];
      StepBlobs(RunEngine(lib, pub, ops[..|ops| - 1]), lib, pub, ops[|ops| - 1]);
      hide Step, ContentAddressed;
    }
  }

  lemma {:induction false} StepBlobs(s: EngineState, lib: Primitives, pub: ByteString, op: CommitOp)
    requires ContentAddressed(s.objects, lib)
    ensures var objects := Step(s, lib, pub, op).objects;
            && ContentAddressed(objects, lib)
            && (forall h | h in s.objects :: h in objects)
            && (op.Succeeds() ==> lib.hash(op.edgeData) in objects)
  {
    hide LogWrites, EdgeWrites, NewEntry;
  }

  /** The blobs a commit gets to write before its fault, if any. */
  ghost predicate Writes(op: CommitOp, data: ByteString) {
    op.fault != AtEdgeBlob && (data == op.edgeData || (op.fault != AtProofBlob && op.proof == Some(data)))
  }

  ghost predicate Wrote(ops: seq<CommitOp>, data: ByteString) {
    exists op :: op in ops && Writes(op, data)
  }

  /** Over every run: each address that a blob was written to stays occupied, and by a blob that
      was written and has that address. */
  lemma {:induction false} RunWrites(lib: Primitives, pub: ByteString, ops: seq<CommitOp>)
    ensures HoldsWritten(RunEngine(lib, pub, ops).objects, lib, ops)
    decreases |ops|
  {
    if ops != [] {
      var before, op := ops[..|ops| - 1], ops[|ops| - 1];
      var s, t := RunEngine(lib, pub, before), RunEngine(lib, pub, ops);
      RunWrites(lib, pub, before);
      assert t.objects == PutBlobs(s.objects, lib, op) by { hide PutBlobs, LogWrites, EdgeWrites, NewEntry; }
      hide RunEngine;
      NextWritten(s.objects, t.objects, lib, before, op);
      assert ops == before + [op];
    }
  }

  /** Each blob was written and sits under its address, and each address written to is taken. */
  ghost predicate HoldsWritten(objects: BlobMap, lib: Primitives, ops: seq<CommitOp>) {
    && (forall h | h in objects :: WrittenAt(lib, ops, h, objects[h]))
    && (forall data | Wrote(ops, data) :: lib.hash(data) in objects)
  }

  ghost predicate WrittenAt(lib: Primitives, ops: seq<CommitOp>, h: Hash34, data: ByteString) {
    Wrote(ops, data) && lib.hash(data) == h
  }

  lemma {:induction false} NextWritten(objects: BlobMap, after: BlobMap, lib: Primitives, ops: seq<CommitOp>,
      op: CommitOp)
    requires HoldsWritten(objects, lib, ops) && after == PutBlobs(objects, lib, op)
    ensures HoldsWritten(after, lib, ops + [op])
  {
    assert (ops + [op])[..|ops|] == ops;
    forall data
      ensures Wrote(ops + [op], data) <==> Wrote(ops, data) || Writes(op, data)
    {
      WroteNext(ops + [op], data);
    }
    PutBlobsHold(objects, lib, op);
    hide Wrote, Writes, PutBlobs;
    forall h | h in after
      ensures WrittenAt(lib, ops + [op], h, after[h])
    {
      if h in objects {
        assert WrittenAt(lib, ops, h, objects[h]);
      }
    }
  }

  lemma {:induction false} PutBlobsHold(objects: BlobMap, lib: Primitives, op: CommitOp)
    ensures var after := PutBlobs(objects, lib, op);
            && (forall h | h in objects :: h in after && after[h] == objects[h])
            && (forall h | h in after && h !in objects :: Writes(op, after[h]) && lib.hash(after[h]) == h)
            && (forall data | Writes(op, data) :: lib.hash(data) in after)
  {
  }

  lemma {:induction false} WroteNext(ops: seq<CommitOp>, data: ByteString)
    requires ops != []
    ensures Wrote(ops, data) <==> Wrote(ops[..|ops| - 1], data) || Writes(ops[|ops| - 1], data)
  {
    hide Writes;
    var before, op := ops[..|ops| - 1], ops[|ops| - 1];
    assert forall o :: o in ops <==> o in before || o == op;
  }

  /** So a record or proof that got written is there to be read back, unless the run also wrote
      another blob with its address. */
  lemma {:induction false} RunHoldsBlob(lib: Primitives, pub: ByteString, ops: seq<CommitOp>, data: ByteString)
    requires Wrote(ops, data) && forall other | Wrote(ops, other) && lib.hash(other) == lib.hash(data) :: other == data
    ensures var objects := RunEngine(lib, pub, ops).objects;
            lib.hash(data) in objects && objects[lib.hash(data)] == data
  {
    RunWrites(lib, pub, ops);
    hide RunEngine, Wrote;
  }

  lemma {:induction false} RegistrationsAre(lib: Primitives, ops: seq<CommitOp>, a: IndexOp)
    ensures a in Registrations(lib, ops) <==>
            exists op :: op in ops && op.Succeeds() && a == RegEdge(lib.hash(op.edgeData), op.premises, op.conclusion)
    decreases |ops|
  {
    if ops != [] {
      RegistrationsAre(lib, ops[..|ops| - 1], a);
      assert forall op :: op in ops <==> op in ops[..|ops| - 1] || op == ops[|ops| - 1];
    }
  }

  ghost predicate CommittedIn(lib: Primitives, ops: seq<CommitOp>, h: Hash34) {
    exists op :: op in ops && op.Succeeds() && lib.hash(op.edgeData) == h
  }

  lemma {:induction false} CommittedRegisters(lib: Primitives, ops: seq<CommitOp>, h: Hash34)
    ensures (exists a :: a in Registrations(lib, ops) && Registers(a, h)) <==> CommittedIn(lib, ops, h)
  {
    if CommittedIn(lib, ops, h) {
      var op :| op in ops && op.Succeeds() && lib.hash(op.edgeData) == h;
      var a := RegEdge(h, op.premises, op.conclusion);
      RegistrationsAre(lib, ops, a);
      assert a in Registrations(lib, ops) && Registers(a, h);
    }
    if a :| a in Registrations(lib, ops) && Registers(a, h) {
      RegistrationsAre(lib, ops, a);
    }
  }

  /**
   Atomicity over every run, faults included: an edge is indexed exactly when some successful
   commit's data hashes to it; then its blob is stored, and the conclusion and every premise
   that the index gives it are registered nodes.
   */
  lemma {:induction false} AtomicEngineRun(lib: Primitives, pub: ByteString, ops: seq<CommitOp>, h: Hash34)
    requires |ops| <= MAX_INT64 && Numbered(Registrations(lib, ops))
    ensures var s := RunEngine(lib, pub, ops);
            && (EdgeKey(h) in s.data <==> CommittedIn(lib, ops, h))
            && (EdgeKey(h) in s.data ==>
                  && h in s.objects && lib.hash(s.objects[h]) == h
                  && [NODE] + s.data[EdgeKey(h)] in s.data
                  && forall i: nat | i < Pow256(8) &&
                       PremiseKey(h, i) in s.data :: [NODE] + s.data[PremiseKey(h, i)] in s.data)
  {
    var s, regs := RunEngine(lib, pub, ops), Registrations(lib, ops);
    EngineLogs(lib, pub, ops);
    RunBlobs(lib, pub, ops);
    EdgeKeyRegistered(regs, h);
    CommittedRegisters(lib, ops, h);
    hide RunEngine, RunKeys, Registrations, HoldsLog, LogsCommits, Numbered, Pow256;
    assert Lookup(s.data, EdgeKey(h)) == Lookup(RunKeys(regs), EdgeKey(h));
    if EdgeKey(h) in s.data {
      EdgeEndsRegistered(regs, h);
      assert IsGraphKey([NODE] + s.data[EdgeKey(h)]);
      forall i: nat | i < Pow256(8) && PremiseKey(h, i) in s.data
        ensures [NODE] + s.data[PremiseKey(h, i)] in s.data
      {
        assert Lookup(s.data, PremiseKey(h, i)) == Lookup(RunKeys(regs), PremiseKey(h, i));
        PremiseEndsRegistered(regs, h, i);
        assert IsGraphKey([NODE] + s.data[PremiseKey(h, i)]);
      }
    }
  }

  /**
   Exactly when committing changes no graph key, after any run: for the conclusion and for
   each premise position, some registration of the edge put there what this commit puts, and
   no later one put anything else.
   */
  lemma {:induction false} RecommitIff(lib: Primitives, pub: ByteString, ops: seq<CommitOp>, op: CommitOp)
    requires op.Succeeds() && |ops| < MAX_INT64
    requires Numbered(Registrations(lib, ops)) && |op.premises| <= Pow256(8)
    ensures var s := RunEngine(lib, pub, ops);
            var s' := Step(s, lib, pub, op);
            && s'.entries == s.entries + [NewEntry(lib, pub, s.entries, op.now, op.edgeData)]
            && ((forall k | IsGraphKey(k) :: Lookup(s'.data, k) == Lookup(s.data, k)) <==>
                Stands(Registrations(lib, ops), lib.hash(op.edgeData), op.premises, op.conclusion))
  {
    var s, regs, h := RunEngine(lib, pub, ops), Registrations(lib, ops), lib.hash(op.edgeData);
    var e := NewEntry(lib, pub, s.entries, op.now, op.edgeData);
    var graph, keys := EdgeWrites(s.data, h, op.premises, op.conclusion), RunKeys(regs);
    EngineLogs(lib, pub, ops);
    EightBytes();
    RewriteIff(regs, h, op.premises, op.conclusion);
    hide RunEngine, RunKeys, Registrations, HoldsLog, LogsCommits, Numbered, Pow256, EdgeWrites, LogWrites, WriteAt,
        IsGraphKey, Stands, Lookup;
    forall k | IsGraphKey(k)
      ensures Lookup(LogWrites(graph, e, lib), k) == Lookup(EdgeWrites(keys, h, op.premises, op.conclusion), k)
      ensures Lookup(s.data, k) == Lookup(keys, k)
    {
      LogWritesKeepGraphKey(graph, e, lib, k);
      EdgeWritesAt(s.data, h, op.premises, op.conclusion, k);
      EdgeWritesAt(keys, h, op.premises, op.conclusion, k);
    }
  }

  /** In particular a commit that succeeded before changes none if no registration since
      then contradicts it. */
  lemma {:induction false} RecommitOnlyLogs(lib: Primitives, pub: ByteString, ops: seq<CommitOp>, op: CommitOp, i: nat)
    requires op.Succeeds() && |ops| < MAX_INT64
    requires Numbered(Registrations(lib, ops)) && |op.premises| <= Pow256(8)
    requires var regs, reg := Registrations(lib, ops), RegEdge(lib.hash(op.edgeData), op.premises, op.conclusion);
             i < |regs| && regs[i] == reg && forall j | i < j < |regs| :: SameEdgeAgrees(reg, regs[j])
    ensures var s := RunEngine(lib, pub, ops);
            forall k | IsGraphKey(k) :: Lookup(Step(s, lib, pub, op).data, k) == Lookup(s.data, k)
  {
    var regs := Registrations(lib, ops);
    assert ConcludedLast(regs, lib.hash(op.edgeData), op.conclusion, i);
    forall n: nat | n < |op.premises|
      ensures PremiseStands(regs, lib.hash(op.edgeData), n, op.premises[n])
    {
      assert PremiseLast(regs, lib.hash(op.edgeData), n, op.premises[n], i);
    }
    hide RunEngine, Step, Registrations, IsGraphKey, Lookup;
    RecommitIff(lib, pub, ops, op);
  }
}
