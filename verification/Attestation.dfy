/**
 Attestation: is the whole log the anchored one, and who stands behind an edge.

 The history check trusts nothing in the table it reads. What it establishes is stated
 for any table at all, honest or not.
 */
module Attestation {
  import opened Options
  import opened Records
  import opened Merkle
  import opened MerkleTheory
  import opened AppendLog
  import Storage

  // ----- History -----

  /** Row i verifies and names row i - 1, or the sentinel when it is the first. */
  ghost predicate RowChecksOut(scheme: Scheme, rows: Rows, i: nat) {
    && i in rows && VerifyEntry(scheme, rows[i])
    && if i == 0 then rows[i].prevHash == Zero else i - 1 in rows && rows[i].prevHash == rows[i - 1].entryHash
  }

  ghost predicate ChecksOut(scheme: Scheme, rows: Rows, n: nat) {
    && (forall i: nat | i < n :: i in rows)
    && forall i: nat | i < n :: RowChecksOut(scheme, rows, i)
  }

  ghost function TableHashes(rows: Rows, n: nat): (hs: seq<Hash>)
    requires forall i: nat | i < n :: i in rows
    ensures |hs| == n && forall i | 0 <= i < n :: hs[i] == rows[i].entryHash
  {
    seq(n, i requires 0 <= i < n => rows[i].entryHash)
  }

  ghost function TablePayloads(rows: Rows, n: nat): (ps: seq<Blob>)
    requires forall i: nat | i < n :: i in rows
    ensures |ps| == n && forall i | 0 <= i < n :: ps[i] == rows[i].payload
  {
    seq(n, i requires 0 <= i < n => rows[i].payload)
  }

  /** The table's rows are numbered from 0, verify, chain, and hash to the trusted root. */
  ghost predicate AcceptsHistory(scheme: Scheme, rows: Rows, trustedRoot: Hash) {
    ChecksOut(scheme, rows, |rows|) && Root(TableHashes(rows, |rows|)) == trustedRoot
  }

  /** One row as the check demands it: hashed, signed over, and linked to the one before. */
  ghost predicate RowGood(scheme: Scheme, rows: Rows, i: nat) {
    && i in rows && rows[i].entryHash == Digest(rows[i].payload) && SignedOver(scheme, rows[i])
    && (i == 0 ==> rows[i].prevHash == Zero)
    && (i > 0 ==> i - 1 in rows && rows[i].prevHash == rows[i - 1].entryHash)
  }

  ghost predicate TableGood(scheme: Scheme, rows: Rows) {
    && (forall i: nat | i < |rows| :: i in rows)
    && forall i: nat | i < |rows| :: RowGood(scheme, rows, i)
  }

  /** Exactly which tables are accepted. */
  lemma {:induction false} AcceptsHistoryIff(scheme: Scheme, rows: Rows, trustedRoot: Hash)
    ensures AcceptsHistory(scheme, rows, trustedRoot) <==>
              TableGood(scheme, rows) && Root(TableHashes(rows, |rows|)) == trustedRoot
  {
    hide VerifyEntry, SignedOver, Root;
    forall i: nat | i < |rows|
      ensures RowGood(scheme, rows, i) <==> RowChecksOut(scheme, rows, i)
    {
      if i in rows {
        VerifyEntryIff(scheme, rows[i]);
      }
    }
    hide RowGood, RowChecksOut;
  }

  /** A row whose signature does not verify over its own fields is enough: the table is rejected
      whatever the root. */
  lemma {:induction false} ForgedRowRejected(scheme: Scheme, rows: Rows, i: nat, root: Hash)
    requires i < |rows| && i in rows && !SignedOver(scheme, rows[i])
    ensures !AcceptsHistory(scheme, rows, root)
  {
    hide SignedOver, Root;
    AcceptsHistoryIff(scheme, rows, root);
    assert !RowGood(scheme, rows, i);
  }

  /** `verify_history`. */
  method VerifyHistory(log: Log, trustedRoot: Hash) returns (ok: bool)
    ensures ok <==> AcceptsHistory(log.scheme, log.rows, trustedRoot)
    ensures ok <==> TableGood(log.scheme, log.rows) && Root(TableHashes(log.rows, |log.rows|)) == trustedRoot
  {
    AcceptsHistoryIff(log.scheme, log.rows, trustedRoot);
    hide VerifyEntry, TableGood;
    var n := |log.rows|;
    var entryHashes: seq<Hash> := [];
    var prev := Zero;
    for i := 0 to n
      invariant ChecksOut(log.scheme, log.rows, i)
      invariant |entryHashes| == i && forall j | 0 <= j < i :: entryHashes[j] == log.rows[j].entryHash
      invariant prev == if i == 0 then Zero else log.rows[i - 1].entryHash
    {
      var entry := log.Get(i);
      if entry.None? {
        assert !RowChecksOut(log.scheme, log.rows, i);
        return false;
      }
      if !VerifyEntry(log.scheme, entry.value) {
        assert !RowChecksOut(log.scheme, log.rows, i);
        return false;
      }
      if entry.value.prevHash != prev {
        assert !RowChecksOut(log.scheme, log.rows, i);
        return false;
      }
      prev := entry.value.entryHash;
      entryHashes := entryHashes + [entry.value.entryHash];
    }
    var root := RootHash(entryHashes);
    assert entryHashes == TableHashes(log.rows, n);
    ok := root == trustedRoot;
  }

  ghost function PayloadsOf(entries: seq<LogEntry>): (ps: seq<Blob>)
    ensures |ps| == |entries| && forall i | 0 <= i < |entries| :: ps[i] == entries[i].payload
  {
    seq(|entries|, i requires 0 <= i < |entries| => entries[i].payload)
  }

  /** An honest log is accepted against its own root. */
  lemma {:induction false} HonestLogAccepted(scheme: Scheme, rows: Rows, entries: seq<LogEntry>)
    requires Tabulates(rows, entries) && Chained(scheme, entries)
    ensures AcceptsHistory(scheme, rows, Root(HashesOf(entries)))
  {
    hide VerifyEntry;
    TabulatedSize(rows, entries);
    forall i: nat | i < |rows|
      ensures i in rows && RowChecksOut(scheme, rows, i)
    {
      assert rows[i] == entries[i];
    }
    assert TableHashes(rows, |rows|) == HashesOf(entries);
  }

  datatype Appended = Appended(payload: Blob, at: int)

  /** The log after a run of appends. */
  ghost function RunLog(scheme: Scheme, priv: Bytes, pub: Bytes, entries: seq<LogEntry>,
      run: seq<Appended>): seq<LogEntry>
    decreases |run|
  {
    if run == [] then entries
    else RunLog(scheme, priv, pub, entries + [NewEntry(scheme, priv, pub, entries, run[0].at, run[0].payload)],
        run[1..])
  }

  lemma {:induction false} RunKeepsChain(scheme: Scheme, priv: Bytes, pub: Bytes, entries: seq<LogEntry>,
      run: seq<Appended>)
    requires KeyPair(scheme, priv, pub) && Chained(scheme, entries)
    ensures Chained(scheme, RunLog(scheme, priv, pub, entries, run))
    decreases |run|
  {
    if run != [] {
      hide Chained, KeyPair;
      AppendKeepsChain(scheme, priv, pub, entries, run[0].at, run[0].payload);
      RunKeepsChain(scheme, priv, pub, entries + [NewEntry(scheme, priv, pub, entries, run[0].at, run[0].payload)],
          run[1..]);
    }
  }

  lemma {:induction false} RunLogsPayloads(scheme: Scheme, priv: Bytes, pub: Bytes, entries: seq<LogEntry>,
      run: seq<Appended>)
    ensures var after := RunLog(scheme, priv, pub, entries, run);
            && entries <= after && |after| == |entries| + |run|
            && forall i | 0 <= i < |run| :: after[|entries| + i].payload == run[i].payload
    decreases |run|
  {
    if run != [] {
      var more := entries + [NewEntry(scheme, priv, pub, entries, run[0].at, run[0].payload)];
      var after := RunLog(scheme, priv, pub, entries, run);
      RunLogsPayloads(scheme, priv, pub, more, run[1..]);
      assert after == RunLog(scheme, priv, pub, more, run[1..]);
      assert more[|entries|].payload == run[0].payload;
      hide *;
      assert after[|entries|] == more[|entries|];
      forall i | 0 <= i < |run|
        ensures after[|entries| + i].payload == run[i].payload
      {
        if i > 0 {
          assert after[|more| + (i - 1)].payload == run[1..][i - 1].payload;
        }
      }
    }
  }

  /** After any run of appends the history check accepts the log's own root, the payloads
      are the ones appended, and everything logged before is still there. */
  lemma {:induction false} AnyRunAccepted(scheme: Scheme, priv: Bytes, pub: Bytes, entries: seq<LogEntry>,
      run: seq<Appended>, rows: Rows)
    requires KeyPair(scheme, priv, pub) && Chained(scheme, entries)
    requires Tabulates(rows, RunLog(scheme, priv, pub, entries, run))
    ensures var after := RunLog(scheme, priv, pub, entries, run);
            && AcceptsHistory(scheme, rows, Root(HashesOf(after)))
            && entries <= after && |after| == |entries| + |run|
            && forall i | 0 <= i < |run| :: after[|entries| + i].payload == run[i].payload
  {
    hide *;
    RunKeepsChain(scheme, priv, pub, entries, run);
    RunLogsPayloads(scheme, priv, pub, entries, run);
    HonestLogAccepted(scheme, rows, RunLog(scheme, priv, pub, entries, run));
  }

  /** A root and an entry count pin the whole history down: any table the check accepts,
      however it came about, holds the anchored payloads in the anchored order. */
  lemma {:induction false} AcceptedHistoryIsAnchored(scheme: Scheme, rows: Rows, anchored: seq<LogEntry>)
    requires Chained(scheme, anchored)
    requires AcceptsHistory(scheme, rows, Root(HashesOf(anchored)))
    requires |rows| == |anchored|
    ensures TablePayloads(rows, |rows|) == PayloadsOf(anchored)
  {
    RootAndCountDetermine(TableHashes(rows, |rows|), HashesOf(anchored));
    forall i | 0 <= i < |rows|
      ensures rows[i].payload == anchored[i].payload
    {
      assert TableHashes(rows, |rows|)[i] == HashesOf(anchored)[i];
      assert RowChecksOut(scheme, rows, i);
      assert VerifyEntry(scheme, rows[i]) && VerifyEntry(scheme, anchored[i]);
    }
  }

  lemma {:induction false} StoreRunChained(who: Storage.Signer, ops: seq<Storage.Op>)
    requires KeyPair(who.scheme, who.priv, who.pub)
    ensures Chained(who.scheme, Storage.Run(Storage.EMPTY, who, ops).entries)
    decreases |ops|
  {
    if ops != [] {
      var before, op := Storage.Run(Storage.EMPTY, who, ops[..|ops| - 1]), ops[|ops| - 1];
      StoreRunChained(who, ops[..|ops| - 1]);
      hide Chained, KeyPair, NewEntry;
      if op.DoCommit? {
        AppendKeepsChain(who.scheme, who.priv, who.pub, before.entries, op.commit.now, op.commit.data);
      } else if op.DoAppend? {
        AppendKeepsChain(who.scheme, who.priv, who.pub, before.entries, op.now, op.payload);
      }
    }
  }

  /** The same for a whole store, whatever commits, blob writes and appends ran and wherever
      the commits failed. The root that such a run leaves is accepted; and any table of as
      many rows that is accepted against it has, in order, the payloads the run logged. */
  lemma {:induction false} StoreRunPinned(who: Storage.Signer, ops: seq<Storage.Op>, rows: Rows)
    requires KeyPair(who.scheme, who.priv, who.pub)
    ensures var entries := Storage.Run(Storage.EMPTY, who, ops).entries;
            && (Tabulates(rows, entries) ==> AcceptsHistory(who.scheme, rows, Root(HashesOf(entries))))
            && (|rows| == |entries| && AcceptsHistory(who.scheme, rows, Root(HashesOf(entries))) ==>
                  TablePayloads(rows, |rows|) == Storage.Logged(ops))
  {
    var entries := Storage.Run(Storage.EMPTY, who, ops).entries;
    StoreRunChained(who, ops);
    Storage.RunLogs(who, ops);
    hide Chained, KeyPair, Tabulates, Storage.Run, Storage.Logged, Root, RowChecksOut;
    if Tabulates(rows, entries) {
      HonestLogAccepted(who.scheme, rows, entries);
    }
    if |rows| == |entries| && AcceptsHistory(who.scheme, rows, Root(HashesOf(entries))) {
      AcceptedHistoryIsAnchored(who.scheme, rows, entries);
      assert PayloadsOf(entries) == Storage.Logged(ops);
    }
  }

  /** Without the count, acceptance means exactly that the two lists of entry hashes
      complete to the same full tree. */
  lemma {:induction false} AcceptedWithoutCountIff(scheme: Scheme, rows: Rows, anchored: seq<LogEntry>)
    requires ChecksOut(scheme, rows, |rows|)
    ensures AcceptsHistory(scheme, rows, Root(HashesOf(anchored))) <==>
            (|rows| == 0 <==> |anchored| == 0) && Expand(TableHashes(rows, |rows|)) == Expand(HashesOf(anchored))
  {
    RootsEqualIff(TableHashes(rows, |rows|), HashesOf(anchored));
  }

  /** Which does happen: repeating the last payload of a log of odd length leaves its root
      unchanged, so the longer log is accepted against the shorter one's anchor. */
  lemma {:induction false} RepeatedAppendAccepted(scheme: Scheme, priv: Bytes, pub: Bytes, anchored: seq<LogEntry>,
      now: int, rows: Rows)
    requires KeyPair(scheme, priv, pub) && Chained(scheme, anchored)
    requires |anchored| > 1 && |anchored| % 2 == 1
    requires Tabulates(rows, anchored + [NewEntry(scheme, priv, pub, anchored, now, anchored[|anchored| - 1].payload)])
    ensures AcceptsHistory(scheme, rows, Root(HashesOf(anchored)))
    ensures |rows| == |anchored| + 1
  {
    var last := anchored[|anchored| - 1];
    var more := anchored + [NewEntry(scheme, priv, pub, anchored, now, last.payload)];
    assert VerifyEntry(scheme, last);
    AppendKeepsChain(scheme, priv, pub, anchored, now, last.payload);
    hide Chained, KeyPair, Tabulates, AcceptsHistory, Root;
    HonestLogAccepted(scheme, rows, more);
    TabulatedSize(rows, more);
    RepeatedLastSharesRoot(HashesOf(anchored));
    assert HashesOf(more) == HashesOf(anchored) + [HashesOf(anchored)[|anchored| - 1]];
  }

  /** Exactly which anchored logs the root alone pins down: that every accepted table holds the
      anchored payloads is a matter of how the log ends. */
  lemma {:induction false} RootAlonePinsIff(scheme: Scheme, priv: Bytes, pub: Bytes, anchored: seq<LogEntry>)
    requires KeyPair(scheme, priv, pub) && Chained(scheme, anchored)
    ensures RootPins(scheme, anchored) <==> EndsUnrepeated(HashesOf(anchored))
  {
    hide *;
    if EndsUnrepeated(HashesOf(anchored)) {
      UnrepeatedPins(scheme, anchored);
    } else {
      var rows := OtherTable(scheme, priv, pub, anchored);
      TableUnpins(scheme, anchored, rows);
    }
  }

  /** Every table that the check accepts against the log's root holds its payloads. */
  ghost predicate RootPins(scheme: Scheme, anchored: seq<LogEntry>) {
    forall rows | AcceptsHistory(scheme, rows, Root(HashesOf(anchored))) ::
      TablePayloads(rows, |rows|) == PayloadsOf(anchored)
  }

  lemma {:induction false} TableUnpins(scheme: Scheme, anchored: seq<LogEntry>, rows: Rows)
    requires AcceptsHistory(scheme, rows, Root(HashesOf(anchored)))
    requires TablePayloads(rows, |rows|) != PayloadsOf(anchored)
    ensures !RootPins(scheme, anchored)
  {
    hide RowChecksOut, Root;
  }

  lemma {:induction false} UnrepeatedPins(scheme: Scheme, anchored: seq<LogEntry>)
    requires Chained(scheme, anchored) && EndsUnrepeated(HashesOf(anchored))
    ensures RootPins(scheme, anchored)
  {
    hide Chained, RowChecksOut, Root, EndsUnrepeated;
    forall rows | AcceptsHistory(scheme, rows, Root(HashesOf(anchored)))
      ensures TablePayloads(rows, |rows|) == PayloadsOf(anchored)
    {
      UnrepeatedUnique(HashesOf(anchored), TableHashes(rows, |rows|));
      AcceptedHistoryIsAnchored(scheme, rows, anchored);
    }
  }

  ghost function PayloadAt(h: Hash): Blob {
    match h
    case Digest(payload) => payload
    case Zero => EmptyPre
  }

  /** A log of the payloads behind the given hashes. */
  lemma {:induction false} LogOf(scheme: Scheme, priv: Bytes, pub: Bytes, hashes: seq<Hash>)
      returns (entries: seq<LogEntry>)
    requires KeyPair(scheme, priv, pub) && forall h | h in hashes :: h.Digest?
    ensures Chained(scheme, entries) && HashesOf(entries) == hashes
  {
    var run := seq(|hashes|, i requires 0 <= i < |hashes| => Appended(PayloadAt(hashes[i]), 0));
    entries := RunLog(scheme, priv, pub, [], run);
    RunKeepsChain(scheme, priv, pub, [], run);
    RunLogsPayloads(scheme, priv, pub, [], run);
    hide KeyPair, RunLog;
    forall i | 0 <= i < |hashes|
      ensures entries[i].entryHash == hashes[i]
    {
      assert hashes[i] in hashes;
      assert entries[0 + i].payload == run[i].payload;
      assert VerifyEntry(scheme, entries[i]);
    }
  }

  lemma {:induction false} ChainedDigests(scheme: Scheme, entries: seq<LogEntry>)
    requires Chained(scheme, entries)
    ensures forall h | h in HashesOf(entries) :: h.Digest?
  {
    forall h | h in HashesOf(entries)
      ensures h.Digest?
    {
      var i :| 0 <= i < |entries| && HashesOf(entries)[i] == h;
      assert VerifyEntry(scheme, entries[i]);
    }
  }

  /** A log that ends repeated has another log with its root. */
  lemma {:induction false} OtherTable(scheme: Scheme, priv: Bytes, pub: Bytes, anchored: seq<LogEntry>)
      returns (rows: Rows)
    requires KeyPair(scheme, priv, pub) && Chained(scheme, anchored) && !EndsUnrepeated(HashesOf(anchored))
    ensures AcceptsHistory(scheme, rows, Root(HashesOf(anchored)))
    ensures TablePayloads(rows, |rows|) != PayloadsOf(anchored)
  {
    hide KeyPair, EndsUnrepeated, Root;
    var b := OtherList(HashesOf(anchored));
    ChainedDigests(scheme, anchored);
    var entries := LogOf(scheme, priv, pub, b);
    rows := map i | 0 <= i < |entries| :: entries[i];
    HonestLogAccepted(scheme, rows, entries);
    TabulatedSize(rows, entries);
    assert TablePayloads(rows, |rows|) == PayloadsOf(entries);
    OtherPayloads(scheme, entries, anchored);
  }

  lemma {:induction false} OtherPayloads(scheme: Scheme, a: seq<LogEntry>, b: seq<LogEntry>)
    requires Chained(scheme, a) && Chained(scheme, b) && HashesOf(a) != HashesOf(b)
    ensures PayloadsOf(a) != PayloadsOf(b)
  {
    if |a| == |b| {
      var i :| 0 <= i < |a| && HashesOf(a)[i] != HashesOf(b)[i];
      assert VerifyEntry(scheme, a[i]) && VerifyEntry(scheme, b[i]);
      assert PayloadsOf(a)[i] != PayloadsOf(b)[i];
    }
  }

  // ----- Roster and anchor -----

  /** The first agent bound to the key, or None when no binding has it. */
  ghost predicate FirstBound(agent: Option<string>, key: Bytes, bindings: seq<(string, Bytes)>) {
    match agent
    case None => forall b | b in bindings :: b.1 != key
    case Some(name) =>
      exists i :: 0 <= i < |bindings| && bindings[i] == (name, key) && forall j | 0 <= j < i :: bindings[j].1 != key
  }

  datatype Roster = Roster(bindings: seq<(string, Bytes)>) {
    function RosterBytes(): Blob {
      RosterRec(bindings)
    }

    function RosterHash(): Hash {
      HashBytes(RosterBytes())
    }

    /** `identify`: the first agent bound to the key. */
    method Identify(pub: Bytes) returns (agent: Option<string>)
      ensures FirstBound(agent, pub, bindings)
    {
      for i := 0 to |bindings|
        invariant forall j | 0 <= j < i :: bindings[j].1 != pub
      {
        if bindings[i].1 == pub {
          return Some(bindings[i].0);
        }
      }
      agent := None;
    }
  }

  datatype AnchorRecord = AnchorRecord(rootHash: Hash, entryCount: nat, timestamp: int, rosterHash: Hash)

  /** `anchor`. */
  method Anchor(log: Log, roster: Roster, now: int) returns (record: AnchorRecord)
    requires log.Valid()
    ensures record == AnchorRecord(Root(HashesOf(log.entries)), |log.entries|, now, roster.RosterHash())
  {
    var root := log.RootOfLog();
    TabulatedSize(log.rows, log.entries);
    record := AnchorRecord(root, |log.rows|, now, roster.RosterHash());
  }

  /** `commit_roster`: append to an empty log; otherwise change nothing, and succeed only
      when entry 0 is already this roster. */
  method CommitRoster(log: Log, roster: Roster, now: int) returns (e: Option<LogEntry>)
    requires log.Valid() && KeyPair(log.scheme, log.priv, log.pub)
    modifies log
    ensures log.Valid()
    ensures |old(log.entries)| == 0 ==> e.Some? && log.entries == [e.value]
    ensures |old(log.entries)| != 0 ==> log.entries == old(log.entries) && log.rows == old(log.rows)
    ensures e.Some? <==> |old(log.entries)| == 0 || old(log.entries)[0].payload == roster.RosterBytes()
    ensures e.Some? ==> e.value == log.entries[0] && e.value.payload == roster.RosterBytes()
  {
    TabulatedSize(log.rows, log.entries);
    if |log.rows| == 0 {
      var added := log.Append(roster.RosterBytes(), now);
      return Some(added);
    }
    var entry0 := log.Get(0);
    assert VerifyEntry(log.scheme, log.entries[0]);
    if entry0.Some? && entry0.value.entryHash == roster.RosterHash() {
      return entry0;
    }
    e := None;
  }

  /** Trusting an anchor's root and count means trusting its roster: whatever table the
      check accepts for it, entry 0 is the roster that was committed first. */
  lemma {:induction false} AnchorCommitsRoster(scheme: Scheme, rows: Rows, anchored: seq<LogEntry>, roster: Roster,
      record: AnchorRecord)
    requires Chained(scheme, anchored) && |anchored| > 0 && anchored[0].payload == roster.RosterBytes()
    requires record.rootHash == Root(HashesOf(anchored)) && record.entryCount == |anchored|
    requires AcceptsHistory(scheme, rows, record.rootHash) && |rows| == record.entryCount
    ensures 0 in rows && rows[0].payload == RosterRec(roster.bindings)
  {
    AcceptedHistoryIsAnchored(scheme, rows, anchored);
    assert 0 in rows;
    hide Chained, RowChecksOut;
    assert TablePayloads(rows, |rows|)[0] == PayloadsOf(anchored)[0];
  }

  // ----- Edges -----

  datatype AttestationResult = AttestationResult(agent: Option<string>, signatureValid: bool, proofBound: bool,
      proofIntact: bool) {
    predicate Ok() {
      agent.Some? && signatureValid && proofBound && proofIntact
    }
  }

  /** A search of the log can also run into a missing row, which the source does not expect
      and which raises. */
  datatype Search = Found(entry: LogEntry) | NotLogged | MissingRow

  /** Row i is the first with the address, and no row is missing before it. */
  ghost predicate FirstLogged(rows: Rows, h: Hash, i: int) {
    0 <= i < |rows| && i in rows && rows[i].entryHash == h
    && forall j | 0 <= j < i :: j in rows && rows[j].entryHash != h
  }

  /** Row i is missing, and none before it is or has the address. */
  ghost predicate FirstMissing(rows: Rows, h: Hash, i: int) {
    0 <= i < |rows| && i !in rows && forall j | 0 <= j < i :: j in rows && rows[j].entryHash != h
  }

  /** A table of one row that is not numbered 0: searching it raises, whatever the address, and
      the history check rejects it against every root. */
  lemma {:induction false} MisnumberedRow(scheme: Scheme, e: LogEntry, h: Hash, root: Hash)
    ensures FirstMissing(map[1 := e], h, 0) && !AcceptsHistory(scheme, map[1 := e], root)
  {
    var rows: Rows := map[1 := e];
    assert |rows| == 1 && 0 !in rows;
  }

  /** `_find_log_entry`, on any table: the first row with the edge's address, unless a row is
      missing before it. */
  method FindLogEntry(log: Log, edgeHash: Hash) returns (s: Search)
    ensures s.Found? ==> exists i :: FirstLogged(log.rows, edgeHash, i) && log.rows[i] == s.entry
    ensures s.NotLogged? <==> forall i | 0 <= i < |log.rows| :: i in log.rows && log.rows[i].entryHash != edgeHash
    ensures s.MissingRow? <==> exists i :: FirstMissing(log.rows, edgeHash, i)
  {
    for i := 0 to |log.rows|
      invariant forall j | 0 <= j < i :: j in log.rows && log.rows[j].entryHash != edgeHash
    {
      var entry := log.Get(i);
      if entry.None? {
        assert FirstMissing(log.rows, edgeHash, i);
        return MissingRow;
      }
      if entry.value.entryHash == edgeHash {
        return Found(entry.value);
      }
    }
    s := NotLogged;
  }

  lemma {:induction false} SearchOfHonestLog(s: Search, rows: Rows, entries: seq<LogEntry>, scheme: Scheme, edge: Edge)
    requires Tabulates(rows, entries) && Chained(scheme, entries)
    requires s.Found? ==>
            exists i :: 0 <= i < |rows| && i in rows && rows[i] == s.entry && s.entry.entryHash == EdgeHash(edge)
    requires s.NotLogged? ==> forall i | 0 <= i < |rows| :: i in rows && rows[i].entryHash != EdgeHash(edge)
    requires s.MissingRow? ==> exists i :: 0 <= i < |rows| && i !in rows
    ensures !s.MissingRow?
    ensures (s.Found? && VerifyEntry(scheme, s.entry)) <==>
            exists i :: 0 <= i < |entries| && entries[i].payload == EdgeRec(edge)
  {
    TabulatedSize(rows, entries);
    assert forall i | 0 <= i < |entries| :: VerifyEntry(scheme, entries[i]) && rows[i] == entries[i];
  }

  /** What the verdict on an edge means, on any table: None exactly when the log search raises;
      the first agent bound to the edge's key; a signature is valid exactly when the first
      row with the edge's address is hashed and signed over; and the proof guarantees are
      what the object store answers. */
  ghost predicate Attests(r: Option<AttestationResult>, edge: Edge, scheme: Scheme, rows: Rows, objects: Objects,
      roster: Roster) {
    && (r.None? <==> exists i :: FirstMissing(rows, EdgeHash(edge), i))
    && (r.Some? ==>
          && FirstBound(r.value.agent, edge.signer, roster.bindings)
          && (r.value.signatureValid <==> exists i :: FirstSigned(scheme, rows, EdgeHash(edge), i))
          && (edge.proofHash.None? ==> r.value.proofBound && r.value.proofIntact)
          && (edge.proofHash.Some? ==>
                && (r.value.proofBound <==> edge.proofHash.value in objects)
                && (r.value.proofIntact <==>
                     edge.proofHash.value in objects &&
                     HashBytes(objects[edge.proofHash.value]) == edge.proofHash.value)))
  }

  ghost predicate FirstSigned(scheme: Scheme, rows: Rows, h: Hash, i: int) {
    FirstLogged(rows, h, i) && rows[i].entryHash == Digest(rows[i].payload) && SignedOver(scheme, rows[i])
  }

  lemma {:induction false} FirstSignedIff(scheme: Scheme, rows: Rows, h: Hash)
    ensures (exists i :: FirstSigned(scheme, rows, h, i)) <==>
            exists i :: FirstLogged(rows, h, i) && VerifyEntry(scheme, rows[i])
  {
    hide VerifyEntry, SignedOver;
    forall i | FirstLogged(rows, h, i)
      ensures FirstSigned(scheme, rows, h, i) <==> VerifyEntry(scheme, rows[i])
    {
      VerifyEntryIff(scheme, rows[i]);
    }
    if i :| FirstSigned(scheme, rows, h, i) {
      assert FirstLogged(rows, h, i) && VerifyEntry(scheme, rows[i]);
    }
    if i :| FirstLogged(rows, h, i) && VerifyEntry(scheme, rows[i]) {
      assert FirstSigned(scheme, rows, h, i);
    }
  }

  lemma {:induction false} FirstWithHash(rows: Rows, h: Hash, i: nat) returns (j: nat)
    requires i < |rows| && i in rows && rows[i].entryHash == h
    requires forall k | 0 <= k < |rows| :: k in rows
    ensures FirstLogged(rows, h, j)
  {
    if k: nat :| k < i && rows[k].entryHash == h {
      j := FirstWithHash(rows, h, k);
    } else {
      j := i;
    }
  }

  /** On a log written by appends a logged edge is found and its signature is valid. */
  lemma {:induction false} LoggedIsSigned(scheme: Scheme, rows: Rows, entries: seq<LogEntry>, edge: Edge, i: nat)
    requires Tabulates(rows, entries) && Chained(scheme, entries)
    requires i < |entries| && entries[i].payload == EdgeRec(edge)
    ensures exists j :: FirstSigned(scheme, rows, EdgeHash(edge), j)
    ensures !exists j :: FirstMissing(rows, EdgeHash(edge), j)
  {
    hide SignedOver;
    TabulatedSize(rows, entries);
    forall k | 0 <= k < |entries|
      ensures rows[k] == entries[k] && rows[k].entryHash == Digest(rows[k].payload) && SignedOver(scheme, rows[k])
    {
      VerifyEntryIff(scheme, entries[k]);
    }
    hide Chained;
    var j := FirstWithHash(rows, EdgeHash(edge), i);
    assert FirstSigned(scheme, rows, EdgeHash(edge), j);
  }

  /** `verify_edge_attestation`: None exactly when the log search raises. Provenance is the first
      agent bound to the edge's key and the binding guarantees are what the object store
      answers. On a log written by appends it never raises, and the signature guarantee holds
      exactly for the edges whose record was logged. */
  method VerifyEdgeAttestation(edge: Edge, log: Log, objects: Objects, roster: Roster)
      returns (r: Option<AttestationResult>)
    ensures Attests(r, edge, log.scheme, log.rows, objects, roster)
    ensures log.Valid() ==> r.Some?
    ensures r.Some? && log.Valid() ==>
              (r.value.signatureValid <==>
                  exists i :: 0 <= i < |log.entries| && log.entries[i].payload == EdgeRec(edge))
    ensures r.Some? && log.Valid() ==>
              (r.value.Ok() <==>
                && (exists b :: b in roster.bindings && b.1 == edge.signer)
                && (exists i :: 0 <= i < |log.entries| && log.entries[i].payload == EdgeRec(edge))
                && (edge.proofHash.Some? ==>
                      edge.proofHash.value in objects &&
                          HashBytes(objects[edge.proofHash.value]) == edge.proofHash.value))
  {
    FirstSignedIff(log.scheme, log.rows, EdgeHash(edge));
    var agent := roster.Identify(edge.signer);
    var found := FindLogEntry(log, EdgeHash(edge));
    if log.Valid() {
      SearchOfHonestLog(found, log.rows, log.entries, log.scheme, edge);
    }
    if found.MissingRow? {
      return None;
    }
    var signatureValid := found.Found? && VerifyEntry(log.scheme, found.entry);
    if edge.proofHash.None? {
      return Some(AttestationResult(agent, signatureValid, true, true));
    }
    var h := edge.proofHash.value;
    var blob := if h in objects then Some(objects[h]) else None;
    r := Some(AttestationResult(agent, signatureValid, blob.Some?, blob.Some? && HashBytes(blob.value) == h));
  }
}
