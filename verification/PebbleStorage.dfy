/**
 The key-value storage engine's log and atomic commit.

 The log lives in the same byte map as the graph index: one key per entry, one per entry
 hash, and a counter. A commit writes graph and log into one indexed batch and commits the
 batch; whatever fails before that leaves the map untouched.
 */
module PebbleStorage {
  import opened Options
  import opened ByteKeys
  import opened GraphTables
  import opened PebbleIndex

  datatype LogEntry = LogEntry(
    seqno: nat, timestamp: int, signer: ByteString, entryHash: Hash34, prevHash: Hash34, signature: ByteString,
        payload: ByteString)

  /** Library code the engine calls: content hashing, signing of the five entry fields with
      the engine's private key, and the entry codec. */
  datatype Primitives = Primitives(
    hash: ByteString -> Hash34,
    sign: (nat, int, ByteString, Hash34, Hash34) -> ByteString,
    encode: LogEntry -> ByteString,
    decode: ByteString -> Option<LogEntry>)

  ghost predicate CodecRoundTrips(lib: Primitives) {
    forall e :: lib.decode(lib.encode(e)) == Some(e)
  }

  const GENESIS: Hash34 := seq(34, _ => 0)

  // ----- Keys -----

  const ENTRY: Byte := 'l' as int
  const ENTRY_HASH: Byte := 'h' as int
  const LOG_LEN: ByteString := [109, 108, 111, 103, 95, 108, 101, 110] // "mlog_len"

  function EntryKey(seqno: nat): ByteString { [ENTRY] + BigEndian(seqno, 8) }

  function EntryHashKey(seqno: nat): ByteString { [ENTRY_HASH] + BigEndian(seqno, 8) }

  /** The log's keys, byte for byte: l and the number, h and the number, and mlog_len. */
  lemma {:induction false} LogKeyLayout(i: nat)
    ensures EntryKey(i) == [0x6c] + BigEndian(i, 8) && EntryHashKey(i) == [0x68] + BigEndian(i, 8)
    ensures LOG_LEN == [0x6d, 0x6c, 0x6f, 0x67, 0x5f, 0x6c, 0x65, 0x6e]
  {
  }

  lemma {:induction false} LogKeysDistinct(i: nat, j: nat)
    requires i < Pow256(8) && j < Pow256(8)
    ensures EntryKey(i) == EntryKey(j) <==> i == j
    ensures EntryHashKey(i) == EntryHashKey(j) <==> i == j
    ensures EntryKey(i) != EntryHashKey(j) && EntryKey(i) != LOG_LEN && EntryHashKey(i) != LOG_LEN
    ensures !IsGraphKey(EntryKey(i)) && !IsGraphKey(EntryHashKey(i)) && !IsGraphKey(LOG_LEN)
  {
    BigEndianOrder(i, j, 8);
    assert EntryKey(i)[1..] == BigEndian(i, 8) && EntryKey(j)[1..] == BigEndian(j, 8);
    assert EntryHashKey(i)[1..] == BigEndian(i, 8) && EntryHashKey(j)[1..] == BigEndian(j, 8);
  }

  // ----- The log in the map -----

  function CountIn(m: KeyMap): nat {
    if LOG_LEN in m then FromBigEndian(m[LOG_LEN]) else 0
  }

  const MAX_INT64: int := 0x7FFF_FFFF_FFFF_FFFF

  lemma {:induction false} EightBytes()
    ensures Pow256(8) == 0x1_0000_0000_0000_0000
  {
    assert Pow256(4) == 0x1_0000_0000;
  }

  /** The map holds exactly these log entries: the count, each entry, each entry's hash, and
      no entry beyond the count. */
  ghost predicate HoldsLog(m: KeyMap, entries: seq<LogEntry>, lib: Primitives) {
    && |entries| <= MAX_INT64
    && CountIn(m) == |entries|
    && (forall i: nat | |entries| <= i < 0x1_0000_0000_0000_0000 :: EntryKey(i) !in m)
    && forall i | 0 <= i < |entries| ::
         && Lookup(m, EntryKey(i)) == Some(lib.encode(entries[i]))
         && Lookup(m, EntryHashKey(i)) == Some(entries[i].entryHash)
  }

  function NewEntry(lib: Primitives, pub: ByteString, entries: seq<LogEntry>, now: int, payload: ByteString): LogEntry {
    var n, h := |entries|, lib.hash(payload);
    var prev := if n == 0 then GENESIS else entries[n - 1].entryHash;
    LogEntry(n, now, pub, h, prev, lib.sign(n, now, pub, h, prev), payload)
  }

  function LogWrites(m: KeyMap, e: LogEntry, lib: Primitives): KeyMap {
    m[EntryKey(e.seqno) := lib.encode(e)][EntryHashKey(e.seqno) := e.entryHash][LOG_LEN := BigEndian(e.seqno + 1, 8)]
  }

  /** The three log writes extend the log by one entry and touch no graph key. */
  lemma {:induction false} LogWritesExtend(m: KeyMap, entries: seq<LogEntry>, e: LogEntry, lib: Primitives)
    requires HoldsLog(m, entries, lib) && e.seqno == |entries| && |entries| < MAX_INT64
    ensures HoldsLog(LogWrites(m, e, lib), entries + [e], lib)
  {
    EightBytes();
    var m', more := LogWrites(m, e, lib), entries + [e];
    BigEndianRoundTrip(e.seqno + 1, 8);
    LogKeysDistinct(e.seqno, e.seqno);
    forall i: nat | |more| <= i < 0x1_0000_0000_0000_0000
      ensures EntryKey(i) !in m'
    {
      LogKeysDistinct(i, e.seqno);
    }
    forall i | 0 <= i < |more|
      ensures Lookup(m', EntryKey(i)) == Some(lib.encode(more[i]))
      ensures Lookup(m', EntryHashKey(i)) == Some(more[i].entryHash)
    {
      LogKeysDistinct(i, e.seqno);
      LogKeysDistinct(e.seqno, i);
    }
  }

  lemma {:induction false} LogWritesKeepGraph(m: KeyMap, e: LogEntry, lib: Primitives, t: Tables<Hash34>)
    requires Represents(m, t) && e.seqno < Pow256(8)
    ensures Represents(LogWrites(m, e, lib), t)
  {
    LogKeysDistinct(e.seqno, e.seqno);
    forall k | IsGraphKey(k)
      ensures Lookup(LogWrites(m, e, lib), k) == GraphValue(t, k)
    {
      assert Lookup(m, k) == GraphValue(t, k);
    }
  }

  /** Graph writes touch no log key. */
  lemma {:induction false} EdgeWritesKeepLog(m: KeyMap, edge: Hash34, ps: seq<Hash34>, conclusion: Hash34,
      entries: seq<LogEntry>, lib: Primitives)
    requires HoldsLog(m, entries, lib) && |ps| <= Pow256(8)
    ensures HoldsLog(EdgeWrites(m, edge, ps, conclusion), entries, lib)
  {
    hide EdgeWrites, WriteAt, IsGraphKey;
    EightBytes();
    forall k | !IsGraphKey(k)
      ensures Lookup(EdgeWrites(m, edge, ps, conclusion), k) == Lookup(m, k)
    {
      EdgeWritesAt(m, edge, ps, conclusion, k);
      OnlyGraphKeysWritten(edge, ps, conclusion, k);
    }
    LogKeysDistinct(0, 0);
    forall i: nat | |entries| <= i < 0x1_0000_0000_0000_0000
      ensures EntryKey(i) !in EdgeWrites(m, edge, ps, conclusion)
    {
      LogKeysDistinct(i, i);
      assert Lookup(EdgeWrites(m, edge, ps, conclusion), EntryKey(i)) == Lookup(m, EntryKey(i));
    }
    assert Lookup(EdgeWrites(m, edge, ps, conclusion), LOG_LEN) == Lookup(m, LOG_LEN);
    forall i | 0 <= i < |entries|
      ensures Lookup(EdgeWrites(m, edge, ps, conclusion), EntryKey(i)) == Some(lib.encode(entries[i]))
      ensures Lookup(EdgeWrites(m, edge, ps, conclusion), EntryHashKey(i)) == Some(entries[i].entryHash)
    {
      LogKeysDistinct(i, i);
    }
  }

  lemma {:induction false} OnlyGraphKeysWritten(edge: Hash34, ps: seq<Hash34>, conclusion: Hash34, k: ByteString)
    ensures WriteAt(edge, ps, conclusion, k).Some? ==> IsGraphKey(k)
  {
  }

  // ----- The batch -----

  /** What a batch does not write, the database answers. */
  lemma {:induction false} OverlayWrites(data: KeyMap, pending: KeyMap, edge: Hash34, ps: seq<Hash34>,
      conclusion: Hash34)
    requires |ps| <= Pow256(8)
    ensures data + EdgeWrites(pending, edge, ps, conclusion) == EdgeWrites(data + pending, edge, ps, conclusion)
  {
    hide EdgeWrites, WriteAt;
    forall k
      ensures Lookup(data + EdgeWrites(pending, edge, ps, conclusion), k) ==
              Lookup(EdgeWrites(data + pending, edge, ps, conclusion), k)
    {
      EdgeWritesAt(pending, edge, ps, conclusion, k);
      EdgeWritesAt(data + pending, edge, ps, conclusion, k);
    }
    SameLookups(data + EdgeWrites(pending, edge, ps, conclusion), EdgeWrites(data + pending, edge, ps, conclusion));
  }

  lemma {:induction false} SameLookups(a: KeyMap, b: KeyMap)
    requires forall k :: Lookup(a, k) == Lookup(b, k)
    ensures a == b
  {
    forall k
      ensures k in a <==> k in b
      ensures k in a ==> a[k] == b[k]
    {
      assert Lookup(a, k) == Lookup(b, k);
    }
  }

  /** `lenInBatch`. */
  method LenInBatch(b: IndexedBatch) returns (n: nat)
    ensures n == CountIn(b.View())
  {
    var val := b.Get(LOG_LEN);
    n := if val.None? then 0 else FromBigEndian(val.value);
  }

  /** `appendInBatch`, with `prevHashInBatch`: the entry is numbered and chained through the
      batch's own view. */
  method AppendInBatch(b: IndexedBatch, lib: Primitives, pub: ByteString, payload: ByteString, now: int,
      ghost entries: seq<LogEntry>) returns (e: LogEntry)
    requires HoldsLog(b.View(), entries, lib)
    modifies b
    ensures e == NewEntry(lib, pub, entries, now, payload)
    ensures b.pending == LogWrites(old(b.pending), e, lib)
  {
    var seqno := LenInBatch(b);
    var entryHash := lib.hash(payload);
    var prevHash := GENESIS;
    if seqno != 0 {
      assert Lookup(b.View(), EntryHashKey(seqno - 1)) == Some(entries[seqno - 1].entryHash);
      var val := b.Get(EntryHashKey(seqno - 1));
      prevHash := val.value;
    }
    e := LogEntry(seqno, now, pub, entryHash, prevHash, lib.sign(seqno, now, pub, entryHash, prevHash), payload);
    b.Set(EntryKey(seqno), lib.encode(e));
    b.Set(EntryHashKey(seqno), entryHash);
    b.Set(LOG_LEN, BigEndian(seqno + 1, 8));
  }

  // ----- Reading the log back -----

  /** `Len`. */
  method Len(db: PebbleDb, lib: Primitives, ghost entries: seq<LogEntry>) returns (n: nat)
    requires HoldsLog(db.data, entries, lib)
    ensures n == |entries|
  {
    n := CountIn(db.data);
  }

  /** `Get`: any 64-bit number may be asked for; a negative one wraps to a huge key. */
  method Get(db: PebbleDb, lib: Primitives, seqno: int, ghost entries: seq<LogEntry>) returns (e: Option<LogEntry>)
    requires HoldsLog(db.data, entries, lib) && CodecRoundTrips(lib)
    requires -MAX_INT64 - 1 <= seqno <= MAX_INT64
    ensures e == if 0 <= seqno < |entries| then Some(entries[seqno]) else None
  {
    hide EntryKey, EntryHashKey;
    var unsigned: nat := if seqno < 0 then seqno + 0x1_0000_0000_0000_0000 else seqno;
    var key := EntryKey(unsigned);
    assert 0 <= seqno < |entries| ==> Lookup(db.data, EntryKey(seqno)) == Some(lib.encode(entries[seqno]));
    if key !in db.data {
      return None;
    }
    e := lib.decode(db.data[key]);
  }

  /** `entryHashes`. */
  method EntryHashes(db: PebbleDb, lib: Primitives, ghost entries: seq<LogEntry>) returns (hs: seq<ByteString>)
    requires HoldsLog(db.data, entries, lib)
    ensures |hs| == |entries| && forall i | 0 <= i < |hs| :: hs[i] == entries[i].entryHash
  {
    var n := Len(db, lib, entries);
    hs := [];
    for i := 0 to n
      invariant |hs| == i && forall j | 0 <= j < i :: hs[j] == entries[j].entryHash
    {
      assert Lookup(db.data, EntryHashKey(i)) == Some(entries[i].entryHash);
      hs := hs + [db.data[EntryHashKey(i)]];
    }
  }

  // ----- Commit -----

  /** Where a commit is made to fail: at a blob, in the batch or its test hook, or at the
      batch's own commit. */
  datatype Fault = NoFault | AtEdgeBlob | AtProofBlob | InBatch | AtCommit

  predicate Fails(fault: Fault, proof: Option<ByteString>) {
    fault != NoFault && (fault == AtProofBlob ==> proof.Some?)
  }

  datatype CommitOp = CommitOp(
    premises: seq<Hash34>, conclusion: Hash34, edgeData: ByteString, proof: Option<ByteString>, now: int,
        fault: Fault) {
    predicate Succeeds() {
      !Fails(fault, proof)
    }
  }

  /** What a fault fails: every commit, except that one at the proof needs a proof to fail at. */
  lemma {:induction false} SucceedsIff(op: CommitOp)
    ensures op.Succeeds() <==> op.fault == NoFault || (op.fault == AtProofBlob && op.proof == None)
  {
  }

  type BlobMap = map<Hash34, ByteString>

  datatype EngineState = EngineState(objects: BlobMap, data: KeyMap, entries: seq<LogEntry>)

  /** The blobs a commit gets to write before its fault, if any. */
  function PutBlobs(objects: BlobMap, lib: Primitives, op: CommitOp): BlobMap {
    if op.fault == AtEdgeBlob then objects
    else
      var first := InsertOrIgnore(objects, lib.hash(op.edgeData), op.edgeData);
      if op.proof.None? || op.fault == AtProofBlob then first
      else InsertOrIgnore(first, lib.hash(op.proof.value), op.proof.value)
  }

  /** The effect of one commit: all of it, or blobs only. */
  function Step(s: EngineState, lib: Primitives, pub: ByteString, op: CommitOp): EngineState {
    var objects := PutBlobs(s.objects, lib, op);
    if !op.Succeeds() then s.(objects := objects)
    else
      var e := NewEntry(lib, pub, s.entries, op.now, op.edgeData);
      var graph := EdgeWrites(s.data, lib.hash(op.edgeData), op.premises, op.conclusion);
      EngineState(objects, LogWrites(graph, e, lib), s.entries + [e])
  }

  class Engine {
    const db: PebbleDb
    const lib: Primitives
    const pub: ByteString
    var objects: BlobMap

    constructor (lib: Primitives, pub: ByteString)
      ensures this.lib == lib && this.pub == pub && objects == map[]
      ensures fresh(db) && db.data == map[]
    {
      this.lib, this.pub, objects := lib, pub, map[];
      db := new PebbleDb();
    }

    method PutObject(data: ByteString)
      modifies this
      ensures objects == InsertOrIgnore(old(objects), lib.hash(data), data)
    {
      objects := InsertOrIgnore(objects, lib.hash(data), data);
    }

    /**
     `CommitEdgeTx`. The state changes by exactly one step. On success the log is longer by
     one chained entry, and a map that represented the relational tables represents them
     with the edge registered; on failure, wherever it strikes, the map is not changed.
     */
    method CommitEdgeTx(op: CommitOp, ghost t: Tables<Hash34>, ghost entries: seq<LogEntry>)
        returns (r: Option<(Hash34, LogEntry)>)
      requires HoldsLog(db.data, entries, lib) && |entries| < MAX_INT64 && |op.premises| <= MAX_INT64
      modifies this, db
      ensures r.Some? <==> op.Succeeds()
      ensures EngineState(objects, db.data, if r.Some? then entries + [r.value.1] else entries) ==
              Step(EngineState(old(objects), old(db.data), entries), lib, pub, op)
      ensures r.Some? ==> r.value == (lib.hash(op.edgeData), NewEntry(lib, pub, entries, op.now, op.edgeData))
      ensures r.Some? ==> HoldsLog(db.data, entries + [r.value.1], lib)
      ensures r.Some? && Represents(old(db.data), t) && Agrees(t, lib.hash(op.edgeData), op.premises, op.conclusion) ==>
                Represents(db.data, RegisterEdge(t, lib.hash(op.edgeData), op.premises, op.conclusion))
    {
      hide Represents, HoldsLog, Agrees, EdgeWrites, LogWrites, NewEntry, Pow256;
      EightBytes();
      var edgeHash := lib.hash(op.edgeData);
      if op.fault == AtEdgeBlob {
        return None;
      }
      PutObject(op.edgeData);
      if op.proof.Some? {
        if op.fault == AtProofBlob {
          return None;
        }
        PutObject(op.proof.value);
      }
      var b := new IndexedBatch(db);
      ghost var data := db.data;
      ghost var graph := EdgeWrites(data, edgeHash, op.premises, op.conclusion);
      RegisterEdgeInBatch(b, edgeHash, op.premises, op.conclusion);
      OverlayWrites(data, map[], edgeHash, op.premises, op.conclusion);
      assert b.View() == graph by { assert data + map[] == data; }
      EdgeWritesKeepLog(data, edgeHash, op.premises, op.conclusion, entries, lib);
      ghost var graphWritten := b.pending;
      var entry := AppendInBatch(b, lib, pub, op.edgeData, op.now, entries);
      OverlayLogWrites(data, graphWritten, entry, lib);
      if op.fault == InBatch {
        return None;
      }
      if op.fault == AtCommit {
        return None;
      }
      EntryNumber(lib, pub, entries, op.now, op.edgeData);
      LogWritesExtend(graph, entries, entry, lib);
      CommitRefines(data, t, edgeHash, op.premises, op.conclusion, entry, lib);
      b.Commit();
      r := Some((edgeHash, entry));
    }
  }

  /** A commit's writes, on a map that represents the tables, register the edge in them. */
  lemma {:induction false} CommitRefines(m: KeyMap, t: Tables<Hash34>, edge: Hash34, ps: seq<Hash34>,
      conclusion: Hash34, e: LogEntry, lib: Primitives)
    requires |ps| <= MAX_INT64 && e.seqno < Pow256(8)
    ensures Represents(m, t) && Agrees(t, edge, ps, conclusion) ==>
              Represents(LogWrites(EdgeWrites(m, edge, ps, conclusion), e, lib), RegisterEdge(t, edge, ps, conclusion))
  {
    EightBytes();
    hide Represents, Agrees, EdgeWrites, LogWrites, RegisterEdge, Pow256;
    if Represents(m, t) && Agrees(t, edge, ps, conclusion) {
      RegisterRefines(m, t, edge, ps, conclusion);
      LogWritesKeepGraph(EdgeWrites(m, edge, ps, conclusion), e, lib, RegisterEdge(t, edge, ps, conclusion));
    }
  }

  lemma {:induction false} OverlayLogWrites(data: KeyMap, pending: KeyMap, e: LogEntry, lib: Primitives)
    ensures data + LogWrites(pending, e, lib) == LogWrites(data + pending, e, lib)
  {
  }

  lemma {:induction false} EntryNumber(lib: Primitives, pub: ByteString, entries: seq<LogEntry>, now: int,
      payload: ByteString)
    ensures NewEntry(lib, pub, entries, now, payload).seqno == |entries|
  {
  }
}
