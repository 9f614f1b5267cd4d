/**
 The signed, hash-chained append log.

 The log is the SQL table `log`, a map from sequence number to row. Signing is abstract:
 a scheme is any pair of functions, and a key pair of it is one whose signatures verify.
 The clock is a parameter.
 */
module AppendLog {
  import opened Options
  import opened Records
  import opened Merkle

  /** The 5-tuple whose canonical encoding is signed. */
  datatype Message = Message(seqno: int, timestamp: int, signer: Bytes, entryHash: Hash, prevHash: Hash)

  datatype Scheme = Scheme(sign: (Bytes, Message) -> Bytes, verify: (Bytes, Message, Bytes) -> bool)

  ghost predicate KeyPair(scheme: Scheme, priv: Bytes, pub: Bytes) {
    forall m :: scheme.verify(pub, m, scheme.sign(priv, m))
  }

  datatype LogEntry = LogEntry(
    seqno: int, timestamp: int, signer: Bytes, entryHash: Hash, prevHash: Hash, signature: Bytes, payload: Blob)

  type Rows = map<int, LogEntry>

  function MessageOf(e: LogEntry): Message {
    Message(e.seqno, e.timestamp, e.signer, e.entryHash, e.prevHash)
  }

  /** `verify_entry`: the hash is the payload's and the signature covers the metadata. */
  predicate VerifyEntry(scheme: Scheme, e: LogEntry) {
    HashBytes(e.payload) == e.entryHash && scheme.verify(e.signer, MessageOf(e), e.signature)
  }

  /** The signature is the signer's, over the number, time, signer, hash and predecessor. */
  ghost predicate SignedOver(scheme: Scheme, e: LogEntry) {
    scheme.verify(e.signer, Message(e.seqno, e.timestamp, e.signer, e.entryHash, e.prevHash), e.signature)
  }

  /** An entry verifies exactly when its hash is its payload's and it is signed over. */
  lemma {:induction false} VerifyEntryIff(scheme: Scheme, e: LogEntry)
    ensures VerifyEntry(scheme, e) <==> e.entryHash == Digest(e.payload) && SignedOver(scheme, e)
  {
  }

  function HashesOf(entries: seq<LogEntry>): (hs: seq<Hash>)
    ensures |hs| == |entries|
    ensures forall i | 0 <= i < |entries| :: hs[i] == entries[i].entryHash
  {
    seq(|entries|, i requires 0 <= i < |entries| => entries[i].entryHash)
  }

  /** What entry `i` must name as its predecessor: genesis names the all-zero sentinel. */
  function PrevHash(entries: seq<LogEntry>, i: nat): Hash
    requires i <= |entries|
  {
    if i == 0 then Zero else entries[i - 1].entryHash
  }

  /** Every entry verifies, sits at its own number, and names its predecessor. */
  ghost predicate Chained(scheme: Scheme, entries: seq<LogEntry>) {
    forall i | 0 <= i < |entries| ::
      entries[i].seqno == i && VerifyEntry(scheme, entries[i]) && entries[i].prevHash == PrevHash(entries, i)
  }

  function NewEntry(scheme: Scheme, priv: Bytes, pub: Bytes, entries: seq<LogEntry>, now: int,
      payload: Blob): LogEntry {
    var h, prev := HashBytes(payload), PrevHash(entries, |entries|);
    LogEntry(|entries|, now, pub, h, prev, scheme.sign(priv, Message(|entries|, now, pub, h, prev)), payload)
  }

  /** What an append writes, field by field. */
  lemma {:induction false} NewEntryIs(scheme: Scheme, priv: Bytes, pub: Bytes, entries: seq<LogEntry>, now: int,
      payload: Blob)
    ensures var e := NewEntry(scheme, priv, pub, entries, now, payload);
            && e.seqno == |entries| && e.timestamp == now && e.signer == pub && e.payload == payload
            && e.entryHash == Digest(payload)
            && e.prevHash == (if entries == [] then Zero else entries[|entries| - 1].entryHash)
            && e.signature == scheme.sign(priv, Message(e.seqno, now, pub, e.entryHash, e.prevHash))
  {
  }

  /** The table holds exactly the given entries, numbered from 0. */
  ghost predicate Tabulates(rows: Rows, entries: seq<LogEntry>) {
    && (forall i :: i in rows <==> 0 <= i < |entries|)
    && forall i | 0 <= i < |entries| :: rows[i] == entries[i]
  }

  lemma {:induction false} TabulatedSize(rows: Rows, entries: seq<LogEntry>)
    requires Tabulates(rows, entries)
    ensures |rows| == |entries|
  {
    if |entries| > 0 {
      var n := |entries| - 1;
      TabulatedSize(rows - {n}, entries[..n]);
      assert rows == (rows - {n})[n := rows[n]];
    } else {
      assert forall i :: i !in rows;
    }
  }

  class Log {
    const scheme: Scheme
    const priv: Bytes
    const pub: Bytes
    var rows: Rows
    ghost var entries: seq<LogEntry>

    /** A log written only by `Append`. */
    ghost predicate Valid()
      reads this
    {
      Tabulates(rows, entries) && Chained(scheme, entries)
    }

    constructor (scheme: Scheme, priv: Bytes, pub: Bytes)
      ensures Valid() && entries == []
      ensures this.scheme == scheme && this.priv == priv && this.pub == pub
    {
      this.scheme, this.priv, this.pub := scheme, priv, pub;
      rows, entries := map[], [];
    }

    method Append(payload: Blob, now: int) returns (e: LogEntry)
      requires Valid() && KeyPair(scheme, priv, pub)
      modifies this
      ensures Valid()
      ensures e == NewEntry(scheme, priv, pub, old(entries), now, payload)
      ensures entries == old(entries) + [e]
      ensures rows == old(rows)[|old(entries)| := e]
    {
      hide Chained, KeyPair;
      TabulatedSize(rows, entries);
      var seqno := |rows|;
      var entryHash := HashBytes(payload);
      var prevHash := if seqno == 0 then Zero else rows[seqno - 1].entryHash;
      var signature := scheme.sign(priv, Message(seqno, now, pub, entryHash, prevHash));
      e := LogEntry(seqno, now, pub, entryHash, prevHash, signature, payload);
      AppendKeepsChain(scheme, priv, pub, entries, now, payload);
      AppendKeepsTable(rows, entries, e);
      rows := rows[seqno := e];
      entries := entries + [e];
    }

    /** `get`: any number may be asked for. */
    method Get(seqno: int) returns (e: Option<LogEntry>)
      ensures e == if seqno in rows then Some(rows[seqno]) else None
    {
      e := if seqno in rows then Some(rows[seqno]) else None;
    }

    method EntryHashes() returns (hs: seq<Hash>)
      requires Valid()
      ensures hs == HashesOf(entries)
    {
      hide Chained;
      TabulatedSize(rows, entries);
      hs := [];
      for i := 0 to |rows|
        invariant |hs| == i && forall j | 0 <= j < i :: hs[j] == entries[j].entryHash
      {
        hs := hs + [rows[i].entryHash];
      }
    }

    method RootOfLog() returns (root: Hash)
      requires Valid()
      ensures root == Root(HashesOf(entries))
    {
      var hs := EntryHashes();
      root := RootHash(hs);
    }

    /** `get_inclusion_proof`: None for a number outside the log. */
    method GetInclusionProof(seqno: int) returns (proof: Option<InclusionProof>)
      requires Valid()
      ensures proof.Some? <==> 0 <= seqno < |entries|
      ensures proof.Some? ==> proof.value.leafHash == entries[seqno].entryHash && proof.value.index == seqno
      ensures proof.Some? ==> Verifies(proof.value, Root(HashesOf(entries)))
    {
      var hs := EntryHashes();
      proof := BuildInclusionProof(hs, seqno);
    }
  }

  lemma {:induction false} AppendKeepsTable(rows: Rows, entries: seq<LogEntry>, e: LogEntry)
    requires Tabulates(rows, entries)
    ensures Tabulates(rows[|entries| := e], entries + [e])
  {
  }

  /** Appending with a key pair extends a chain to a chain. */
  lemma {:induction false} AppendKeepsChain(scheme: Scheme, priv: Bytes, pub: Bytes, entries: seq<LogEntry>, now: int,
      payload: Blob)
    requires KeyPair(scheme, priv, pub) && Chained(scheme, entries)
    ensures Chained(scheme, entries + [NewEntry(scheme, priv, pub, entries, now, payload)])
  {
    var e := NewEntry(scheme, priv, pub, entries, now, payload);
    var more := entries + [e];
    forall i | 0 <= i < |more|
      ensures more[i].seqno == i && VerifyEntry(scheme, more[i]) && more[i].prevHash == PrevHash(more, i)
    {
      if i < |entries| {
        assert more[i] == entries[i];
      }
    }
  }
}
