/**
 The verify-then-commit facade, and what follows for a store that nothing else writes to:
 every strength the queries report was earned.
 */
module VerifyCommit {
  import opened Options
  import opened KappaAlgebra
  import opened Records
  import opened Derivation
  import opened ProofTree
  import Query
  import PathDiscovery
  import Storage
  import Attestation
  import opened Argumentation
  import opened RefutationResolution
  import opened AppendLog
  import opened GraphTables
  import opened Verifier

  type State = Storage.State
  type Signer = Storage.Signer

  function NodeIds(nodes: seq<Node>): (hs: seq<Hash>)
    ensures |hs| == |nodes| && forall i | 0 <= i < |nodes| :: hs[i] == NodeId(nodes[i])
  {
    seq(|nodes|, i requires 0 <= i < |nodes| => NodeId(nodes[i]))
  }

  /** The edge record built for a proposal: verdict and strength are the verifier's. */
  function BuiltEdge(ck: Checkers, p: Proposal): Edge {
    var r := Verify(ck, p);
    Edge(p.kind, NodeIds(p.premises), NodeId(p.conclusion), p.rule,
         if p.proof.Some? then Some(HashBytes(p.proof.value)) else None, r.verdict, r.kappa, p.signer)
  }

  /** The record says of the proposal what it should: its type, its premises in order, its
      conclusion, rule, proof and signer, and the sanity filter's verdict. */
  ghost predicate SpeaksFor(e: Edge, p: Proposal, ck: Checkers) {
    && e.kind == p.kind && e.rule == p.rule && e.signer == p.signer
    && |e.premises| == |p.premises| && (forall i | 0 <= i < |p.premises| :: e.premises[i] == NodeId(p.premises[i]))
    && e.conclusion == NodeId(p.conclusion)
    && (p.proof.None? ==> e.proofHash == None)
    && (p.proof.Some? ==> e.proofHash == Some(Digest(p.proof.value)))
    && e.verdict == ck.elenchus(p)
  }

  lemma {:induction false} BuiltRecords(ck: Checkers, p: Proposal)
    requires !Verify(ck, p).Rejected()
    ensures SpeaksFor(BuiltEdge(ck, p), p, ck)
    ensures Earns(p.kind, p.conclusion.claim, BuiltEdge(ck, p).kappa)
  {
    RejectedIff(ck, p);
    StoredStrengthIsEarned(ck, p, BuiltEdge(ck, p).kappa);
    hide Verify;
  }

  function CommitOf(ck: Checkers, p: Proposal, now: int): Storage.Commit {
    Storage.Commit(NodeIds(p.premises), NodeId(p.conclusion), EdgeRec(BuiltEdge(ck, p)), p.proof, now)
  }

  function PutNodes(objects: Objects, nodes: seq<Node>): Objects
    decreases |nodes|
  {
    if nodes == [] then objects
    else Storage.Put(PutNodes(objects, nodes[..|nodes| - 1]), NodeRec(nodes[|nodes| - 1]))
  }

  /** The effect of a proposal when `budget` storage statements succeed. */
  function Proposed(s: State, who: Signer, ck: Checkers, p: Proposal, now: int, budget: nat): State {
    var nodes := p.premises + [p.conclusion];
    if Verify(ck, p).Rejected() then s
    else if budget < |nodes| then s.(objects := PutNodes(s.objects, nodes[..budget]))
    else Storage.Committed(s.(objects := PutNodes(s.objects, nodes)), who, CommitOf(ck, p, now), budget - |nodes|)
  }

  /** How many storage statements a proposal takes: a blob for each node, for the record and for
      the proof, BEGIN, a row for each node, for the edge and for each premise, the log's row,
      and COMMIT. */
  function Statements(p: Proposal): nat {
    var n, proof := |p.premises|, if p.proof.Some? then 1 else 0;
    (n + 1) + 1 + proof + 1 + (n + 1) + 1 + n + 1 + 1
  }

  datatype CommitResult = Rejected(verification: VerificationResult) | Stored(edge: Edge, edgeHash: Hash,
      entry: LogEntry) | Raised

  /** `verify_and_commit`. */
  method VerifyAndCommit(store: Storage.Store, ck: Checkers, p: Proposal, now: int, budget: nat)
      returns (r: CommitResult)
    requires store.Valid()
    modifies store, store.log
    ensures store.Valid()
    ensures store.Now() == Proposed(old(store.Now()), store.Owner(), ck, p, now, budget)
    ensures r.Rejected? <==> Verify(ck, p).Rejected()
    ensures r.Rejected? ==> r.verification == Verify(ck, p)
    ensures r.Stored? <==> !Verify(ck, p).Rejected() && Statements(p) <= budget
    ensures r.Stored? ==>
            r.edge == BuiltEdge(ck, p) && SpeaksFor(r.edge, p, ck) && r.edgeHash == EdgeHash(r.edge) &&
            store.log.entries == old(store.log.entries) + [r.entry] && r.entry.payload == EdgeRec(r.edge)
  {
    var result := Verify(ck, p);
    if result.Rejected() {
      return Rejected(result);
    }
    var edge := BuiltEdge(ck, p);
    BuiltRecords(ck, p);
    ghost var before := store.Now();
    ProposedIs(before, store.Owner(), ck, p, now, budget);
    CommitIs(ck, p, now);
    hide Verify, BuiltEdge, SpeaksFor, Earns, PutNodes, Proposed, CommitOf, Statements, Storage.Committed,
        Storage.Steps;
    PutNothing(store.objects);
    var nodes := p.premises + [p.conclusion];
    for i := 0 to |nodes|
      invariant store.Valid() && i <= budget
      invariant store.Now() == before.(objects := PutNodes(before.objects, nodes[..i]))
      invariant store.log.entries == old(store.log.entries)
    {
      if budget == i {
        return Raised;
      }
      PutNodesNext(before.objects, nodes, i);
      var _ := store.PutObject(NodeRec(nodes[i]));
    }
    assert nodes[..|nodes|] == nodes;
    var committed := store.CommitEdgeTx(CommitOf(ck, p, now), budget - |nodes|);
    if committed.None? {
      return Raised;
    }
    r := Stored(edge, committed.value.0, committed.value.1);
  }

  lemma {:induction false} ProposedIs(s: State, who: Signer, ck: Checkers, p: Proposal, now: int, budget: nat)
    requires !Verify(ck, p).Rejected()
    ensures var nodes, t := p.premises + [p.conclusion], Proposed(s, who, ck, p, now, budget);
            if budget < |nodes| then t == s.(objects := PutNodes(s.objects, nodes[..budget]))
            else t == Storage.Committed(s.(objects := PutNodes(s.objects, nodes)), who, CommitOf(ck, p, now),
                                        budget - |nodes|)
  {
    hide Verify, PutNodes, CommitOf, Storage.Committed;
  }

  lemma {:induction false} CommitIs(ck: Checkers, p: Proposal, now: int)
    ensures CommitOf(ck, p, now).data == EdgeRec(BuiltEdge(ck, p))
    ensures Statements(p) == |p.premises| + 1 + Storage.Steps(CommitOf(ck, p, now))
  {
    hide Verify, BuiltEdge;
  }

  lemma {:induction false} PutNothing(objects: Objects)
    ensures PutNodes(objects, []) == objects
  {
  }

  lemma {:induction false} PutNodesNext(objects: Objects, nodes: seq<Node>, i: nat)
    requires i < |nodes|
    ensures PutNodes(objects, nodes[..i + 1]) == Storage.Put(PutNodes(objects, nodes[..i]), NodeRec(nodes[i]))
  {
    assert nodes[..i + 1][..i] == nodes[..i];
  }

  // ----- Stores built only this way -----

  datatype Attempt = Attempt(proposal: Proposal, now: int, budget: nat)

  function RunAttempts(who: Signer, ck: Checkers, run: seq<Attempt>): State
    decreases |run|
  {
    if run == [] then Storage.EMPTY
    else
      var a := run[|run| - 1];
      Proposed(RunAttempts(who, ck, run[..|run| - 1]), who, ck, a.proposal, a.now, a.budget)
  }

  /** The edge was built for a proposal the verifier did not reject; its claims are stored; and
      the index names the proposal's conclusion and, in order, its premises. */
  ghost predicate EarnedBy(h: Hash, p: Proposal, ck: Checkers, s: State) {
    && !Verify(ck, p).Rejected()
    && h == EdgeHash(BuiltEdge(ck, p))
    && ClaimsStored(p, s.objects)
    && h in s.graph.edges && s.graph.edges[h] == NodeId(p.conclusion)
    && PremisesAre(s.graph, h, NodeIds(p.premises))
  }

  ghost predicate ClaimsStored(p: Proposal, objects: Objects) {
    NodeId(p.conclusion) in objects && forall n | n in p.premises :: NodeId(n) in objects
  }

  ghost predicate AllEarned(s: State, ck: Checkers) {
    && Storage.ContentAddressed(s.objects)
    && WellFormedTables(s.graph)
    && forall h | h in s.graph.edges :: h in s.objects && exists p :: EarnedBy(h, p, ck, s)
  }

  lemma {:induction false} PutNodesFacts(objects: Objects, nodes: seq<Node>)
    requires Storage.ContentAddressed(objects)
    ensures Storage.ContentAddressed(PutNodes(objects, nodes))
    ensures forall h | h in objects :: h in PutNodes(objects, nodes)
    ensures forall n | n in nodes :: NodeId(n) in PutNodes(objects, nodes)
    decreases |nodes|
  {
    if nodes != [] {
      PutNodesFacts(objects, nodes[..|nodes| - 1]);
      assert nodes == nodes[..|nodes| - 1] + [nodes[|nodes| - 1]];
    }
  }

  lemma {:induction false} MoreObjectsKeepEarned(s: State, ck: Checkers, objects: Objects)
    requires AllEarned(s, ck) && Storage.ContentAddressed(objects)
    requires forall h | h in s.objects :: h in objects
    ensures AllEarned(s.(objects := objects), ck)
  {
    hide Verify, BuiltEdge, Storage.ContentAddressed, WellFormedTables, PremisesAre;
    forall h | h in s.graph.edges
      ensures exists p :: EarnedBy(h, p, ck, s.(objects := objects))
    {
      var p :| EarnedBy(h, p, ck, s);
      assert EarnedBy(h, p, ck, s.(objects := objects));
    }
  }

  /** Registering a proposal keeps what was earned, and earns what it registers: a record that
      is there already names the same conclusion and premises. */
  lemma {:induction false} RegisterKeepsEarned(s: State, ck: Checkers, p: Proposal, h: Hash, q: Proposal,
      graph: Tables<Hash>)
    requires graph == RegisterEdge(s.graph, EdgeHash(BuiltEdge(ck, p)), NodeIds(p.premises), NodeId(p.conclusion))
    requires EarnedBy(h, q, ck, s)
    ensures EarnedBy(h, q, ck, s.(graph := graph))
  {
    var e := EdgeHash(BuiltEdge(ck, p));
    if h == e {
      assert BuiltEdge(ck, q) == BuiltEdge(ck, p);
      assert NodeIds(q.premises) == NodeIds(p.premises) by { SamePremises(ck, p, q); }
    }
    hide Verify, BuiltEdge, EdgeHash;
    RegisterKeepsRows(s.graph, e, NodeIds(p.premises), NodeId(p.conclusion), h, NodeIds(q.premises));
  }

  lemma {:induction false} SamePremises(ck: Checkers, p: Proposal, q: Proposal)
    requires BuiltEdge(ck, q) == BuiltEdge(ck, p)
    ensures NodeIds(q.premises) == NodeIds(p.premises)
  {
    assert BuiltEdge(ck, p).premises == BuiltEdge(ck, q).premises;
    hide Verify;
  }

  lemma {:induction false} RegisterEarns(s: State, ck: Checkers, p: Proposal, graph: Tables<Hash>)
    requires AllEarned(s, ck) && !Verify(ck, p).Rejected() && ClaimsStored(p, s.objects)
    requires graph == RegisterEdge(s.graph, EdgeHash(BuiltEdge(ck, p)), NodeIds(p.premises), NodeId(p.conclusion))
    ensures EarnedBy(EdgeHash(BuiltEdge(ck, p)), p, ck, s.(graph := graph))
  {
    var e := EdgeHash(BuiltEdge(ck, p));
    if e in s.graph.edges {
      var q :| EarnedBy(e, q, ck, s);
      assert BuiltEdge(ck, q) == BuiltEdge(ck, p);
      SamePremises(ck, p, q);
      assert NodeId(q.conclusion) == NodeId(p.conclusion);
      hide Verify, BuiltEdge;
      RegisterKeepsRows(s.graph, e, NodeIds(p.premises), NodeId(p.conclusion), e, NodeIds(p.premises));
    } else {
      hide Verify, BuiltEdge;
      RegisterSetsRows(s.graph, e, NodeIds(p.premises), NodeId(p.conclusion));
    }
  }

  lemma {:induction false} CommitKeepsEarned(s: State, who: Signer, ck: Checkers, p: Proposal, now: int, budget: nat)
    requires AllEarned(s, ck) && !Verify(ck, p).Rejected() && ClaimsStored(p, s.objects)
    ensures AllEarned(Storage.Committed(s, who, CommitOf(ck, p, now), budget), ck)
  {
    var c := CommitOf(ck, p, now);
    Storage.PutAllFacts(s.objects, c, budget);
    var s1 := s.(objects := Storage.PutAll(s.objects, c, budget));
    MoreObjectsKeepEarned(s, ck, s1.objects);
    if Storage.Steps(c) <= budget {
      var s' := Storage.Committed(s, who, c, budget);
      var h := HashBytes(c.data);
      assert h == EdgeHash(BuiltEdge(ck, p)) && h in s1.objects;
      assert s'.graph == RegisterEdge(s1.graph, h, NodeIds(p.premises), NodeId(p.conclusion));
      assert s'.objects == s1.objects;
      hide *;
      RegisteredEarned(s1, s', ck, p);
    }
  }

  lemma {:induction false} RegisteredEarned(s: State, s': State, ck: Checkers, p: Proposal)
    requires AllEarned(s, ck) && !Verify(ck, p).Rejected() && ClaimsStored(p, s.objects)
    requires EdgeHash(BuiltEdge(ck, p)) in s.objects && s'.objects == s.objects
    requires s'.graph == RegisterEdge(s.graph, EdgeHash(BuiltEdge(ck, p)), NodeIds(p.premises), NodeId(p.conclusion))
    ensures AllEarned(s', ck)
  {
    var e := EdgeHash(BuiltEdge(ck, p));
    RegisterKeepsWellFormed(s.graph, e, NodeIds(p.premises), NodeId(p.conclusion));
    RegisterEarns(s, ck, p, s'.graph);
    assert forall h :: h in s'.graph.edges <==> h in s.graph.edges || h == e;
    hide Verify, BuiltEdge, EdgeHash, Storage.ContentAddressed, WellFormedTables, RegisterEdge;
    SameEarned(e, p, ck, s.(graph := s'.graph), s');
    forall h | h in s.graph.edges
      ensures exists q :: EarnedBy(h, q, ck, s')
    {
      var q :| EarnedBy(h, q, ck, s);
      RegisterKeepsEarned(s, ck, p, h, q, s'.graph);
      SameEarned(h, q, ck, s.(graph := s'.graph), s');
    }
  }

  lemma {:induction false} SameEarned(h: Hash, p: Proposal, ck: Checkers, s: State, s': State)
    requires EarnedBy(h, p, ck, s) && s'.objects == s.objects && s'.graph == s.graph
    ensures EarnedBy(h, p, ck, s')
  {
    hide Verify, BuiltEdge, PremisesAre;
  }

  lemma {:induction false} NodesStored(p: Proposal, objects: Objects)
    requires forall n | n in p.premises + [p.conclusion] :: NodeId(n) in objects
    ensures ClaimsStored(p, objects)
  {
    assert p.conclusion in p.premises + [p.conclusion];
    assert forall n | n in p.premises :: n in p.premises + [p.conclusion];
  }

  /** However the proposals go, and wherever storage fails, every edge is an earned one. */
  lemma {:induction false} RunsAreEarned(who: Signer, ck: Checkers, run: seq<Attempt>)
    ensures AllEarned(RunAttempts(who, ck, run), ck)
    decreases |run|
  {
    if run != [] {
      RunsAreEarned(who, ck, run[..|run| - 1]);
      ProposalKeepsEarned(RunAttempts(who, ck, run[..|run| - 1]), who, ck, run[|run| - 1]);
    }
  }

  lemma {:induction false} ProposalKeepsEarned(s: State, who: Signer, ck: Checkers, a: Attempt)
    requires AllEarned(s, ck)
    ensures AllEarned(Proposed(s, who, ck, a.proposal, a.now, a.budget), ck)
  {
    var p := a.proposal;
    var nodes := p.premises + [p.conclusion];
    if Verify(ck, p).Rejected() {
    } else if a.budget < |nodes| {
      PutNodesFacts(s.objects, nodes[..a.budget]);
      MoreObjectsKeepEarned(s, ck, PutNodes(s.objects, nodes[..a.budget]));
    } else {
      PutNodesFacts(s.objects, nodes);
      MoreObjectsKeepEarned(s, ck, PutNodes(s.objects, nodes));
      NodesStored(p, PutNodes(s.objects, nodes));
      CommitKeepsEarned(s.(objects := PutNodes(s.objects, nodes)), who, ck, p, a.now, a.budget - |nodes|);
    }
  }

  // ----- What the store then holds -----

  /** Every indexed edge is the stored record of a proposal that the sanity filter let through
      and its checker passed; the index has the record's conclusion and, in order, its
      premises; and the claims named are stored. */
  lemma {:induction false} IndexIsRecord(who: Signer, ck: Checkers, run: seq<Attempt>, h: Hash)
      returns (p: Proposal, e: Edge)
    requires h in RunAttempts(who, ck, run).graph.edges
    ensures var s := RunAttempts(who, ck, run);
            && h == EdgeHash(e) && h in s.objects && s.objects[h] == EdgeRec(e)
            && SpeaksFor(e, p, ck) && Earns(e.kind, p.conclusion.claim, e.kappa)
            && s.graph.edges[h] == e.conclusion && PremisesAre(s.graph, h, e.premises)
            && ClaimsStored(p, s.objects)
    ensures ck.elenchus(p) == Pass || ck.elenchus(p) == SoftFlag
    ensures e.kind == Deduction ==> if Unproved(p) then ck.z3(p) else ck.lean(p)
    ensures e.kind == Numerical ==> ck.cas(p)
    ensures e.kind == Spectral ==> ck.spectral(p)
  {
    RunsAreEarned(who, ck, run);
    var s := RunAttempts(who, ck, run);
    hide RunAttempts, WellFormedTables, Verify, BuiltEdge, PremisesAre;
    p :| EarnedBy(h, p, ck, s);
    e := BuiltEdge(ck, p);
    BuiltRecords(ck, p);
    RejectedIff(ck, p);
    assert HashBytes(s.objects[h]) == h;
    assert NodeIds(p.premises) == e.premises;
  }

  /** The attempt is not rejected, and storage lasts until its commit is through. */
  predicate Stores(ck: Checkers, a: Attempt) {
    !Verify(ck, a.proposal).Rejected() && Statements(a.proposal) <= a.budget
  }

  /** The record is logged at the attempt's time and stored, its address indexed, and the
      proof, if there is one, stored. */
  ghost predicate Kept(s: State, ck: Checkers, a: Attempt) {
    var e := BuiltEdge(ck, a.proposal);
    && (exists i :: 0 <= i < |s.entries| && s.entries[i].payload == EdgeRec(e) && s.entries[i].timestamp == a.now)
    && EdgeHash(e) in s.objects && EdgeHash(e) in s.graph.edges
    && (a.proposal.proof.Some? ==> Digest(a.proposal.proof.value) in s.objects)
  }

  lemma {:induction false} ProposedKeeps(s: State, who: Signer, ck: Checkers, a: Attempt)
    requires Storage.ContentAddressed(s.objects)
    ensures var t := Proposed(s, who, ck, a.proposal, a.now, a.budget);
            && s.entries <= t.entries && (forall h | h in s.objects :: h in t.objects)
            && (forall h | h in s.graph.edges :: h in t.graph.edges)
  {
    var p := a.proposal;
    var nodes := p.premises + [p.conclusion];
    hide Verify, BuiltEdge, NewEntry;
    if a.budget < |nodes| {
      PutNodesFacts(s.objects, nodes[..a.budget]);
    } else {
      PutNodesFacts(s.objects, nodes);
      hide PutNodes;
      Storage.PutAllFacts(PutNodes(s.objects, nodes), CommitOf(ck, p, a.now), a.budget - |nodes|);
      hide Storage.PutAll;
    }
  }

  lemma {:induction false} ProposedStores(s: State, who: Signer, ck: Checkers, a: Attempt)
    requires Stores(ck, a) && Storage.ContentAddressed(s.objects)
    ensures Kept(Proposed(s, who, ck, a.proposal, a.now, a.budget), ck, a)
  {
    var p := a.proposal;
    var nodes := p.premises + [p.conclusion];
    var c, n := CommitOf(ck, p, a.now), |s.entries|;
    var t := Proposed(s, who, ck, p, a.now, a.budget);
    hide Verify, BuiltEdge, PutNodes;
    NewEntryIs(who.scheme, who.priv, who.pub, s.entries, a.now, c.data);
    assert t.entries[n] == NewEntry(who.scheme, who.priv, who.pub, s.entries, a.now, c.data);
    hide NewEntry;
  }

  lemma {:induction false} KeptStaysKept(s: State, t: State, ck: Checkers, a: Attempt)
    requires Kept(s, ck, a) && s.entries <= t.entries
    requires forall h | h in s.objects :: h in t.objects
    requires forall h | h in s.graph.edges :: h in t.graph.edges
    ensures Kept(t, ck, a)
  {
    hide BuiltEdge, EdgeHash;
    var e := BuiltEdge(ck, a.proposal);
    var i :| 0 <= i < |s.entries| && s.entries[i].payload == EdgeRec(e) && s.entries[i].timestamp == a.now;
    assert t.entries[i] == s.entries[i];
  }

  /** What one attempt stored stays stored, whatever is proposed later and wherever it fails. */
  lemma {:induction false} AttemptKept(who: Signer, ck: Checkers, run: seq<Attempt>, a: Attempt)
    requires a in run && Stores(ck, a)
    ensures Kept(RunAttempts(who, ck, run), ck, a)
    decreases |run|
  {
    var before, last := run[..|run| - 1], run[|run| - 1];
    RunsAreEarned(who, ck, before);
    var s := RunAttempts(who, ck, before);
    hide Proposed, Kept, Stores, EarnedBy, WellFormedTables;
    if a == last {
      ProposedStores(s, who, ck, a);
    } else {
      AttemptKept(who, ck, before, a);
      ProposedKeeps(s, who, ck, last);
      KeptStaysKept(s, RunAttempts(who, ck, run), ck, a);
    }
  }

  lemma {:induction false} RunChained(who: Signer, ck: Checkers, run: seq<Attempt>)
    requires KeyPair(who.scheme, who.priv, who.pub)
    ensures Chained(who.scheme, RunAttempts(who, ck, run).entries)
    decreases |run|
  {
    if run != [] {
      RunChained(who, ck, run[..|run| - 1]);
      var s, a := RunAttempts(who, ck, run[..|run| - 1]), run[|run| - 1];
      var c := CommitOf(ck, a.proposal, a.now);
      AppendKeepsChain(who.scheme, who.priv, who.pub, s.entries, a.now, c.data);
      hide Chained, KeyPair, NewEntry, PutNodes, Storage.PutAll, Verify, BuiltEdge;
    }
  }

  /** End to end: a proposal that was stored is attested, whatever came later. Its record is
      found with a valid signature and its proof is bound and intact, so that all that is left
      to the roster is who signed. */
  lemma {:induction false} StoredIsAttested(who: Signer, ck: Checkers, run: seq<Attempt>, a: Attempt, rows: Rows,
      roster: Attestation.Roster, r: Option<Attestation.AttestationResult>)
    requires KeyPair(who.scheme, who.priv, who.pub) && a in run && Stores(ck, a)
    requires Tabulates(rows, RunAttempts(who, ck, run).entries)
    requires Attestation.Attests(r, BuiltEdge(ck, a.proposal), who.scheme, rows, RunAttempts(who, ck, run).objects,
            roster)
    ensures r.Some? && r.value.signatureValid && r.value.proofBound && r.value.proofIntact
    ensures r.value.Ok() <==> exists b :: b in roster.bindings && b.1 == a.proposal.signer
    ensures a.proposal.proof.Some? ==>
              Storage.Holds(RunAttempts(who, ck, run).objects, a.proposal.proof.value)
  {
    AttemptKept(who, ck, run, a);
    RunChained(who, ck, run);
    RunsAreEarned(who, ck, run);
    var s, e := RunAttempts(who, ck, run), BuiltEdge(ck, a.proposal);
    BuiltRecords(ck, a.proposal);
    hide RunAttempts, Verify, BuiltEdge, EarnedBy, KeyPair, Chained, Tabulates, WellFormedTables, Statements;
    var i :| 0 <= i < |s.entries| && s.entries[i].payload == EdgeRec(e) && s.entries[i].timestamp == a.now;
    Attestation.LoggedIsSigned(who.scheme, rows, s.entries, e, i);
    hide Attestation.FirstSigned, Attestation.FirstMissing;
    if a.proposal.proof.Some? {
      var h := Digest(a.proposal.proof.value);
      assert HashBytes(s.objects[h]) == h;
    }
    BoundIff(r.value.agent, e.signer, roster.bindings);
  }

  lemma {:induction false} BoundIff(agent: Option<string>, key: Bytes, bindings: seq<(string, Bytes)>)
    requires Attestation.FirstBound(agent, key, bindings)
    ensures agent.Some? <==> exists b :: b in bindings && b.1 == key
  {
  }

  // ----- What the queries then report -----

  /** The query layer's view of the store: its edge table, listed in some order. */
  ghost predicate Views(view: Query.Store, s: State) {
    && view.objects == s.objects
    && forall row | row in view.rows :: row.edge in s.graph.edges && row.conclusion == s.graph.edges[row.edge]
  }

  /** A listed edge's record is that of some accepted proposal. */
  lemma {:induction false} ListedIsEarned(en: Entry, list: seq<Entry>, view: Query.Store, active: Option<set<Hash>>,
      s: State, ck: Checkers) returns (p: Proposal)
    requires AllEarned(s, ck) && Views(view, s)
    requires Query.IsDerivationList(list, view, active) && en in list
    ensures !Verify(ck, p).Rejected() && en.edge == BuiltEdge(ck, p)
    ensures ResolveNode(en.edge.conclusion, view.objects) == Some(p.conclusion)
  {
    assert Query.Listed(en.hash, view);
    var row :| row in view.rows && row.edge == en.hash;
    p :| EarnedBy(en.hash, p, ck, s);
    hide Verify, BuiltEdge;
    assert HashBytes(s.objects[en.hash]) == en.hash;
    assert HashBytes(s.objects[NodeId(p.conclusion)]) == NodeId(p.conclusion);
  }

  /** A derivation that ends in such a record derives each of the proposal's premises, in order,
      and each is a stored claim. */
  lemma {:induction false} PremisesDerived(t: Tree, who: Signer, ck: Checkers, run: seq<Attempt>, view: Query.Store,
      active: Option<set<Hash>>, list: seq<Entry>, seeds: set<Hash>) returns (p: Proposal)
    requires Views(view, RunAttempts(who, ck, run)) && Query.IsDerivationList(list, view, active)
    requires t.Step? && Valid(t, list, seeds)
    ensures SpeaksFor(t.entry.edge, p, ck) && ResolveNode(NodeId(p.conclusion), view.objects) == Some(p.conclusion)
    ensures |t.subs| == |p.premises|
    ensures forall i | 0 <= i < |p.premises| :: Derives(t.subs[i], list, seeds, NodeId(p.premises[i]))
    ensures forall n | n in p.premises :: ResolveNode(NodeId(n), view.objects) == Some(n)
  {
    var s, h := RunAttempts(who, ck, run), t.entry.hash;
    assert Query.Listed(h, view);
    var row :| row in view.rows && row.edge == h;
    RunsAreEarned(who, ck, run);
    var e;
    p, e := IndexIsRecord(who, ck, run, h);
    hide RunAttempts, EarnedBy, WellFormedTables, PremisesAre, Verify;
    assert ResolveEdge(h, view.objects) == Some(e) && t.entry.edge == e;
    forall n | NodeId(n) in s.objects
      ensures ResolveNode(NodeId(n), view.objects) == Some(n)
    {
      assert HashBytes(s.objects[NodeId(n)]) == NodeId(n);
    }
    forall i | 0 <= i < |p.premises|
      ensures Derives(t.subs[i], list, seeds, NodeId(p.premises[i]))
    {
      assert Root(t.subs[i]) == t.entry.edge.premises[i];
    }
  }

  ghost predicate StrictlyEarned(en: Entry) {
    en.edge.kind == Deduction ||
        (en.edge.kind == Definition && exists n: Node :: NodeId(n) == en.edge.conclusion && InRoster(n.claim))
  }

  /** An edge of strength K3 or more is a deduction or a roster definition; one of strength
      K1 or more is no analogy; one of full strength concludes a roster claim. */
  lemma {:induction false} EarnedStrengths(en: Entry, list: seq<Entry>, view: Query.Store, active: Option<set<Hash>>,
      s: State, ck: Checkers)
    requires AllEarned(s, ck) && Views(view, s)
    requires Query.IsDerivationList(list, view, active) && en in list
    ensures Rank(K3) <= Rank(en.edge.kappa) ==> StrictlyEarned(en)
    ensures Rank(K1) <= Rank(en.edge.kappa) ==> en.edge.kind != Analogy
    ensures en.edge.kappa == KInf ==> exists n: Node :: NodeId(n) == en.edge.conclusion && InRoster(n.claim)
  {
    var p := ListedIsEarned(en, list, view, active, s, ck);
    hide AllEarned, Views, Query.IsDerivationList;
    StoredStrengthIsEarned(ck, p, en.edge.kappa);
    hide Verify, InRoster;
    assert NodeId(p.conclusion) == en.edge.conclusion && en.edge.kind == p.kind;
  }

  /**
   κ is earned. In a store that only the facade has written, with nothing assumed: a claim
   established at full strength is a roster claim; one established at K3 or more has a
   derivation of deductions and roster definitions alone; one established at K1 or more has
   one without analogies.
   */
  lemma {:induction false} KappaIsEarned(who: Signer, ck: Checkers, run: seq<Attempt>, view: Query.Store,
      active: Option<set<Hash>>, list: seq<Entry>, n: Hash)
    requires Views(view, RunAttempts(who, ck, run)) && Query.IsDerivationList(list, view, active)
    ensures Query.DerivableAt(n, KInf, list, {}) ==> exists c: Node :: NodeId(c) == n && InRoster(c.claim)
    ensures Query.DerivableAt(n, K3, list, {}) ==>
            exists t :: Derives(t, list, {}, n) && forall en | Uses(t, en) :: StrictlyEarned(en)
    ensures Query.DerivableAt(n, K1, list, {}) ==>
            exists t :: Derives(t, list, {}, n) && forall en | Uses(t, en) :: en.edge.kind != Analogy
  {
    RunsAreEarned(who, ck, run);
    var s := RunAttempts(who, ck, run);
    hide *;
    FullStrengthEarned(s, ck, view, active, list, n);
    StrictDerivation(s, ck, view, active, list, n);
    NoAnalogy(s, ck, view, active, list, n);
  }

  lemma {:induction false} StrongEdges(t: Tree, en: Entry, list: seq<Entry>, k: Kappa)
    requires Valid(t, list, {}) && Rank(k) <= Rank(Strength(t)) && Uses(t, en)
    ensures en in list && Rank(k) <= Rank(en.edge.kappa)
  {
    UsedIsEntry(t, en, list, {});
    StrengthIsWeakestUsed(t);
  }

  lemma {:induction false} LastEdge(t: Tree, list: seq<Entry>, n: Hash) returns (en: Entry)
    requires Derives(t, list, {}, n)
    ensures Valid(t, list, {}) && Uses(t, en) && en.edge.conclusion == n
  {
    en := t.entry;
  }

  lemma {:induction false} FullRank(k: Kappa)
    ensures Rank(KInf) <= Rank(k) <==> k == KInf
  {
  }

  lemma {:induction false} FullStrengthEarned(s: State, ck: Checkers, view: Query.Store, active: Option<set<Hash>>,
      list: seq<Entry>, n: Hash)
    requires AllEarned(s, ck) && Views(view, s) && Query.IsDerivationList(list, view, active)
    ensures Query.DerivableAt(n, KInf, list, {}) ==> exists c: Node :: NodeId(c) == n && InRoster(c.claim)
  {
    if Query.DerivableAt(n, KInf, list, {}) {
      var t :| Derives(t, list, {}, n) && Rank(KInf) <= Rank(Strength(t));
      var en := LastEdge(t, list, n);
      hide *;
      StrongEdges(t, en, list, KInf);
      FullRank(en.edge.kappa);
      EarnedStrengths(en, list, view, active, s, ck);
    }
  }

  lemma {:induction false} StrictDerivation(s: State, ck: Checkers, view: Query.Store, active: Option<set<Hash>>,
      list: seq<Entry>, n: Hash)
    requires AllEarned(s, ck) && Views(view, s) && Query.IsDerivationList(list, view, active)
    ensures Query.DerivableAt(n, K3, list, {}) ==>
            exists t :: Derives(t, list, {}, n) && forall en | Uses(t, en) :: StrictlyEarned(en)
  {
    if Query.DerivableAt(n, K3, list, {}) {
      var t :| Derives(t, list, {}, n) && Rank(K3) <= Rank(Strength(t));
      hide AllEarned, Views, Query.IsDerivationList, Strength, StrictlyEarned, Uses;
      forall en | Uses(t, en)
        ensures StrictlyEarned(en)
      {
        StrongEdges(t, en, list, K3);
        EarnedStrengths(en, list, view, active, s, ck);
      }
    }
  }

  lemma {:induction false} NoAnalogy(s: State, ck: Checkers, view: Query.Store, active: Option<set<Hash>>,
      list: seq<Entry>, n: Hash)
    requires AllEarned(s, ck) && Views(view, s) && Query.IsDerivationList(list, view, active)
    ensures Query.DerivableAt(n, K1, list, {}) ==>
            exists t :: Derives(t, list, {}, n) && forall en | Uses(t, en) :: en.edge.kind != Analogy
  {
    if Query.DerivableAt(n, K1, list, {}) {
      var t :| Derives(t, list, {}, n) && Rank(K1) <= Rank(Strength(t));
      hide AllEarned, Views, Query.IsDerivationList, Strength, StrictlyEarned, Uses;
      forall en | Uses(t, en)
        ensures en.edge.kind != Analogy
      {
        StrongEdges(t, en, list, K1);
        EarnedStrengths(en, list, view, active, s, ck);
      }
    }
  }

  // ----- What the queries can rely on -----

  /** The index of such a store agrees with its records, as the missing frontier needs. */
  lemma {:induction false} FacadeIndexMatches(who: Signer, ck: Checkers, run: seq<Attempt>, view: Query.Store)
    requires Views(view, RunAttempts(who, ck, run))
    ensures PathDiscovery.IndexMatches(view)
  {
    RunsAreEarned(who, ck, run);
    var s := RunAttempts(who, ck, run);
    hide RunAttempts, Verify;
    forall row | row in view.rows
      ensures var e := ResolveEdge(row.edge, view.objects); e.Some? ==> e.value.conclusion == row.conclusion
    {
      var p :| EarnedBy(row.edge, p, ck, s);
      assert HashBytes(s.objects[row.edge]) == row.edge;
    }
  }

  /** Whatever such a store establishes resolves to a claim. */
  lemma {:induction false} EstablishedResolves(t: Tree, n: Hash, list: seq<Entry>, view: Query.Store,
      active: Option<set<Hash>>, s: State, ck: Checkers) returns (c: Node)
    requires AllEarned(s, ck) && Views(view, s) && Query.IsDerivationList(list, view, active)
    requires Derives(t, list, {}, n)
    ensures ResolveNode(n, view.objects) == Some(c)
  {
    var en := LastEdge(t, list, n);
    UsedIsEntry(t, en, list, {});
    var p := ListedIsEarned(en, list, view, active, s, ck);
    c := p.conclusion;
  }

  /** End to end: restricted to its active subgraph, a store that only the facade has
      written never establishes two opposite claims, with no assumption on the claims. */
  lemma {:induction false} FacadeConsistent(who: Signer, ck: Checkers, run: seq<Attempt>, view: Query.Store,
      edges: map<Hash, Edge>, accepted: set<Hash>, defeated: set<Hash>, list: seq<Entry>, c: Node, d: Node, t1: Tree,
      t2: Tree)
    requires Views(view, RunAttempts(who, ck, run))
    requires IsResolved(edges, view) && Grounded(AttackFramework(edges, view.objects), accepted, defeated)
    requires Query.IsDerivationList(list, view, Some(accepted))
    requires Opposite(c, d)
    ensures !(Derives(t1, list, {}, NodeId(c)) && Derives(t2, list, {}, NodeId(d)))
  {
    if Derives(t1, list, {}, NodeId(c)) && Derives(t2, list, {}, NodeId(d)) {
      RunsAreEarned(who, ck, run);
      var s := RunAttempts(who, ck, run);
      hide Derives, IsResolved, AttackFramework, Grounded, RunAttempts, Query.IsDerivationList, AllEarned;
      var c' := EstablishedResolves(t1, NodeId(c), list, view, Some(accepted), s, ck);
      var d' := EstablishedResolves(t2, NodeId(d), list, view, Some(accepted), s, ck);
      assert c' == c && d' == d by { AddressedNodes(s, ck, view, c, c'); AddressedNodes(s, ck, view, d, d'); }
      NoContradictionDerivable(t1, t2, NodeId(c), NodeId(d), c, d, list, view, edges, accepted, defeated);
      assert false;
    }
  }

  lemma {:induction false} AddressedNodes(s: State, ck: Checkers, view: Query.Store, c: Node, c': Node)
    requires AllEarned(s, ck) && Views(view, s)
    requires ResolveNode(NodeId(c), view.objects) == Some(c')
    ensures c == c'
  {
    assert HashBytes(s.objects[NodeId(c)]) == NodeId(c);
  }

  /** A refutation proposed through the facade concludes a claim, never an edge, so it
      attacks nothing: such a store's only attacks are contentions. */
  lemma {:induction false} FacadeRefutationsAttackNothing(who: Signer, ck: Checkers, run: seq<Attempt>,
      view: Query.Store, edges: map<Hash, Edge>, a: Hash, b: Hash)
    requires Views(view, RunAttempts(who, ck, run)) && IsResolved(edges, view)
    ensures !Refutes(edges, a, b)
    ensures Attacks(AttackFramework(edges, view.objects), a, b) <==> Contends(edges, view.objects, a, b)
  {
    RunsAreEarned(who, ck, run);
    AttackFrameworkFacts(edges, view.objects);
    var s := RunAttempts(who, ck, run);
    hide RunAttempts, Verify, AttackFramework, Contends;
    if a in edges && b in edges {
      StoredEdge(a, edges, view, s, ck);
      StoredEdge(b, edges, view, s, ck);
    }
  }

  lemma {:induction false} StoredEdge(h: Hash, edges: map<Hash, Edge>, view: Query.Store, s: State, ck: Checkers)
    requires AllEarned(s, ck) && Views(view, s) && IsResolved(edges, view) && h in edges
    ensures h == EdgeHash(edges[h])
    ensures exists n: Node :: edges[h].conclusion == NodeId(n)
  {
    assert ResolvedAs(h, Some(edges[h]), view) by {
      assert ResolvedAs(h, if h in edges then Some(edges[h]) else None, view);
    }
    var row :| row in view.rows && row.edge == h;
    var p :| EarnedBy(h, p, ck, s);
    hide Verify;
    assert HashBytes(s.objects[h]) == h;
    assert edges[h] == BuiltEdge(ck, p);
    assert edges[h].conclusion == NodeId(p.conclusion);
  }
}
