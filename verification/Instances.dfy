/**
 Stores on which the code does something other than its documentation says.

 Each is a store the code can hold: a few edges, their records and their claims'. What the
 queries answer on it is computed from what they are proved to answer on every store.
 */
module Instances {
  import opened Options
  import opened KappaAlgebra
  import opened Records
  import opened Derivation
  import opened Reachability
  import opened ProofTree
  import opened Query
  import opened PathDiscovery
  import opened Argumentation
  import opened RefutationResolution

  // ----- A store with given edges -----

  function RowsOf(es: seq<Edge>): (rows: seq<Row>)
    ensures |rows| == |es| && forall i | 0 <= i < |es| :: rows[i] == Row(EdgeHash(es[i]), es[i].conclusion)
  {
    seq(|es|, i requires 0 <= i < |es| => Row(EdgeHash(es[i]), es[i].conclusion))
  }

  /** The edges and claims, each stored under its address, and the edges indexed. */
  function StoreOf(es: seq<Edge>, nodes: seq<Node>): Store {
    Store(RowsOf(es), (map e | e in es :: EdgeHash(e) := EdgeRec(e)) + (map n | n in nodes :: NodeId(n) := NodeRec(n)))
  }

  function EntriesOf(es: seq<Edge>): (entries: seq<Entry>)
    ensures |entries| == |es| && forall i | 0 <= i < |es| :: entries[i] == Entry(EdgeHash(es[i]), es[i])
  {
    seq(|es|, i requires 0 <= i < |es| => Entry(EdgeHash(es[i]), es[i]))
  }

  lemma {:induction false} StoreResolves(es: seq<Edge>, nodes: seq<Node>)
    ensures forall e | e in es :: ResolveEdge(EdgeHash(e), StoreOf(es, nodes).objects) == Some(e)
    ensures forall n | n in nodes :: ResolveNode(NodeId(n), StoreOf(es, nodes).objects) == Some(n)
  {
  }

  /** If every edge can derive, the derivation edges are the edges. */
  lemma {:induction false} StoreDerives(es: seq<Edge>, nodes: seq<Node>, k: nat)
    requires k <= |es| && forall e | e in es :: CanDerive(e)
    ensures DerivationList(Store(RowsOf(es)[..k], StoreOf(es, nodes).objects), None) == EntriesOf(es)[..k]
  {
    StoreResolves(es, nodes);
    hide StoreOf, ResolveEdge, EdgeHash;
    if k > 0 {
      StoreDerives(es, nodes, k - 1);
      assert RowsOf(es)[..k][..k - 1] == RowsOf(es)[..k - 1];
      assert es[k - 1] in es;
    }
  }

  lemma {:induction false} StoreList(es: seq<Edge>, nodes: seq<Node>)
    requires forall e | e in es :: CanDerive(e)
    ensures DerivationList(StoreOf(es, nodes), None) == EntriesOf(es)
  {
    StoreDerives(es, nodes, |es|);
    assert RowsOf(es)[..|es|] == RowsOf(es) && EntriesOf(es)[..|es|] == EntriesOf(es);
  }

  ghost predicate ListsExactly(list: seq<Entry>, en: Entry, en': Entry) {
    forall x :: x in list <==> x == en || x == en'
  }

  lemma {:induction false} ListOfTwo(e: Edge, e': Edge, nodes: seq<Node>)
    requires CanDerive(e) && CanDerive(e')
    ensures var list := DerivationList(StoreOf([e, e'], nodes), None);
            list == EntriesOf([e, e']) && ListsExactly(list, Entry(EdgeHash(e), e), Entry(EdgeHash(e'), e'))
  {
    var es := [e, e'];
    assert forall x :: x in es <==> x == e || x == e';
    StoreList(es, nodes);
    hide DerivationList, StoreOf, EdgeHash, CanDerive;
    var list := EntriesOf(es);
    assert list[0] == Entry(EdgeHash(e), e) && list[1] == Entry(EdgeHash(e'), e');
  }

  lemma {:induction false} ListOfThree(e: Edge, e': Edge, e'': Edge, nodes: seq<Node>)
    requires CanDerive(e) && CanDerive(e') && CanDerive(e'')
    ensures var list := DerivationList(StoreOf([e, e', e''], nodes), None);
            forall x :: x in list <==>
                x == Entry(EdgeHash(e), e) || x == Entry(EdgeHash(e'), e') || x == Entry(EdgeHash(e''), e'')
  {
    var es := [e, e', e''];
    assert forall x :: x in es <==> x == e || x == e' || x == e'';
    StoreList(es, nodes);
    hide DerivationList, StoreOf, EdgeHash, CanDerive;
    var list := EntriesOf(es);
    assert list[0] == Entry(EdgeHash(e), e) && list[1] == Entry(EdgeHash(e'), e') &&
        list[2] == Entry(EdgeHash(e''), e'');
  }

  function Axiom(n: Node, k: Kappa): Edge {
    Edge(Definition, [], NodeId(n), "", None, Pass, k, [])
  }

  function Inference(p: Node, n: Node, k: Kappa): Edge {
    Edge(Citation, [NodeId(p)], NodeId(n), "", None, Pass, k, [])
  }

  // ----- Contention -----

  /** Two edges that conclude a claim and its negation, and nothing else: neither is accepted
      and nothing accepted attacks either. */
  lemma {:induction false} ContendersUndecided(claim: string, domain: string, accepted: set<Hash>, defeated: set<Hash>)
    ensures var n, m := Node(claim, domain, true), Node(claim, domain, false);
            var store := StoreOf([Axiom(n, K1), Axiom(m, K1)], [n, m]);
            var f := AttackFramework(ResolvedEdges(store), store.objects);
            var a, b := EdgeHash(Axiom(n, K1)), EdgeHash(Axiom(m, K1));
            Grounded(f, accepted, defeated) ==>
              && Undecided(f, accepted, defeated) == {a, b}
              && a !in accepted && !AttackedFrom(f, accepted, a)
              && b !in accepted && !AttackedFrom(f, accepted, b)
  {
    hide *;
    var n, m := Node(claim, domain, true), Node(claim, domain, false);
    var store := StoreOf([Axiom(n, K1), Axiom(m, K1)], [n, m]);
    ContendersAttack(n, m);
    if Grounded(AttackFramework(ResolvedEdges(store), store.objects), accepted, defeated) {
      PairUndecided(EdgeHash(Axiom(n, K1)), EdgeHash(Axiom(m, K1)), accepted, defeated);
    }
  }

  lemma {:induction false} PairUndecided(a: Hash, b: Hash, accepted: set<Hash>, defeated: set<Hash>)
    requires a != b && Grounded(Framework({a, b}, map[a := {b}, b := {a}]), accepted, defeated)
    ensures var f := Framework({a, b}, map[a := {b}, b := {a}]);
            && Undecided(f, accepted, defeated) == {a, b}
            && a !in accepted && !AttackedFrom(f, accepted, a)
            && b !in accepted && !AttackedFrom(f, accepted, b)
  {
    UnattackedByInIsNotIn(a, b, accepted, defeated);
  }

  lemma {:induction false} StoreEdge(es: seq<Edge>, nodes: seq<Node>, h: Hash)
    ensures var edges := ResolvedEdges(StoreOf(es, nodes));
            (h in edges <==> exists e :: e in es && EdgeHash(e) == h) && (h in edges ==> h == EdgeHash(edges[h]))
  {
    StoreResolves(es, nodes);
    var store := StoreOf(es, nodes);
    hide StoreOf, ResolveEdge, EdgeHash;
    assert store.rows == RowsOf(es) by { RowsAre(es, nodes); }
    if e :| e in es && EdgeHash(e) == h {
      var i :| 0 <= i < |es| && es[i] == e;
      assert store.rows[i] in store.rows;
    }
    if row :| row in store.rows && row.edge == h {
      var i :| 0 <= i < |store.rows| && store.rows[i] == row;
      assert es[i] in es;
      EdgeHashInjective(es[i]);
    }
  }

  lemma {:induction false} RowsAre(es: seq<Edge>, nodes: seq<Node>)
    ensures StoreOf(es, nodes).rows == RowsOf(es)
  {
  }

  lemma {:induction false} EdgeHashInjective(e: Edge)
    ensures forall e' | EdgeHash(e') == EdgeHash(e) :: e' == e
  {
  }

  lemma {:induction false} ContendersAttack(n: Node, m: Node)
    requires n.polarity && m == n.(polarity := false)
    ensures var store := StoreOf([Axiom(n, K1), Axiom(m, K1)], [n, m]);
            var a, b := EdgeHash(Axiom(n, K1)), EdgeHash(Axiom(m, K1));
            a != b && AttackFramework(ResolvedEdges(store), store.objects) == Framework({a, b}, map[a := {b}, b := {a}])
  {
    hide *;
    var store := StoreOf([Axiom(n, K1), Axiom(m, K1)], [n, m]);
    ContendersResolve(n, m);
    PairFramework(ResolvedEdges(store), store.objects, EdgeHash(Axiom(n, K1)), EdgeHash(Axiom(m, K1)), n, m);
  }

  lemma {:induction false} ContendersResolve(n: Node, m: Node)
    requires n.polarity && m == n.(polarity := false)
    ensures var store := StoreOf([Axiom(n, K1), Axiom(m, K1)], [n, m]);
            var edges, a, b := ResolvedEdges(store), EdgeHash(Axiom(n, K1)), EdgeHash(Axiom(m, K1));
            && a != b && edges.Keys == {a, b} && edges[a].kind != Refutation && edges[b].kind != Refutation
            && ResolveNode(edges[a].conclusion, store.objects) == Some(n) &&
                 ResolveNode(edges[b].conclusion, store.objects) == Some(m)
            && Opposite(n, m)
  {
    var e, e' := Axiom(n, K1), Axiom(m, K1);
    assert e.conclusion == NodeId(n) && e'.conclusion == NodeId(m) && e.kind == e'.kind == Definition && n != m;
    assert e != e' by { NodesDiffer(n, m); }
    hide Axiom, NodeId;
    TwoResolve(e, e', n, m);
  }

  lemma {:induction false} TwoResolve(e: Edge, e': Edge, n: Node, m: Node)
    requires e != e'
    ensures var store := StoreOf([e, e'], [n, m]);
            var edges, a, b := ResolvedEdges(store), EdgeHash(e), EdgeHash(e');
            && a != b && edges.Keys == {a, b} && edges[a] == e && edges[b] == e'
            && ResolveNode(NodeId(n), store.objects) == Some(n) && ResolveNode(NodeId(m), store.objects) == Some(m)
  {
    var es, nodes := [e, e'], [n, m];
    assert forall x :: x in es <==> x == e || x == e';
    assert n in nodes && m in nodes;
    hide *;
    StoreResolvesNode(es, nodes, n);
    StoreResolvesNode(es, nodes, m);
    EdgesOfTwo(es, nodes, e, e');
  }

  lemma {:induction false} StoreResolvesNode(es: seq<Edge>, nodes: seq<Node>, n: Node)
    requires n in nodes
    ensures ResolveNode(NodeId(n), StoreOf(es, nodes).objects) == Some(n)
  {
    StoreResolves(es, nodes);
  }

  lemma {:induction false} EdgesOfTwo(es: seq<Edge>, nodes: seq<Node>, e: Edge, e': Edge)
    requires e != e' && forall x :: x in es <==> x == e || x == e'
    ensures var edges, a, b := ResolvedEdges(StoreOf(es, nodes)), EdgeHash(e), EdgeHash(e');
            a != b && edges.Keys == {a, b} && edges[a] == e && edges[b] == e'
  {
    hide *;
    EdgeHashInjective(e);
    EdgeHashInjective(e');
    var edges := ResolvedEdges(StoreOf(es, nodes));
    forall h
      ensures h in edges <==> h == EdgeHash(e) || h == EdgeHash(e')
      ensures h in edges ==> h == EdgeHash(edges[h])
    {
      StoreEdge(es, nodes, h);
    }
  }

  lemma {:induction false} PairFramework(edges: map<Hash, Edge>, objects: Objects, a: Hash, b: Hash, n: Node, m: Node)
    requires a != b && edges.Keys == {a, b}
    requires edges[a].kind != Refutation && edges[b].kind != Refutation
    requires ResolveNode(edges[a].conclusion, objects) == Some(n) &&
            ResolveNode(edges[b].conclusion, objects) == Some(m)
    requires Opposite(n, m)
    ensures AttackFramework(edges, objects) == Framework({a, b}, map[a := {b}, b := {a}])
  {
    hide ResolveNode;
    assert Contends(edges, objects, a, b) && Contends(edges, objects, b, a);
    assert !Contends(edges, objects, a, a) && !Contends(edges, objects, b, b);
    assert forall x, y :: !Refutes(edges, x, y);
    hide Contends, Refutes;
    var f := AttackFramework(edges, objects);
    assert f.attackedBy[a] == {b} && f.attackedBy[b] == {a};
    assert f.attackedBy == map[a := {b}, b := {a}];
  }

  // ----- An empty report -----

  ghost predicate IsAxiom(en: Entry, n: Hash, k: Kappa) {
    en.edge.premises == [] && en.edge.conclusion == n && en.edge.kappa == k
  }

  ghost predicate IsInference(en: Entry, p: Hash, n: Hash, k: Kappa) {
    en.edge.premises == [p] && en.edge.conclusion == n && en.edge.kappa == k
  }

  lemma {:induction false} AxiomTree(en: Entry, n: Hash, k: Kappa, edges: seq<Entry>) returns (t: Tree)
    requires en in edges && IsAxiom(en, n, k)
    ensures Derives(t, edges, {}, n) && Strength(t) == k && Height(t) == 0
  {
    t := Step(en, []);
  }

  lemma {:induction false} InferenceTree(en: Entry, p: Hash, n: Hash, k: Kappa, edges: seq<Entry>, sub: Tree)
      returns (t: Tree)
    requires en in edges && IsInference(en, p, n, k)
    requires Derives(sub, edges, {}, p) && Rank(k) <= Rank(Strength(sub))
    ensures Derives(t, edges, {}, n) && Strength(t) == k
    ensures t.Step? && t.subs == [sub]
  {
    t := Step(en, [sub]);
    assert Derives(t, edges, {}, n) by { hide Strength; }
    hide *;
    StepStrength(t, Rank(k));
    StepStrength(t, Rank(Strength(t)));
    RankInjective(Strength(t), k);
  }

  /** With nothing assumed, a derivation ends in a listed edge, no stronger than that edge,
      and an inference is not an axiom. */
  lemma {:induction false} LastStep(t: Tree, n: Hash, edges: seq<Entry>) returns (en: Entry)
    requires Derives(t, edges, {}, n)
    ensures en in edges && en.edge.conclusion == n && Rank(Strength(t)) <= Rank(en.edge.kappa)
    ensures en.edge.premises != [] ==> Height(t) > 0
  {
    en := t.entry;
    StepStrength(t, Rank(Strength(t)));
    StepHeight(t);
    hide Strength, Height;
    if en.edge.premises != [] {
      assert |t.subs| > 0;
    }
  }

  /** An axiom at K1 and an inference from it at K0: asked for the conclusion at K1, the path
      query answers that it is not reachable, and that nothing is missing. */
  lemma {:induction false} NothingMissing(p: Node, n: Node, r: PathResult)
    requires p != n
    requires var store := StoreOf([Axiom(p, K1), Inference(p, n, K0)], [p, n]);
             Discovers(r, NodeId(n), K1, store, DerivationList(store, None))
    ensures !r.reachable && r.missing == [] && r.kappa == Some(K0)
  {
    hide *;
    var e, e' := Axiom(p, K1), Inference(p, n, K0);
    var store := StoreOf([e, e'], [p, n]);
    var list := DerivationList(store, None);
    AxiomIs(p, K1);
    InferenceIs(p, n, K0);
    ListOfTwo(e, e', [p, n]);
    NodesDiffer(p, n);
    WeakInference(Entry(EdgeHash(e), e), Entry(EdgeHash(e'), e'), NodeId(p), NodeId(n), list);
    Discovered(r, NodeId(n), K1, store, list);
    var established, visited :| DiscoversWith(r, NodeId(n), K1, store, list, established, visited);
    DiscoveredStrength(r, NodeId(n), NodeId(p), K0, K1, store, list, established, visited);
    TooWeakOnly(p, n, established);
    DiscoveredNothing(r, NodeId(n), K1, store, list, established, visited);
  }

  lemma {:induction false} Discovered(r: PathResult, n: Hash, k: Kappa, store: Store, list: seq<Entry>)
    requires Discovers(r, n, k, store, list)
    ensures exists established, visited :: DiscoversWith(r, n, k, store, list, established, visited)
  {
    hide DiscoversWith;
  }

  lemma {:induction false} AxiomIs(n: Node, k: Kappa)
    ensures CanDerive(Axiom(n, k)) && IsAxiom(Entry(EdgeHash(Axiom(n, k)), Axiom(n, k)), NodeId(n), k)
  {
  }

  lemma {:induction false} InferenceIs(p: Node, n: Node, k: Kappa)
    ensures CanDerive(Inference(p, n, k))
    ensures IsInference(Entry(EdgeHash(Inference(p, n, k)), Inference(p, n, k)), NodeId(p), NodeId(n), k)
  {
  }

  lemma {:induction false} DiscoveredStrength(r: PathResult, n: Hash, p: Hash, best: Kappa, k: Kappa, store: Store,
      list: seq<Entry>, established: set<Hash>, visited: set<Hash>)
    requires DiscoversWith(r, n, k, store, list, established, visited)
    requires DerivableAt(p, k, list, {}) && !DerivableAt(n, k, list, {}) && StrongestDerivation(n, best, list, {})
    ensures p in established && n !in established && !r.reachable && r.kappa == Some(best)
  {
    hide Strength, Valid, IsCone, Reports, LowestDerivation, OnlyTooWeak;
    var t :| Derives(t, list, {}, n) && Rank(best) <= Rank(Strength(t));
    var t' :| Derives(t', list, {}, n) && Rank(r.kappa.value) <= Rank(Strength(t'));
    RankInjective(r.kappa.value, best);
  }

  lemma {:induction false} DiscoveredNothing(r: PathResult, n: Hash, k: Kappa, store: Store, list: seq<Entry>,
      established: set<Hash>, visited: set<Hash>)
    requires DiscoversWith(r, n, k, store, list, established, visited) && !r.reachable
    requires OnlyTooWeak(n, Search(store.rows, EdgeMap(list), established))
    ensures r.missing == []
  {
    hide StrongestDerivation, LowestDerivation, DerivableAt, Derives, IsCone, Reports, OnlyTooWeak;
  }

  lemma {:induction false} WeakInference(a: Entry, b: Entry, p: Hash, n: Hash, list: seq<Entry>)
    requires p != n && IsAxiom(a, p, K1) && IsInference(b, p, n, K0)
    requires ListsExactly(list, a, b)
    ensures DerivableAt(p, K1, list, {}) && !DerivableAt(n, K1, list, {}) && StrongestDerivation(n, K0, list, {})
  {
    hide Derives, Strength, Height;
    var sub := AxiomTree(a, p, K1, list);
    var whole := InferenceTree(b, p, n, K0, list, sub);
    forall t | Derives(t, list, {}, n)
      ensures Rank(Strength(t)) <= Rank(K0)
    {
      var en := LastStep(t, n, list);
    }
  }

  lemma {:induction false} NodesDiffer(p: Node, n: Node)
    requires p != n
    ensures NodeId(p) != NodeId(n)
  {
  }

  lemma {:induction false} TooWeakOnly(p: Node, n: Node, established: set<Hash>)
    requires p != n && NodeId(p) in established
    ensures var es := [Axiom(p, K1), Inference(p, n, K0)];
            OnlyTooWeak(NodeId(n), Search(StoreOf(es, [p, n]).rows, EdgeMap(EntriesOf(es)), established))
  {
    var es := [Axiom(p, K1), Inference(p, n, K0)];
    var rows, list := RowsOf(es), EntriesOf(es);
    var edgeMap := EdgeMap(list);
    assert list[0] in list && list[1] in list;
    assert Entry(list[1].hash, edgeMap[list[1].hash]) in list;
    assert rows[1] in rows && rows[1].conclusion == NodeId(n) && edgeMap[rows[1].edge] == es[1];
    assert es[1] in Candidates(rows, NodeId(n), edgeMap);
    forall e | e in Candidates(rows, NodeId(n), edgeMap)
      ensures e == es[1]
    {
      var row :| row in rows && row.conclusion == NodeId(n) && row.edge in edgeMap && edgeMap[row.edge] == e;
      assert row == rows[1];
    }
  }

  // ----- Strength and depth apart -----

  /** An axiom at K3, an inference from it at K3, and the conclusion also listed as an axiom at
      K0: the answer is K3 at depth 0, and no derivation has both. */
  lemma {:induction false} StrengthAndDepthApart(p: Node, n: Node, r: ReachabilityResult)
    requires p != n
    requires var store := StoreOf([Axiom(p, K3), Inference(p, n, K3), Axiom(n, K0)], [p, n]);
             Answers(r, NodeId(n), K0, DerivationList(store, None), {})
    ensures r.kappa == Some(K3) && r.depth == Some(0)
    ensures var store := StoreOf([Axiom(p, K3), Inference(p, n, K3), Axiom(n, K0)], [p, n]);
            forall t | Derives(t, DerivationList(store, None), {}, NodeId(n)) :: !(Strength(t) == K3 && Height(t) == 0)
  {
    hide *;
    var e, e', e'' := Axiom(p, K3), Inference(p, n, K3), Axiom(n, K0);
    var list := DerivationList(StoreOf([e, e', e''], [p, n]), None);
    AxiomIs(p, K3);
    InferenceIs(p, n, K3);
    AxiomIs(n, K0);
    ListOfThree(e, e', e'', [p, n]);
    NodesDiffer(p, n);
    StrongOrLow(Entry(EdgeHash(e), e), Entry(EdgeHash(e'), e'), Entry(EdgeHash(e''), e''), NodeId(p), NodeId(n), list);
    AnsweredBest(r, NodeId(n), list);
  }

  lemma {:induction false} StrongOrLow(a: Entry, b: Entry, c: Entry, p: Hash, n: Hash, list: seq<Entry>)
    requires p != n && IsAxiom(a, p, K3) && IsInference(b, p, n, K3) && IsAxiom(c, n, K0)
    requires forall en :: en in list <==> en == a || en == b || en == c
    ensures StrongestDerivation(n, K3, list, {}) && LowestDerivation(n, 0, list, {})
    ensures forall t | Derives(t, list, {}, n) :: !(Strength(t) == K3 && Height(t) == 0)
  {
    hide Derives, Strength, Height;
    var sub := AxiomTree(a, p, K3, list);
    var strong := InferenceTree(b, p, n, K3, list, sub);
    var low := AxiomTree(c, n, K0, list);
    forall t | Derives(t, list, {}, n)
      ensures Rank(Strength(t)) <= Rank(K3) && !(Strength(t) == K3 && Height(t) == 0)
    {
      var en := LastStep(t, n, list);
    }
  }

  lemma {:induction false} AnsweredBest(r: ReachabilityResult, n: Hash, list: seq<Entry>)
    requires Answers(r, n, K0, list, {})
    requires StrongestDerivation(n, K3, list, {}) && LowestDerivation(n, 0, list, {})
    ensures r.kappa == Some(K3) && r.depth == Some(0)
  {
    hide Strength, Height, Valid, Uses;
    var t :| Derives(t, list, {}, n) && Rank(K3) <= Rank(Strength(t));
    var low :| Derives(low, list, {}, n) && Height(low) == 0;
    assert StrongestDerivation(n, r.kappa.value, list, {});
    var t' :| Derives(t', list, {}, n) && Rank(r.kappa.value) <= Rank(Strength(t'));
    RankInjective(r.kappa.value, K3);
  }

  // ----- A gap that helps nothing -----

  /** An inference at K0 whose premise nothing concludes: at K1 it is reported as a gap that
      waits for its premise, and assuming the premise does not make the conclusion derivable. */
  lemma {:induction false} UselessGap(p: Node, n: Node, r: PathResult)
    requires p != n
    requires var store := StoreOf([Inference(p, n, K0)], [p, n]);
             Discovers(r, NodeId(n), K1, store, DerivationList(store, None))
    ensures MissingEdge(NodeId(n), [NodeId(p)], [NodeId(p)], "") in r.missing
    ensures var store := StoreOf([Inference(p, n, K0)], [p, n]);
            !DerivableAt(NodeId(n), K1, DerivationList(store, None), {NodeId(p)})
  {
    hide *;
    var e := Inference(p, n, K0);
    var store := StoreOf([e], [p, n]);
    var list := DerivationList(store, None);
    InferenceIs(p, n, K0);
    ListOfOne(e, [p, n]);
    NodesDiffer(p, n);
    var en := Entry(EdgeHash(e), e);
    LoneInference(en, NodeId(p), NodeId(n), list);
    Discovered(r, NodeId(n), K1, store, list);
    var established, visited :| DiscoversWith(r, NodeId(n), K1, store, list, established, visited);
    LoneGap(p, n, r, list, established, visited);
  }

  lemma {:induction false} ListOfOne(e: Edge, nodes: seq<Node>)
    requires CanDerive(e)
    ensures var list := DerivationList(StoreOf([e], nodes), None);
            list == EntriesOf([e]) && forall x :: x in list <==> x == Entry(EdgeHash(e), e)
  {
    StoreList([e], nodes);
    hide DerivationList, StoreOf, EdgeHash, CanDerive;
    assert EntriesOf([e])[0] == Entry(EdgeHash(e), e);
  }

  lemma {:induction false} LoneInference(en: Entry, p: Hash, n: Hash, list: seq<Entry>)
    requires p != n && IsInference(en, p, n, K0) && forall x :: x in list <==> x == en
    ensures !DerivableAt(n, K1, list, {p}) && !DerivableAt(n, K1, list, {}) && !DerivableAt(p, K1, list, {})
  {
    hide Strength;
    forall t, seeds | Derives(t, list, seeds, n) && n !in seeds
      ensures Rank(Strength(t)) <= Rank(K0)
    {
      StepStrength(t, Rank(Strength(t)));
    }
  }

  lemma {:induction false} LoneGap(p: Node, n: Node, r: PathResult, list: seq<Entry>, established: set<Hash>,
      visited: set<Hash>)
    requires list == EntriesOf([Inference(p, n, K0)])
    requires DiscoversWith(r, NodeId(n), K1, StoreOf([Inference(p, n, K0)], [p, n]), list, established, visited)
    requires !DerivableAt(NodeId(n), K1, list, {}) && !DerivableAt(NodeId(p), K1, list, {})
    ensures MissingEdge(NodeId(n), [NodeId(p)], [NodeId(p)], "") in r.missing
  {
    var e := Inference(p, n, K0);
    var store := StoreOf([e], [p, n]);
    var s := Search(store.rows, EdgeMap(list), established);
    assert NodeId(n) in visited && Reports(r.missing, visited, s) && NodeId(p) !in established by {
      hide StrongestDerivation, LowestDerivation, DerivableAt, Reports, StoreOf, NodeId;
    }
    hide DiscoversWith, DerivableAt, Reports, IsCone;
    assert list[0] in list;
    assert Entry(list[0].hash, s.edgeMap[list[0].hash]) in list;
    assert store.rows[0] in store.rows;
    var es := Candidates(s.rows, NodeId(n), s.edgeMap);
    assert e in es;
    OneBlocks(NodeId(p), established);
    var me := MissingEdge(NodeId(n), [NodeId(p)], [NodeId(p)], "");
    assert me == GapAt(NodeId(n), e, established);
    assert GapOf(me, NodeId(n), s);
    hide StoreOf, EdgeMap, GapOf;
    GapReported(me, NodeId(n), r.missing, visited, s);
  }

  lemma {:induction false} OneBlocks(p: Hash, established: set<Hash>)
    requires p !in established
    ensures Blocking([p], established) == [p]
  {
  }

  // ----- The axiom listed last -----

  /** Two axioms for one claim, the weaker listed last: the answer is K3 and its proof tree is
      the K1 axiom alone. */
  lemma {:induction false} WeakAxiomReported(n: Node, r: ReachabilityResult)
    requires var list := DerivationList(StoreOf([Axiom(n, K3), Axiom(n, K1)], [n]), None);
             Answers(r, NodeId(n), K0, list, {}) && (r.kappa.Some? ==> ReportsBest(r.proofTree, NodeId(n), list, []))
    ensures r.kappa == Some(K3) && ToSet(r.proofTree) == {EdgeHash(Axiom(n, K1))}
    ensures var list := DerivationList(StoreOf([Axiom(n, K3), Axiom(n, K1)], [n]), None);
            !WeakestEdge(ToSet(r.proofTree), EdgeMap(list), K3)
  {
    hide *;
    var e, e' := Axiom(n, K3), Axiom(n, K1);
    var list := DerivationList(StoreOf([e, e'], [n]), None);
    AxiomIs(n, K3);
    AxiomIs(n, K1);
    ListOfTwo(e, e', [n]);
    TwoAxiomsDiffer(n);
    EntriesAt(e, e');
    AxiomsAnswered(Entry(EdgeHash(e), e), Entry(EdgeHash(e'), e'), NodeId(n), list, r);
  }

  lemma {:induction false} EntriesAt(e: Edge, e': Edge)
    ensures EntriesOf([e, e']) == [Entry(EdgeHash(e), e), Entry(EdgeHash(e'), e')]
  {
    hide EdgeHash;
  }

  lemma {:induction false} TwoAxiomsDiffer(n: Node)
    ensures EdgeHash(Axiom(n, K3)) != EdgeHash(Axiom(n, K1))
  {
  }

  lemma {:induction false} AxiomsAnswered(a: Entry, b: Entry, n: Hash, list: seq<Entry>, r: ReachabilityResult)
    requires list == [a, b] && IsAxiom(a, n, K3) && IsAxiom(b, n, K1) && a.hash != b.hash
    requires Answers(r, n, K0, list, {}) && (r.kappa.Some? ==> ReportsBest(r.proofTree, n, list, []))
    ensures r.kappa == Some(K3) && ToSet(r.proofTree) == {b.hash}
    ensures !WeakestEdge(ToSet(r.proofTree), EdgeMap(list), K3)
  {
    PairMembers(a, b, list);
    hide *;
    AxiomsStrongest(a, b, n, list);
    AnsweredHas(r, n, K3, K0, list, {});
    AxiomsBest(a, b, n, list, r.proofTree);
  }

  lemma {:induction false} PairMembers(a: Entry, b: Entry, list: seq<Entry>)
    requires list == [a, b]
    ensures ListsExactly(list, a, b)
  {
  }

  lemma {:induction false} AxiomsStrongest(a: Entry, b: Entry, n: Hash, list: seq<Entry>)
    requires ListsExactly(list, a, b) && IsAxiom(a, n, K3) && IsAxiom(b, n, K1)
    ensures StrongestDerivation(n, K3, list, {})
  {
    hide Derives, Strength, Height;
    var t := AxiomTree(a, n, K3, list);
    forall t | Derives(t, list, {}, n)
      ensures Rank(Strength(t)) <= Rank(K3)
    {
      var en := LastStep(t, n, list);
    }
    DerivedAt(t, n, K3, list);
  }

  lemma {:induction false} AnsweredHas(r: ReachabilityResult, n: Hash, best: Kappa, k: Kappa, list: seq<Entry>,
      seeds: set<Hash>)
    requires Answers(r, n, k, list, seeds) && StrongestDerivation(n, best, list, seeds)
    ensures r.kappa == Some(best)
  {
    hide Derives, Strength, Height, Uses, LowestDerivation;
    var t :| Derives(t, list, seeds, n) && Rank(best) <= Rank(Strength(t));
    StrongestUnique(n, r.kappa.value, best, list, seeds);
  }

  lemma {:induction false} DerivedAt(t: Tree, n: Hash, k: Kappa, list: seq<Entry>)
    requires Derives(t, list, {}, n) && Strength(t) == k
    ensures DerivableAt(n, k, list, {})
  {
    hide Derives, Strength;
  }

  lemma {:induction false} AxiomsBest(a: Entry, b: Entry, n: Hash, list: seq<Entry>, tree: seq<Hash>)
    requires list == [a, b] && IsAxiom(a, n, K3) && IsAxiom(b, n, K1) && a.hash != b.hash
    requires ReportsBest(tree, n, list, [])
    ensures ToSet(tree) == {b.hash} && !WeakestEdge(ToSet(tree), EdgeMap(list), K3)
  {
    hide SeedKappa, Collected, Replay, PathKappa;
    assert list[0] == a && list[1] == b;
    var best :| IsBest(list, [], best) && Collected(ToSet(tree), n, best, EdgeMap(list));
    var seeded, pointers, steps :| BestAfter(list, [], best, seeded, pointers, steps);
    PassAt(list, 0, seeded);
    PassAt(list, 1, seeded);
    assert FiredFrom(list, 2, seeded) == [];
    assert steps == [] && best == pointers;
    assert IsAxiomFor(list[1], n);
    assert LastAxiom(list, n) == 1;
    assert best[n] == b.hash;
    hide LastAxiom, IsSeedMap, IsSeedPointers, Passes, FiredFrom;
    DistinctPair(a, b, list);
    AxiomPointerCollects(n, list, best);
    CollectedSame(ToSet(tree), {b.hash}, n, best, EdgeMap(list));
    WeakestIsOnly(b.hash, EdgeMap(list), K3);
  }

  lemma {:induction false} DistinctPair(a: Entry, b: Entry, list: seq<Entry>)
    requires list == [a, b] && a.hash != b.hash
    ensures DistinctHashes(list)
  {
    assert forall en | en in list :: en == a || en == b;
  }

  lemma {:induction false} CollectedSame(hs: set<Hash>, hs': set<Hash>, target: Hash, best: map<Hash, Hash>,
      edgeMap: map<Hash, Edge>)
    requires Collected(hs, target, best, edgeMap) && Collected(hs', target, best, edgeMap)
    ensures hs == hs'
  {
    hide PointerClosed;
  }

  // ----- A proof tree higher than the depth -----

  /** An axiom and inferences x to m, m to n and x to n, listed in that order and all of one
      strength: the depth is 1, which a derivation of that strength has, and the reported
      proof tree is the derivation of height 2. */
  lemma {:induction false} TreeAboveDepth(x: Node, m: Node, n: Node, k: Kappa, r: ReachabilityResult)
    requires x != m && m != n && x != n
    requires var store := StoreOf([Axiom(x, k), Inference(x, m, k), Inference(m, n, k), Inference(x, n, k)], [x, m, n]);
             var list := DerivationList(store, None);
             Answers(r, NodeId(n), K0, list, {}) && (r.kappa.Some? ==> ReportsBest(r.proofTree, NodeId(n), list, []))
    ensures var store := StoreOf([Axiom(x, k), Inference(x, m, k), Inference(m, n, k), Inference(x, n, k)], [x, m, n]);
            var list := DerivationList(store, None);
            && r.kappa == Some(k) && r.depth == Some(1) && HasBoth(NodeId(n), k, 1, list, {})
            && forall t | Derives(t, list, {}, NodeId(n)) && DrawsOn(t, r.proofTree) :: Height(t) == 2
  {
    hide *;
    var e0, e1, e2, e3 := Axiom(x, k), Inference(x, m, k), Inference(m, n, k), Inference(x, n, k);
    var list := DerivationList(StoreOf([e0, e1, e2, e3], [x, m, n]), None);
    AxiomIs(x, k);
    InferenceIs(x, m, k);
    InferenceIs(m, n, k);
    InferenceIs(x, n, k);
    NodesDiffer(x, m);
    NodesDiffer(m, n);
    NodesDiffer(x, n);
    ListOfFour(e0, e1, e2, e3, [x, m, n]);
    var d := Detour(Entry(EdgeHash(e0), e0), Entry(EdgeHash(e1), e1), Entry(EdgeHash(e2), e2), Entry(EdgeHash(e3), e3),
                    NodeId(x), NodeId(m), NodeId(n), k);
    FourDiffer(e0, e1, e2, e3, NodeId(x), NodeId(m), NodeId(n));
    DetourIs(d);
    DetourAnswered(d, list, r);
  }

  /** Only edges in the report are used. */
  ghost predicate DrawsOn(t: Tree, tree: seq<Hash>) {
    forall en | Uses(t, en) :: en.hash in tree
  }

  datatype Detour = Detour(a: Entry, xm: Entry, mn: Entry, xn: Entry, x: Hash, m: Hash, n: Hash, k: Kappa) {
    ghost predicate Valid() {
      && x != m && m != n && x != n
      && IsAxiom(a, x, k) && IsInference(xm, x, m, k) && IsInference(mn, m, n, k) && IsInference(xn, x, n, k)
      && a.hash != xm.hash && a.hash != mn.hash && a.hash != xn.hash
      && xm.hash != mn.hash && xm.hash != xn.hash && mn.hash != xn.hash
    }

    function List(): seq<Entry> {
      [a, xm, mn, xn]
    }
  }

  lemma {:induction false} DetourIs(d: Detour)
    requires d.x != d.m && d.m != d.n && d.x != d.n
    requires IsAxiom(d.a, d.x, d.k) && IsInference(d.xm, d.x, d.m, d.k)
    requires IsInference(d.mn, d.m, d.n, d.k) && IsInference(d.xn, d.x, d.n, d.k)
    requires d.a.hash != d.xm.hash && d.a.hash != d.mn.hash && d.a.hash != d.xn.hash
    requires d.xm.hash != d.mn.hash && d.xm.hash != d.xn.hash && d.mn.hash != d.xn.hash
    ensures d.Valid() && d.List() == [d.a, d.xm, d.mn, d.xn]
  {
  }

  lemma {:induction false} ListOfFour(e0: Edge, e1: Edge, e2: Edge, e3: Edge, nodes: seq<Node>)
    requires CanDerive(e0) && CanDerive(e1) && CanDerive(e2) && CanDerive(e3)
    ensures DerivationList(StoreOf([e0, e1, e2, e3], nodes), None) ==
            [Entry(EdgeHash(e0), e0), Entry(EdgeHash(e1), e1), Entry(EdgeHash(e2), e2), Entry(EdgeHash(e3), e3)]
  {
    hide *;
    FourDerive(e0, e1, e2, e3);
    StoreList([e0, e1, e2, e3], nodes);
    FourEntries(e0, e1, e2, e3);
  }

  lemma {:induction false} FourDerive(e0: Edge, e1: Edge, e2: Edge, e3: Edge)
    requires CanDerive(e0) && CanDerive(e1) && CanDerive(e2) && CanDerive(e3)
    ensures forall e | e in [e0, e1, e2, e3] :: CanDerive(e)
  {
    hide CanDerive;
  }

  lemma {:induction false} FourEntries(e0: Edge, e1: Edge, e2: Edge, e3: Edge)
    ensures EntriesOf([e0, e1, e2, e3]) ==
            [Entry(EdgeHash(e0), e0), Entry(EdgeHash(e1), e1), Entry(EdgeHash(e2), e2), Entry(EdgeHash(e3), e3)]
  {
    hide EdgeHash;
  }

  lemma {:induction false} FourDiffer(e0: Edge, e1: Edge, e2: Edge, e3: Edge, x: Hash, m: Hash, n: Hash)
    requires x != m && m != n && x != n
    requires e0.premises == [] && e1.premises == [x] && e1.conclusion == m && e2.premises == [m] && e3.premises == [x]
    requires e3.conclusion == n
    ensures EdgeHash(e0) != EdgeHash(e1) && EdgeHash(e0) != EdgeHash(e2) && EdgeHash(e0) != EdgeHash(e3)
    ensures EdgeHash(e1) != EdgeHash(e2) && EdgeHash(e1) != EdgeHash(e3) && EdgeHash(e2) != EdgeHash(e3)
  {
    assert e1.premises[0] == x && e2.premises[0] == m && e3.premises[0] == x;
  }

  lemma {:induction false} DetourAnswered(d: Detour, list: seq<Entry>, r: ReachabilityResult)
    requires d.Valid() && list == d.List()
    requires Answers(r, d.n, K0, list, {}) && (r.kappa.Some? ==> ReportsBest(r.proofTree, d.n, list, []))
    ensures r.kappa == Some(d.k) && r.depth == Some(1) && HasBoth(d.n, d.k, 1, list, {})
    ensures forall t | Derives(t, list, {}, d.n) && DrawsOn(t, r.proofTree) :: Height(t) == 2
  {
    hide *;
    DetourBothWays(d, list);
    DepthAnswered(r, d.n, K0, list, {}, 1);
    AnsweredSome(r, d.n, K0, list, {});
    StrengthAnswered(r, d.n, K0, list, {});
    StrongestUnique(d.n, r.kappa.value, d.k, list, {});
    DetourReported(d, list, r.proofTree);
    forall t | Derives(t, list, {}, d.n) && DrawsOn(t, r.proofTree)
      ensures Height(t) == 2
    {
      DetourHeight(d, list, r.proofTree, t);
    }
  }

  lemma {:induction false} AnsweredSome(r: ReachabilityResult, n: Hash, k: Kappa, list: seq<Entry>, seeds: set<Hash>)
    requires Answers(r, n, k, list, seeds) && r.depth.Some?
    ensures r.kappa.Some?
  {
    hide StrongestDerivation, LowestDerivation, Derives, DerivableAt, Uses;
  }

  /** Both ways have the strength; the short one has height 1. */
  lemma {:induction false} DetourBothWays(d: Detour, list: seq<Entry>)
    requires d.Valid() && list == d.List()
    ensures StrongestDerivation(d.n, d.k, list, {}) && LowestDerivation(d.n, 1, list, {})
    ensures HasBoth(d.n, d.k, 1, list, {})
  {
    assert list[0] in list && list[3] in list;
    DetourEnds(d, list);
    hide *;
    ShortAndStrong(d.a, d.mn, d.xn, d.x, d.m, d.n, d.k, list);
  }

  lemma {:induction false} ShortAndStrong(a: Entry, mn: Entry, xn: Entry, x: Hash, m: Hash, n: Hash, k: Kappa,
      list: seq<Entry>)
    requires a in list && xn in list && IsAxiom(a, x, k) && IsInference(xn, x, n, k) && IsInference(mn, m, n, k)
    requires forall en | en in list && en.edge.conclusion == n :: en == mn || en == xn
    ensures StrongestDerivation(n, k, list, {}) && LowestDerivation(n, 1, list, {}) && HasBoth(n, k, 1, list, {})
  {
    hide Derives, Strength, Height;
    var sub := AxiomTree(a, x, k, list);
    var short := ShortTree(xn, x, n, k, list, sub);
    forall t | Derives(t, list, {}, n)
      ensures Rank(Strength(t)) <= Rank(k) && 1 <= Height(t)
    {
      var en := LastStep(t, n, list);
    }
    hide *;
    BestInBoth(short, n, k, 1, list);
  }

  lemma {:induction false} BestInBoth(t: Tree, n: Hash, k: Kappa, h: nat, list: seq<Entry>)
    requires Derives(t, list, {}, n) && Strength(t) == k && Height(t) == h
    requires forall t' | Derives(t', list, {}, n) :: Rank(Strength(t')) <= Rank(k) && h <= Height(t')
    ensures StrongestDerivation(n, k, list, {}) && LowestDerivation(n, h, list, {}) && HasBoth(n, k, h, list, {})
  {
    hide Derives, Strength, Height;
  }

  lemma {:induction false} DetourEnds(d: Detour, list: seq<Entry>)
    requires d.Valid() && list == d.List()
    ensures forall en | en in list && en.edge.conclusion == d.n :: en == d.mn || en == d.xn
    ensures forall en | en in list && en.edge.conclusion == d.m :: en == d.xm
    ensures forall en | en in list && en.edge.conclusion == d.x :: en == d.a
  {
  }

  lemma {:induction false} ShortTree(en: Entry, p: Hash, n: Hash, k: Kappa, edges: seq<Entry>, sub: Tree)
      returns (t: Tree)
    requires en in edges && IsInference(en, p, n, k)
    requires Derives(sub, edges, {}, p) && Strength(sub) == k && Height(sub) == 0
    ensures Derives(t, edges, {}, n) && Strength(t) == k && Height(t) == 1
  {
    hide *;
    t := InferenceTree(en, p, n, k, edges, sub);
    StepHeight(t);
  }

  /** What the passes fire, and where the pointers then lead. */
  lemma {:induction false} DetourReported(d: Detour, list: seq<Entry>, tree: seq<Hash>)
    requires d.Valid() && list == d.List() && ReportsBest(tree, d.n, list, [])
    ensures ToSet(tree) == {d.a.hash, d.xm.hash, d.mn.hash}
  {
    hide *;
    var best := ReportedBest(tree, d.n, list, []);
    DetourBest(d, list, best);
    DetourCollects(d, list, ToSet(tree));
  }

  lemma {:induction false} ReportedBest(tree: seq<Hash>, n: Hash, list: seq<Entry>, extra: seq<Hash>)
      returns (best: map<Hash, Hash>)
    requires ReportsBest(tree, n, list, extra)
    ensures IsBest(list, extra, best) && Collected(ToSet(tree), n, best, EdgeMap(list))
  {
    hide IsBest, Collected, EdgeMap;
    best :| IsBest(list, extra, best) && Collected(ToSet(tree), n, best, EdgeMap(list));
  }

  lemma {:induction false} DetourBest(d: Detour, list: seq<Entry>, best: map<Hash, Hash>)
    requires d.Valid() && list == d.List() && IsBest(list, [], best)
    ensures best == map[d.x := d.a.hash, d.m := d.xm.hash, d.n := d.mn.hash]
  {
    hide IsSeedMap, IsSeedPointers, Passes, FiredFrom, Replay, PathKappa;
    var seeded, pointers, steps :| BestAfter(list, [], best, seeded, pointers, steps);
    DetourSeeds(d, list, seeded, pointers);
    DetourPasses(d, list, seeded, steps);
    assert Pointed(pointers, []) == pointers;
    hide Pointed;
    PointedNext(pointers, [], d.xm);
    PointedNext(pointers, [d.xm], d.mn);
    assert [] + [d.xm] == [d.xm] && [d.xm] + [d.mn] == [d.xm, d.mn];
  }

  lemma {:induction false} DetourSeeds(d: Detour, list: seq<Entry>, seeded: map<Hash, Kappa>, pointers: map<Hash, Hash>)
    requires d.Valid() && list == d.List() && IsSeedMap(list, [], seeded) && IsSeedPointers(list, pointers)
    ensures seeded == map[d.x := d.k] && pointers == map[d.x := d.a.hash]
  {
    assert IsAxiom(list[0], d.x, d.k) && forall i | 0 < i < |list| :: list[i].edge.premises != [];
    hide SeedKappa, LastAxiom, Detour.List;
    forall v
      ensures v in seeded <==> v == d.x
      ensures v in seeded ==> seeded[v] == d.k
      ensures v in pointers <==> v == d.x
      ensures v in pointers ==> pointers[v] == d.a.hash
    {
      OneAxiom(list, d.x, d.k, v);
      assert SeedKappa(list, [], v) == if v in seeded then Some(seeded[v]) else None;
    }
  }

  lemma {:induction false} OneAxiom(list: seq<Entry>, x: Hash, k: Kappa, v: Hash)
    requires |list| > 0 && IsAxiom(list[0], x, k)
    requires forall i | 0 < i < |list| :: list[i].edge.premises != []
    ensures LastAxiom(list, v) == if v == x then 0 else -1
    ensures SeedKappa(list, [], v) == if v == x then Some(k) else None
  {
    hide AxiomKappa, LastAxiom;
    var i, seed := LastAxiom(list, v), AxiomKappa(list, v);
    assert IsAxiomFor(list[0], x);
    if seed.Some? {
      var en :| en in list && IsAxiomFor(en, v) && en.edge.kappa == seed.value;
      assert en == list[0];
    }
  }

  /** All premises and the edge at one strength: it fires at that strength. */
  lemma {:induction false} FiresAt(en: Entry, p: Hash, n: Hash, k: Kappa, m: map<Hash, Kappa>)
    requires IsInference(en, p, n, k) && p in m && m[p] == k
    ensures AllIn(en.edge.premises, m) && PathKappa(en.edge, m) == k
    ensures Improves(en.edge, m) <==> n !in m || Rank(m[n]) < Rank(k)
  {
  }

  lemma {:induction false} DetourPasses(d: Detour, list: seq<Entry>, m0: map<Hash, Kappa>, steps: seq<Entry>)
    requires d.Valid() && list == d.List() && m0 == map[d.x := d.k] && Passes(list, m0, steps)
    ensures steps == [d.xm, d.mn]
  {
    hide *;
    var m1 := m0[d.m := d.k];
    var m2 := m1[d.n := d.k];
    DetourFirstPass(d, list, m0, m1, m2);
    DetourLastPass(d, list, m2);
    DetourReplay(d, m0, m1, m2);
    OnePass(list, m0, [d.xm, d.mn], m2, steps);
  }

  lemma {:induction false} OnePass(list: seq<Entry>, m: map<Hash, Kappa>, fired: seq<Entry>, m': map<Hash, Kappa>,
      steps: seq<Entry>)
    requires FiredFrom(list, 0, m) == fired != [] && m' == Replay(m, fired) && FiredFrom(list, 0, m') == []
    requires Passes(list, m, steps)
    ensures steps == fired
  {
    hide FiredFrom, Replay;
    assert Passes(list, m', steps[|fired|..]);
  }

  lemma {:induction false} DetourReplay(d: Detour, m0: map<Hash, Kappa>, m1: map<Hash, Kappa>, m2: map<Hash, Kappa>)
    requires d.Valid() && m0 == map[d.x := d.k] && m1 == m0[d.m := d.k] && m2 == m1[d.n := d.k]
    ensures Replay(m0, [d.xm, d.mn]) == m2
  {
    hide Replay, Improves, PathKappa;
    ReplayNothing(m0);
    FiresAt(d.xm, d.x, d.m, d.k, m0);
    FiresAt(d.mn, d.m, d.n, d.k, m1);
    ReplayFire(m0, [], d.xm);
    assert [] + [d.xm] == [d.xm] && [d.xm] + [d.mn] == [d.xm, d.mn];
    ReplayFire(m0, [d.xm], d.mn);
  }

  lemma {:induction false} DetourFirstPass(d: Detour, list: seq<Entry>, m0: map<Hash, Kappa>, m1: map<Hash, Kappa>,
      m2: map<Hash, Kappa>)
    requires d.Valid() && list == d.List()
    requires m0 == map[d.x := d.k] && m1 == m0[d.m := d.k] && m2 == m1[d.n := d.k]
    ensures FiredFrom(list, 0, m0) == [d.xm, d.mn]
  {
    hide FiredFrom, Improves, PathKappa;
    FiresAt(d.xm, d.x, d.m, d.k, m0);
    FiresAt(d.mn, d.m, d.n, d.k, m1);
    FiresAt(d.xn, d.x, d.n, d.k, m2);
    PassAt(list, 0, m0);
    PassAt(list, 1, m0);
    PassAt(list, 2, m1);
    PassAt(list, 3, m2);
    PassDone(list, m2);
  }

  lemma {:induction false} DetourLastPass(d: Detour, list: seq<Entry>, m2: map<Hash, Kappa>)
    requires d.Valid() && list == d.List() && m2 == map[d.x := d.k, d.m := d.k, d.n := d.k]
    ensures FiredFrom(list, 0, m2) == []
  {
    hide FiredFrom, Improves, PathKappa;
    FiresAt(d.xm, d.x, d.m, d.k, m2);
    FiresAt(d.mn, d.m, d.n, d.k, m2);
    FiresAt(d.xn, d.x, d.n, d.k, m2);
    PassAt(list, 0, m2);
    PassAt(list, 1, m2);
    PassAt(list, 2, m2);
    PassAt(list, 3, m2);
    PassDone(list, m2);
  }

  lemma {:induction false} PassDone(list: seq<Entry>, m: map<Hash, Kappa>)
    ensures FiredFrom(list, |list|, m) == []
  {
  }

  lemma {:induction false} DetourCollects(d: Detour, list: seq<Entry>, hs: set<Hash>)
    requires d.Valid() && list == d.List()
    requires Collected(hs, d.n, map[d.x := d.a.hash, d.m := d.xm.hash, d.n := d.mn.hash], EdgeMap(list))
    ensures hs == {d.a.hash, d.xm.hash, d.mn.hash}
  {
    var best := map[d.x := d.a.hash, d.m := d.xm.hash, d.n := d.mn.hash];
    var edgeMap := EdgeMap(list);
    DetourEdges(d, list);
    hide EdgeMap, Detour.List;
    assert edgeMap[d.a.hash].premises == [] && edgeMap[d.xm.hash].premises == [d.x];
    assert edgeMap[d.mn.hash].premises == [d.m];
    assert d.m in edgeMap[d.mn.hash].premises && d.x in edgeMap[d.xm.hash].premises;
    assert best[d.n] == d.mn.hash && best[d.m] == d.xm.hash && best[d.x] == d.a.hash;
    assert d.mn.hash in hs;
    assert d.xm.hash in hs;
    assert d.a.hash in hs;
    assert PointerClosed({d.a.hash, d.xm.hash, d.mn.hash}, d.n, best, edgeMap);
  }

  lemma {:induction false} DetourEdges(d: Detour, list: seq<Entry>)
    requires d.Valid() && list == d.List()
    ensures var edgeMap := EdgeMap(list);
            && d.a.hash in edgeMap && edgeMap[d.a.hash] == d.a.edge
            && d.xm.hash in edgeMap && edgeMap[d.xm.hash] == d.xm.edge
            && d.mn.hash in edgeMap && edgeMap[d.mn.hash] == d.mn.edge
  {
    var edgeMap := EdgeMap(list);
    assert list[0] in list && list[1] in list && list[2] in list;
    assert forall en | en in list :: en == d.a || en == d.xm || en == d.mn || en == d.xn;
    assert forall h | h in edgeMap :: Entry(h, edgeMap[h]) in list;
  }

  lemma {:induction false} DetourHeight(d: Detour, list: seq<Entry>, tree: seq<Hash>, t: Tree)
    requires d.Valid() && list == d.List() && ToSet(tree) == {d.a.hash, d.xm.hash, d.mn.hash}
    requires Derives(t, list, {}, d.n) && DrawsOn(t, tree)
    ensures Height(t) == 2
  {
    hide Strength, Height, Detour.List;
    DetourEnds(d, list);
    assert Uses(t, t.entry) && t.entry.hash in ToSet(tree);
    assert t.entry == d.mn;
    var s := t.subs[0];
    assert Derives(s, list, {}, d.m) && s.entry == d.xm;
    var u := s.subs[0];
    assert Derives(u, list, {}, d.x) && u.entry == d.a;
    hide Derives, Valid;
    StepHeight(t);
    StepHeight(s);
    StepHeight(u);
    assert Height(u) == 0;
    assert Height(s) == 1;
  }
}
