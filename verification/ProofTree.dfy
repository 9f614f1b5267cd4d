/**
 The proof tree the reachability query reports: the edges met by following best-edge
 pointers back from the target. The pointers never lead back to where they started, the
 collected edges are exactly those of one derivation of the target, and it is known
 exactly when the weakest of them is worth what the query reports.
 */
module ProofTree {
  import opened Options
  import opened KappaAlgebra
  import opened Records
  import opened Derivation
  import opened Reachability
  import opened HexOrder

  /** Equal addresses, equal records. */
  ghost predicate DistinctHashes(edges: seq<Entry>) {
    forall a, b | a in edges && b in edges && a.hash == b.hash :: a == b
  }

  function EdgeMap(edges: seq<Entry>): (m: map<Hash, Edge>)
    ensures forall h | h in m :: Entry(h, m[h]) in edges
    ensures forall en | en in edges :: en.hash in m
  {
    if edges == [] then map[]
    else
      var last := edges[|edges| - 1];
      assert edges == edges[..|edges| - 1] + [last];
      EdgeMap(edges[..|edges| - 1])[last.hash := last.edge]
  }

  // ----- Collecting -----

  ghost predicate PointerClosed(hs: set<Hash>, target: Hash, best: map<Hash, Hash>, edgeMap: map<Hash, Edge>) {
    && (target in best ==> best[target] in hs)
    && forall h, p | h in hs && h in edgeMap && p in edgeMap[h].premises && p in best :: best[p] in hs
  }

  /** The least set of edges holding the target's best edge and, with an edge, the best
      edge of each of its premises. */
  ghost predicate Collected(hs: set<Hash>, target: Hash, best: map<Hash, Hash>, edgeMap: map<Hash, Edge>) {
    && PointerClosed(hs, target, best, edgeMap)
    && forall other | PointerClosed(other, target, best, edgeMap) :: hs <= other
  }

  /** `_collect_proof_tree`: those edges, in the order of their hex forms. */
  method CollectProofTree(target: Hash, best: map<Hash, Hash>, edgeMap: map<Hash, Edge>, hex: Hex)
      returns (tree: seq<Hash>)
    ensures Collected(ToSet(tree), target, best, edgeMap)
    ensures Ascending(tree, hex)
  {
    var edges: set<Hash> := {};
    var stack := [target];
    while |stack| > 0
      invariant edges <= best.Values
      invariant target in best ==> best[target] in edges || target in stack
      invariant forall h, p | h in edges && h in edgeMap && p in edgeMap[h].premises && p in best ::
                best[p] in edges || p in stack
      invariant forall hs, n | PointerClosed(hs, target, best, edgeMap) && n in stack && n in best :: best[n] in hs
      invariant forall hs | PointerClosed(hs, target, best, edgeMap) :: edges <= hs
      decreases best.Values - edges, |stack|
    {
      var node := stack[|stack| - 1];
      assert stack == stack[..|stack| - 1] + [node];
      stack := stack[..|stack| - 1];
      if node !in best || best[node] in edges {
        continue;
      }
      var h := best[node];
      assert h in best.Values - edges;
      edges := edges + {h};
      if h in edgeMap {
        stack := stack + edgeMap[h].premises;
      }
    }
    tree := SortByHex(edges, hex);
    assert ToSet(tree) == edges;
  }

  // ----- Acyclicity -----

  /** Following the pointer of `n` leads to the premise `p`. */
  ghost predicate LeadsTo(n: Hash, p: Hash, best: map<Hash, Hash>, edgeMap: map<Hash, Edge>) {
    n in best && best[n] in edgeMap && p in edgeMap[best[n]].premises
  }

  ghost predicate PointerPath(path: seq<Hash>, best: map<Hash, Hash>, edgeMap: map<Hash, Edge>) {
    forall i | 0 <= i < |path| - 1 :: LeadsTo(path[i], path[i + 1], best, edgeMap)
  }

  ghost predicate Sooner(p: Hash, n: Hash, kappa: map<Hash, Kappa>, stamp: map<Hash, nat>) {
    && p in kappa && n in kappa && p in stamp && n in stamp
    && (Rank(kappa[n]) < Rank(kappa[p]) || (kappa[n] == kappa[p] && stamp[p] < stamp[n]))
  }

  lemma {:induction false} PointerEntry(n: Hash, edges: seq<Entry>, extra: seq<Hash>, kappa: map<Hash, Kappa>,
      best: map<Hash, Hash>, stamp: map<Hash, nat>, clock: nat) returns (en: Entry)
    requires DistinctHashes(edges)
    requires WellStamped(edges, extra, kappa, best, stamp, clock) && n in best
    ensures Points(en, n, edges, extra, kappa, best, stamp)
    ensures best[n] in EdgeMap(edges) && EdgeMap(edges)[best[n]] == en.edge
  {
    en :| Points(en, n, edges, extra, kappa, best, stamp);
    assert Entry(en.hash, EdgeMap(edges)[en.hash]) in edges;
  }

  lemma {:induction false} PointersDescend(path: seq<Hash>, edges: seq<Entry>, extra: seq<Hash>,
      kappa: map<Hash, Kappa>, best: map<Hash, Hash>, stamp: map<Hash, nat>, clock: nat)
    requires DistinctHashes(edges)
    requires WellStamped(edges, extra, kappa, best, stamp, clock)
    requires |path| > 1 && PointerPath(path, best, EdgeMap(edges))
    ensures Sooner(path[|path| - 1], path[0], kappa, stamp)
  {
    assert LeadsTo(path[0], path[1], best, EdgeMap(edges));
    var en := PointerEntry(path[0], edges, extra, kappa, best, stamp, clock);
    assert Sooner(path[1], path[0], kappa, stamp);
    if |path| > 2 {
      var rest := path[1..];
      forall i | 0 <= i < |rest| - 1
        ensures LeadsTo(rest[i], rest[i + 1], best, EdgeMap(edges))
      {
        assert LeadsTo(path[i + 1], path[i + 2], best, EdgeMap(edges));
      }
      PointersDescend(rest, edges, extra, kappa, best, stamp, clock);
    }
  }

  /** No chain of back-pointers returns to its start. */
  lemma {:induction false} NoPointerCycle(path: seq<Hash>, edges: seq<Entry>, extra: seq<Hash>, kappa: map<Hash, Kappa>,
      depth: map<Hash, nat>, best: map<Hash, Hash>)
    requires DistinctHashes(edges)
    requires IsFixpoint(edges, extra, kappa, depth, best)
    requires |path| > 1 && PointerPath(path, best, EdgeMap(edges))
    ensures path[0] != path[|path| - 1]
  {
    hide Optimal, Closed, Shallowest, KeepsSeeds;
    var stamp, clock :| WellStamped(edges, extra, kappa, best, stamp, clock);
    PointersDescend(path, edges, extra, kappa, best, stamp, clock);
  }

  // ----- The derivation behind the pointers -----

  ghost predicate Uses(t: Tree, en: Entry) {
    t.Step? && (t.entry == en || exists i :: 0 <= i < |t.subs| && Uses(t.subs[i], en))
  }

  /** Every edge of `t` is its conclusion's best edge; every leaf has none. */
  ghost predicate Follows(t: Tree, edges: seq<Entry>, extra: seq<Hash>, kappa: map<Hash, Kappa>, best: map<Hash, Hash>,
      stamp: map<Hash, nat>) {
    match t
    case Assume(n) => n in kappa && n !in best
    case Step(en, subs) =>
      && Points(en, en.edge.conclusion, edges, extra, kappa, best, stamp)
      && forall i | 0 <= i < |subs| :: Follows(subs[i], edges, extra, kappa, best, stamp)
  }

  ghost predicate RealTree(t: Tree, n: Hash, edges: seq<Entry>, extra: seq<Hash>, kappa: map<Hash, Kappa>,
      best: map<Hash, Hash>, stamp: map<Hash, nat>) {
    Derives(t, edges, ToSet(extra), n) && Follows(t, edges, extra, kappa, best, stamp)
  }

  /** The pointers unfold into a finite derivation. */
  lemma {:induction false} Unfold(n: Hash, edges: seq<Entry>, extra: seq<Hash>, kappa: map<Hash, Kappa>,
      best: map<Hash, Hash>, stamp: map<Hash, nat>, clock: nat)
    requires WellStamped(edges, extra, kappa, best, stamp, clock)
    requires n in kappa
    ensures exists t :: RealTree(t, n, edges, extra, kappa, best, stamp)
    decreases 4 - Rank(kappa[n]), stamp[n]
  {
    if n !in best {
      assert RealTree(Assume(n), n, edges, extra, kappa, best, stamp);
    } else {
      var en :| Points(en, n, edges, extra, kappa, best, stamp);
      forall p | p in en.edge.premises
        ensures exists t :: RealTree(t, p, edges, extra, kappa, best, stamp)
      {
        Unfold(p, edges, extra, kappa, best, stamp, clock);
      }
      var proof := map p | p in ToSet(en.edge.premises) :: var t :| RealTree(t, p, edges, extra, kappa, best, stamp); t;
      UnfoldStep(n, en, proof, edges, extra, kappa, best, stamp);
    }
  }

  lemma {:induction false} UnfoldStep(n: Hash, en: Entry, proof: map<Hash, Tree>, edges: seq<Entry>, extra: seq<Hash>,
      kappa: map<Hash, Kappa>, best: map<Hash, Hash>, stamp: map<Hash, nat>)
    requires Points(en, n, edges, extra, kappa, best, stamp)
    requires AllIn(en.edge.premises, proof)
    requires forall p | p in en.edge.premises :: RealTree(proof[p], p, edges, extra, kappa, best, stamp)
    ensures RealTree(Step(en, Lookup(en.edge.premises, proof)), n, edges, extra, kappa, best, stamp)
  {
    hide Points;
    var t := Step(en, Lookup(en.edge.premises, proof));
    forall i | 0 <= i < |t.subs|
      ensures RealTree(t.subs[i], en.edge.premises[i], edges, extra, kappa, best, stamp)
    {
      assert en.edge.premises[i] in en.edge.premises;
    }
    assert en in edges && en.edge.conclusion == n by { PointsFacts(n, en, edges, extra, kappa, best, stamp); }
  }

  lemma {:induction false} PointsFacts(n: Hash, en: Entry, edges: seq<Entry>, extra: seq<Hash>, kappa: map<Hash, Kappa>,
      best: map<Hash, Hash>, stamp: map<Hash, nat>)
    requires Points(en, n, edges, extra, kappa, best, stamp)
    ensures en in edges && en.edge.conclusion == n && n in best && best[n] == en.hash
  {
  }

  lemma {:induction false} UsesNextPointer(t: Tree, en: Entry, p: Hash, edges: seq<Entry>, extra: seq<Hash>,
      kappa: map<Hash, Kappa>, best: map<Hash, Hash>, stamp: map<Hash, nat>) returns (next: Entry)
    requires Valid(t, edges, ToSet(extra)) && Follows(t, edges, extra, kappa, best, stamp)
    requires Uses(t, en) && p in en.edge.premises && p in best
    ensures Uses(t, next) && next.hash == best[p]
  {
    if t.entry == en {
      var i :| 0 <= i < |en.edge.premises| && en.edge.premises[i] == p;
      assert Root(t.subs[i]) == p && Follows(t.subs[i], edges, extra, kappa, best, stamp);
      next := t.subs[i].entry;
      assert Uses(t.subs[i], next);
    } else {
      var i :| 0 <= i < |t.subs| && Uses(t.subs[i], en);
      next := UsesNextPointer(t.subs[i], en, p, edges, extra, kappa, best, stamp);
    }
  }

  lemma {:induction false} UsedIsEntry(t: Tree, en: Entry, edges: seq<Entry>, seeds: set<Hash>)
    requires Valid(t, edges, seeds) && Uses(t, en)
    ensures en in edges
  {
    if t.entry != en {
      var i :| 0 <= i < |t.subs| && Uses(t.subs[i], en);
      UsedIsEntry(t.subs[i], en, edges, seeds);
    }
  }

  lemma {:induction false} UsedIsBest(t: Tree, en: Entry, edges: seq<Entry>, extra: seq<Hash>, kappa: map<Hash, Kappa>,
      best: map<Hash, Hash>, stamp: map<Hash, nat>)
    requires Valid(t, edges, ToSet(extra)) && Follows(t, edges, extra, kappa, best, stamp) && Uses(t, en)
    ensures Points(en, en.edge.conclusion, edges, extra, kappa, best, stamp)
    ensures Root(t) in kappa && Rank(kappa[Root(t)]) <= Rank(kappa[en.edge.conclusion])
  {
    if t.entry != en {
      var i :| 0 <= i < |t.subs| && Uses(t.subs[i], en);
      UsedIsBest(t.subs[i], en, edges, extra, kappa, best, stamp);
      assert t.entry.edge.premises[i] in t.entry.edge.premises;
    }
  }

  ghost function HashesOf(t: Tree, best: map<Hash, Hash>): set<Hash> {
    set h | h in best.Values && exists en :: Uses(t, en) && en.hash == h
  }

  /** A pointer-closed set holds every edge of the unfolded derivation. */
  lemma {:induction false} ClosedHoldsTree(t: Tree, en: Entry, hs: set<Hash>, target: Hash, edges: seq<Entry>,
      extra: seq<Hash>, kappa: map<Hash, Kappa>, best: map<Hash, Hash>, stamp: map<Hash, nat>)
    requires DistinctHashes(edges)
    requires Valid(t, edges, ToSet(extra)) && Follows(t, edges, extra, kappa, best, stamp) && Uses(t, en)
    requires PointerClosed(hs, target, best, EdgeMap(edges))
    requires Root(t) in best ==> best[Root(t)] in hs
    ensures en.hash in hs
  {
    if t.entry != en {
      var i :| 0 <= i < |t.subs| && Uses(t.subs[i], en);
      var p := t.entry.edge.premises[i];
      assert Entry(t.entry.hash, EdgeMap(edges)[t.entry.hash]) in edges;
      assert p in t.entry.edge.premises;
      ClosedHoldsTree(t.subs[i], en, hs, target, edges, extra, kappa, best, stamp);
    }
  }

  /** What the walk collects is exactly the edges of the unfolded derivation. */
  lemma {:induction false} CollectedIsTree(t: Tree, hs: set<Hash>, target: Hash, edges: seq<Entry>, extra: seq<Hash>,
      kappa: map<Hash, Kappa>, best: map<Hash, Hash>, stamp: map<Hash, nat>)
    requires DistinctHashes(edges)
    requires RealTree(t, target, edges, extra, kappa, best, stamp)
    requires Collected(hs, target, best, EdgeMap(edges))
    ensures forall h :: h in hs <==> exists en :: Uses(t, en) && en.hash == h
  {
    hide Points, Valid;
    var own := HashesOf(t, best);
    if target in best {
      assert t.Step? && Uses(t, t.entry) && best[target] == t.entry.hash by {
        PointsFacts(target, t.entry, edges, extra, kappa, best, stamp);
      }
    }
    forall h, p | h in own && h in EdgeMap(edges) && p in EdgeMap(edges)[h].premises && p in best
      ensures best[p] in own
    {
      var en :| Uses(t, en) && en.hash == h;
      UsedIsEntry(t, en, edges, ToSet(extra));
      assert Entry(h, EdgeMap(edges)[h]) in edges;
      var next := UsesNextPointer(t, en, p, edges, extra, kappa, best, stamp);
    }
    assert PointerClosed(own, target, best, EdgeMap(edges));
    forall en | Uses(t, en)
      ensures en.hash in hs
    {
      ClosedHoldsTree(t, en, hs, target, edges, extra, kappa, best, stamp);
    }
  }

  // ----- The weakest edge -----

  ghost predicate WeakestEdge(hs: set<Hash>, edgeMap: map<Hash, Edge>, k: Kappa) {
    && (forall h | h in hs && h in edgeMap :: Rank(k) <= Rank(edgeMap[h].kappa))
    && if hs == {} then k == KInf else exists h :: h in hs && h in edgeMap && edgeMap[h].kappa == k
  }

  lemma {:induction false} StrengthIsWeakestUsed(t: Tree)
    ensures forall en | Uses(t, en) :: Rank(Strength(t)) <= Rank(en.edge.kappa)
    ensures if t.Assume? then Strength(t) == KInf else exists en :: Uses(t, en) && en.edge.kappa == Strength(t)
  {
    if t.Step? {
      StepStrength(t, Rank(Strength(t)));
      forall en | Uses(t, en)
        ensures Rank(Strength(t)) <= Rank(en.edge.kappa)
      {
        if en != t.entry {
          var i :| 0 <= i < |t.subs| && Uses(t.subs[i], en);
          StrengthIsWeakestUsed(t.subs[i]);
        }
      }
      assert Uses(t, t.entry);
      if Strength(t) != t.entry.edge.kappa {
        var ks := Strengths(t.subs);
        var i :| 0 <= i < |ks| && ks[i] == Strength(t);
        StrengthIsWeakestUsed(t.subs[i]);
        if t.subs[i].Step? {
          var en :| Uses(t.subs[i], en) && en.edge.kappa == Strength(t.subs[i]);
          assert Uses(t, en);
        }
      }
    }
  }

  /** No collected axiom is weaker than the strength reported for the target. */
  ghost predicate AxiomsStrongEnough(hs: set<Hash>, edgeMap: map<Hash, Edge>, k: Kappa) {
    forall h | h in hs && h in edgeMap && edgeMap[h].premises == [] :: Rank(k) <= Rank(edgeMap[h].kappa)
  }

  lemma {:induction false} WeakestOfTree(t: Tree, hs: set<Hash>, target: Hash, edges: seq<Entry>, extra: seq<Hash>,
      kappa: map<Hash, Kappa>, best: map<Hash, Hash>, stamp: map<Hash, nat>)
    requires DistinctHashes(edges)
    requires RealTree(t, target, edges, extra, kappa, best, stamp)
    requires forall h :: h in hs <==> exists en :: Uses(t, en) && en.hash == h
    ensures WeakestEdge(hs, EdgeMap(edges), Strength(t))
  {
    hide Points, Valid, Follows, Strength;
    StrengthIsWeakestUsed(t);
    forall en | Uses(t, en)
      ensures en.hash in hs && en.hash in EdgeMap(edges) && EdgeMap(edges)[en.hash] == en.edge
    {
      UsedIsEntry(t, en, edges, ToSet(extra));
      assert Entry(en.hash, EdgeMap(edges)[en.hash]) in edges;
    }
    if t.Assume? {
      assert hs == {};
    } else {
      assert Uses(t, t.entry) && hs != {};
    }
  }

  lemma {:induction false} StrongAxiomsStrongTree(t: Tree, hs: set<Hash>, target: Hash, edges: seq<Entry>,
      extra: seq<Hash>, kappa: map<Hash, Kappa>, best: map<Hash, Hash>, stamp: map<Hash, nat>)
    requires DistinctHashes(edges)
    requires target in kappa && RealTree(t, target, edges, extra, kappa, best, stamp)
    requires forall en | Uses(t, en) :: en.hash in hs
    requires AxiomsStrongEnough(hs, EdgeMap(edges), kappa[target])
    ensures Rank(kappa[target]) <= Rank(Strength(t))
  {
    StrengthIsWeakestUsed(t);
    if t.Step? {
      var en :| Uses(t, en) && en.edge.kappa == Strength(t);
      UsedIsBest(t, en, edges, extra, kappa, best, stamp);
      assert Entry(en.hash, EdgeMap(edges)[en.hash]) in edges;
    }
  }

  ghost predicate Closes(hs: set<Hash>, p: Hash, edgeMap: map<Hash, Edge>, extra: seq<Hash>) {
    p in extra || exists h :: h in hs && h in edgeMap && edgeMap[h].conclusion == p
  }

  /**
   The reported proof tree is real. Its edges are exactly those of one derivation of the
   target, which is at least as high as the reported depth; the target and each premise
   of an edge is concluded by an edge in it or is an extra seed; and its weakest edge is
   worth the reported strength exactly when none of its axioms is weaker than that.
   */
  lemma {:induction false} ProofTreeIsReal(target: Hash, hs: set<Hash>, edges: seq<Entry>, extra: seq<Hash>,
      kappa: map<Hash, Kappa>, depth: map<Hash, nat>, best: map<Hash, Hash>)
    requires DistinctHashes(edges)
    requires IsFixpoint(edges, extra, kappa, depth, best) && target in kappa
    requires Collected(hs, target, best, EdgeMap(edges))
    ensures exists t :: Derives(t, edges, ToSet(extra), target) && target in depth && depth[target] <= Height(t)
                        && forall h :: h in hs <==> exists en :: Uses(t, en) && en.hash == h
    ensures Closes(hs, target, EdgeMap(edges), extra)
    ensures forall h, p | h in hs && h in EdgeMap(edges) &&
            p in EdgeMap(edges)[h].premises :: Closes(hs, p, EdgeMap(edges), extra)
    ensures WeakestEdge(hs, EdgeMap(edges), kappa[target]) <==> AxiomsStrongEnough(hs, EdgeMap(edges), kappa[target])
  {
    hide *;
    var t, stamp, clock := UnfoldBest(target, edges, extra, kappa, depth, best);
    CollectedIsTree(t, hs, target, edges, extra, kappa, best, stamp);
    CollectedCloses(t, hs, target, edges, extra, kappa, best, stamp, clock);
    WeakestOfTree(t, hs, target, edges, extra, kappa, best, stamp);
    WeakestIffAxioms(t, hs, target, edges, extra, kappa, best, stamp);
  }

  lemma {:induction false} UnfoldBest(target: Hash, edges: seq<Entry>, extra: seq<Hash>, kappa: map<Hash, Kappa>,
      depth: map<Hash, nat>, best: map<Hash, Hash>) returns (t: Tree, stamp: map<Hash, nat>, clock: nat)
    requires IsFixpoint(edges, extra, kappa, depth, best) && target in kappa
    ensures WellStamped(edges, extra, kappa, best, stamp, clock)
    ensures RealTree(t, target, edges, extra, kappa, best, stamp)
    ensures Derives(t, edges, ToSet(extra), target)
    ensures target in depth && depth[target] <= Height(t)
    ensures Rank(Strength(t)) <= Rank(kappa[target])
  {
    hide Closed, KeepsSeeds, Strength, Height, Valid, WellStamped, Follows;
    stamp, clock :| WellStamped(edges, extra, kappa, best, stamp, clock);
    Unfold(target, edges, extra, kappa, best, stamp, clock);
    t :| RealTree(t, target, edges, extra, kappa, best, stamp);
    assert Valid(t, edges, ToSet(extra));
  }

  lemma {:induction false} WeakestIffAxioms(t: Tree, hs: set<Hash>, target: Hash, edges: seq<Entry>, extra: seq<Hash>,
      kappa: map<Hash, Kappa>, best: map<Hash, Hash>, stamp: map<Hash, nat>)
    requires DistinctHashes(edges) && target in kappa
    requires RealTree(t, target, edges, extra, kappa, best, stamp)
    requires forall en | Uses(t, en) :: en.hash in hs
    requires Rank(Strength(t)) <= Rank(kappa[target])
    requires WeakestEdge(hs, EdgeMap(edges), Strength(t))
    ensures WeakestEdge(hs, EdgeMap(edges), kappa[target]) <==> AxiomsStrongEnough(hs, EdgeMap(edges), kappa[target])
  {
    hide RealTree, Strength, Uses, EdgeMap;
    if AxiomsStrongEnough(hs, EdgeMap(edges), kappa[target]) {
      StrongAxiomsStrongTree(t, hs, target, edges, extra, kappa, best, stamp);
      RankInjective(Strength(t), kappa[target]);
    }
  }

  lemma {:induction false} CollectedCloses(t: Tree, hs: set<Hash>, target: Hash, edges: seq<Entry>, extra: seq<Hash>,
      kappa: map<Hash, Kappa>, best: map<Hash, Hash>, stamp: map<Hash, nat>, clock: nat)
    requires DistinctHashes(edges)
    requires WellStamped(edges, extra, kappa, best, stamp, clock) && target in kappa
    requires RealTree(t, target, edges, extra, kappa, best, stamp)
    requires Collected(hs, target, best, EdgeMap(edges))
    requires forall h :: h in hs <==> exists en :: Uses(t, en) && en.hash == h
    ensures Closes(hs, target, EdgeMap(edges), extra)
    ensures forall h, p | h in hs && h in EdgeMap(edges) &&
            p in EdgeMap(edges)[h].premises :: Closes(hs, p, EdgeMap(edges), extra)
  {
    hide Valid, Follows;
    BestCloses(target, hs, edges, extra, kappa, best, stamp, clock);
    forall h, p | h in hs && h in EdgeMap(edges) && p in EdgeMap(edges)[h].premises
      ensures Closes(hs, p, EdgeMap(edges), extra)
    {
      var en :| Uses(t, en) && en.hash == h;
      UsedIsEntry(t, en, edges, ToSet(extra));
      UsedIsBest(t, en, edges, extra, kappa, best, stamp);
      assert Entry(h, EdgeMap(edges)[h]) in edges;
      BestCloses(p, hs, edges, extra, kappa, best, stamp, clock);
    }
  }

  lemma {:induction false} BestCloses(p: Hash, hs: set<Hash>, edges: seq<Entry>, extra: seq<Hash>,
      kappa: map<Hash, Kappa>, best: map<Hash, Hash>, stamp: map<Hash, nat>, clock: nat)
    requires DistinctHashes(edges)
    requires WellStamped(edges, extra, kappa, best, stamp, clock) && p in kappa
    requires p in best ==> best[p] in hs
    ensures Closes(hs, p, EdgeMap(edges), extra)
  {
    if p in best {
      var en := PointerEntry(p, edges, extra, kappa, best, stamp, clock);
    }
  }

  // ----- When every proof tree is as strong as reported -----

  ghost predicate WeakestEverywhere(edges: seq<Entry>, kappa: map<Hash, Kappa>, best: map<Hash, Hash>) {
    forall target, hs | target in kappa && Collected(hs, target, best, EdgeMap(edges)) ::
      WeakestEdge(hs, EdgeMap(edges), kappa[target])
  }

  /** Some derivation of the claim is stronger than its strongest seed. */
  ghost predicate Beaten(edges: seq<Entry>, extra: seq<Hash>, n: Hash) {
    var seed := SeedKappa(edges, extra, n);
    seed.Some? && exists t :: Derives(t, edges, ToSet(extra), n) && Rank(seed.value) < Rank(Strength(t))
  }

  /** Wherever no derivation beats the seeds, the last axiom listed is the strongest seed. */
  ghost predicate LastAxiomDecides(edges: seq<Entry>, extra: seq<Hash>) {
    forall n | 0 <= LastAxiom(edges, n) && !Beaten(edges, extra, n) ::
      SeedKappa(edges, extra, n) == Some(edges[LastAxiom(edges, n)].edge.kappa)
  }

  /** The fixpoint leaves a claim at its seed exactly when no derivation beats the seed. */
  lemma {:induction false} UnbeatenKeepsSeed(n: Hash, edges: seq<Entry>, extra: seq<Hash>, kappa: map<Hash, Kappa>,
      depth: map<Hash, nat>, best: map<Hash, Hash>)
    requires IsFixpoint(edges, extra, kappa, depth, best) && SeedKappa(edges, extra, n).Some?
    ensures n in kappa && (!Beaten(edges, extra, n) <==> SeedKappa(edges, extra, n) == Some(kappa[n]))
  {
    hide Strength, Valid, WellStamped, Closed, Shallowest, SeedKappa;
    var seed := SeedKappa(edges, extra, n).value;
    var t :| Derives(t, edges, ToSet(extra), n) && Strength(t) == kappa[n];
    if Rank(seed) == Rank(kappa[n]) {
      RankInjective(seed, kappa[n]);
    }
    forall t' | Derives(t', edges, ToSet(extra), n)
      ensures Rank(Strength(t')) <= Rank(kappa[n])
    {
      assert Valid(t', edges, ToSet(extra));
    }
  }

  /** Every claim's last axiom is its strongest seed; in particular a claim with an
      axiom that is also assumed has that axiom at full strength. */
  ghost predicate SeedsFaithful(edges: seq<Entry>, extra: seq<Hash>) {
    forall n | 0 <= LastAxiom(edges, n) :: SeedKappa(edges, extra, n) == Some(edges[LastAxiom(edges, n)].edge.kappa)
  }

  lemma {:induction false} CollectedAxiom(target: Hash, hs: set<Hash>, h: Hash, edges: seq<Entry>, extra: seq<Hash>,
      kappa: map<Hash, Kappa>, depth: map<Hash, nat>, best: map<Hash, Hash>) returns (n: Hash)
    requires DistinctHashes(edges)
    requires IsFixpoint(edges, extra, kappa, depth, best) && target in kappa
    requires Collected(hs, target, best, EdgeMap(edges))
    requires h in hs && h in EdgeMap(edges) && EdgeMap(edges)[h].premises == []
    ensures 0 <= LastAxiom(edges, n) && EdgeMap(edges)[h] == edges[LastAxiom(edges, n)].edge
    ensures n in kappa && SeedKappa(edges, extra, n) == Some(kappa[n]) && Rank(kappa[target]) <= Rank(kappa[n])
  {
    var t, stamp, clock := UnfoldBest(target, edges, extra, kappa, depth, best);
    CollectedIsTree(t, hs, target, edges, extra, kappa, best, stamp);
    hide Follows, Valid, Collected, WellStamped, Optimal, Closed, Shallowest, KeepsSeeds;
    var en :| Uses(t, en) && en.hash == h;
    UsedIsBest(t, en, edges, extra, kappa, best, stamp);
    UsedIsEntry(t, en, edges, ToSet(extra));
    assert Entry(h, EdgeMap(edges)[h]) in edges;
    n := en.edge.conclusion;
  }

  lemma {:induction false} AxiomPointerCollects(n: Hash, edges: seq<Entry>, best: map<Hash, Hash>)
    requires DistinctHashes(edges)
    requires 0 <= LastAxiom(edges, n) && n in best && best[n] == edges[LastAxiom(edges, n)].hash
    ensures Collected({best[n]}, n, best, EdgeMap(edges))
    ensures best[n] in EdgeMap(edges) && EdgeMap(edges)[best[n]] == edges[LastAxiom(edges, n)].edge
  {
    var en := edges[LastAxiom(edges, n)];
    assert Entry(en.hash, EdgeMap(edges)[en.hash]) in edges;
  }

  /** Exactly when the reported strength is always that of the weakest reported edge, in terms
      of the edges and the extra seeds alone. */
  lemma {:induction false} WeakestEverywhereIff(edges: seq<Entry>, extra: seq<Hash>, kappa: map<Hash, Kappa>,
      depth: map<Hash, nat>, best: map<Hash, Hash>)
    requires DistinctHashes(edges)
    requires IsFixpoint(edges, extra, kappa, depth, best)
    ensures WeakestEverywhere(edges, kappa, best) <==> LastAxiomDecides(edges, extra)
  {
    hide *;
    if LastAxiomDecides(edges, extra) {
      forall target, hs | target in kappa && Collected(hs, target, best, EdgeMap(edges))
        ensures WeakestEdge(hs, EdgeMap(edges), kappa[target])
      {
        DecidingAxiomsSuffice(target, hs, edges, extra, kappa, depth, best);
      }
      FoldWeakestEverywhere(edges, kappa, best);
    }
    if WeakestEverywhere(edges, kappa, best) {
      DecidingAxiomsNeeded(edges, extra, kappa, depth, best);
    }
  }

  lemma {:induction false} FoldWeakestEverywhere(edges: seq<Entry>, kappa: map<Hash, Kappa>, best: map<Hash, Hash>)
    requires forall target, hs | target in kappa &&
            Collected(hs, target, best, EdgeMap(edges)) :: WeakestEdge(hs, EdgeMap(edges), kappa[target])
    ensures WeakestEverywhere(edges, kappa, best)
  {
    hide Collected, WeakestEdge, EdgeMap;
  }

  lemma {:induction false} DecidingAxiomsSuffice(target: Hash, hs: set<Hash>, edges: seq<Entry>, extra: seq<Hash>,
      kappa: map<Hash, Kappa>, depth: map<Hash, nat>, best: map<Hash, Hash>)
    requires DistinctHashes(edges)
    requires IsFixpoint(edges, extra, kappa, depth, best) && target in kappa
    requires Collected(hs, target, best, EdgeMap(edges))
    requires LastAxiomDecides(edges, extra)
    ensures WeakestEdge(hs, EdgeMap(edges), kappa[target])
  {
    hide IsFixpoint, Collected, WeakestEdge, EdgeMap, DistinctHashes, Closes;
    forall h | h in hs && h in EdgeMap(edges) && EdgeMap(edges)[h].premises == []
      ensures Rank(kappa[target]) <= Rank(EdgeMap(edges)[h].kappa)
    {
      var n := CollectedAxiom(target, hs, h, edges, extra, kappa, depth, best);
      UnbeatenKeepsSeed(n, edges, extra, kappa, depth, best);
    }
    ProofTreeIsReal(target, hs, edges, extra, kappa, depth, best);
  }

  lemma {:induction false} DecidingAxiomsNeeded(edges: seq<Entry>, extra: seq<Hash>, kappa: map<Hash, Kappa>,
      depth: map<Hash, nat>, best: map<Hash, Hash>)
    requires DistinctHashes(edges)
    requires IsFixpoint(edges, extra, kappa, depth, best)
    requires WeakestEverywhere(edges, kappa, best)
    ensures LastAxiomDecides(edges, extra)
  {
    hide IsFixpoint, Collected, Beaten, SeedKappa, LastAxiom, EdgeMap, DistinctHashes, WeakestEdge;
    forall n | 0 <= LastAxiom(edges, n) && !Beaten(edges, extra, n)
      ensures SeedKappa(edges, extra, n) == Some(edges[LastAxiom(edges, n)].edge.kappa)
    {
      SeededByAxiom(edges, extra, n);
      UnbeatenKeepsSeed(n, edges, extra, kappa, depth, best);
      PointsToLastAxiom(n, edges, extra, kappa, depth, best);
      AxiomPointerCollects(n, edges, best);
      WeakestIsOnly(best[n], EdgeMap(edges), kappa[n]);
    }
  }

  lemma {:induction false} SeededByAxiom(edges: seq<Entry>, extra: seq<Hash>, n: Hash)
    requires 0 <= LastAxiom(edges, n)
    ensures SeedKappa(edges, extra, n).Some?
  {
  }

  lemma {:induction false} PointsToLastAxiom(n: Hash, edges: seq<Entry>, extra: seq<Hash>, kappa: map<Hash, Kappa>,
      depth: map<Hash, nat>, best: map<Hash, Hash>)
    requires IsFixpoint(edges, extra, kappa, depth, best)
    requires 0 <= LastAxiom(edges, n) && n in kappa && SeedKappa(edges, extra, n) == Some(kappa[n])
    ensures n in best && best[n] == edges[LastAxiom(edges, n)].hash
  {
    hide Optimal, Closed, Shallowest, WellStamped, SeedKappa, LastAxiom;
  }

  lemma {:induction false} WeakestIsOnly(h: Hash, edgeMap: map<Hash, Edge>, k: Kappa)
    requires h in edgeMap
    ensures WeakestEdge({h}, edgeMap, k) <==> edgeMap[h].kappa == k
  {
    assert h in {h};
  }

  /** In particular, whatever can be derived, with faithful seeds nothing can go wrong. */
  lemma {:induction false} FaithfulSeedsSuffice(edges: seq<Entry>, extra: seq<Hash>, kappa: map<Hash, Kappa>,
      depth: map<Hash, nat>, best: map<Hash, Hash>)
    requires DistinctHashes(edges)
    requires IsFixpoint(edges, extra, kappa, depth, best)
    requires SeedsFaithful(edges, extra)
    ensures WeakestEverywhere(edges, kappa, best)
  {
    hide IsFixpoint, WeakestEverywhere, SeedKappa;
    WeakestEverywhereIff(edges, extra, kappa, depth, best);
  }

  /** Seeding points a claim at the axiom listed last, however weak: two axioms for one
      claim, the stronger first, and the reported tree is weaker than the report. */
  lemma {:induction false} WeakAxiomListedLast(n: Hash, strong: Entry, weak: Entry, kappa: map<Hash, Kappa>,
      depth: map<Hash, nat>, best: map<Hash, Hash>)
    requires IsAxiomFor(strong, n) && IsAxiomFor(weak, n) && strong.hash != weak.hash
    requires strong.edge.kappa == K3 && weak.edge.kappa == K1
    requires IsFixpoint([strong, weak], [], kappa, depth, best)
    ensures n in kappa && kappa[n] == K3
    ensures Collected({weak.hash}, n, best, EdgeMap([strong, weak]))
    ensures !WeakestEdge({weak.hash}, EdgeMap([strong, weak]), kappa[n])
  {
    hide *;
    TwoAxioms(n, strong, weak);
    AxiomsOnly(n, [strong, weak], kappa, depth, best);
    AxiomPointerCollects(n, [strong, weak], best);
    WeakestIsOnly(weak.hash, EdgeMap([strong, weak]), K3);
  }

  lemma {:induction false} TwoAxioms(n: Hash, strong: Entry, weak: Entry)
    requires IsAxiomFor(strong, n) && IsAxiomFor(weak, n) && strong.hash != weak.hash
    requires strong.edge.kappa == K3 && weak.edge.kappa == K1
    ensures var edges := [strong, weak];
            && LastAxiom(edges, n) == 1 && edges[1] == weak
            && SeedKappa(edges, [], n) == Some(K3)
            && DistinctHashes(edges)
            && forall en | en in edges :: en.edge.premises == []
  {
    var edges := [strong, weak];
    assert edges[..1] == [strong] && [strong][..0] == [];
    assert AxiomKappa([strong], n) == Some(K3);
  }

  lemma {:induction false} AxiomsOnly(n: Hash, edges: seq<Entry>, kappa: map<Hash, Kappa>, depth: map<Hash, nat>,
      best: map<Hash, Hash>)
    requires IsFixpoint(edges, [], kappa, depth, best)
    requires forall en | en in edges :: en.edge.premises == []
    requires 0 <= LastAxiom(edges, n) && SeedKappa(edges, [], n).Some?
    ensures n in kappa && SeedKappa(edges, [], n) == Some(kappa[n])
    ensures n in best && best[n] == edges[LastAxiom(edges, n)].hash
  {
    hide Optimal, Closed, Shallowest, SeedKappa, LastAxiom;
    var stamp, clock :| WellStamped(edges, [], kappa, best, stamp, clock);
    if n in best {
      var en :| Points(en, n, edges, [], kappa, best, stamp);
    }
  }
}
