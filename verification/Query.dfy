/** The reachability query over a store, and the derivation edges it works from. */
module Query {
  import opened Options
  import opened KappaAlgebra
  import opened Records
  import opened Derivation
  import opened Reachability
  import opened ProofTree
  import opened HexOrder

  datatype Row = Row(edge: Hash, conclusion: Hash)

  /** What the query layer sees of a store: the index's edge table in its listing order,
      and the content-addressed blobs. Either may disagree with the other. */
  datatype Store = Store(rows: seq<Row>, objects: Objects)

  predicate CanDerive(e: Edge) {
    e.kind != Refutation && (e.verdict == Pass || e.verdict == SoftFlag)
  }

  predicate Active(h: Hash, active: Option<set<Hash>>) {
    active.None? || h in active.value
  }

  ghost predicate Listed(h: Hash, store: Store) {
    exists row :: row in store.rows && row.edge == h
  }

  /** `edges` holds the listed, active edges that resolve and can establish a conclusion. */
  ghost predicate IsDerivationList(edges: seq<Entry>, store: Store, active: Option<set<Hash>>) {
    forall en :: en in edges <==>
      && Listed(en.hash, store) && Active(en.hash, active)
      && ResolveEdge(en.hash, store.objects) == Some(en.edge) && CanDerive(en.edge)
  }

  /** The derivation edges in listing order. */
  function DerivationList(store: Store, active: Option<set<Hash>>): (out: seq<Entry>)
    ensures forall en | en in out :: CanDerive(en.edge) && Active(en.hash, active)
    decreases |store.rows|
  {
    if store.rows == [] then []
    else
      var n := |store.rows| - 1;
      var before, h := DerivationList(Store(store.rows[..n], store.objects), active), store.rows[n].edge;
      var e := ResolveEdge(h, store.objects);
      if Active(h, active) && e.Some? && CanDerive(e.value) then before + [Entry(h, e.value)] else before
  }

  /** They are exactly the listed, active edges that resolve and can establish a conclusion;
      and since an address resolves to one record, no address stands for two. */
  lemma {:induction false} DerivationListIs(store: Store, active: Option<set<Hash>>)
    ensures IsDerivationList(DerivationList(store, active), store, active)
    ensures DistinctHashes(DerivationList(store, active))
    decreases |store.rows|
  {
    if store.rows != [] {
      var n := |store.rows| - 1;
      DerivationListIs(Store(store.rows[..n], store.objects), active);
      assert store.rows[..n + 1] == store.rows;
      forall g
        ensures Listed(g, store) <==> Listed(g, Store(store.rows[..n], store.objects)) || g == store.rows[n].edge
      {
        ListedStep(g, store, n);
      }
    }
  }

  /** Membership, field by field: indexed, active, stored as a record that is no refutation and
      was not vetoed. */
  lemma {:induction false} DerivationListHolds(store: Store, active: Option<set<Hash>>, h: Hash, e: Edge)
    ensures Entry(h, e) in DerivationList(store, active) <==>
              && (exists row :: row in store.rows && row.edge == h)
              && (active.Some? ==> h in active.value)
              && ResolveEdge(h, store.objects) == Some(e)
              && e.kind != Refutation && e.verdict != HardVeto
  {
    DerivationListIs(store, active);
    hide DerivationList, ResolveEdge;
  }

  method DerivationEdges(store: Store, active: Option<set<Hash>>) returns (out: seq<Entry>)
    ensures out == DerivationList(store, active)
  {
    out := [];
    for i := 0 to |store.rows|
      invariant out == DerivationList(Store(store.rows[..i], store.objects), active)
    {
      assert store.rows[..i + 1][..i] == store.rows[..i];
      var h := store.rows[i].edge;
      if active.Some? && h !in active.value {
        continue;
      }
      var e := ResolveEdge(h, store.objects);
      if e.None? {
        continue;
      }
      if e.value.kind == Refutation {
        continue;
      }
      if e.value.verdict != Pass && e.value.verdict != SoftFlag {
        continue;
      }
      out := out + [Entry(h, e.value)];
    }
    assert store.rows[..|store.rows|] == store.rows;
  }

  lemma ListedStep(g: Hash, store: Store, i: nat)
    requires i < |store.rows|
    ensures Listed(g, Store(store.rows[..i + 1], store.objects)) <==>
            Listed(g, Store(store.rows[..i], store.objects)) || g == store.rows[i].edge
  {
    assert store.rows[..i + 1] == store.rows[..i] + [store.rows[i]];
    if g == store.rows[i].edge {
      assert store.rows[i] in store.rows[..i + 1];
    }
    if Listed(g, Store(store.rows[..i], store.objects)) {
      var row :| row in store.rows[..i] && row.edge == g;
      assert row in store.rows[..i + 1];
    }
  }

  datatype ReachabilityResult = ReachabilityResult(
    target: Hash, established: bool, kappa: Option<Kappa>, depth: Option<nat>, proofTree: seq<Hash>)

  /** The claim has a derivation of strength k or more. */
  ghost predicate DerivableAt(n: Hash, k: Kappa, edges: seq<Entry>, seeds: set<Hash>) {
    exists t :: Derives(t, edges, seeds, n) && Rank(k) <= Rank(Strength(t))
  }

  ghost predicate StrongestDerivation(n: Hash, k: Kappa, edges: seq<Entry>, seeds: set<Hash>) {
    DerivableAt(n, k, edges, seeds) && forall t | Derives(t, edges, seeds, n) :: Rank(Strength(t)) <= Rank(k)
  }

  ghost predicate LowestDerivation(n: Hash, d: nat, edges: seq<Entry>, seeds: set<Hash>) {
    (exists t :: Derives(t, edges, seeds, n) && Height(t) == d) &&
        forall t | Derives(t, edges, seeds, n) :: d <= Height(t)
  }

  /**
   What the answer means, in terms of derivations only. A strength and a depth are given
   exactly when the target is derivable, and are the best there are, possibly of different
   derivations; the threshold is judged on the strength; and the proof tree is the edges
   of one derivation of the target.
   */
  ghost predicate Answers(r: ReachabilityResult, target: Hash, minKappa: Kappa, edges: seq<Entry>, seeds: set<Hash>) {
    && r.target == target
    && (r.established <==> DerivableAt(target, minKappa, edges, seeds))
    && (r.kappa.Some? <==> exists t :: Derives(t, edges, seeds, target))
    && (r.kappa.Some? <==> r.depth.Some?)
    && (r.kappa.Some? ==>
          && StrongestDerivation(target, r.kappa.value, edges, seeds)
          && LowestDerivation(target, r.depth.value, edges, seeds)
          && exists t :: Derives(t, edges, seeds, target) && forall h :: h in r.proofTree <==>
               exists en :: Uses(t, en) && en.hash == h)
    && (r.kappa.None? ==> r.proofTree == [])
  }

  lemma {:induction false} FixpointAnswers(target: Hash, minKappa: Kappa, edges: seq<Entry>, extra: seq<Hash>,
      kappa: map<Hash, Kappa>, depth: map<Hash, nat>, best: map<Hash, Hash>)
    requires IsFixpoint(edges, extra, kappa, depth, best)
    ensures target in kappa <==> exists t :: Derives(t, edges, ToSet(extra), target)
    ensures target in kappa ==> StrongestDerivation(target, kappa[target], edges, ToSet(extra))
    ensures target in kappa ==> target in depth && LowestDerivation(target, depth[target], edges, ToSet(extra))
    ensures DerivableAt(target, minKappa, edges, ToSet(extra)) <==>
            target in kappa && Rank(minKappa) <= Rank(kappa[target])
  {
    hide WellStamped, KeepsSeeds, Closed, Strength, Height, Valid;
    forall t | Derives(t, edges, ToSet(extra), target)
      ensures target in kappa && Rank(Strength(t)) <= Rank(kappa[target])
      ensures target in depth && depth[target] <= Height(t)
    {
      assert Valid(t, edges, ToSet(extra));
    }
    if target in kappa {
      var t :| Derives(t, edges, ToSet(extra), target) && Strength(t) == kappa[target];
    }
  }

  // ----- Thresholds, label by label -----

  /** Every edge used has one of the strengths. */
  ghost predicate BuiltOf(t: Tree, ks: set<Kappa>) {
    forall en | Uses(t, en) :: en.edge.kappa in ks
  }

  /** The claim has a derivation of edges of these strengths alone. */
  ghost predicate DerivableFrom(n: Hash, ks: set<Kappa>, edges: seq<Entry>, seeds: set<Hash>) {
    exists t :: Derives(t, edges, seeds, n) && BuiltOf(t, ks)
  }

  /** A threshold on the strength of a derivation is a threshold on each of its edges. */
  lemma {:induction false} ThresholdMeans(n: Hash, k: Kappa, edges: seq<Entry>, seeds: set<Hash>)
    ensures DerivableAt(n, k, edges, seeds) <==> DerivableFrom(n, AtOrAbove(k), edges, seeds)
  {
    hide Derives, Strength, Uses, AtOrAbove, Rank;
    forall t
      ensures Rank(k) <= Rank(Strength(t)) <==> BuiltOf(t, AtOrAbove(k))
    {
      StrengthMeans(t, k);
    }
  }

  lemma {:induction false} StrengthMeans(t: Tree, k: Kappa)
    ensures Rank(k) <= Rank(Strength(t)) <==> BuiltOf(t, AtOrAbove(k))
  {
    hide Strength, Uses, AtOrAbove;
    StrengthIsWeakestUsed(t);
    forall j
      ensures j in AtOrAbove(k) <==> Rank(k) <= Rank(j)
    {
      AtOrAboveIs(k, j);
    }
    if t.Step? && BuiltOf(t, AtOrAbove(k)) {
      var en :| Uses(t, en) && en.edge.kappa == Strength(t);
    }
  }

  /** What an answer says, threshold by threshold: established exactly when some derivation
      uses only edges of the labels listed, and so for the strength it reports. */
  lemma {:induction false} EstablishedAtEach(r: ReachabilityResult, target: Hash, k: Kappa, edges: seq<Entry>,
      seeds: set<Hash>)
    requires Answers(r, target, k, edges, seeds)
    ensures k == K0 ==> (r.established <==> DerivableFrom(target, {K0, K1, K2, K3, KInf}, edges, seeds))
    ensures k == K1 ==> (r.established <==> DerivableFrom(target, {K1, K2, K3, KInf}, edges, seeds))
    ensures k == K2 ==> (r.established <==> DerivableFrom(target, {K2, K3, KInf}, edges, seeds))
    ensures k == K3 ==> (r.established <==> DerivableFrom(target, {K3, KInf}, edges, seeds))
    ensures k == KInf ==> (r.established <==> DerivableFrom(target, {KInf}, edges, seeds))
    ensures forall j :: DerivableFrom(target, AtOrAbove(j), edges, seeds) <==>
              r.kappa.Some? && r.kappa.value in AtOrAbove(j)
  {
    hide Derives, Strength, Uses, BuiltOf, LowestDerivation, DerivableFrom, Rank;
    ThresholdMeans(target, k, edges, seeds);
    forall j
      ensures DerivableFrom(target, AtOrAbove(j), edges, seeds) <==> r.kappa.Some? && r.kappa.value in AtOrAbove(j)
    {
      ThresholdMeans(target, j, edges, seeds);
      if r.kappa.Some? {
        AtOrAboveIs(j, r.kappa.value);
      }
    }
  }

  // ----- Strength and depth together -----

  /** Some derivation has both values. */
  ghost predicate HasBoth(n: Hash, k: Kappa, d: nat, edges: seq<Entry>, seeds: set<Hash>) {
    exists t :: Derives(t, edges, seeds, n) && Strength(t) == k && Height(t) == d
  }

  /** One derivation is both strongest and lowest exactly when dropping every edge weaker than
      the strength leaves the depth as it is. */
  lemma {:induction false} HasBothIff(n: Hash, k: Kappa, d: nat, edges: seq<Entry>, seeds: set<Hash>)
    requires StrongestDerivation(n, k, edges, seeds) && LowestDerivation(n, d, edges, seeds)
    ensures HasBoth(n, k, d, edges, seeds) <==> LowestDerivation(n, d, AtLeast(edges, k), seeds)
  {
    hide Strength, Height, Valid;
    var strong := AtLeast(edges, k);
    forall t
      ensures Derives(t, strong, seeds, n) <==> Derives(t, edges, seeds, n) && Strength(t) == k
    {
      StrongTrees(t, edges, seeds, k);
      if Derives(t, edges, seeds, n) && Rank(k) <= Rank(Strength(t)) {
        RankInjective(Strength(t), k);
      }
    }
  }

  ghost predicate SameEntries(a: seq<Entry>, b: seq<Entry>) {
    forall en :: en in a <==> en in b
  }

  lemma {:induction false} SameLowest(n: Hash, d: nat, a: seq<Entry>, b: seq<Entry>, seeds: set<Hash>)
    requires SameEntries(a, b) && LowestDerivation(n, d, a, seeds)
    ensures LowestDerivation(n, d, b, seeds)
  {
    hide Height, Valid;
    forall t
      ensures Derives(t, a, seeds, n) <==> Derives(t, b, seeds, n)
    {
      if Valid(t, a, seeds) {
        ValidMonotone(t, a, b, seeds);
      }
      if Valid(t, b, seeds) {
        ValidMonotone(t, b, a, seeds);
      }
    }
  }

  /** The edges no weaker than `k`, as a set of active edges. */
  function StrongHashes(edges: seq<Entry>, k: Kappa): set<Hash> {
    set en | en in AtLeast(edges, k) :: en.hash
  }

  lemma {:induction false} RerunList(store: Store, active: Option<set<Hash>>, k: Kappa)
    ensures var edges := DerivationList(store, active);
            SameEntries(DerivationList(store, Some(StrongHashes(edges, k))), AtLeast(edges, k))
  {
    var edges := DerivationList(store, active);
    var again := DerivationList(store, Some(StrongHashes(edges, k)));
    DerivationListIs(store, active);
    DerivationListIs(store, Some(StrongHashes(edges, k)));
    hide DerivationList, ResolveEdge, CanDerive, Listed;
    forall en
      ensures en in again <==> en in AtLeast(edges, k)
    {
      if en in again {
        var en' :| en' in AtLeast(edges, k) && en'.hash == en.hash;
        assert en' == en;
      }
    }
  }

  /** What a caller can run: one derivation has the reported strength and depth exactly when
      the query, restricted to the edges no weaker than that strength, reports that depth. */
  lemma {:induction false} RerunTells(r: ReachabilityResult, again: ReachabilityResult, target: Hash, k: Kappa,
      k': Kappa, store: Store, active: Option<set<Hash>>, seeds: set<Hash>)
    requires Answers(r, target, k, DerivationList(store, active), seeds) && r.kappa.Some?
    requires var strong := StrongHashes(DerivationList(store, active), r.kappa.value);
             Answers(again, target, k', DerivationList(store, Some(strong)), seeds)
    ensures r.depth.Some?
    ensures HasBoth(target, r.kappa.value, r.depth.value, DerivationList(store, active), seeds) <==>
            again.depth == r.depth
  {
    var edges := DerivationList(store, active);
    var rerun := DerivationList(store, Some(StrongHashes(edges, r.kappa.value)));
    hide *;
    StrengthAnswered(r, target, k, edges, seeds);
    var n, strong, d := target, AtLeast(edges, r.kappa.value), r.depth.value;
    DepthAnswered(r, n, k, edges, seeds, d);
    DepthAnswered(again, n, k', rerun, seeds, d);
    HasBothIff(n, r.kappa.value, d, edges, seeds);
    RerunList(store, active, r.kappa.value);
    if LowestDerivation(n, d, strong, seeds) {
      SameEntriesBack(rerun, strong);
      SameLowest(n, d, strong, rerun, seeds);
    }
    if LowestDerivation(n, d, rerun, seeds) {
      SameLowest(n, d, rerun, strong, seeds);
    }
  }

  lemma {:induction false} SameEntriesBack(a: seq<Entry>, b: seq<Entry>)
    requires SameEntries(a, b)
    ensures SameEntries(b, a)
  {
  }

  lemma {:induction false} StrengthAnswered(r: ReachabilityResult, n: Hash, k: Kappa, edges: seq<Entry>,
      seeds: set<Hash>)
    requires Answers(r, n, k, edges, seeds) && r.kappa.Some?
    ensures r.depth.Some? && StrongestDerivation(n, r.kappa.value, edges, seeds)
  {
    hide StrongestDerivation, LowestDerivation, Derives, DerivableAt, Uses;
  }

  lemma {:induction false} DepthAnswered(r: ReachabilityResult, n: Hash, k: Kappa, edges: seq<Entry>, seeds: set<Hash>,
      d: nat)
    requires Answers(r, n, k, edges, seeds)
    ensures r.depth == Some(d) <==> LowestDerivation(n, d, edges, seeds)
  {
    hide StrongestDerivation, Derives, DerivableAt, Uses, Height;
    if LowestDerivation(n, d, edges, seeds) {
      LowestUnique(n, d, r.depth.value, edges, seeds);
    }
  }

  // ----- The query -----

  /** The tree is that of the best edges which the list, in its order, determines. */
  ghost predicate ReportsBest(tree: seq<Hash>, target: Hash, edges: seq<Entry>, extra: seq<Hash>) {
    exists best :: IsBest(edges, extra, best) && Collected(ToSet(tree), target, best, EdgeMap(edges))
  }

  /** The listed edges, the extra seeds, the target and the threshold determine the answer. */
  lemma {:induction false} AnswerUnique(r: ReachabilityResult, r': ReachabilityResult, target: Hash, k: Kappa,
      edges: seq<Entry>, extra: seq<Hash>, hex: Hex)
    requires Answers(r, target, k, edges, ToSet(extra)) && Answers(r', target, k, edges, ToSet(extra))
    requires r.kappa.Some? ==> ReportsBest(r.proofTree, target, edges, extra)
    requires r'.kappa.Some? ==> ReportsBest(r'.proofTree, target, edges, extra)
    requires Injective(hex) && Ascending(r.proofTree, hex) && Ascending(r'.proofTree, hex)
    ensures r == r'
  {
    hide DerivableAt, StrongestDerivation, LowestDerivation, Derives, Uses, ReportsBest, Ascending, Injective;
    if r.kappa.Some? {
      StrongestUnique(target, r.kappa.value, r'.kappa.value, edges, ToSet(extra));
      LowestUnique(target, r.depth.value, r'.depth.value, edges, ToSet(extra));
      SameReport(r.proofTree, r'.proofTree, target, edges, extra, hex);
    }
  }

  lemma {:induction false} StrongestUnique(n: Hash, k: Kappa, k': Kappa, edges: seq<Entry>, seeds: set<Hash>)
    requires StrongestDerivation(n, k, edges, seeds) && StrongestDerivation(n, k', edges, seeds)
    ensures k == k'
  {
    hide Strength, Derives;
    var t :| Derives(t, edges, seeds, n) && Rank(k) <= Rank(Strength(t));
    var t' :| Derives(t', edges, seeds, n) && Rank(k') <= Rank(Strength(t'));
    RankInjective(k, k');
  }

  lemma {:induction false} LowestUnique(n: Hash, d: nat, d': nat, edges: seq<Entry>, seeds: set<Hash>)
    requires LowestDerivation(n, d, edges, seeds) && LowestDerivation(n, d', edges, seeds)
    ensures d == d'
  {
    hide Height, Derives;
  }

  lemma {:induction false} SameReport(tree: seq<Hash>, tree': seq<Hash>, target: Hash, edges: seq<Entry>,
      extra: seq<Hash>, hex: Hex)
    requires ReportsBest(tree, target, edges, extra) && ReportsBest(tree', target, edges, extra)
    requires Injective(hex) && Ascending(tree, hex) && Ascending(tree', hex)
    ensures tree == tree'
  {
    hide IsBest, PointerClosed, EdgeMap, Injective, Ascending;
    var best :| IsBest(edges, extra, best) && Collected(ToSet(tree), target, best, EdgeMap(edges));
    var best' :| IsBest(edges, extra, best') && Collected(ToSet(tree'), target, best', EdgeMap(edges));
    BestUnique(edges, extra, best, best');
    assert ToSet(tree) == ToSet(tree');
    assert forall h :: h in tree <==> h in ToSet(tree);
    assert forall h :: h in tree' <==> h in ToSet(tree');
    AscendingUnique(tree, tree', hex);
  }

  /** Where seeding forgets no strength, the reported tree is as strong as reported. */
  lemma {:induction false} FaithfulTree(target: Hash, hs: set<Hash>, edges: seq<Entry>, extra: seq<Hash>,
      kappa: map<Hash, Kappa>, depth: map<Hash, nat>, best: map<Hash, Hash>)
    requires DistinctHashes(edges) && IsFixpoint(edges, extra, kappa, depth, best)
    requires target in kappa && Collected(hs, target, best, EdgeMap(edges))
    ensures SeedsFaithful(edges, extra) ==> WeakestEdge(hs, EdgeMap(edges), kappa[target])
  {
    hide IsFixpoint, DistinctHashes, Collected, SeedsFaithful, WeakestEdge;
    if SeedsFaithful(edges, extra) {
      FaithfulSeedsSuffice(edges, extra, kappa, depth, best);
    }
  }

  /** An answer read off the fixpoint. */
  lemma {:induction false} FixpointAnswer(r: ReachabilityResult, target: Hash, minKappa: Kappa, edges: seq<Entry>,
      extra: seq<Hash>, kappa: map<Hash, Kappa>, depth: map<Hash, nat>, best: map<Hash, Hash>)
    requires DistinctHashes(edges) && IsFixpoint(edges, extra, kappa, depth, best)
    requires target in kappa && target in depth
    requires r.target == target && r.kappa == Some(kappa[target]) && r.depth == Some(depth[target])
    requires r.established <==> Rank(minKappa) <= Rank(kappa[target])
    requires Collected(ToSet(r.proofTree), target, best, EdgeMap(edges))
    ensures Answers(r, target, minKappa, edges, ToSet(extra))
    ensures SeedsFaithful(edges, extra) ==> WeakestEdge(ToSet(r.proofTree), EdgeMap(edges), r.kappa.value)
  {
    hide *;
    FixpointAnswers(target, minKappa, edges, extra, kappa, depth, best);
    ProofTreeIsReal(target, ToSet(r.proofTree), edges, extra, kappa, depth, best);
    FaithfulTree(target, ToSet(r.proofTree), edges, extra, kappa, depth, best);
    FoldAnswers(r, target, minKappa, edges, ToSet(extra), ToSet(r.proofTree));
  }

  lemma {:induction false} FoldAnswers(r: ReachabilityResult, target: Hash, minKappa: Kappa, edges: seq<Entry>,
      seeds: set<Hash>, hs: set<Hash>)
    requires r.target == target && r.kappa.Some? && r.depth.Some? && hs == ToSet(r.proofTree)
    requires r.established <==> DerivableAt(target, minKappa, edges, seeds)
    requires StrongestDerivation(target, r.kappa.value, edges, seeds) &&
            LowestDerivation(target, r.depth.value, edges, seeds)
    requires exists t :: Derives(t, edges, seeds, target) && forall h :: h in hs <==>
            exists en :: Uses(t, en) && en.hash == h
    ensures Answers(r, target, minKappa, edges, seeds)
  {
    hide StrongestDerivation, LowestDerivation, DerivableAt, Derives, Uses;
    assert forall h :: h in hs <==> h in r.proofTree;
  }

  /** `reachable`. Besides what `Answers` says: the proof tree is that of the best edges, in the
      order of hex forms, and with faithful seeds its weakest edge has the reported strength. */
  method Reachable(target: Hash, store: Store, minKappa: Kappa, extra: seq<Hash>, active: Option<set<Hash>>, hex: Hex)
      returns (r: ReachabilityResult)
    ensures Ascending(r.proofTree, hex)
    ensures var edges := DerivationList(store, active);
            && Answers(r, target, minKappa, edges, ToSet(extra))
            && (r.kappa.Some? ==> ReportsBest(r.proofTree, target, edges, extra))
            && (r.kappa.Some? && SeedsFaithful(edges, extra) ==>
                 WeakestEdge(ToSet(r.proofTree), EdgeMap(edges), r.kappa.value))
  {
    var list := DerivationEdges(store, active);
    DerivationListIs(store, active);
    var kappa, depth, best, _, _ := Fixpoint(list, extra);
    hide *;
    if target !in kappa {
      NoAnswer(target, minKappa, list, extra, kappa, depth, best);
      r := ReachabilityResult(target, false, None, None, []);
      NothingAscends(hex);
      return;
    }
    DepthKnown(target, list, extra, kappa, depth, best);
    var k := kappa[target];
    var d := depth[target];
    var established := Rank(k) >= Rank(minKappa);
    var proofTree := CollectProofTree(target, best, EdgeMap(list), hex);
    r := ReachabilityResult(target, established, Some(k), Some(d), proofTree);
    FixpointAnswer(r, target, minKappa, list, extra, kappa, depth, best);
    FoldReport(proofTree, target, list, extra, best);
  }

  lemma {:induction false} NoAnswer(target: Hash, minKappa: Kappa, edges: seq<Entry>, extra: seq<Hash>,
      kappa: map<Hash, Kappa>, depth: map<Hash, nat>, best: map<Hash, Hash>)
    requires IsFixpoint(edges, extra, kappa, depth, best) && target !in kappa
    ensures Answers(ReachabilityResult(target, false, None, None, []), target, minKappa, edges, ToSet(extra))
  {
    hide IsFixpoint, DerivableAt, Derives;
    FixpointAnswers(target, minKappa, edges, extra, kappa, depth, best);
  }

  lemma {:induction false} NothingAscends(hex: Hex)
    ensures Ascending([], hex)
  {
  }

  lemma {:induction false} DepthKnown(target: Hash, edges: seq<Entry>, extra: seq<Hash>, kappa: map<Hash, Kappa>,
      depth: map<Hash, nat>, best: map<Hash, Hash>)
    requires IsFixpoint(edges, extra, kappa, depth, best) && target in kappa
    ensures target in depth
  {
    hide Optimal, Closed, Shallowest, WellStamped, KeepsSeeds;
  }

  lemma {:induction false} FoldReport(tree: seq<Hash>, target: Hash, edges: seq<Entry>, extra: seq<Hash>,
      best: map<Hash, Hash>)
    requires IsBest(edges, extra, best) && Collected(ToSet(tree), target, best, EdgeMap(edges))
    ensures ReportsBest(tree, target, edges, extra)
  {
    hide IsBest, Collected, EdgeMap;
  }
}
