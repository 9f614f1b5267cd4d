/**
 What a derivation is, independently of how the query engine finds one.

 A derivation of a claim is a finite tree: either the claim is assumed (an extra
 seed), or an edge concludes it and each premise of the edge has a derivation.
 A tree is as strong as its weakest edge and as high as its longest run of
 edges with premises.
 */
module Derivation {
  import opened KappaAlgebra
  import opened Records

  datatype Entry = Entry(hash: Hash, edge: Edge)

  datatype Tree = Assume(node: Hash) | Step(entry: Entry, subs: seq<Tree>)

  ghost function Root(t: Tree): Hash {
    match t
    case Assume(n) => n
    case Step(en, _) => en.edge.conclusion
  }

  ghost predicate Valid(t: Tree, edges: seq<Entry>, seeds: set<Hash>) {
    match t
    case Assume(n) => n in seeds
    case Step(en, subs) =>
      && en in edges
      && |subs| == |en.edge.premises|
      && (forall i | 0 <= i < |subs| :: Root(subs[i]) == en.edge.premises[i])
      && (forall i | 0 <= i < |subs| :: Valid(subs[i], edges, seeds))
  }

  ghost predicate Derives(t: Tree, edges: seq<Entry>, seeds: set<Hash>, n: Hash) {
    Valid(t, edges, seeds) && Root(t) == n
  }

  ghost function Strength(t: Tree): Kappa {
    match t
    case Assume(_) => KInf
    case Step(en, subs) => Conjunction(en.edge.kappa, Strengths(subs))
  }

  ghost function Strengths(ts: seq<Tree>): (ks: seq<Kappa>)
    ensures |ks| == |ts|
    ensures forall i | 0 <= i < |ts| :: ks[i] == Strength(ts[i])
  {
    if ts == [] then [] else Strengths(ts[..|ts| - 1]) + [Strength(ts[|ts| - 1])]
  }

  function MaxOf(xs: seq<nat>): (m: nat)
    requires |xs| > 0
    ensures exists i :: 0 <= i < |xs| && xs[i] == m
    ensures forall i | 0 <= i < |xs| :: xs[i] <= m
  {
    if |xs| == 1 then assert xs[0] == xs[0]; xs[0]
    else
      var rest := MaxOf(xs[..|xs| - 1]);
      if rest <= xs[|xs| - 1] then xs[|xs| - 1] else rest
  }

  /** Premises are taken in parallel, so they count once; an axiom costs nothing. */
  ghost function Height(t: Tree): nat {
    match t
    case Assume(_) => 0
    case Step(_, subs) => if subs == [] then 0 else 1 + MaxOf(Heights(subs))
  }

  ghost function Heights(ts: seq<Tree>): (hs: seq<nat>)
    ensures |hs| == |ts|
    ensures forall i | 0 <= i < |ts| :: hs[i] == Height(ts[i])
  {
    if ts == [] then [] else Heights(ts[..|ts| - 1]) + [Height(ts[|ts| - 1])]
  }

  /** A tree meets a rank exactly when its last edge and all its branches do. */
  lemma {:induction false} StepStrength(t: Tree, r: nat)
    requires t.Step?
    ensures r <= Rank(Strength(t)) <==>
            r <= Rank(t.entry.edge.kappa) && forall i | 0 <= i < |t.subs| :: r <= Rank(Strength(t.subs[i]))
  {
    var ks := Strengths(t.subs);
    assert forall i | 0 <= i < |t.subs| :: ks[i] == Strength(t.subs[i]);
    assert Strength(t) == Conjunction(t.entry.edge.kappa, ks);
    hide *;
  }

  // ----- Strength maps -----

  predicate AllIn<V>(ps: seq<Hash>, m: map<Hash, V>) {
    forall p | p in ps :: p in m
  }

  function Lookup<V>(ps: seq<Hash>, m: map<Hash, V>): (vs: seq<V>)
    requires AllIn(ps, m)
    ensures |vs| == |ps|
    ensures forall i | 0 <= i < |ps| :: vs[i] == m[ps[i]]
  {
    seq(|ps|, i requires 0 <= i < |ps| => m[ps[i]])
  }

  /** The strength at which an edge fires: its own and its premises', conjoined. */
  function PathKappa(e: Edge, m: map<Hash, Kappa>): (k: Kappa)
    requires AllIn(e.premises, m)
    ensures Rank(k) <= Rank(e.kappa)
    ensures forall p | p in e.premises :: Rank(k) <= Rank(m[p])
    ensures k == e.kappa || exists p :: p in e.premises && m[p] == k
  {
    var ks := Lookup(e.premises, m);
    var k := Conjunction(e.kappa, ks);
    assert forall i | 0 <= i < |ks| :: Rank(k) <= Rank(ks[i]) && ks[i] == m[e.premises[i]];
    k
  }

  ghost predicate EdgeClosed(e: Edge, m: map<Hash, Kappa>) {
    AllIn(e.premises, m) ==>
      e.conclusion in m && Rank(PathKappa(e, m)) <= Rank(m[e.conclusion])
  }

  /** `m` honours every seed and cannot be raised by firing any edge. */
  ghost predicate Closed(edges: seq<Entry>, seeds: set<Hash>, m: map<Hash, Kappa>) {
    && (forall s | s in seeds :: s in m && m[s] == KInf)
    && (forall en | en in edges :: EdgeClosed(en.edge, m))
  }

  /** Every value of `m` is a seed's or is exactly what some edge fires at. */
  ghost predicate Supported(edges: seq<Entry>, seeds: set<Hash>, m: map<Hash, Kappa>) {
    forall n | n in m ::
      || (n in seeds && m[n] == KInf)
      || exists en :: en in edges && en.edge.conclusion == n && AllIn(en.edge.premises, m) &&
           PathKappa(en.edge, m) == m[n]
  }

  /** `m` gives each derivable claim, and no other, its strongest derivation's strength. */
  ghost predicate Optimal(edges: seq<Entry>, seeds: set<Hash>, m: map<Hash, Kappa>) {
    && (forall n | n in m :: exists t :: Derives(t, edges, seeds, n) && Strength(t) == m[n])
    && (forall t | Valid(t, edges, seeds) :: Root(t) in m && Rank(Strength(t)) <= Rank(m[Root(t)]))
  }

  /** No derivation is stronger than any closed map says. */
  lemma {:induction false} ClosedBoundsTrees(t: Tree, edges: seq<Entry>, seeds: set<Hash>, m: map<Hash, Kappa>)
    requires Closed(edges, seeds, m)
    requires Valid(t, edges, seeds)
    ensures Root(t) in m && Rank(Strength(t)) <= Rank(m[Root(t)])
  {
    match t
    case Assume(_) =>
    case Step(en, subs) =>
      var e := en.edge;
      forall i | 0 <= i < |subs|
        ensures e.premises[i] in m && Rank(Strength(subs[i])) <= Rank(m[e.premises[i]])
      {
        ClosedBoundsTrees(subs[i], edges, seeds, m);
      }
      StepStrength(t, Rank(Strength(t)));
      assert EdgeClosed(e, m);
      var k := PathKappa(e, m);
      if k != e.kappa {
        var p :| p in e.premises && m[p] == k;
        var i :| 0 <= i < |e.premises| && e.premises[i] == p;
        assert Rank(Strength(t)) <= Rank(Strength(subs[i]));
      }
  }

  /** The optimal map is the least closed map. */
  lemma OptimalIsLeast(edges: seq<Entry>, seeds: set<Hash>, m: map<Hash, Kappa>, other: map<Hash, Kappa>)
    requires Optimal(edges, seeds, m)
    requires Closed(edges, seeds, other)
    ensures forall n | n in m :: n in other && Rank(m[n]) <= Rank(other[n])
  {
    forall n | n in m
      ensures n in other && Rank(m[n]) <= Rank(other[n])
    {
      var t :| Derives(t, edges, seeds, n) && Strength(t) == m[n];
      ClosedBoundsTrees(t, edges, seeds, other);
    }
  }

  /** The optimal map is a fixpoint: no edge raises it, and every value in it is earned by a
      seed or by an edge firing at exactly that strength. */
  lemma {:induction false} OptimalIsSupported(edges: seq<Entry>, seeds: set<Hash>, m: map<Hash, Kappa>)
    requires Optimal(edges, seeds, m) && Closed(edges, seeds, m)
    ensures Supported(edges, seeds, m)
  {
    hide Strength;
    forall n | n in m
      ensures
        || (n in seeds && m[n] == KInf)
        || exists en :: en in edges && en.edge.conclusion == n && AllIn(en.edge.premises, m) &&
             PathKappa(en.edge, m) == m[n]
    {
      var t :| Derives(t, edges, seeds, n) && Strength(t) == m[n];
      if t.Step? {
        LastStepSupports(t, edges, seeds, m);
      } else {
        AssumedStrength(t);
      }
    }
  }

  lemma {:induction false} AssumedStrength(t: Tree)
    requires t.Assume?
    ensures Strength(t) == KInf
  {
  }

  lemma {:induction false} LastStepSupports(t: Tree, edges: seq<Entry>, seeds: set<Hash>, m: map<Hash, Kappa>)
    requires Optimal(edges, seeds, m) && Closed(edges, seeds, m)
    requires t.Step? && Valid(t, edges, seeds) && Root(t) in m && Strength(t) == m[Root(t)]
    ensures AllIn(t.entry.edge.premises, m) && PathKappa(t.entry.edge, m) == m[Root(t)]
  {
    hide Strength, PathKappa;
    var e := t.entry.edge;
    StepStrength(t, Rank(Strength(t)));
    forall i | 0 <= i < |e.premises|
      ensures e.premises[i] in m && Rank(Strength(t)) <= Rank(m[e.premises[i]])
    {
      assert Valid(t.subs[i], edges, seeds);
    }
    assert EdgeClosed(e, m);
    assert Rank(Strength(t)) <= Rank(PathKappa(e, m));
    RankInjective(PathKappa(e, m), Strength(t));
  }

  /** Two optimal maps are the same map: nothing depends on the order of the edges. */
  lemma OptimalIsUnique(edges: seq<Entry>, edges': seq<Entry>, seeds: set<Hash>, m: map<Hash, Kappa>,
      m': map<Hash, Kappa>)
    requires forall en :: en in edges <==> en in edges'
    requires Optimal(edges, seeds, m) && Optimal(edges', seeds, m')
    ensures m == m'
  {
    OptimalBelow(edges, edges', seeds, m, m');
    OptimalBelow(edges', edges, seeds, m', m);
    forall n | n in m
      ensures m[n] == m'[n]
    {
      RankInjective(m[n], m'[n]);
    }
  }

  lemma OptimalBelow(edges: seq<Entry>, edges': seq<Entry>, seeds: set<Hash>, m: map<Hash, Kappa>, m': map<Hash, Kappa>)
    requires forall en | en in edges :: en in edges'
    requires Optimal(edges, seeds, m) && Optimal(edges', seeds, m')
    ensures forall n | n in m :: n in m' && Rank(m[n]) <= Rank(m'[n])
  {
    forall n | n in m
      ensures n in m' && Rank(m[n]) <= Rank(m'[n])
    {
      var t :| Derives(t, edges, seeds, n) && Strength(t) == m[n];
      ValidMonotone(t, edges, edges', seeds);
    }
  }

  lemma {:induction false} ValidMonotone(t: Tree, edges: seq<Entry>, edges': seq<Entry>, seeds: set<Hash>)
    requires Valid(t, edges, seeds)
    requires forall en | en in edges :: en in edges'
    ensures Valid(t, edges', seeds)
  {
    if t.Step? {
      forall i | 0 <= i < |t.subs|
        ensures Valid(t.subs[i], edges', seeds)
      {
        ValidMonotone(t.subs[i], edges, edges', seeds);
      }
    }
  }

  // ----- Thresholds -----

  /** The edges that survive a strength threshold. */
  function AtLeast(edges: seq<Entry>, k: Kappa): (r: seq<Entry>)
    ensures forall en :: en in r <==> en in edges && Rank(k) <= Rank(en.edge.kappa)
  {
    if edges == [] then []
    else
      assert edges == [edges[0]] + edges[1..];
      if Rank(k) <= Rank(edges[0].edge.kappa) then [edges[0]] + AtLeast(edges[1..], k)
      else AtLeast(edges[1..], k)
  }

  /** A derivation meets a threshold exactly when it is built of edges that do. */
  lemma {:induction false} StrongTrees(t: Tree, edges: seq<Entry>, seeds: set<Hash>, k: Kappa)
    ensures Valid(t, AtLeast(edges, k), seeds) <==> Valid(t, edges, seeds) && Rank(k) <= Rank(Strength(t))
  {
    if t.Step? {
      StepStrength(t, Rank(k));
      forall i | 0 <= i < |t.subs|
        ensures Valid(t.subs[i], AtLeast(edges, k), seeds) <==>
                Valid(t.subs[i], edges, seeds) && Rank(k) <= Rank(Strength(t.subs[i]))
      {
        StrongTrees(t.subs[i], edges, seeds, k);
      }
    }
  }

  /** The claims `m` establishes at strength k or more. */
  function Established(m: map<Hash, Kappa>, k: Kappa): set<Hash> {
    set n | n in m && Rank(k) <= Rank(m[n])
  }

  /** Thresholding the computed strengths is filtering the edges first. */
  lemma ThresholdCut(edges: seq<Entry>, seeds: set<Hash>, k: Kappa, m: map<Hash, Kappa>, cut: map<Hash, Kappa>)
    requires Optimal(edges, seeds, m)
    requires Optimal(AtLeast(edges, k), seeds, cut)
    ensures Established(m, k) == cut.Keys
  {
    hide Strength, Valid;
    forall n
      ensures n in m && Rank(k) <= Rank(m[n]) <==> n in cut
    {
      if n in cut {
        var t :| Derives(t, AtLeast(edges, k), seeds, n) && Strength(t) == cut[n];
        StrongTrees(t, edges, seeds, k);
      }
      if n in m && Rank(k) <= Rank(m[n]) {
        var t :| Derives(t, edges, seeds, n) && Strength(t) == m[n];
        StrongTrees(t, edges, seeds, k);
      }
    }
  }

  /** A set of claims closed under Horn deduction from the seeds. */
  ghost predicate HornClosed(edges: seq<Entry>, seeds: set<Hash>, x: set<Hash>) {
    && seeds <= x
    && forall en | en in edges && (forall p | p in en.edge.premises :: p in x) :: en.edge.conclusion in x
  }

  lemma {:induction false} HornContainsTrees(t: Tree, edges: seq<Entry>, seeds: set<Hash>, x: set<Hash>)
    requires HornClosed(edges, seeds, x)
    requires Valid(t, edges, seeds)
    ensures Root(t) in x
  {
    if t.Step? {
      forall i | 0 <= i < |t.subs|
        ensures Root(t.subs[i]) in x
      {
        HornContainsTrees(t.subs[i], edges, seeds, x);
      }
    }
  }

  /** `proof` holds a derivation, of exactly the strength `m` gives, for each claim in `m`. */
  ghost predicate Proves(proof: map<Hash, Tree>, edges: seq<Entry>, seeds: set<Hash>, m: map<Hash, Kappa>) {
    && proof.Keys == m.Keys
    && forall n | n in m :: Derives(proof[n], edges, seeds, n) && Strength(proof[n]) == m[n]
  }

  /** Conjoining derivations of its premises derives an edge's conclusion. */
  lemma {:induction false} Conjoin(en: Entry, edges: seq<Entry>, seeds: set<Hash>, m: map<Hash, Kappa>,
      proof: map<Hash, Tree>)
    requires en in edges
    requires AllIn(en.edge.premises, m)
    requires Proves(proof, edges, seeds, m)
    ensures var t := Step(en, Lookup(en.edge.premises, proof));
            Derives(t, edges, seeds, en.edge.conclusion) && Strength(t) == PathKappa(en.edge, m)
  {
    var ps := en.edge.premises;
    var t := Step(en, Lookup(ps, proof));
    forall i | 0 <= i < |ps|
      ensures Derives(t.subs[i], edges, seeds, ps[i]) && Strength(t.subs[i]) == m[ps[i]]
    {
      assert ps[i] in m;
    }
    ConjoinStrength(en.edge, t, m);
  }

  lemma {:induction false} ConjoinStrength(e: Edge, t: Tree, m: map<Hash, Kappa>)
    requires t.Step? && t.entry.edge == e && |t.subs| == |e.premises|
    requires AllIn(e.premises, m)
    requires forall i | 0 <= i < |t.subs| :: Strength(t.subs[i]) == m[e.premises[i]]
    ensures Strength(t) == PathKappa(e, m)
  {
    assert Strengths(t.subs) == Lookup(e.premises, m);
  }

  lemma {:induction false} ExtendProof(proof: map<Hash, Tree>, edges: seq<Entry>, seeds: set<Hash>, m: map<Hash, Kappa>,
      c: Hash, t: Tree)
    requires Proves(proof, edges, seeds, m)
    requires Derives(t, edges, seeds, c)
    ensures Proves(proof[c := t], edges, seeds, m[c := Strength(t)])
  {
    hide Derives, Strength;
  }

  lemma {:induction false} EstablishedHornClosed(edges: seq<Entry>, seeds: set<Hash>, k: Kappa, m: map<Hash, Kappa>)
    requires Closed(edges, seeds, m)
    ensures HornClosed(AtLeast(edges, k), seeds, Established(m, k))
  {
    forall en | en in AtLeast(edges, k) && (forall p | p in en.edge.premises :: p in Established(m, k))
      ensures en.edge.conclusion in Established(m, k)
    {
      assert EdgeClosed(en.edge, m);
    }
  }

  /** The claims established at strength k or more are the least Horn-closed set
      over the edges of strength k or more. */
  lemma {:induction false} ThresholdIsHornClosure(edges: seq<Entry>, seeds: set<Hash>, k: Kappa, m: map<Hash, Kappa>)
    requires Optimal(edges, seeds, m) && Closed(edges, seeds, m)
    ensures HornClosed(AtLeast(edges, k), seeds, Established(m, k))
    ensures forall y | HornClosed(AtLeast(edges, k), seeds, y) :: Established(m, k) <= y
  {
    EstablishedHornClosed(edges, seeds, k, m);
    hide Closed, Strength, Valid;
    forall y, n | HornClosed(AtLeast(edges, k), seeds, y) && n in Established(m, k)
      ensures n in y
    {
      var t :| Derives(t, edges, seeds, n) && Strength(t) == m[n];
      StrongTrees(t, edges, seeds, k);
      HornContainsTrees(t, AtLeast(edges, k), seeds, y);
    }
  }

  // ----- Depths -----

  /** The depth at which an edge fires: one parallel step above its deepest premise. */
  function FireDepth(e: Edge, depth: map<Hash, nat>): (d: nat)
    requires AllIn(e.premises, depth)
    ensures e.premises == [] ==> d == 0
    ensures forall p | p in e.premises :: depth[p] < d
    ensures e.premises != [] ==> exists p :: p in e.premises && depth[p] + 1 == d
  {
    if e.premises == [] then 0
    else
      var ds := Lookup(e.premises, depth);
      assert forall i | 0 <= i < |ds| :: ds[i] == depth[e.premises[i]] && ds[i] <= MaxOf(ds);
      1 + MaxOf(ds)
  }

  ghost predicate DepthClosed(edges: seq<Entry>, seeds: set<Hash>, depth: map<Hash, nat>) {
    && (forall s | s in seeds :: s in depth && depth[s] == 0)
    && (forall en | en in edges :: EdgeDepthClosed(en.edge, depth))
  }

  ghost predicate EdgeDepthClosed(e: Edge, depth: map<Hash, nat>) {
    AllIn(e.premises, depth) ==> e.conclusion in depth && depth[e.conclusion] <= FireDepth(e, depth)
  }

  /** `depth` gives each derivable claim, and no other, its lowest derivation's height. */
  ghost predicate Shallowest(edges: seq<Entry>, seeds: set<Hash>, depth: map<Hash, nat>) {
    && (forall n | n in depth :: exists t :: Derives(t, edges, seeds, n) && Height(t) == depth[n])
    && (forall t | Valid(t, edges, seeds) :: Root(t) in depth && depth[Root(t)] <= Height(t))
  }

  lemma {:induction false} StepHeight(t: Tree)
    requires t.Step?
    ensures t.subs == [] ==> Height(t) == 0
    ensures forall i | 0 <= i < |t.subs| :: Height(t.subs[i]) < Height(t)
    ensures t.subs != [] ==> exists i :: 0 <= i < |t.subs| && Height(t.subs[i]) + 1 == Height(t)
  {
    if t.subs != [] {
      var hs := Heights(t.subs);
      assert Height(t) == 1 + MaxOf(hs);
      var i :| 0 <= i < |hs| && hs[i] == MaxOf(hs);
      assert Height(t.subs[i]) + 1 == Height(t);
      assert forall j | 0 <= j < |t.subs| :: hs[j] == Height(t.subs[j]) && hs[j] <= MaxOf(hs);
    }
  }

  lemma {:induction false} DepthBoundsTrees(t: Tree, edges: seq<Entry>, seeds: set<Hash>, depth: map<Hash, nat>)
    requires DepthClosed(edges, seeds, depth)
    requires Valid(t, edges, seeds)
    ensures Root(t) in depth && depth[Root(t)] <= Height(t)
  {
    match t
    case Assume(_) =>
    case Step(en, subs) =>
      var e := en.edge;
      forall i | 0 <= i < |subs|
        ensures e.premises[i] in depth && depth[e.premises[i]] <= Height(subs[i])
      {
        DepthBoundsTrees(subs[i], edges, seeds, depth);
      }
      StepHeight(t);
      assert EdgeDepthClosed(e, depth);
      if e.premises != [] {
        var p :| p in e.premises && depth[p] + 1 == FireDepth(e, depth);
        var i :| 0 <= i < |e.premises| && e.premises[i] == p;
        assert Height(subs[i]) < Height(t);
      }
  }

  ghost predicate ProvesDepth(proof: map<Hash, Tree>, edges: seq<Entry>, seeds: set<Hash>, depth: map<Hash, nat>) {
    && proof.Keys == depth.Keys
    && forall n | n in depth :: Derives(proof[n], edges, seeds, n) && Height(proof[n]) == depth[n]
  }

  lemma {:induction false} ConjoinDepth(en: Entry, edges: seq<Entry>, seeds: set<Hash>, depth: map<Hash, nat>,
      proof: map<Hash, Tree>)
    requires en in edges
    requires AllIn(en.edge.premises, depth)
    requires ProvesDepth(proof, edges, seeds, depth)
    ensures var t := Step(en, Lookup(en.edge.premises, proof));
            Derives(t, edges, seeds, en.edge.conclusion) && Height(t) == FireDepth(en.edge, depth)
  {
    var ps := en.edge.premises;
    var t := Step(en, Lookup(ps, proof));
    forall i | 0 <= i < |ps|
      ensures Derives(t.subs[i], edges, seeds, ps[i]) && Height(t.subs[i]) == depth[ps[i]]
    {
      assert ps[i] in depth;
    }
    assert Heights(t.subs) == Lookup(ps, depth);
  }

  lemma {:induction false} ExtendDepthProof(proof: map<Hash, Tree>, edges: seq<Entry>, seeds: set<Hash>,
      depth: map<Hash, nat>, c: Hash, t: Tree)
    requires ProvesDepth(proof, edges, seeds, depth)
    requires Derives(t, edges, seeds, c)
    ensures ProvesDepth(proof[c := t], edges, seeds, depth[c := Height(t)])
  {
    hide Derives, Height;
  }
}
