/**
 The strength and depth fixpoints of the reachability query.

 The three dictionaries of the source are local maps here. Each phase of the
 fixpoint is a method; ghost variables carry the derivations, the time stamps and
 the update count that the invariants speak about.
 */
module Reachability {
  import opened Options
  import opened KappaAlgebra
  import opened Records
  import opened Derivation

  ghost function ToSet<T>(xs: seq<T>): set<T> {
    set x | x in xs
  }

  // ----- Seeds -----

  predicate IsAxiomFor(en: Entry, n: Hash) {
    en.edge.premises == [] && en.edge.conclusion == n
  }

  /** Position of the last zero-premise edge concluding `n`, or -1. */
  function LastAxiom(edges: seq<Entry>, n: Hash): (i: int)
    ensures -1 <= i < |edges|
    ensures 0 <= i ==> IsAxiomFor(edges[i], n)
    ensures forall j | i < j < |edges| :: !IsAxiomFor(edges[j], n)
  {
    if edges == [] then -1
    else if IsAxiomFor(edges[|edges| - 1], n) then |edges| - 1
    else LastAxiom(edges[..|edges| - 1], n)
  }

  /** Strength of the strongest zero-premise edge concluding `n`. */
  function AxiomKappa(edges: seq<Entry>, n: Hash): (k: Option<Kappa>)
    ensures k.None? <==> LastAxiom(edges, n) == -1
    ensures k.Some? ==> exists en :: en in edges && IsAxiomFor(en, n) && en.edge.kappa == k.value
    ensures forall en | en in edges && IsAxiomFor(en, n) :: k.Some? && Rank(en.edge.kappa) <= Rank(k.value)
  {
    if edges == [] then None
    else
      var last := edges[|edges| - 1];
      var rest := AxiomKappa(edges[..|edges| - 1], n);
      assert edges == edges[..|edges| - 1] + [last];
      if IsAxiomFor(last, n) && (rest.None? || Rank(last.edge.kappa) > Rank(rest.value)) then Some(last.edge.kappa)
      else rest
  }

  /** What seeding alone is worth: an extra seed is worth everything. */
  function SeedKappa(edges: seq<Entry>, extra: seq<Hash>, n: Hash): Option<Kappa> {
    if n in extra then Some(KInf) else AxiomKappa(edges, n)
  }

  ghost predicate SeededAt(edges: seq<Entry>, extra: seq<Hash>, n: Hash, kappa: map<Hash, Kappa>, depth: map<Hash, nat>,
      best: map<Hash, Hash>) {
    && SeedKappa(edges, extra, n) == (if n in kappa then Some(kappa[n]) else None)
    && (n in depth <==> n in kappa)
    && (n in depth ==> depth[n] == 0)
    && (n in best <==> 0 <= LastAxiom(edges, n))
    && (n in best ==> best[n] == edges[LastAxiom(edges, n)].hash)
  }

  /** What seeding leaves in the three dictionaries, claim by claim. */
  ghost predicate Seeded(edges: seq<Entry>, extra: seq<Hash>, kappa: map<Hash, Kappa>, depth: map<Hash, nat>,
      best: map<Hash, Hash>) {
    forall n :: SeededAt(edges, extra, n, kappa, depth, best)
  }

  ghost function Raised(kappa: map<Hash, Kappa>, n: Hash, k: Kappa): map<Hash, Kappa> {
    kappa[n := if n in kappa && Rank(k) <= Rank(kappa[n]) then kappa[n] else k]
  }

  /** `_seed`. It points the node at the new edge even when that edge is the weaker one. */
  method Seed(kappa0: map<Hash, Kappa>, depth0: map<Hash, nat>, best0: map<Hash, Hash>, node: Hash, k: Kappa,
      edge: Option<Hash>) returns (kappa: map<Hash, Kappa>, depth: map<Hash, nat>, best: map<Hash, Hash>)
    ensures kappa == Raised(kappa0, node, k)
    ensures depth == depth0[node := 0]
    ensures best == if edge.Some? then best0[node := edge.value] else best0
  {
    kappa, depth, best := kappa0, depth0, best0;
    if node !in kappa || Rank(k) > Rank(kappa[node]) {
      kappa := kappa[node := k];
    }
    depth := depth[node := 0];
    if edge.Some? {
      best := best[node := edge.value];
    }
  }

  lemma {:induction false} SeedAxiomStep(edges: seq<Entry>, i: nat, n: Hash, kappa: map<Hash, Kappa>,
      depth: map<Hash, nat>, best: map<Hash, Hash>)
    requires i < |edges|
    requires SeededAt(edges[..i], [], n, kappa, depth, best)
    ensures var e := edges[i].edge;
            if e.premises == [] then
              SeededAt(edges[..i + 1], [], n, Raised(kappa, e.conclusion, e.kappa), depth[e.conclusion := 0],
                  best[e.conclusion := edges[i].hash])
            else SeededAt(edges[..i + 1], [], n, kappa, depth, best)
  {
    var pre, post := edges[..i], edges[..i + 1];
    assert post[..|post| - 1] == pre && post[|post| - 1] == edges[i];
  }

  lemma {:induction false} SeedExtraStep(edges: seq<Entry>, extra: seq<Hash>, j: nat, n: Hash, kappa: map<Hash, Kappa>,
      depth: map<Hash, nat>, best: map<Hash, Hash>)
    requires j < |extra|
    requires SeededAt(edges, extra[..j], n, kappa, depth, best)
    ensures SeededAt(edges, extra[..j + 1], n, Raised(kappa, extra[j], KInf), depth[extra[j] := 0], best)
  {
    assert extra[..j + 1] == extra[..j] + [extra[j]];
  }

  method SeedAll(edges: seq<Entry>, extra: seq<Hash>)
      returns (kappa: map<Hash, Kappa>, depth: map<Hash, nat>, best: map<Hash, Hash>)
    ensures Seeded(edges, extra, kappa, depth, best)
  {
    kappa, depth, best := map[], map[], map[];
    for i := 0 to |edges|
      invariant Seeded(edges[..i], [], kappa, depth, best)
    {
      ghost var kappa0, depth0, best0 := kappa, depth, best;
      if |edges[i].edge.premises| == 0 {
        kappa, depth, best := Seed(kappa, depth, best, edges[i].edge.conclusion, edges[i].edge.kappa,
            Some(edges[i].hash));
      }
      ghost var seen := edges[..i + 1];
      forall n
        ensures SeededAt(seen, [], n, kappa, depth, best)
      {
        SeedAxiomStep(edges, i, n, kappa0, depth0, best0);
      }
    }
    assert edges[..|edges|] == edges && extra[..0] == [];
    for j := 0 to |extra|
      invariant Seeded(edges, extra[..j], kappa, depth, best)
    {
      ghost var kappa0, depth0 := kappa, depth;
      kappa, depth, best := Seed(kappa, depth, best, extra[j], KInf, None);
      ghost var seen := extra[..j + 1];
      forall n
        ensures SeededAt(edges, seen, n, kappa, depth, best)
      {
        SeedExtraStep(edges, extra, j, n, kappa0, depth0, best);
      }
    }
    assert extra[..|extra|] == extra;
  }

  /** Seeding is sound: what it establishes has a derivation of that strength. */
  lemma SeedsProved(edges: seq<Entry>, extra: seq<Hash>, kappa: map<Hash, Kappa>, depth: map<Hash, nat>,
      best: map<Hash, Hash>) returns (proof: map<Hash, Tree>)
    requires Seeded(edges, extra, kappa, depth, best)
    ensures Proves(proof, edges, ToSet(extra), kappa)
    ensures ProvesDepth(proof, edges, ToSet(extra), depth)
  {
    forall n
      ensures n in kappa <==> n in depth
    {
      assert SeededAt(edges, extra, n, kappa, depth, best);
    }
    assert depth.Keys == kappa.Keys;
    forall n | n in kappa
      ensures depth[n] == 0
      ensures exists t :: Derives(t, edges, ToSet(extra), n) && Strength(t) == kappa[n] && Height(t) == 0
    {
      assert SeededAt(edges, extra, n, kappa, depth, best);
      var t := if n in extra then Assume(n) else
        var en :| en in edges && IsAxiomFor(en, n) && en.edge.kappa == kappa[n];
        Step(en, []);
      if n !in extra {
        StepStrength(t, Rank(Strength(t)));
        StepStrength(t, Rank(kappa[n]));
        RankInjective(Strength(t), kappa[n]);
      }
      assert Derives(t, edges, ToSet(extra), n);
    }
    proof := map n | n in kappa :: var t :| Derives(t, edges, ToSet(extra), n) && Strength(t) == kappa[n] &&
        Height(t) == 0; t;
  }

  // ----- Strength loop -----

  /** `en` is the edge `n` points back to. Every premise is stronger than `n`, or as
      strong and settled earlier; and a pointer to an axiom is to the last one, kept
      only while nothing has beaten the seed. */
  ghost predicate Points(en: Entry, n: Hash, edges: seq<Entry>, extra: seq<Hash>, kappa: map<Hash, Kappa>,
      best: map<Hash, Hash>, stamp: map<Hash, nat>)
  {
    && n in kappa && n in best && n in stamp
    && en in edges && en.hash == best[n] && en.edge.conclusion == n
    && (en.edge.premises != [] ==> Rank(kappa[n]) <= Rank(en.edge.kappa))
    && (en.edge.premises == [] ==>
          SeedKappa(edges, extra, n) == Some(kappa[n]) && 0 <= LastAxiom(edges, n) && en == edges[LastAxiom(edges, n)])
    && forall p | p in en.edge.premises ::
         p in kappa && p in stamp && (Rank(kappa[n]) < Rank(kappa[p]) || (kappa[n] == kappa[p] && stamp[p] < stamp[n]))
  }

  ghost predicate WellStamped(edges: seq<Entry>, extra: seq<Hash>, kappa: map<Hash, Kappa>, best: map<Hash, Hash>,
      stamp: map<Hash, nat>, clock: nat) {
    && (forall n | n in kappa :: n in stamp && stamp[n] <= clock)
    && (forall n | n in best :: exists en :: Points(en, n, edges, extra, kappa, best, stamp))
    && (forall n | n in kappa && n !in best :: n in extra)
  }

  /** Nothing falls below its seed, and a claim still at its seed keeps the seed's pointer. */
  ghost predicate KeepsSeeds(edges: seq<Entry>, extra: seq<Hash>, kappa: map<Hash, Kappa>, best: map<Hash, Hash>) {
    forall n | SeedKappa(edges, extra, n).Some? ::
      && n in kappa
      && Rank(SeedKappa(edges, extra, n).value) <= Rank(kappa[n])
      && (0 <= LastAxiom(edges, n) && SeedKappa(edges, extra, n) == Some(kappa[n]) ==>
            n in best && best[n] == edges[LastAxiom(edges, n)].hash)
  }

  /** The edge can fire, and firing it raises its conclusion. */
  predicate Improves(e: Edge, kappa: map<Hash, Kappa>) {
    && AllIn(e.premises, kappa)
    && (e.conclusion !in kappa || Rank(kappa[e.conclusion]) < Rank(PathKappa(e, kappa)))
  }

  lemma SeedsWellStamped(edges: seq<Entry>, extra: seq<Hash>, kappa: map<Hash, Kappa>, depth: map<Hash, nat>,
      best: map<Hash, Hash>)
    requires Seeded(edges, extra, kappa, depth, best)
    ensures WellStamped(edges, extra, kappa, best, map n | n in kappa :: 0, 0)
    ensures KeepsSeeds(edges, extra, kappa, best)
  {
    var stamp: map<Hash, nat> := map n | n in kappa :: 0;
    forall n
      ensures n in best ==>
              n in kappa && 0 <= LastAxiom(edges, n) &&
              Points(edges[LastAxiom(edges, n)], n, edges, extra, kappa, best, stamp)
      ensures n in kappa && n !in best ==> n in extra
    {
      assert SeededAt(edges, extra, n, kappa, depth, best);
    }
    forall n | SeedKappa(edges, extra, n).Some?
      ensures n in kappa && SeedKappa(edges, extra, n) == Some(kappa[n])
      ensures 0 <= LastAxiom(edges, n) ==> n in best && best[n] == edges[LastAxiom(edges, n)].hash
    {
      assert SeededAt(edges, extra, n, kappa, depth, best);
    }
  }

  lemma {:induction false} NewPointer(en: Entry, edges: seq<Entry>, extra: seq<Hash>, kappa: map<Hash, Kappa>,
      best: map<Hash, Hash>, stamp: map<Hash, nat>, clock: nat)
    requires en in edges && en.edge.premises != [] && Improves(en.edge, kappa)
    requires forall n | n in kappa :: n in stamp && stamp[n] <= clock
    ensures var c := en.edge.conclusion;
            Points(en, c, edges, extra, kappa[c := PathKappa(en.edge, kappa)], best[c := en.hash],
                stamp[c := clock + 1])
  {
    hide SeedKappa, LastAxiom, PathKappa;
  }

  lemma {:induction false} OldPointer(en: Entry, n: Hash, c: Hash, k: Kappa, h: Hash, edges: seq<Entry>,
      extra: seq<Hash>, kappa: map<Hash, Kappa>, best: map<Hash, Hash>, stamp: map<Hash, nat>, clock: nat)
    requires n != c && (c in kappa ==> Rank(kappa[c]) < Rank(k))
    requires Points(en, n, edges, extra, kappa, best, stamp)
    ensures Points(en, n, edges, extra, kappa[c := k], best[c := h], stamp[c := clock + 1])
  {
    hide SeedKappa, LastAxiom;
  }

  /** One assignment of the strength loop keeps every pointer well stamped. */
  lemma {:induction false} ImproveStamps(en: Entry, edges: seq<Entry>, extra: seq<Hash>, kappa: map<Hash, Kappa>,
      best: map<Hash, Hash>, stamp: map<Hash, nat>, clock: nat)
    requires en in edges && en.edge.premises != [] && Improves(en.edge, kappa)
    requires WellStamped(edges, extra, kappa, best, stamp, clock)
    ensures var c := en.edge.conclusion;
            WellStamped(edges, extra, kappa[c := PathKappa(en.edge, kappa)], best[c := en.hash], stamp[c := clock + 1],
                clock + 1)
  {
    hide Points, PathKappa;
    var c, k := en.edge.conclusion, PathKappa(en.edge, kappa);
    var kappa', best', stamp' := kappa[c := k], best[c := en.hash], stamp[c := clock + 1];
    NewPointer(en, edges, extra, kappa, best, stamp, clock);
    forall n | n in best && n != c
      ensures exists en' :: Points(en', n, edges, extra, kappa', best', stamp')
    {
      var en' :| Points(en', n, edges, extra, kappa, best, stamp);
      OldPointer(en', n, c, k, en.hash, edges, extra, kappa, best, stamp, clock);
    }
  }

  lemma {:induction false} ImproveKeepsSeeds(en: Entry, edges: seq<Entry>, extra: seq<Hash>, kappa: map<Hash, Kappa>,
      best: map<Hash, Hash>)
    requires Improves(en.edge, kappa)
    requires KeepsSeeds(edges, extra, kappa, best)
    ensures var c := en.edge.conclusion;
            KeepsSeeds(edges, extra, kappa[c := PathKappa(en.edge, kappa)], best[c := en.hash])
  {
  }

  /** The claims the loop can ever assign to. */
  ghost function Claims(edges: seq<Entry>, extra: seq<Hash>): set<Hash> {
    (set en | en in edges :: en.edge.conclusion) + ToSet(extra)
  }

  ghost function Below(claims: set<Hash>, kappa: map<Hash, Kappa>, r: nat): set<Hash> {
    set n | n in claims && (n in kappa ==> Rank(kappa[n]) < r)
  }

  /** What is left to rise: the levels above each claim's present strength, counted. */
  ghost function Slack(claims: set<Hash>, kappa: map<Hash, Kappa>): (s: nat)
    ensures s <= 5 * |claims|
  {
    SubsetSize(Below(claims, kappa, 0), claims);
    SubsetSize(Below(claims, kappa, 1), claims);
    SubsetSize(Below(claims, kappa, 2), claims);
    SubsetSize(Below(claims, kappa, 3), claims);
    SubsetSize(Below(claims, kappa, 4), claims);
    |Below(claims, kappa, 0)| + |Below(claims, kappa, 1)| + |Below(claims, kappa, 2)|
    + |Below(claims, kappa, 3)| + |Below(claims, kappa, 4)|
  }

  lemma {:induction false} SubsetSize<T>(a: set<T>, b: set<T>)
    requires a <= b
    ensures |a| <= |b|
    ensures a != b ==> |a| < |b|
  {
    assert b == a + (b - a);
    assert a != b ==> b - a != {};
  }

  lemma {:induction false} BelowShrinks(claims: set<Hash>, kappa: map<Hash, Kappa>, c: Hash, k: Kappa, r: nat)
    requires c in claims
    requires c !in kappa || Rank(kappa[c]) < Rank(k)
    ensures |Below(claims, kappa[c := k], r)| <= |Below(claims, kappa, r)|
    ensures r == Rank(k) ==> |Below(claims, kappa[c := k], r)| < |Below(claims, kappa, r)|
  {
    var before, after := Below(claims, kappa, r), Below(claims, kappa[c := k], r);
    assert after <= before;
    assert r == Rank(k) ==> c in before && c !in after;
    SubsetSize(after, before);
  }

  lemma {:induction false} SlackShrinks(en: Entry, edges: seq<Entry>, extra: seq<Hash>, kappa: map<Hash, Kappa>)
    requires en in edges && Improves(en.edge, kappa)
    ensures Slack(Claims(edges, extra),
            kappa[en.edge.conclusion := PathKappa(en.edge, kappa)]) < Slack(Claims(edges, extra), kappa)
  {
    var claims, c, k := Claims(edges, extra), en.edge.conclusion, PathKappa(en.edge, kappa);
    BelowShrinks(claims, kappa, c, k, 0);
    BelowShrinks(claims, kappa, c, k, 1);
    BelowShrinks(claims, kappa, c, k, 2);
    BelowShrinks(claims, kappa, c, k, 3);
    BelowShrinks(claims, kappa, c, k, 4);
  }

  lemma {:induction false} ImproveProof(en: Entry, edges: seq<Entry>, seeds: set<Hash>, kappa: map<Hash, Kappa>,
      proof: map<Hash, Tree>)
    requires en in edges && Improves(en.edge, kappa)
    requires Proves(proof, edges, seeds, kappa)
    ensures AllIn(en.edge.premises, proof)
    ensures var c := en.edge.conclusion;
            Proves(proof[c := Step(en, Lookup(en.edge.premises, proof))], edges, seeds,
                kappa[c := PathKappa(en.edge, kappa)])
  {
    hide Derives, Strength, PathKappa;
    Conjoin(en, edges, seeds, kappa, proof);
    ExtendProof(proof, edges, seeds, kappa, en.edge.conclusion, Step(en, Lookup(en.edge.premises, proof)));
  }

  /** The strengths after the given edges have fired, one after another. */
  ghost function Replay(m: map<Hash, Kappa>, steps: seq<Entry>): map<Hash, Kappa>
    decreases |steps|
  {
    if steps == [] then m
    else
      var before, e := Replay(m, steps[..|steps| - 1]), steps[|steps| - 1].edge;
      if AllIn(e.premises, before) then before[e.conclusion := PathKappa(e, before)] else before
  }

  /** Each of them is a listed edge with premises, able to fire, and raises its conclusion. */
  ghost predicate Rises(edges: seq<Entry>, m: map<Hash, Kappa>, steps: seq<Entry>)
    decreases |steps|
  {
    steps != [] ==>
      var before, en := steps[..|steps| - 1], steps[|steps| - 1];
      Rises(edges, m, before) && en in edges && en.edge.premises != [] && Improves(en.edge, Replay(m, before))
  }

  lemma {:induction false} ReplayNext(edges: seq<Entry>, m: map<Hash, Kappa>, steps: seq<Entry>, en: Entry)
    requires Rises(edges, m, steps) && en in edges && en.edge.premises != [] && Improves(en.edge, Replay(m, steps))
    ensures Rises(edges, m, steps + [en])
    ensures Replay(m, steps + [en]) == Replay(m, steps)[en.edge.conclusion := PathKappa(en.edge, Replay(m, steps))]
  {
    assert (steps + [en])[..|steps|] == steps;
    ReplayFire(m, steps, en);
    hide PathKappa, Replay;
  }

  /** The edges that fire when the list is gone through once, from position `i`. */
  ghost function FiredFrom(edges: seq<Entry>, i: nat, m: map<Hash, Kappa>): seq<Entry>
    requires i <= |edges|
    decreases |edges| - i
  {
    if i == |edges| then []
    else
      var en := edges[i];
      if en.edge.premises != [] && Improves(en.edge, m)
      then [en] + FiredFrom(edges, i + 1, m[en.edge.conclusion := PathKappa(en.edge, m)])
      else FiredFrom(edges, i + 1, m)
  }

  /** The steps are the firings of one pass after another, up to a pass that fires nothing. */
  ghost predicate Passes(edges: seq<Entry>, m: map<Hash, Kappa>, steps: seq<Entry>)
    decreases |steps|
  {
    var pass := FiredFrom(edges, 0, m);
    if pass == [] then steps == []
    else pass <= steps && Passes(edges, Replay(m, pass), steps[|pass|..])
  }

  /** The list, in its order, determines the firings. */
  lemma {:induction false} PassesUnique(edges: seq<Entry>, m: map<Hash, Kappa>, a: seq<Entry>, b: seq<Entry>)
    requires Passes(edges, m, a) && Passes(edges, m, b)
    ensures a == b
    decreases |a|
  {
    var pass := FiredFrom(edges, 0, m);
    if pass != [] {
      PassesUnique(edges, Replay(m, pass), a[|pass|..], b[|pass|..]);
      assert a == pass + a[|pass|..] && b == pass + b[|pass|..];
    }
  }

  /** After these steps the passes go on from `now`. */
  ghost predicate PassesThrough(edges: seq<Entry>, m: map<Hash, Kappa>, steps: seq<Entry>, now: map<Hash, Kappa>) {
    forall rest | Passes(edges, now, rest) :: Passes(edges, m, steps + rest)
  }

  lemma {:induction false} PassesBegin(edges: seq<Entry>, m: map<Hash, Kappa>)
    ensures PassesThrough(edges, m, [], m)
  {
    forall rest | Passes(edges, m, rest)
      ensures Passes(edges, m, [] + rest)
    {
      assert [] + rest == rest;
    }
  }

  lemma {:induction false} PassesFirst(edges: seq<Entry>, m: map<Hash, Kappa>, fired: seq<Entry>, rest: seq<Entry>)
    requires fired == FiredFrom(edges, 0, m) && Passes(edges, Replay(m, fired), rest)
    ensures Passes(edges, m, fired + rest)
  {
    hide FiredFrom;
    if fired == [] {
      ReplayNothing(m);
      assert fired + rest == rest;
    } else {
      hide Replay;
      assert (fired + rest)[|fired|..] == rest;
    }
  }

  lemma {:induction false} PassesOn(edges: seq<Entry>, m: map<Hash, Kappa>, steps: seq<Entry>, before: map<Hash, Kappa>,
      fired: seq<Entry>)
    requires PassesThrough(edges, m, steps, before) && fired == FiredFrom(edges, 0, before)
    ensures PassesThrough(edges, m, steps + fired, Replay(before, fired))
  {
    hide FiredFrom, Passes, Replay;
    forall rest | Passes(edges, Replay(before, fired), rest)
      ensures Passes(edges, m, steps + fired + rest)
    {
      PassesFirst(edges, before, fired, rest);
      Associates(steps, fired, rest);
    }
  }

  lemma {:induction false} PassesEnd(edges: seq<Entry>, m: map<Hash, Kappa>, steps: seq<Entry>, now: map<Hash, Kappa>)
    requires PassesThrough(edges, m, steps, now) && FiredFrom(edges, 0, now) == []
    ensures Passes(edges, m, steps)
  {
    assert Passes(edges, now, []);
    assert steps + [] == steps;
  }

  lemma {:induction false} PassAt(edges: seq<Entry>, i: nat, m: map<Hash, Kappa>)
    requires i < |edges|
    ensures var en := edges[i];
            FiredFrom(edges, i, m) ==
            if en.edge.premises != [] && Improves(en.edge, m)
            then [en] + FiredFrom(edges, i + 1, m[en.edge.conclusion := PathKappa(en.edge, m)])
            else FiredFrom(edges, i + 1, m)
  {
  }

  /** Within a pass, at position `i`: what has fired so far, after the steps done before it. */
  ghost predicate MidPass(edges: seq<Entry>, best0: map<Hash, Hash>, done: seq<Entry>, before: map<Hash, Kappa>,
      fired: seq<Entry>, i: nat, now: map<Hash, Kappa>, best: map<Hash, Hash>)
    requires i <= |edges|
  {
    && FiredFrom(edges, 0, before) == fired + FiredFrom(edges, i, now)
    && now == Replay(before, fired) && best == Pointed(best0, done + fired)
  }

  lemma {:induction false} PassBegins(edges: seq<Entry>, best0: map<Hash, Hash>, done: seq<Entry>,
      now: map<Hash, Kappa>, best: map<Hash, Hash>)
    requires best == Pointed(best0, done)
    ensures MidPass(edges, best0, done, now, [], 0, now, best)
  {
    hide FiredFrom;
    assert done + [] == done && [] + FiredFrom(edges, 0, now) == FiredFrom(edges, 0, now);
  }

  lemma {:induction false} PassSkips(edges: seq<Entry>, best0: map<Hash, Hash>, done: seq<Entry>,
      before: map<Hash, Kappa>, fired: seq<Entry>, i: nat, now: map<Hash, Kappa>, best: map<Hash, Hash>)
    requires i < |edges| && MidPass(edges, best0, done, before, fired, i, now, best)
    requires edges[i].edge.premises == [] || !Improves(edges[i].edge, now)
    ensures MidPass(edges, best0, done, before, fired, i + 1, now, best)
  {
    PassAt(edges, i, now);
    hide FiredFrom, Replay, Pointed, Improves, PathKappa;
  }

  lemma {:induction false} PassFires(edges: seq<Entry>, best0: map<Hash, Hash>, done: seq<Entry>,
      before: map<Hash, Kappa>, fired: seq<Entry>, i: nat, now: map<Hash, Kappa>, best: map<Hash, Hash>)
    requires i < |edges| && MidPass(edges, best0, done, before, fired, i, now, best)
    requires edges[i].edge.premises != [] && Improves(edges[i].edge, now)
    ensures var en := edges[i];
            MidPass(edges, best0, done, before, fired + [en], i + 1, now[en.edge.conclusion := PathKappa(en.edge, now)],
                best[en.edge.conclusion := en.hash])
  {
    hide FiredFrom, Replay, Pointed, PathKappa;
    var en := edges[i];
    PassAt(edges, i, now);
    ReplayFire(before, fired, en);
    PointedNext(best0, done + fired, en);
    hide Improves;
    var rest := FiredFrom(edges, i + 1, now[en.edge.conclusion := PathKappa(en.edge, now)]);
    Associates(fired, [en], rest);
    Associates(done, fired, [en]);
  }

  lemma {:induction false} Associates<T>(a: seq<T>, b: seq<T>, c: seq<T>)
    ensures a + (b + c) == a + b + c
  {
  }

  lemma {:induction false} PassEnds(edges: seq<Entry>, best0: map<Hash, Hash>, done: seq<Entry>,
      before: map<Hash, Kappa>, fired: seq<Entry>, now: map<Hash, Kappa>, best: map<Hash, Hash>)
    requires MidPass(edges, best0, done, before, fired, |edges|, now, best)
    ensures FiredFrom(edges, 0, before) == fired && now == Replay(before, fired) && best == Pointed(best0, done + fired)
  {
    assert FiredFrom(edges, |edges|, now) == [];
    hide Replay, Pointed;
  }

  lemma {:induction false} ReplayFire(m: map<Hash, Kappa>, steps: seq<Entry>, en: Entry)
    requires Improves(en.edge, Replay(m, steps))
    ensures Replay(m, steps + [en]) == Replay(m, steps)[en.edge.conclusion := PathKappa(en.edge, Replay(m, steps))]
  {
    assert (steps + [en])[..|steps|] == steps;
    hide PathKappa;
  }

  /** The best edges after the given edges have fired. */
  ghost function Pointed(best: map<Hash, Hash>, steps: seq<Entry>): map<Hash, Hash>
    decreases |steps|
  {
    if steps == [] then best
    else
      var last := steps[|steps| - 1];
      Pointed(best, steps[..|steps| - 1])[last.edge.conclusion := last.hash]
  }

  /** What the strength loop's ghost variables know: where it started, a derivation of every
      claim at its present strength, when each claim last rose, and the edges that fired. */
  datatype Trace = Trace(start: map<Hash, Kappa>, proof: map<Hash, Tree>, stamp: map<Hash, nat>, steps: seq<Entry>)

  ghost predicate Replays(tr: Trace, edges: seq<Entry>, kappa: map<Hash, Kappa>) {
    Rises(edges, tr.start, tr.steps) && kappa == Replay(tr.start, tr.steps)
  }

  ghost predicate Tracks(tr: Trace, edges: seq<Entry>, extra: seq<Hash>, kappa: map<Hash, Kappa>,
      best: map<Hash, Hash>) {
    && Proves(tr.proof, edges, ToSet(extra), kappa)
    && WellStamped(edges, extra, kappa, best, tr.stamp, |tr.steps|)
    && KeepsSeeds(edges, extra, kappa, best)
    && Replays(tr, edges, kappa)
    && |tr.steps| + Slack(Claims(edges, extra), kappa) <= 5 * |Claims(edges, extra)|
  }

  ghost function Improved(tr: Trace, en: Entry): Trace
    requires AllIn(en.edge.premises, tr.proof)
  {
    var c := en.edge.conclusion;
    Trace(tr.start, tr.proof[c := Step(en, Lookup(en.edge.premises, tr.proof))], tr.stamp[c := |tr.steps| + 1],
        tr.steps + [en])
  }

  /** One assignment of the strength loop. */
  lemma {:induction false} Improve(tr: Trace, en: Entry, edges: seq<Entry>, extra: seq<Hash>, kappa: map<Hash, Kappa>,
      best: map<Hash, Hash>)
    requires en in edges && en.edge.premises != [] && Improves(en.edge, kappa)
    requires Tracks(tr, edges, extra, kappa, best)
    ensures var c, k := en.edge.conclusion, PathKappa(en.edge, kappa);
            && AllIn(en.edge.premises, tr.proof)
            && Tracks(Improved(tr, en), edges, extra, kappa[c := k], best[c := en.hash])
            && Improved(tr, en).start == tr.start && Improved(tr, en).steps == tr.steps + [en]
            && Slack(Claims(edges, extra), kappa[c := k]) < Slack(Claims(edges, extra), kappa)
  {
    hide Proves, WellStamped, KeepsSeeds, Claims, Slack, PathKappa, Improves, Replay, Rises;
    SlackShrinks(en, edges, extra, kappa);
    ImproveProof(en, edges, ToSet(extra), kappa, tr.proof);
    ImproveStamps(en, edges, extra, kappa, best, tr.stamp, |tr.steps|);
    ReplayNext(edges, tr.start, tr.steps, en);
    ImproveKeepsSeeds(en, edges, extra, kappa, best);
  }

  /** The strength loop: fire every edge that raises its conclusion until a whole pass
      changes nothing. What it computes is what its assignments, each a strict rise, make of
      the strengths and best edges it started from; they are the firings of one pass after
      another in list order; and there are at most five for each claim. */
  method RaiseKappa(edges: seq<Entry>, extra: seq<Hash>, kappa0: map<Hash, Kappa>, best0: map<Hash, Hash>,
      ghost tr0: Trace) returns (kappa: map<Hash, Kappa>, best: map<Hash, Hash>, ghost tr: Trace)
    requires Tracks(tr0, edges, extra, kappa0, best0) && tr0.start == kappa0 && tr0.steps == []
    ensures Tracks(tr, edges, extra, kappa, best)
    ensures forall en | en in edges :: EdgeClosed(en.edge, kappa)
    ensures kappa0.Keys <= kappa.Keys
    ensures kappa == Replay(kappa0, tr.steps) && Rises(edges, kappa0, tr.steps)
    ensures best == Pointed(best0, tr.steps) && Passes(edges, kappa0, tr.steps)
    ensures |tr.steps| <= 5 * |Claims(edges, extra)|
  {
    hide Tracks, Claims, Slack, PathKappa, Improved, EdgeClosed, Replay, Rises;
    hide FiredFrom, Passes, PassesThrough, MidPass;
    kappa, best, tr := kappa0, best0, tr0;
    PassesBegin(edges, kappa0);
    assert Pointed(best0, []) == best0;
    hide Pointed;
    ghost var claims := Claims(edges, extra);
    var changed := true;
    while changed
      invariant Tracks(tr, edges, extra, kappa, best) && tr.start == kappa0
      invariant best == Pointed(best0, tr.steps) && PassesThrough(edges, kappa0, tr.steps, kappa)
      invariant !changed ==> FiredFrom(edges, 0, kappa) == []
      invariant !changed ==> forall en | en in edges :: EdgeClosed(en.edge, kappa)
      decreases Slack(claims, kappa), changed
    {
      changed := false;
      ghost var before, done, fired := kappa, tr.steps, [];
      PassBegins(edges, best0, done, kappa, best);
      ReplayNothing(kappa);
      assert done + fired == done;
      for i := 0 to |edges|
        invariant Tracks(tr, edges, extra, kappa, best) && tr.start == kappa0
        invariant MidPass(edges, best0, done, before, fired, i, kappa, best) && tr.steps == done + fired
        invariant fired == [] <==> !changed
        invariant if changed then Slack(claims, kappa) < Slack(claims, before) else kappa == before
        invariant !changed ==> forall j | 0 <= j < i :: EdgeClosed(edges[j].edge, kappa)
      {
        var e := edges[i].edge;
        if |e.premises| == 0 {
          AxiomClosed(tr, edges, extra, i, kappa, best);
          PassSkips(edges, best0, done, before, fired, i, kappa, best);
          continue;
        }
        if !AllIn(e.premises, kappa) {
          UnimprovedClosed(e, kappa);
          PassSkips(edges, best0, done, before, fired, i, kappa, best);
          continue;
        }
        var pathKappa := PathKappa(e, kappa);
        if e.conclusion !in kappa || Rank(pathKappa) > Rank(kappa[e.conclusion]) {
          Improve(tr, edges[i], edges, extra, kappa, best);
          PassFires(edges, best0, done, before, fired, i, kappa, best);
          tr := Improved(tr, edges[i]);
          fired := fired + [edges[i]];
          kappa := kappa[e.conclusion := pathKappa];
          best := best[e.conclusion := edges[i].hash];
          changed := true;
        } else {
          UnimprovedClosed(e, kappa);
          PassSkips(edges, best0, done, before, fired, i, kappa, best);
        }
      }
      PassEnds(edges, best0, done, before, fired, kappa, best);
      PassesOn(edges, kappa0, done, before, fired);
    }
    PassesEnd(edges, kappa0, tr.steps, kappa);
    ReplayKeeps(kappa0, tr.steps);
    UpdatesBounded(tr, edges, extra, kappa, best);
  }

  lemma {:induction false} UnimprovedClosed(e: Edge, kappa: map<Hash, Kappa>)
    requires !Improves(e, kappa)
    ensures EdgeClosed(e, kappa)
  {
    hide PathKappa;
  }

  lemma {:induction false} ReplayKeeps(m: map<Hash, Kappa>, steps: seq<Entry>)
    ensures m.Keys <= Replay(m, steps).Keys
    decreases |steps|
  {
    hide PathKappa;
    if steps != [] {
      ReplayKeeps(m, steps[..|steps| - 1]);
    }
  }

  lemma {:induction false} ReplayNothing(m: map<Hash, Kappa>)
    ensures Replay(m, []) == m
  {
  }

  lemma {:induction false} PointedNext(best: map<Hash, Hash>, steps: seq<Entry>, en: Entry)
    ensures Pointed(best, steps + [en]) == Pointed(best, steps)[en.edge.conclusion := en.hash]
  {
    assert (steps + [en])[..|steps|] == steps;
  }

  lemma {:induction false} UpdatesBounded(tr: Trace, edges: seq<Entry>, extra: seq<Hash>, kappa: map<Hash, Kappa>,
      best: map<Hash, Hash>)
    requires Tracks(tr, edges, extra, kappa, best)
    ensures kappa == Replay(tr.start, tr.steps) && Rises(edges, tr.start, tr.steps)
    ensures |tr.steps| <= 5 * |Claims(edges, extra)|
  {
    hide WellStamped, Proves, KeepsSeeds, Slack, Replay, Rises;
  }

  lemma {:induction false} AxiomClosed(tr: Trace, edges: seq<Entry>, extra: seq<Hash>, i: nat, kappa: map<Hash, Kappa>,
      best: map<Hash, Hash>)
    requires i < |edges| && edges[i].edge.premises == []
    requires Tracks(tr, edges, extra, kappa, best)
    ensures EdgeClosed(edges[i].edge, kappa)
  {
    hide WellStamped, Proves, Slack, Replays;
    var n := edges[i].edge.conclusion;
    assert IsAxiomFor(edges[i], n) && SeedKappa(edges, extra, n).Some?;
  }

  lemma ClosedIsOptimal(edges: seq<Entry>, seeds: set<Hash>, m: map<Hash, Kappa>, proof: map<Hash, Tree>)
    requires Closed(edges, seeds, m)
    requires Proves(proof, edges, seeds, m)
    ensures Optimal(edges, seeds, m)
  {
    forall t | Valid(t, edges, seeds)
      ensures Root(t) in m && Rank(Strength(t)) <= Rank(m[Root(t)])
    {
      ClosedBoundsTrees(t, edges, seeds, m);
    }
  }

  // ----- Depth loop -----

  /** The depth loop's state. A depth is always below the number of claims that have
      one, because a first depth sits one above existing ones. */
  ghost predicate DepthTracks(proof: map<Hash, Tree>, edges: seq<Entry>, extra: seq<Hash>, kappa: map<Hash, Kappa>,
      depth: map<Hash, nat>) {
    && ProvesDepth(proof, edges, ToSet(extra), depth)
    && depth.Keys <= kappa.Keys
    && (forall n | n in depth :: depth[n] < |depth|)
    && (forall s | s in extra :: s in depth && depth[s] == 0)
    && (forall en | en in edges && en.edge.premises == [] :: en.edge.conclusion in depth &&
         depth[en.edge.conclusion] == 0)
  }

  predicate Lowers(e: Edge, depth: map<Hash, nat>) {
    && AllIn(e.premises, depth)
    && (e.conclusion !in depth || FireDepth(e, depth) < depth[e.conclusion])
  }

  ghost function DepthUnits(depth: map<Hash, nat>): set<(Hash, nat)> {
    set n: Hash, d: nat | n in depth && d < depth[n] :: (n, d)
  }

  lemma {:induction false} LowerBelowCount(e: Edge, depth: map<Hash, nat>)
    requires e.premises != [] && Lowers(e, depth)
    requires forall n | n in depth :: depth[n] < |depth|
    ensures var depth' := depth[e.conclusion := FireDepth(e, depth)];
            forall n | n in depth' :: depth'[n] < |depth'|
  {
    var c, d := e.conclusion, FireDepth(e, depth);
    var depth' := depth[c := d];
    assert depth'.Keys == depth.Keys + {c};
    SubsetSize(depth.Keys, depth'.Keys);
    var p :| p in e.premises && depth[p] + 1 == d;
    assert depth[p] < |depth|;
  }

  lemma {:induction false} LowerProof(proof: map<Hash, Tree>, en: Entry, edges: seq<Entry>, seeds: set<Hash>,
      depth: map<Hash, nat>)
    requires en in edges && AllIn(en.edge.premises, depth)
    requires ProvesDepth(proof, edges, seeds, depth)
    ensures AllIn(en.edge.premises, proof)
    ensures var c := en.edge.conclusion;
            ProvesDepth(proof[c := Step(en, Lookup(en.edge.premises, proof))], edges, seeds,
                depth[c := FireDepth(en.edge, depth)])
  {
    hide Derives, Height, FireDepth;
    ConjoinDepth(en, edges, seeds, depth, proof);
    ExtendDepthProof(proof, edges, seeds, depth, en.edge.conclusion, Step(en, Lookup(en.edge.premises, proof)));
  }

  /** One assignment of the depth loop. */
  lemma {:induction false} LowerStep(proof: map<Hash, Tree>, en: Entry, edges: seq<Entry>, extra: seq<Hash>,
      kappa: map<Hash, Kappa>, depth: map<Hash, nat>)
    requires en in edges && en.edge.premises != [] && Lowers(en.edge, depth) && en.edge.conclusion in kappa
    requires DepthTracks(proof, edges, extra, kappa, depth)
    ensures AllIn(en.edge.premises, proof)
    ensures var c := en.edge.conclusion;
            DepthTracks(proof[c := Step(en, Lookup(en.edge.premises, proof))], edges, extra, kappa,
                depth[c := FireDepth(en.edge, depth)])
  {
    hide ProvesDepth, FireDepth;
    LowerProof(proof, en, edges, ToSet(extra), depth);
    LowerBelowCount(en.edge, depth);
  }

  lemma {:induction false} LowerMeasure(e: Edge, kappa: map<Hash, Kappa>, depth: map<Hash, nat>)
    requires Lowers(e, depth) && e.conclusion in kappa
    ensures var depth' := depth[e.conclusion := FireDepth(e, depth)];
            if e.conclusion in depth then depth'.Keys == depth.Keys && DepthUnits(depth') < DepthUnits(depth)
            else kappa.Keys - depth'.Keys < kappa.Keys - depth.Keys
  {
    var c, d := e.conclusion, FireDepth(e, depth);
    var depth' := depth[c := d];
    if c in depth {
      assert (c, d) in DepthUnits(depth) && (c, d) !in DepthUnits(depth');
    } else {
      assert c in kappa.Keys - depth.Keys && c !in kappa.Keys - depth'.Keys;
    }
  }

  /** The depth loop: lower every claim to one above its shallowest firing edge. */
  method LowerDepth(edges: seq<Entry>, extra: seq<Hash>, kappa: map<Hash, Kappa>, depth0: map<Hash, nat>,
      ghost proof0: map<Hash, Tree>) returns (depth: map<Hash, nat>)
    requires DepthTracks(proof0, edges, extra, kappa, depth0)
    requires forall en | en in edges :: EdgeClosed(en.edge, kappa)
    ensures Shallowest(edges, ToSet(extra), depth)
    ensures depth.Keys <= kappa.Keys
    ensures forall n | n in depth :: depth[n] < |depth|
  {
    hide DepthTracks, FireDepth, DepthUnits, EdgeDepthClosed, EdgeClosed, Shallowest;
    depth := depth0;
    ghost var proof := proof0;
    var changed := true;
    while changed
      invariant DepthTracks(proof, edges, extra, kappa, depth)
      invariant !changed ==> forall en | en in edges && en.edge.premises != [] :: EdgeDepthClosed(en.edge, depth)
      decreases kappa.Keys - depth.Keys, DepthUnits(depth), changed
    {
      changed := false;
      ghost var before := depth;
      for i := 0 to |edges|
        invariant DepthTracks(proof, edges, extra, kappa, depth)
        invariant !changed ==> depth == before
        invariant kappa.Keys - depth.Keys <= kappa.Keys - before.Keys
        invariant changed && kappa.Keys - depth.Keys == kappa.Keys - before.Keys ==>
                  DepthUnits(depth) < DepthUnits(before)
        invariant !changed ==>
                  forall j | 0 <= j < i && edges[j].edge.premises != [] :: EdgeDepthClosed(edges[j].edge, depth)
      {
        var e := edges[i].edge;
        if |e.premises| == 0 {
          continue;
        }
        if e.conclusion !in kappa {
          NothingFires(proof, e, edges, extra, kappa, depth);
          continue;
        }
        if !AllIn(e.premises, depth) {
          NothingLowers(e, depth);
          continue;
        }
        var d := FireDepth(e, depth);
        if e.conclusion !in depth || d < depth[e.conclusion] {
          LowerStep(proof, edges[i], edges, extra, kappa, depth);
          LowerMeasure(e, kappa, depth);
          proof := proof[e.conclusion := Step(edges[i], Lookup(e.premises, proof))];
          depth := depth[e.conclusion := d];
          changed := true;
        } else {
          NothingLowers(e, depth);
        }
      }
    }
    LowestDepths(proof, edges, extra, kappa, depth);
  }

  lemma {:induction false} NothingFires(proof: map<Hash, Tree>, e: Edge, edges: seq<Entry>, extra: seq<Hash>,
      kappa: map<Hash, Kappa>, depth: map<Hash, nat>)
    requires DepthTracks(proof, edges, extra, kappa, depth)
    requires EdgeClosed(e, kappa) && e.conclusion !in kappa
    ensures EdgeDepthClosed(e, depth)
  {
    hide ProvesDepth, FireDepth, PathKappa;
  }

  lemma {:induction false} NothingLowers(e: Edge, depth: map<Hash, nat>)
    requires !Lowers(e, depth)
    ensures EdgeDepthClosed(e, depth)
  {
  }

  lemma {:induction false} LowestDepths(proof: map<Hash, Tree>, edges: seq<Entry>, extra: seq<Hash>,
      kappa: map<Hash, Kappa>, depth: map<Hash, nat>)
    requires DepthTracks(proof, edges, extra, kappa, depth)
    requires forall en | en in edges && en.edge.premises != [] :: EdgeDepthClosed(en.edge, depth)
    ensures Shallowest(edges, ToSet(extra), depth)
    ensures depth.Keys <= kappa.Keys && forall n | n in depth :: depth[n] < |depth|
  {
    assert DepthClosed(edges, ToSet(extra), depth);
    forall t | Valid(t, edges, ToSet(extra))
      ensures Root(t) in depth && depth[Root(t)] <= Height(t)
    {
      DepthBoundsTrees(t, edges, ToSet(extra), depth);
    }
  }

  // ----- The fixpoint -----

  /** Everything the fixpoint promises about its three dictionaries. */
  ghost predicate IsFixpoint(edges: seq<Entry>, extra: seq<Hash>, kappa: map<Hash, Kappa>, depth: map<Hash, nat>,
      best: map<Hash, Hash>) {
    && Optimal(edges, ToSet(extra), kappa)
    && Closed(edges, ToSet(extra), kappa)
    && Shallowest(edges, ToSet(extra), depth)
    && depth.Keys == kappa.Keys
    && (exists stamp, clock :: WellStamped(edges, extra, kappa, best, stamp, clock))
    && KeepsSeeds(edges, extra, kappa, best)
  }

  lemma {:induction false} SeedsTracked(edges: seq<Entry>, extra: seq<Hash>, kappa: map<Hash, Kappa>,
      depth: map<Hash, nat>, best: map<Hash, Hash>, proof: map<Hash, Tree>)
    requires Seeded(edges, extra, kappa, depth, best)
    requires Proves(proof, edges, ToSet(extra), kappa) && ProvesDepth(proof, edges, ToSet(extra), depth)
    ensures Tracks(Trace(kappa, proof, map n | n in kappa :: 0, []), edges, extra, kappa, best)
    ensures DepthTracks(proof, edges, extra, kappa, depth)
  {
    hide Derives, Strength, Height;
    SeedsWellStamped(edges, extra, kappa, depth, best);
    forall n | n in depth
      ensures n in kappa && depth[n] == 0 && depth[n] < |depth|
    {
      assert SeededAt(edges, extra, n, kappa, depth, best);
    }
    forall s | s in extra
      ensures s in depth && depth[s] == 0
    {
      assert SeededAt(edges, extra, s, kappa, depth, best);
    }
    forall en | en in edges && en.edge.premises == []
      ensures en.edge.conclusion in depth && depth[en.edge.conclusion] == 0
    {
      assert IsAxiomFor(en, en.edge.conclusion);
      assert SeededAt(edges, extra, en.edge.conclusion, kappa, depth, best);
    }
  }

  lemma {:induction false} TracedOptimal(tr: Trace, edges: seq<Entry>, extra: seq<Hash>, kappa: map<Hash, Kappa>,
      best: map<Hash, Hash>)
    requires Tracks(tr, edges, extra, kappa, best)
    requires forall en | en in edges :: EdgeClosed(en.edge, kappa)
    ensures Closed(edges, ToSet(extra), kappa) && Optimal(edges, ToSet(extra), kappa)
    ensures WellStamped(edges, extra, kappa, best, tr.stamp, |tr.steps|) && KeepsSeeds(edges, extra, kappa, best)
  {
    hide WellStamped, Slack, Proves, EdgeClosed, Replays;
    forall s | s in extra
      ensures s in kappa && kappa[s] == KInf
    {
      assert SeedKappa(edges, extra, s) == Some(KInf);
    }
    ClosedIsOptimal(edges, ToSet(extra), kappa, tr.proof);
  }

  lemma {:induction false} SameDomain(edges: seq<Entry>, seeds: set<Hash>, kappa: map<Hash, Kappa>,
      depth: map<Hash, nat>)
    requires Optimal(edges, seeds, kappa) && Shallowest(edges, seeds, depth)
    ensures depth.Keys == kappa.Keys && |depth| == |kappa|
  {
    hide Strength, Height, Valid;
    forall n | n in kappa
      ensures n in depth
    {
      var t :| Derives(t, edges, seeds, n) && Strength(t) == kappa[n];
      assert Valid(t, edges, seeds);
    }
    forall n | n in depth
      ensures n in kappa
    {
      var t :| Derives(t, edges, seeds, n) && Height(t) == depth[n];
      assert Valid(t, edges, seeds);
    }
    assert |depth| == |depth.Keys| && |kappa| == |kappa.Keys|;
  }

  lemma {:induction false} FixpointReached(tr: Trace, edges: seq<Entry>, extra: seq<Hash>, kappa: map<Hash, Kappa>,
      depth: map<Hash, nat>, best: map<Hash, Hash>)
    requires Optimal(edges, ToSet(extra), kappa) && Closed(edges, ToSet(extra), kappa)
    requires Shallowest(edges, ToSet(extra), depth) && depth.Keys == kappa.Keys
    requires WellStamped(edges, extra, kappa, best, tr.stamp, |tr.steps|) && KeepsSeeds(edges, extra, kappa, best)
    ensures IsFixpoint(edges, extra, kappa, depth, best)
  {
    hide Optimal, Closed, Shallowest, WellStamped, KeepsSeeds;
  }

  lemma DepthOutlives(proof: map<Hash, Tree>, edges: seq<Entry>, extra: seq<Hash>, kappa0: map<Hash, Kappa>,
      kappa: map<Hash, Kappa>, depth: map<Hash, nat>)
    requires DepthTracks(proof, edges, extra, kappa0, depth) && kappa0.Keys <= kappa.Keys
    ensures DepthTracks(proof, edges, extra, kappa, depth)
  {
    hide ProvesDepth;
  }

  /** What seeding leaves in the strength dictionary. */
  ghost predicate IsSeedMap(edges: seq<Entry>, extra: seq<Hash>, m: map<Hash, Kappa>) {
    forall n :: SeedKappa(edges, extra, n) == if n in m then Some(m[n]) else None
  }

  lemma {:induction false} SeededStrengths(edges: seq<Entry>, extra: seq<Hash>, kappa: map<Hash, Kappa>,
      depth: map<Hash, nat>, best: map<Hash, Hash>)
    requires Seeded(edges, extra, kappa, depth, best)
    ensures IsSeedMap(edges, extra, kappa) && IsSeedPointers(edges, best)
  {
    forall n
      ensures SeedKappa(edges, extra, n) == if n in kappa then Some(kappa[n]) else None
      ensures if LastAxiom(edges, n) < 0 then n !in best else n in best && best[n] == edges[LastAxiom(edges, n)].hash
    {
      assert SeededAt(edges, extra, n, kappa, depth, best);
    }
  }

  /** What seeding leaves in the best-edge dictionary. */
  ghost predicate IsSeedPointers(edges: seq<Entry>, best: map<Hash, Hash>) {
    forall n :: if LastAxiom(edges, n) < 0 then n !in best else n in best && best[n] == edges[LastAxiom(edges, n)].hash
  }

  /** The best edges that the fixpoint computes, a function of the list in its order. */
  ghost predicate IsBest(edges: seq<Entry>, extra: seq<Hash>, best: map<Hash, Hash>) {
    exists seeded, pointers, steps :: BestAfter(edges, extra, best, seeded, pointers, steps)
  }

  ghost predicate BestAfter(edges: seq<Entry>, extra: seq<Hash>, best: map<Hash, Hash>, seeded: map<Hash, Kappa>,
      pointers: map<Hash, Hash>, steps: seq<Entry>) {
    && IsSeedMap(edges, extra, seeded) && IsSeedPointers(edges, pointers)
    && Passes(edges, seeded, steps) && best == Pointed(pointers, steps)
  }

  lemma {:induction false} SeedMapUnique(edges: seq<Entry>, extra: seq<Hash>, a: map<Hash, Kappa>, b: map<Hash, Kappa>)
    requires IsSeedMap(edges, extra, a) && IsSeedMap(edges, extra, b)
    ensures a == b
  {
    hide SeedKappa;
    forall n
      ensures n in a <==> n in b
      ensures n in a ==> a[n] == b[n]
    {
      assert SeedKappa(edges, extra, n) == if n in a then Some(a[n]) else None;
      assert SeedKappa(edges, extra, n) == if n in b then Some(b[n]) else None;
    }
  }

  lemma {:induction false} SeedPointersUnique(edges: seq<Entry>, a: map<Hash, Hash>, b: map<Hash, Hash>)
    requires IsSeedPointers(edges, a) && IsSeedPointers(edges, b)
    ensures a == b
  {
    hide LastAxiom;
    forall n
      ensures n in a <==> n in b
      ensures n in a ==> a[n] == b[n]
    {
      var i := LastAxiom(edges, n);
    }
  }

  lemma {:induction false} BestUnique(edges: seq<Entry>, extra: seq<Hash>, a: map<Hash, Hash>, b: map<Hash, Hash>)
    requires IsBest(edges, extra, a) && IsBest(edges, extra, b)
    ensures a == b
  {
    hide IsSeedMap, IsSeedPointers, Passes, Pointed;
    var seeded, pointers, steps :| BestAfter(edges, extra, a, seeded, pointers, steps);
    var seeded', pointers', steps' :| BestAfter(edges, extra, b, seeded', pointers', steps');
    SeedMapUnique(edges, extra, seeded, seeded');
    SeedPointersUnique(edges, pointers, pointers');
    PassesUnique(edges, seeded, steps, steps');
  }

  lemma {:induction false} FoundBest(edges: seq<Entry>, extra: seq<Hash>, best: map<Hash, Hash>,
      seeded: map<Hash, Kappa>, pointers: map<Hash, Hash>, steps: seq<Entry>)
    requires BestAfter(edges, extra, best, seeded, pointers, steps)
    ensures IsBest(edges, extra, best)
  {
    hide BestAfter;
  }

  /** `_fixpoint`. The strengths are those of the seeds, raised by the listed firings, of
      which there are at most five for each claim; the best edges are determined by the list;
      and every depth is below the number of established claims. */
  method Fixpoint(edges: seq<Entry>, extra: seq<Hash>)
      returns (kappa: map<Hash, Kappa>, depth: map<Hash, nat>, best: map<Hash, Hash>,
        ghost seeded: map<Hash, Kappa>, ghost steps: seq<Entry>)
    ensures IsFixpoint(edges, extra, kappa, depth, best)
    ensures IsSeedMap(edges, extra, seeded)
    ensures kappa == Replay(seeded, steps) && Rises(edges, seeded, steps)
    ensures |steps| <= 5 * |Claims(edges, extra)|
    ensures IsBest(edges, extra, best)
    ensures forall n | n in depth :: depth[n] < |kappa|
  {
    kappa, depth, best := SeedAll(edges, extra);
    SeededStrengths(edges, extra, kappa, depth, best);
    ghost var proof := SeedsProved(edges, extra, kappa, depth, best);
    SeedsTracked(edges, extra, kappa, depth, best, proof);
    hide Tracks, Seeded, IsSeedMap, IsSeedPointers, IsBest, IsFixpoint, Proves, ProvesDepth, Shallowest;
    hide Slack, Replay, Rises, Passes, Pointed;
    seeded := kappa;
    ghost var pointers, tr := best, *;
    kappa, best, tr := RaiseKappa(edges, extra, kappa, best, Trace(kappa, proof, map n | n in kappa :: 0, []));
    steps := tr.steps;
    FoundBest(edges, extra, best, seeded, pointers, steps);
    DepthOutlives(proof, edges, extra, seeded, kappa, depth);
    depth := LowerDepth(edges, extra, kappa, depth, proof);
    TracedOptimal(tr, edges, extra, kappa, best);
    SameDomain(edges, ToSet(extra), kappa, depth);
    FixpointReached(tr, edges, extra, kappa, depth, best);
  }
}
