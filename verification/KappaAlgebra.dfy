/** The strength scale of a reasoning edge and its conjunction rule. */
module KappaAlgebra {
  import opened Options

  datatype Kappa = K0 | K1 | K2 | K3 | KInf

  /** Position on the scale. The source ranks K_INF as floating-point infinity;
      ranks are only ever compared, so any value above K3 is the same order. */
  function Rank(k: Kappa): nat {
    match k
    case K0 => 0
    case K1 => 1
    case K2 => 2
    case K3 => 3
    case KInf => 4
  }

  /** The minimum of a non-empty list: what a conjunction of strengths is worth. */
  function Weakest(ks: seq<Kappa>): (k: Kappa)
    requires |ks| > 0
    ensures k in ks
    ensures forall i | 0 <= i < |ks| :: Rank(k) <= Rank(ks[i])
  {
    if |ks| == 1 then ks[0]
    else
      var rest := Weakest(ks[1..]);
      if Rank(ks[0]) <= Rank(rest) then ks[0] else rest
  }

  /** `min_kappa`: no strength at all is an error, not a default. */
  function MinKappa(ks: seq<Kappa>): (r: Option<Kappa>)
    ensures r.None? <==> ks == []
    ensures r.Some? ==> r.value in ks && forall k | k in ks :: Rank(r.value) <= Rank(k)
  {
    if ks == [] then None else Some(Weakest(ks))
  }

  /** Ranks separate labels, so the label of least rank is unique. */
  lemma RankInjective(a: Kappa, b: Kappa)
    requires Rank(a) == Rank(b)
    ensures a == b
  {
  }

  /** A rule's own strength conjoined with its premises': the call the fixpoint makes. */
  function Conjunction(own: Kappa, ks: seq<Kappa>): (k: Kappa)
    ensures Rank(k) <= Rank(own)
    ensures forall i | 0 <= i < |ks| :: Rank(k) <= Rank(ks[i])
    ensures k == own || exists i :: 0 <= i < |ks| && ks[i] == k
  {
    var all := [own] + ks;
    var k := Weakest(all);
    assert all[0] == own;
    assert forall i | 0 <= i < |ks| :: all[i + 1] == ks[i];
    assert k == own || k in ks;
    k
  }

  // ----- The scale, label by label -----

  /** K0 < K1 < K2 < K3 < KInf. */
  predicate Weaker(a: Kappa, b: Kappa) {
    match a
    case K0 => b != K0
    case K1 => b != K0 && b != K1
    case K2 => b == K3 || b == KInf
    case K3 => b == KInf
    case KInf => false
  }

  lemma {:induction false} WeakerIsRank(a: Kappa, b: Kappa)
    ensures Weaker(a, b) <==> Rank(a) < Rank(b)
  {
  }

  /** Two strengths conjoin to the weaker one. */
  lemma {:induction false} PairConjoins(a: Kappa, b: Kappa)
    ensures MinKappa([a, b]) == Some(if Weaker(b, a) then b else a)
    ensures Conjunction(a, [b]) == if Weaker(b, a) then b else a
  {
    hide Rank;
    var k := MinKappa([a, b]).value;
    assert [a, b][0] == a && [a, b][1] == b && [b][0] == b;
    assert k == a || k == b;
    WeakerIsRank(a, b);
    WeakerIsRank(b, a);
    if Rank(a) == Rank(b) {
      RankInjective(a, b);
    }
  }

  /** The weakest of a list is the one label in it that nothing in it is weaker than. */
  lemma {:induction false} MinKappaIs(ks: seq<Kappa>, k: Kappa)
    ensures MinKappa(ks) == Some(k) <==> k in ks && forall j | j in ks :: !Weaker(j, k)
  {
    hide Rank;
    forall j, l
      ensures Weaker(j, l) <==> Rank(j) < Rank(l)
    {
      WeakerIsRank(j, l);
    }
    if k in ks && forall j | j in ks :: !Weaker(j, k) {
      RankInjective(k, MinKappa(ks).value);
    }
  }

  /** The labels no weaker than a threshold. */
  function AtOrAbove(k: Kappa): set<Kappa> {
    match k
    case K0 => {K0, K1, K2, K3, KInf}
    case K1 => {K1, K2, K3, KInf}
    case K2 => {K2, K3, KInf}
    case K3 => {K3, KInf}
    case KInf => {KInf}
  }

  lemma {:induction false} AtOrAboveIs(k: Kappa, j: Kappa)
    ensures j in AtOrAbove(k) <==> Rank(k) <= Rank(j)
  {
  }
}
