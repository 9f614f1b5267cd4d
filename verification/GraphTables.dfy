/**
 The relational graph index: three tables and insert-or-ignore.

 The tables are generic in the type of an address, so that the same definitions serve the
 symbolic addresses of the store and the byte strings of the key-value index.
 */
module GraphTables {
  datatype Tables<H(==, !new)> = Tables(nodes: set<H>, edges: map<H, H>, premises: map<(H, nat), H>)

  function NoTables<H(==, !new)>(): Tables<H> {
    Tables({}, map[], map[])
  }

  function InsertOrIgnore<K, V>(m: map<K, V>, k: K, v: V): (r: map<K, V>)
    ensures r == if k in m then m else m[k := v]
  {
    if k in m then m else m[k := v]
  }

  function RegisterNode<H(==, !new)>(t: Tables<H>, n: H): Tables<H> {
    t.(nodes := t.nodes + {n})
  }

  /** The premise rows an edge asks for, by position. */
  function PremiseRows<H(==, !new)>(edge: H, ps: seq<H>): (rows: map<(H, nat), H>)
    ensures forall e, i: nat :: (e, i) in rows <==> e == edge && i < |ps|
    ensures forall i: nat | i < |ps| :: rows[(edge, i)] == ps[i]
  {
    if ps == [] then map[]
    else
      var n := |ps| - 1;
      var rest := PremiseRows(edge, ps[..n]);
      var rows := rest[(edge, n) := ps[n]];
      assert forall e, i: nat :: (e, i) in rows <==> (e, i) in rest || (e == edge && i == n);
      rows
  }

  /** Inserting one more premise row, unless there is one. */
  lemma {:induction false} PremiseRowsNext<H(!new)>(edge: H, ps: seq<H>, i: nat, present: map<(H, nat), H>)
    requires i < |ps|
    ensures PremiseRows(edge, ps[..i + 1]) + present ==
            InsertOrIgnore(PremiseRows(edge, ps[..i]) + present, (edge, i), ps[i])
  {
    assert ps[..i + 1][..i] == ps[..i];
  }

  /** `register_edge`: endpoints, then the edge, then its premises; rows already there win. */
  function RegisterEdge<H(==, !new)>(t: Tables<H>, edge: H, ps: seq<H>, conclusion: H): Tables<H> {
    Tables(t.nodes + {conclusion} + (set p | p in ps),
           InsertOrIgnore(t.edges, edge, conclusion),
           PremiseRows(edge, ps) + t.premises)
  }

  /** Everything registering the edge would insert is there. */
  ghost predicate Covers<H(!new)>(t: Tables<H>, edge: H, ps: seq<H>, conclusion: H) {
    && conclusion in t.nodes && (forall p | p in ps :: p in t.nodes)
    && edge in t.edges
    && forall i: nat | i < |ps| :: (edge, i) in t.premises
  }

  lemma {:induction false} RegisterCovers<H(!new)>(t: Tables<H>, edge: H, ps: seq<H>, conclusion: H)
    ensures Covers(RegisterEdge(t, edge, ps, conclusion), edge, ps, conclusion)
  {
  }

  /** Registering what is covered changes nothing. */
  lemma {:induction false} CoveredIsFixed<H(!new)>(t: Tables<H>, edge: H, ps: seq<H>, conclusion: H)
    requires Covers(t, edge, ps, conclusion)
    ensures RegisterEdge(t, edge, ps, conclusion) == t
  {
    forall k | k in PremiseRows(edge, ps)
      ensures k in t.premises
    {
      assert k == (k.0, k.1);
    }
    var rows := PremiseRows(edge, ps) + t.premises;
    assert rows.Keys == t.premises.Keys;
    assert rows == t.premises;
    assert t.nodes + {conclusion} + (set p | p in ps) == t.nodes;
  }

  lemma {:induction false} RegisterKeepsCover<H(!new)>(t: Tables<H>, edge: H, ps: seq<H>, conclusion: H, other: H,
      qs: seq<H>, c: H)
    requires Covers(t, edge, ps, conclusion)
    ensures Covers(RegisterEdge(t, other, qs, c), edge, ps, conclusion)
  {
  }

  /** The stored premises of `edge`, in position order, are `ps`. */
  ghost predicate PremisesAre<H(!new)>(t: Tables<H>, edge: H, ps: seq<H>) {
    && (forall i: nat :: (edge, i) in t.premises <==> i < |ps|)
    && forall i: nat | i < |ps| :: t.premises[(edge, i)] == ps[i]
  }

  /** Registering keeps the rows of every other edge, and of the same edge with the same premises. */
  lemma {:induction false} RegisterKeepsRows<H(!new)>(t: Tables<H>, edge: H, ps: seq<H>, conclusion: H, e: H,
      qs: seq<H>)
    requires PremisesAre(t, e, qs) && (e == edge ==> qs == ps)
    ensures PremisesAre(RegisterEdge(t, edge, ps, conclusion), e, qs)
  {
    var t' := RegisterEdge(t, edge, ps, conclusion);
    forall i: nat
      ensures (e, i) in t'.premises <==> i < |qs|
      ensures i < |qs| ==> t'.premises[(e, i)] == qs[i]
    {
      assert (e, i) in PremiseRows(edge, ps) <==> e == edge && i < |ps|;
      assert (e, i) in t.premises <==> i < |qs|;
    }
  }

  /** An edge without rows gets exactly the rows asked for. */
  lemma {:induction false} RegisterSetsRows<H(!new)>(t: Tables<H>, edge: H, ps: seq<H>, conclusion: H)
    requires forall i: nat :: (edge, i) !in t.premises
    ensures PremisesAre(RegisterEdge(t, edge, ps, conclusion), edge, ps)
  {
    var t' := RegisterEdge(t, edge, ps, conclusion);
    forall i: nat
      ensures (edge, i) in t'.premises <==> i < |ps|
      ensures i < |ps| ==> t'.premises[(edge, i)] == ps[i]
    {
      assert (edge, i) in PremiseRows(edge, ps) <==> i < |ps|;
      assert (edge, i) !in t.premises;
    }
  }

  /** Premise rows belong to registered edges, are numbered from 0 without a gap, and every
      endpoint is a registered node. */
  ghost predicate WellFormedTables<H(!new)>(t: Tables<H>) {
    && (forall e, i: nat :: (e, i) in t.premises ==> e in t.edges && t.premises[(e, i)] in t.nodes)
    && (forall e, i: nat, j: nat :: (e, i) in t.premises && j < i ==> (e, j) in t.premises)
    && forall e | e in t.edges :: t.edges[e] in t.nodes
  }

  lemma {:induction false} RegisterKeepsWellFormed<H(!new)>(t: Tables<H>, edge: H, ps: seq<H>, conclusion: H)
    requires WellFormedTables(t)
    ensures WellFormedTables(RegisterEdge(t, edge, ps, conclusion))
  {
    var t' := RegisterEdge(t, edge, ps, conclusion);
    forall e, i: nat | (e, i) in t'.premises
      ensures e in t'.edges && t'.premises[(e, i)] in t'.nodes
    {
      if (e, i) !in t.premises {
        assert t'.premises[(e, i)] == ps[i];
      }
    }
  }
}
