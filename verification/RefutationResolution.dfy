/**
 Refutation resolution: from the stored edges to the active subgraph.

 The attack graph is built as the source builds it, in two mirrored dictionaries, and
 labelled by the source's loop; the result is the grounded labelling of the attack
 relation read directly off the store.
 */
module RefutationResolution {
  import opened Options
  import opened KappaAlgebra
  import opened Records
  import opened Derivation
  import opened Reachability
  import opened ProofTree
  import opened Query
  import opened Argumentation

  datatype ActiveSubgraph = ActiveSubgraph(inEdges: set<Hash>, outEdges: set<Hash>, undecided: set<Hash>)

  // ----- The attack relation -----

  /** A refutation attacks the edge whose address is its conclusion. */
  predicate Refutes(edges: map<Hash, Edge>, a: Hash, b: Hash) {
    a in edges && b in edges && edges[a].kind == Refutation && edges[a].conclusion == b
  }

  /** The claim an edge concludes, if the store can tell. */
  function ConcludedNode(edges: map<Hash, Edge>, objects: Objects, h: Hash): Option<Node> {
    if h in edges then ResolveNode(edges[h].conclusion, objects) else None
  }

  predicate Opposite(n: Node, m: Node) {
    n.claim == m.claim && n.domain == m.domain && n.polarity != m.polarity
  }

  /** Two edges contend when they conclude a proposition and its negation. */
  predicate Contends(edges: map<Hash, Edge>, objects: Objects, a: Hash, b: Hash) {
    var n, m := ConcludedNode(edges, objects, a), ConcludedNode(edges, objects, b);
    n.Some? && m.Some? && Opposite(n.value, m.value)
  }

  ghost function AttackFramework(edges: map<Hash, Edge>, objects: Objects): Framework<Hash> {
    Framework(edges.Keys, map b | b in edges :: set a | a in edges &&
        (Refutes(edges, a, b) || Contends(edges, objects, a, b)))
  }

  ghost predicate IsResolved(edges: map<Hash, Edge>, store: Store) {
    forall h :: ResolvedAs(h, if h in edges then Some(edges[h]) else None, store)
  }

  ghost predicate ResolvedAs(h: Hash, e: Option<Edge>, store: Store) {
    e == if Listed(h, store) then ResolveEdge(h, store.objects) else None
  }

  /** Every stored edge that resolves, by address. */
  ghost function ResolvedEdges(store: Store): map<Hash, Edge> {
    map row | row in store.rows &&
        ResolveEdge(row.edge, store.objects).Some? :: row.edge := ResolveEdge(row.edge, store.objects).value
  }

  lemma {:induction false} ResolvedIs(edges: map<Hash, Edge>, store: Store)
    ensures IsResolved(edges, store) <==> edges == ResolvedEdges(store)
  {
    var all := ResolvedEdges(store);
    forall h
      ensures ResolvedAs(h, if h in all then Some(all[h]) else None, store)
    {
    }
    if IsResolved(edges, store) {
      forall h
        ensures h in edges <==> h in all
        ensures h in edges ==> edges[h] == all[h]
      {
        assert ResolvedAs(h, if h in edges then Some(edges[h]) else None, store);
        assert ResolvedAs(h, if h in all then Some(all[h]) else None, store);
      }
    }
  }

  lemma {:induction false} AttackFrameworkFacts(edges: map<Hash, Edge>, objects: Objects)
    ensures WellFormed(AttackFramework(edges, objects))
    ensures forall a, b :: Attacks(AttackFramework(edges, objects), a, b) <==>
            Refutes(edges, a, b) || Contends(edges, objects, a, b)
  {
  }

  /** What one edge has against another, read off the stored records: it refutes that edge's
      address, or the two conclude the same claim in the same domain with opposite polarity. */
  lemma {:induction false} StoreAttacksIff(store: Store, a: Hash, b: Hash)
    ensures Attacks(AttackFramework(ResolvedEdges(store), store.objects), a, b) <==>
              && StoredEdge(store, a) && StoredEdge(store, b)
              && var e, e' := ResolveEdge(a, store.objects).value, ResolveEdge(b, store.objects).value;
                 || (e.kind == Refutation && e.conclusion == b)
                 || exists n, m :: ResolveNode(e.conclusion, store.objects) == Some(n)
                                   && ResolveNode(e'.conclusion, store.objects) == Some(m)
                                   && n.claim == m.claim && n.domain == m.domain && n.polarity == !m.polarity
  {
    AttackFrameworkFacts(ResolvedEdges(store), store.objects);
    hide AttackFramework, ResolveEdge, ResolveNode;
  }

  ghost predicate StoredEdge(store: Store, h: Hash) {
    (exists row :: row in store.rows && row.edge == h) && ResolveEdge(h, store.objects).Some?
  }

  // ----- Building it -----

  /** The two dictionaries mirror each other and both record exactly `att`. */
  ghost predicate Mirrors(attackers: map<Hash, set<Hash>>, attackedBy: map<Hash, set<Hash>>, keys: set<Hash>,
      att: set<(Hash, Hash)>) {
    && attackers.Keys == keys && attackedBy.Keys == keys
    && (forall a, b | a in keys && b in keys :: b in attackers[a] <==> (a, b) in att)
    && (forall a, b | a in keys && b in keys :: a in attackedBy[b] <==> (a, b) in att)
    && (forall a, b | a in keys && b in attackers[a] :: b in keys)
    && (forall a, b | b in keys && a in attackedBy[b] :: a in keys)
  }

  method AddAttack(attackers0: map<Hash, set<Hash>>, attackedBy0: map<Hash, set<Hash>>, a: Hash, b: Hash,
      ghost keys: set<Hash>, ghost att: set<(Hash, Hash)>)
      returns (attackers: map<Hash, set<Hash>>, attackedBy: map<Hash, set<Hash>>)
    requires Mirrors(attackers0, attackedBy0, keys, att) && a in keys && b in keys
    ensures Mirrors(attackers, attackedBy, keys, att + {(a, b)})
  {
    attackers := attackers0[a := attackers0[a] + {b}];
    attackedBy := attackedBy0[b := attackedBy0[b] + {a}];
  }

  /** Every stored edge that resolves, keyed by address, with the order of first listing. */
  method ResolveEdges(store: Store) returns (edges: map<Hash, Edge>, order: seq<Hash>)
    ensures edges == ResolvedEdges(store)
    ensures ToSet(order) == edges.Keys
  {
    edges, order := map[], [];
    for i := 0 to |store.rows|
      invariant IsResolved(edges, Store(store.rows[..i], store.objects))
      invariant ToSet(order) == edges.Keys
    {
      ghost var edges0 := edges;
      var h := store.rows[i].edge;
      var e := ResolveEdge(h, store.objects);
      if e.Some? {
        if h !in edges {
          order := order + [h];
        }
        edges := edges[h := e.value];
      }
      forall g
        ensures ResolvedAs(g, if g in edges then Some(edges[g]) else None, Store(store.rows[..i + 1], store.objects))
      {
        ListedStep(g, store, i);
        assert ResolvedAs(g, if g in edges0 then Some(edges0[g]) else None, Store(store.rows[..i], store.objects));
      }
    }
    assert store.rows[..|store.rows|] == store.rows;
    ResolvedIs(edges, store);
  }

  ghost function RefutationPairs(edges: map<Hash, Edge>, done: seq<Hash>): (att: set<(Hash, Hash)>)
    ensures forall a, b :: (a, b) in att <==> a in done && Refutes(edges, a, b)
  {
    set a | a in done && a in edges && Refutes(edges, a, edges[a].conclusion) :: (a, edges[a].conclusion)
  }

  method RefutationAttacks(edges: map<Hash, Edge>, order: seq<Hash>)
      returns (attackers: map<Hash, set<Hash>>, attackedBy: map<Hash, set<Hash>>)
    requires ToSet(order) == edges.Keys
    ensures Mirrors(attackers, attackedBy, edges.Keys, RefutationPairs(edges, order))
  {
    attackers := map h | h in edges :: {};
    attackedBy := map h | h in edges :: {};
    for i := 0 to |order|
      invariant Mirrors(attackers, attackedBy, edges.Keys, RefutationPairs(edges, order[..i]))
    {
      var h := order[i];
      assert h in ToSet(order);
      assert order[..i + 1] == order[..i] + [h];
      ghost var att := RefutationPairs(edges, order[..i]);
      if edges[h].kind == Refutation {
        var target := edges[h].conclusion;
        if target in edges {
          attackers, attackedBy := AddAttack(attackers, attackedBy, h, target, edges.Keys, att);
          att := att + {(h, target)};
        }
      }
      SamePairs(RefutationPairs(edges, order[..i + 1]), att);
    }
    assert order[..|order|] == order;
  }

  lemma {:induction false} SamePairs(x: set<(Hash, Hash)>, y: set<(Hash, Hash)>)
    requires forall a, b :: (a, b) in x <==> (a, b) in y
    ensures x == y
  {
    forall pair: (Hash, Hash)
      ensures pair in x <==> pair in y
    {
      assert pair == (pair.0, pair.1);
    }
  }

  // ----- Contention -----

  type Proposition = (string, string)

  ghost predicate Holds(item: (Hash, bool), p: Proposition, edges: map<Hash, Edge>, objects: Objects) {
    var n := ConcludedNode(edges, objects, item.0);
    n.Some? && p == (n.value.claim, n.value.domain) && item.1 == n.value.polarity
  }

  ghost predicate Groups(byProp: map<Proposition, seq<(Hash, bool)>>, edges: map<Hash, Edge>, objects: Objects,
      done: seq<Hash>) {
    forall p, item :: (p in byProp && item in byProp[p]) <==> (item.0 in done && Holds(item, p, edges, objects))
  }

  method GroupByProposition(edges: map<Hash, Edge>, objects: Objects, order: seq<Hash>)
      returns (byProp: map<Proposition, seq<(Hash, bool)>>)
    requires ToSet(order) == edges.Keys
    ensures Groups(byProp, edges, objects, order)
  {
    byProp := map[];
    for i := 0 to |order|
      invariant Groups(byProp, edges, objects, order[..i])
    {
      var h := order[i];
      assert h in ToSet(order);
      assert order[..i + 1] == order[..i] + [h];
      var n := ResolveNode(edges[h].conclusion, objects);
      if n.None? {
        continue;
      }
      var p := (n.value.claim, n.value.domain);
      var items := if p in byProp then byProp[p] else [];
      byProp := byProp[p := items + [(h, n.value.polarity)]];
    }
    assert order[..|order|] == order;
  }

  function WithPolarity(items: seq<(Hash, bool)>, polarity: bool): (hs: seq<Hash>)
    ensures forall h :: h in hs <==> (h, polarity) in items
  {
    if items == [] then []
    else
      var last := items[|items| - 1];
      assert items == items[..|items| - 1] + [last];
      var rest := WithPolarity(items[..|items| - 1], polarity);
      if last.1 == polarity then rest + [last.0] else rest
  }

  ghost predicate Opposed(items: seq<(Hash, bool)>, a: Hash, b: Hash) {
    ((a, true) in items && (b, false) in items) || ((a, false) in items && (b, true) in items)
  }

  ghost function OpposedPairs(items: seq<(Hash, bool)>): (att: set<(Hash, Hash)>)
    ensures forall a, b :: (a, b) in att <==> Opposed(items, a, b)
  {
    set x, y | x in items && y in items && x.1 != y.1 :: (x.0, y.0)
  }

  /** Everything positive about one proposition against everything negative, both ways. */
  method Contend(items: seq<(Hash, bool)>, attackers0: map<Hash, set<Hash>>, attackedBy0: map<Hash, set<Hash>>,
      ghost keys: set<Hash>, ghost att0: set<(Hash, Hash)>)
      returns (attackers: map<Hash, set<Hash>>, attackedBy: map<Hash, set<Hash>>)
    requires Mirrors(attackers0, attackedBy0, keys, att0)
    requires forall item | item in items :: item.0 in keys
    ensures Mirrors(attackers, attackedBy, keys, att0 + OpposedPairs(items))
  {
    attackers, attackedBy := attackers0, attackedBy0;
    ghost var att := att0;
    var pos, neg := WithPolarity(items, true), WithPolarity(items, false);
    hide Mirrors;
    for i := 0 to |pos|
      invariant Mirrors(attackers, attackedBy, keys, att)
      invariant forall a, b :: (a, b) in att <==>
                (a, b) in att0 || (a in pos[..i] && b in neg) || (a in neg && b in pos[..i])
    {
      ghost var att1 := att;
      assert pos[..i + 1] == pos[..i] + [pos[i]];
      assert pos[i] in pos;
      for j := 0 to |neg|
        invariant Mirrors(attackers, attackedBy, keys, att)
        invariant forall a, b :: (a, b) in att <==>
                  (a, b) in att1 || (a == pos[i] && b in neg[..j]) || (a in neg[..j] && b == pos[i])
      {
        assert neg[..j + 1] == neg[..j] + [neg[j]];
        assert neg[j] in neg;
        attackers, attackedBy := AddAttack(attackers, attackedBy, pos[i], neg[j], keys, att);
        att := att + {(pos[i], neg[j])};
        attackers, attackedBy := AddAttack(attackers, attackedBy, neg[j], pos[i], keys, att);
        att := att + {(neg[j], pos[i])};
      }
      assert neg[..|neg|] == neg;
    }
    assert pos[..|pos|] == pos;
    SamePairs(att, att0 + OpposedPairs(items));
  }

  // ----- Labelling -----

  /** The labelling loop's state: what is accepted has only defeated attackers, what is
      defeated is exactly what the accepted attack, nothing is both, and nothing is
      accepted that any set closed under defence could do without. */
  ghost predicate Labelling(f: Framework<Hash>, accepted: set<Hash>, defeated: set<Hash>) {
    && accepted <= f.args && accepted !! defeated
    && (forall a | a in accepted :: a in f.attackedBy && f.attackedBy[a] <= defeated)
    && (forall b :: b in defeated <==> AttackedFrom(f, accepted, b))
    && forall xs | Characteristic(f, xs) <= xs :: accepted <= xs
  }

  lemma {:induction false} Accept(f: Framework<Hash>, accepted: set<Hash>, defeated: set<Hash>, h: Hash,
      targets: set<Hash>)
    requires WellFormed(f) && Labelling(f, accepted, defeated)
    requires h in f.args && h !in accepted && h !in defeated && f.attackedBy[h] <= defeated
    requires forall t :: t in targets <==> Attacks(f, h, t)
    ensures Labelling(f, accepted + {h}, defeated + targets)
  {
    forall b
      ensures b in defeated + targets <==> AttackedFrom(f, accepted + {h}, b)
    {
      if AttackedFrom(f, accepted, b) {
        var a :| a in accepted && Attacks(f, a, b);
        assert a in accepted + {h};
      }
    }
    forall xs | Characteristic(f, xs) <= xs
      ensures accepted + {h} <= xs
    {
      forall b | Attacks(f, b, h)
        ensures AttackedFrom(f, xs, b)
      {
        var a :| a in accepted && Attacks(f, a, b);
      }
      assert h in Characteristic(f, xs);
    }
    forall t | t in accepted
      ensures t !in targets
    {
      assert h !in f.attackedBy[t];
    }
  }

  lemma {:induction false} LabellingDone(f: Framework<Hash>, accepted: set<Hash>, defeated: set<Hash>)
    requires WellFormed(f) && Labelling(f, accepted, defeated)
    requires forall h | h in f.args && h !in accepted && h !in defeated :: !(f.attackedBy[h] <= defeated)
    ensures Grounded(f, accepted, defeated)
  {
    forall h | h in Characteristic(f, accepted)
      ensures h in accepted
    {
      forall b | b in f.attackedBy[h]
        ensures b in defeated && b !in accepted
      {
        assert Attacks(f, b, h);
      }
      assert f.attackedBy[h] <= defeated;
      assert !AttackedFrom(f, accepted, h);
    }
    forall h | h in accepted
      ensures h in Characteristic(f, accepted)
    {
      forall b | Attacks(f, b, h)
        ensures AttackedFrom(f, accepted, b)
      {
      }
    }
    forall b | b in defeated
      ensures b in f.args
    {
      var a :| a in accepted && Attacks(f, a, b);
    }
  }

  /** The grounded labelling loop. */
  method Label(order: seq<Hash>, attackers: map<Hash, set<Hash>>, attackedBy: map<Hash, set<Hash>>)
      returns (accepted: set<Hash>, defeated: set<Hash>)
    requires WellFormed(Framework(ToSet(order), attackedBy)) && attackers.Keys == ToSet(order)
    requires forall a, b | a in attackers :: b in attackers[a] <==> Attacks(Framework(ToSet(order), attackedBy), a, b)
    ensures Grounded(Framework(ToSet(order), attackedBy), accepted, defeated)
  {
    ghost var f := Framework(ToSet(order), attackedBy);
    accepted, defeated := {}, {};
    assert Labelling(f, accepted, defeated);
    hide Labelling, Attacks;
    var changed := true;
    while changed
      invariant Labelling(f, accepted, defeated)
      invariant !changed ==>
                forall h | h in f.args && h !in accepted && h !in defeated :: !(f.attackedBy[h] <= defeated)
      decreases f.args - accepted, changed
    {
      changed := false;
      ghost var accepted0, defeated0 := accepted, defeated;
      for i := 0 to |order|
        invariant Labelling(f, accepted, defeated)
        invariant accepted0 <= accepted
        invariant if changed then f.args - accepted < f.args - accepted0
                  else accepted == accepted0 && defeated == defeated0
        invariant !changed ==>
                  forall j | 0 <= j < i && order[j] !in accepted &&
                  order[j] !in defeated :: !(f.attackedBy[order[j]] <= defeated)
      {
        var h := order[i];
        assert h in ToSet(order);
        if h in accepted || h in defeated {
          continue;
        }
        if forall a | a in attackedBy[h] :: a in defeated {
          Accept(f, accepted, defeated, h, attackers[h]);
          accepted := accepted + {h};
          assert h in f.args - accepted0 || changed;
          changed := true;
          defeated := defeated + attackers[h];
        }
      }
    }
    LabellingDone(f, accepted, defeated);
  }

  // ----- The whole computation -----

  ghost predicate OpposedIn(byProp: map<Proposition, seq<(Hash, bool)>>, props: set<Proposition>, a: Hash, b: Hash) {
    exists p :: p in props && p in byProp && Opposed(byProp[p], a, b)
  }

  ghost function OpposedPairsIn(byProp: map<Proposition, seq<(Hash, bool)>>,
      props: set<Proposition>): (att: set<(Hash, Hash)>)
    ensures forall a, b :: (a, b) in att <==> OpposedIn(byProp, props, a, b)
  {
    var att := set p, pair | p in props && p in byProp && pair in OpposedPairs(byProp[p]) :: pair;
    assert forall a, b | OpposedIn(byProp, props, a, b) :: (a, b) in att by {
      forall a, b | OpposedIn(byProp, props, a, b)
        ensures (a, b) in att
      {
        var p :| p in props && p in byProp && Opposed(byProp[p], a, b);
        assert (a, b) in OpposedPairs(byProp[p]);
      }
    }
    att
  }

  lemma {:induction false} OpposedIsContends(byProp: map<Proposition, seq<(Hash, bool)>>, edges: map<Hash, Edge>,
      objects: Objects, order: seq<Hash>, a: Hash, b: Hash)
    requires Groups(byProp, edges, objects, order) && ToSet(order) == edges.Keys
    ensures OpposedIn(byProp, byProp.Keys, a, b) <==> Contends(edges, objects, a, b)
  {
    if OpposedIn(byProp, byProp.Keys, a, b) {
      var p :| p in byProp && Opposed(byProp[p], a, b);
      var ka := (a, true) in byProp[p] && (b, false) in byProp[p];
      assert Holds((a, ka), p, edges, objects) && Holds((b, !ka), p, edges, objects);
    }
    if Contends(edges, objects, a, b) {
      var n, m := ConcludedNode(edges, objects, a).value, ConcludedNode(edges, objects, b).value;
      var p := (n.claim, n.domain);
      assert a in ToSet(order) && b in ToSet(order);
      assert Holds((a, n.polarity), p, edges, objects) && Holds((b, m.polarity), p, edges, objects);
      assert Opposed(byProp[p], a, b);
    }
  }

  lemma {:induction false} GroupedAreEdges(byProp: map<Proposition, seq<(Hash, bool)>>, edges: map<Hash, Edge>,
      objects: Objects, order: seq<Hash>, p: Proposition)
    requires Groups(byProp, edges, objects, order) && p in byProp
    ensures forall item | item in byProp[p] :: item.0 in edges
  {
    forall item | item in byProp[p]
      ensures item.0 in edges
    {
      assert Holds(item, p, edges, objects);
    }
  }

  method ContentionAttacks(byProp: map<Proposition, seq<(Hash, bool)>>, attackers0: map<Hash, set<Hash>>,
      attackedBy0: map<Hash, set<Hash>>, ghost edges: map<Hash, Edge>, ghost objects: Objects, ghost order: seq<Hash>,
      ghost att0: set<(Hash, Hash)>) returns (attackers: map<Hash, set<Hash>>, attackedBy: map<Hash, set<Hash>>)
    requires Groups(byProp, edges, objects, order)
    requires Mirrors(attackers0, attackedBy0, edges.Keys, att0)
    ensures Mirrors(attackers, attackedBy, edges.Keys, att0 + OpposedPairsIn(byProp, byProp.Keys))
  {
    hide Mirrors, Groups, Opposed;
    attackers, attackedBy := attackers0, attackedBy0;
    ghost var att := att0;
    var todo := byProp.Keys;
    while todo != {}
      invariant todo <= byProp.Keys
      invariant Mirrors(attackers, attackedBy, edges.Keys, att)
      invariant forall a, b :: (a, b) in att <==> (a, b) in att0 || OpposedIn(byProp, byProp.Keys - todo, a, b)
      decreases todo
    {
      var p :| p in todo;
      GroupedAreEdges(byProp, edges, objects, order, p);
      attackers, attackedBy := Contend(byProp[p], attackers, attackedBy, edges.Keys, att);
      att := att + OpposedPairs(byProp[p]);
      assert byProp.Keys - (todo - {p}) == (byProp.Keys - todo) + {p};
      todo := todo - {p};
    }
    assert byProp.Keys - todo == byProp.Keys;
    SamePairs(att, att0 + OpposedPairsIn(byProp, byProp.Keys));
  }

  /** `compute_active_subgraph`: the grounded labelling of the stored edges' attack relation. */
  method ComputeActiveSubgraph(store: Store) returns (active: ActiveSubgraph)
    ensures var f := AttackFramework(ResolvedEdges(store), store.objects);
            && Grounded(f, active.inEdges, active.outEdges)
            && active.undecided == Undecided(f, active.inEdges, active.outEdges)
  {
    var edges, order := ResolveEdges(store);
    var attackers, attackedBy := RefutationAttacks(edges, order);
    var byProp := GroupByProposition(edges, store.objects, order);
    attackers, attackedBy := ContentionAttacks(byProp, attackers, attackedBy, edges, store.objects, order,
        RefutationPairs(edges, order));
    BuiltFramework(attackers, attackedBy, byProp, edges, store.objects, order);
    hide *;
    var accepted, defeated := Label(order, attackers, attackedBy);
    active := ActiveSubgraph(accepted, defeated, edges.Keys - accepted - defeated);
    UndecidedIs(edges, store.objects, accepted, defeated);
  }

  lemma {:induction false} UndecidedIs(edges: map<Hash, Edge>, objects: Objects, accepted: set<Hash>,
      defeated: set<Hash>)
    ensures Undecided(AttackFramework(edges, objects), accepted, defeated) == edges.Keys - accepted - defeated
  {
  }

  /** The dictionaries the code builds are the attack relation of the store. */
  lemma {:induction false} BuiltFramework(attackers: map<Hash, set<Hash>>, attackedBy: map<Hash, set<Hash>>,
      byProp: map<Proposition, seq<(Hash, bool)>>, edges: map<Hash, Edge>, objects: Objects, order: seq<Hash>)
    requires ToSet(order) == edges.Keys
    requires Mirrors(attackers, attackedBy, edges.Keys,
            RefutationPairs(edges, order) + OpposedPairsIn(byProp, byProp.Keys))
    requires Groups(byProp, edges, objects, order)
    ensures AttackFramework(edges, objects) == Framework(ToSet(order), attackedBy)
    ensures WellFormed(Framework(ToSet(order), attackedBy)) && attackers.Keys == ToSet(order)
    ensures forall a, b | a in attackers :: b in attackers[a] <==> Attacks(Framework(ToSet(order), attackedBy), a, b)
  {
    var att := RefutationPairs(edges, order) + OpposedPairsIn(byProp, byProp.Keys);
    hide Groups, Opposed, OpposedIn, Contends, Refutes, RefutationPairs, OpposedPairsIn;
    forall a, b | a in edges && b in edges
      ensures (a, b) in att <==> Refutes(edges, a, b) || Contends(edges, objects, a, b)
    {
      assert a in ToSet(order);
      OpposedIsContends(byProp, edges, objects, order, a, b);
    }
    var f := AttackFramework(edges, objects);
    forall b | b in edges
      ensures f.attackedBy[b] == attackedBy[b]
    {
    }
    assert f.attackedBy == attackedBy;
  }

  // ----- Consistency -----

  lemma {:induction false} ContendersNotBothIn(edges: map<Hash, Edge>, objects: Objects, accepted: set<Hash>,
      defeated: set<Hash>, a: Hash, b: Hash)
    requires Grounded(AttackFramework(edges, objects), accepted, defeated)
    requires a in accepted && b in accepted
    ensures !Contends(edges, objects, a, b) && !Refutes(edges, a, b)
  {
    AttackFrameworkFacts(edges, objects);
    GroundedConflictFree(AttackFramework(edges, objects), accepted, defeated);
  }

  /** Deriving from accepted edges, with nothing assumed, ends in an accepted edge. */
  lemma {:induction false} LastEdgeAccepted(t: Tree, list: seq<Entry>, store: Store, edges: map<Hash, Edge>,
      accepted: set<Hash>, n: Hash) returns (h: Hash)
    requires IsResolved(edges, store) && IsDerivationList(list, store, Some(accepted))
    requires Derives(t, list, {}, n)
    ensures h in accepted && h in edges && edges[h].conclusion == n
  {
    h := t.entry.hash;
    assert t.entry in list;
    assert ResolvedAs(h, if h in edges then Some(edges[h]) else None, store);
  }

  /** No two derivations over the active subgraph establish a claim and its negation,
      whatever refutes what. */
  lemma {:induction false} NoContradictionDerivable(t1: Tree, t2: Tree, p: Hash, q: Hash, n: Node, m: Node,
      list: seq<Entry>, store: Store, edges: map<Hash, Edge>, accepted: set<Hash>, defeated: set<Hash>)
    requires IsResolved(edges, store) && IsDerivationList(list, store, Some(accepted))
    requires Grounded(AttackFramework(edges, store.objects), accepted, defeated)
    requires ResolveNode(p, store.objects) == Some(n) && ResolveNode(q, store.objects) == Some(m) && Opposite(n, m)
    ensures !(Derives(t1, list, {}, p) && Derives(t2, list, {}, q))
  {
    if Derives(t1, list, {}, p) && Derives(t2, list, {}, q) {
      hide IsResolved, IsDerivationList, Grounded, AttackFramework, Derives;
      var a := LastEdgeAccepted(t1, list, store, edges, accepted, p);
      var b := LastEdgeAccepted(t2, list, store, edges, accepted, q);
      ContendersNotBothIn(edges, store.objects, accepted, defeated, a, b);
      assert false;
    }
  }

  /** So the query, restricted to the active subgraph, never establishes both. */
  lemma {:induction false} ActiveReachabilityConsistent(r1: ReachabilityResult, r2: ReachabilityResult, k1: Kappa,
      k2: Kappa, p: Hash, q: Hash, n: Node, m: Node, list: seq<Entry>, store: Store, edges: map<Hash, Edge>,
      accepted: set<Hash>, defeated: set<Hash>)
    requires IsResolved(edges, store) && IsDerivationList(list, store, Some(accepted))
    requires Grounded(AttackFramework(edges, store.objects), accepted, defeated)
    requires ResolveNode(p, store.objects) == Some(n) && ResolveNode(q, store.objects) == Some(m) && Opposite(n, m)
    requires Answers(r1, p, k1, list, {}) && Answers(r2, q, k2, list, {})
    ensures r1.kappa.None? || r2.kappa.None?
    ensures !r1.established || !r2.established
  {
    forall t1, t2
      ensures !(Derives(t1, list, {}, p) && Derives(t2, list, {}, q))
    {
      NoContradictionDerivable(t1, t2, p, q, n, m, list, store, edges, accepted, defeated);
    }
    hide IsResolved, IsDerivationList, Grounded, AttackFramework, Derives, StrongestDerivation, LowestDerivation, Uses;
  }

  // ----- Reinstatement in a store -----

  /** The store after committing `er` and then `es`. */
  function WithTwoEdges(store: Store, er: Edge, es: Edge): Store {
    Store(store.rows + [Row(EdgeHash(er), er.conclusion), Row(EdgeHash(es), es.conclusion)],
          store.objects[EdgeHash(er) := EdgeRec(er)][EdgeHash(es) := EdgeRec(es)])
  }

  /** `er` refutes the stored edge `x`, `es` refutes `er`, both are new, and nothing
      already stored refutes either. */
  ghost predicate FreshCounter(store: Store, edges: map<Hash, Edge>, x: Hash, er: Edge, es: Edge) {
    && er.kind == Refutation && es.kind == Refutation
    && x in edges && er.conclusion == x && es.conclusion == EdgeHash(er)
    && EdgeHash(er) !in store.objects && EdgeHash(es) !in store.objects
    && ResolveNode(x, store.objects) == None
    && forall h | h in edges && edges[h].kind == Refutation :: edges[h].conclusion != EdgeHash(er) &&
         edges[h].conclusion != EdgeHash(es)
  }

  lemma {:induction false} CounterResolves(store: Store, edges: map<Hash, Edge>, edges': map<Hash, Edge>, x: Hash,
      er: Edge, es: Edge)
    requires IsResolved(edges, store) && FreshCounter(store, edges, x, er, es)
    requires IsResolved(edges', WithTwoEdges(store, er, es))
    ensures EdgeHash(er) !in edges && EdgeHash(es) !in edges && EdgeHash(er) != EdgeHash(es)
    ensures edges' == edges[EdgeHash(er) := er][EdgeHash(es) := es]
  {
    var r, s, store' := EdgeHash(er), EdgeHash(es), WithTwoEdges(store, er, es);
    assert Row(r, er.conclusion) in store'.rows && Row(s, es.conclusion) in store'.rows;
    forall h
      ensures Listed(h, store') <==> Listed(h, store) || h == r || h == s
    {
      if Listed(h, store) {
        var row :| row in store.rows && row.edge == h;
        assert row in store'.rows;
      }
    }
    hide Listed;
    forall h
      ensures (if h in edges' then Some(edges'[h]) else None) == if h == s then Some(es) else if h == r then Some(er)
              else if h in edges then Some(edges[h]) else None
      ensures h in edges ==> h != r && h != s
    {
      assert ResolvedAs(h, if h in edges then Some(edges[h]) else None, store);
      assert ResolvedAs(h, if h in edges' then Some(edges'[h]) else None, store');
    }
    var expected := edges[r := er][s := es];
    forall h
      ensures h in edges' <==> h in expected
    {
      assert (if h in edges' then Some(edges'[h]) else None) == if h == s then Some(es) else if h == r then Some(er)
          else if h in edges then Some(edges[h]) else None;
    }
  }

  lemma {:induction false} CounterAttacks(store: Store, edges: map<Hash, Edge>, x: Hash, er: Edge, es: Edge, a: Hash,
      b: Hash)
    requires FreshCounter(store, edges, x, er, es)
    requires EdgeHash(er) !in edges && EdgeHash(es) !in edges && EdgeHash(er) != EdgeHash(es)
    ensures var r, s, edges' := EdgeHash(er), EdgeHash(es), edges[EdgeHash(er) := er][EdgeHash(es) := es];
            && (Refutes(edges', a, b) <==> Refutes(edges, a, b) || (a == r && b == x) || (a == s && b == r))
            && (Contends(edges', WithTwoEdges(store, er, es).objects, a, b) <==> Contends(edges, store.objects, a, b))
  {
  }

  lemma {:induction false} CounterFramework(store: Store, edges: map<Hash, Edge>, x: Hash, er: Edge, es: Edge)
    requires FreshCounter(store, edges, x, er, es)
    requires EdgeHash(er) !in edges && EdgeHash(es) !in edges && EdgeHash(er) != EdgeHash(es)
    ensures WellFormed(AttackFramework(edges, store.objects))
    ensures AttackFramework(edges[EdgeHash(er) := er][EdgeHash(es) := es], WithTwoEdges(store, er, es).objects)
            == Countered(AttackFramework(edges, store.objects), x, EdgeHash(er), EdgeHash(es))
  {
    hide *;
    var r, s, edges' := EdgeHash(er), EdgeHash(es), edges[EdgeHash(er) := er][EdgeHash(es) := es];
    var f, g := AttackFramework(edges, store.objects), AttackFramework(edges', WithTwoEdges(store, er, es).objects);
    AttackFrameworkFacts(edges, store.objects);
    AttackFrameworkFacts(edges', WithTwoEdges(store, er, es).objects);
    FrameworkArgs(edges, store.objects);
    FrameworkArgs(edges', WithTwoEdges(store, er, es).objects);
    assert x in edges by { RefutedIsStored(store, edges, x, er, es); }
    CounteredArgs(f, x, r, s);
    forall a, b
      ensures Attacks(g, a, b) <==> Attacks(Countered(f, x, r, s), a, b)
    {
      CounteredAttacks(f, x, r, s, a, b);
      CounterAttacks(store, edges, x, er, es, a, b);
    }
    SameAttacks(g, Countered(f, x, r, s));
  }

  lemma {:induction false} RefutedIsStored(store: Store, edges: map<Hash, Edge>, x: Hash, er: Edge, es: Edge)
    requires FreshCounter(store, edges, x, er, es)
    ensures x in edges
  {
  }

  lemma {:induction false} CounteredArgs(f: Framework<Hash>, x: Hash, r: Hash, s: Hash)
    requires WellFormed(f) && x in f.args && r !in f.args && s !in f.args && r != s
    ensures Countered(f, x, r, s).args == f.args + {r, s} == Countered(f, x, r, s).attackedBy.Keys
  {
  }

  lemma {:induction false} FrameworkArgs(edges: map<Hash, Edge>, objects: Objects)
    ensures AttackFramework(edges, objects).args == edges.Keys == AttackFramework(edges, objects).attackedBy.Keys
  {
  }

  lemma {:induction false} SameAttacks(g: Framework<Hash>, h: Framework<Hash>)
    requires g.args == h.args && g.attackedBy.Keys == h.attackedBy.Keys
    requires forall a, b :: Attacks(g, a, b) <==> Attacks(h, a, b)
    ensures g == h
  {
    forall b | b in g.attackedBy
      ensures g.attackedBy[b] == h.attackedBy[b]
    {
      forall a
        ensures a in g.attackedBy[b] <==> a in h.attackedBy[b]
      {
        assert Attacks(g, a, b) <==> Attacks(h, a, b);
      }
    }
  }

  /** Refuting an edge and then refuting the refutation gives every edge already stored the
      label it had before either was committed. */
  lemma {:induction false} StoreReinstatement(store: Store, edges: map<Hash, Edge>, edges': map<Hash, Edge>, x: Hash,
      er: Edge, es: Edge, before: ActiveSubgraph, after: ActiveSubgraph)
    requires IsResolved(edges, store) && FreshCounter(store, edges, x, er, es)
    requires IsResolved(edges', WithTwoEdges(store, er, es))
    requires Grounded(AttackFramework(edges, store.objects), before.inEdges, before.outEdges)
    requires before.undecided == Undecided(AttackFramework(edges, store.objects), before.inEdges, before.outEdges)
    requires var f := AttackFramework(edges', WithTwoEdges(store, er, es).objects);
             Grounded(f, after.inEdges, after.outEdges) &&
                 after.undecided == Undecided(f, after.inEdges, after.outEdges)
    ensures after == ActiveSubgraph(before.inEdges + {EdgeHash(es)}, before.outEdges + {EdgeHash(er)}, before.undecided)
  {
    FrameworkArgs(edges, store.objects);
    assert x in edges;
    hide *;
    CounterResolves(store, edges, edges', x, er, es);
    CounterFramework(store, edges, x, er, es);
    Reinstatement(AttackFramework(edges, store.objects), x, EdgeHash(er), EdgeHash(es), before.inEdges, before.outEdges,
        after.inEdges, after.outEdges);
  }

  // ----- The module comment's labelling rule -----

  /** Being attacked by nothing accepted is not acceptance: two edges that contend with
      each other and nothing else are both undecided. */
  lemma {:induction false} UnattackedByInIsNotIn(a: Hash, b: Hash, accepted: set<Hash>, defeated: set<Hash>)
    requires a != b
    requires Grounded(Framework({a, b}, map[a := {b}, b := {a}]), accepted, defeated)
    ensures accepted == {} && defeated == {}
  {
    var f := Framework({a, b}, map[a := {b}, b := {a}]);
    assert Attacks(f, a, b) && Attacks(f, b, a);
    var none: set<Hash> := {};
    assert Characteristic(f, none) == {};
  }

  /** Exactly when the rule holds of an edge, read off the attack relation alone: the edge is
      in every set that holds all it defends, or in no set that defends all it holds. */
  lemma {:induction false} RuleHoldsIff(edges: map<Hash, Edge>, objects: Objects, accepted: set<Hash>,
      defeated: set<Hash>, h: Hash)
    requires h in edges
    requires Grounded(AttackFramework(edges, objects), accepted, defeated)
    ensures var f := AttackFramework(edges, objects);
            (h in accepted <==> !AttackedFrom(f, accepted, h)) <==> Forced(f, h) || !Defensible(f, h)
  {
    AttackFrameworkFacts(edges, objects);
    FrameworkArgs(edges, objects);
    hide *;
    UnattackedRuleIff(AttackFramework(edges, objects), accepted, defeated, h);
  }

  /** So it holds of a whole store exactly when every edge that can be defended is forced,
      which is when no edge is left undecided. */
  lemma {:induction false} RuleHoldsEverywhereIff(edges: map<Hash, Edge>, objects: Objects, accepted: set<Hash>,
      defeated: set<Hash>)
    requires Grounded(AttackFramework(edges, objects), accepted, defeated)
    ensures var f := AttackFramework(edges, objects);
            && ((forall h | h in edges :: h in accepted <==> !AttackedFrom(f, accepted, h)) <==>
                (forall h | h in edges && Defensible(f, h) :: Forced(f, h)))
            && ((forall h | h in edges && Defensible(f, h) :: Forced(f, h)) <==> Undecided(f, accepted, defeated) == {})
  {
    var f := AttackFramework(edges, objects);
    AttackFrameworkFacts(edges, objects);
    FrameworkArgs(edges, objects);
    hide AttackFramework, Characteristic, AttackedFrom, Forced, Defensible, Grounded, WellFormed;
    forall h | h in edges
      ensures (h in accepted <==> !AttackedFrom(f, accepted, h)) <==> Forced(f, h) || !Defensible(f, h)
      ensures Forced(f, h) <==> h in accepted
      ensures Defensible(f, h) <==> h !in defeated
    {
      UnattackedRuleIff(f, accepted, defeated, h);
      ForcedIff(f, accepted, defeated, h);
      DefensibleIff(f, accepted, defeated, h);
    }
    assert forall h :: h in Undecided(f, accepted, defeated) <==> h in edges && Defensible(f, h) && !Forced(f, h);
  }
}
