/**
 Abstract argumentation (Dung 1995): arguments that attack one another, and the grounded
 labelling of them. Everything here is about the labelling, not about how it is computed.
 */
module Argumentation {

  /** Arguments, and for each the arguments that attack it. */
  datatype Framework<A(==)> = Framework(args: set<A>, attackedBy: map<A, set<A>>)

  ghost predicate WellFormed<A(!new)>(f: Framework<A>) {
    && f.attackedBy.Keys == f.args
    && forall a | a in f.args :: f.attackedBy[a] <= f.args
  }

  ghost predicate Attacks<A(!new)>(f: Framework<A>, a: A, b: A) {
    b in f.attackedBy && a in f.attackedBy[b]
  }

  /** Some member of `xs` attacks `b`. */
  ghost predicate AttackedFrom<A(!new)>(f: Framework<A>, xs: set<A>, b: A) {
    exists a :: a in xs && Attacks(f, a, b)
  }

  /** `xs` attacks every attacker of `a`. */
  ghost predicate Defends<A(!new)>(f: Framework<A>, xs: set<A>, a: A) {
    forall b | Attacks(f, b, a) :: AttackedFrom(f, xs, b)
  }

  /** Dung's characteristic function: what `xs` defends. */
  ghost function Characteristic<A(!new)>(f: Framework<A>, xs: set<A>): set<A> {
    set a | a in f.args && Defends(f, xs, a)
  }

  /** `accepted` is the least fixpoint of the characteristic function, and `defeated` is what it attacks. */
  ghost predicate Grounded<A(!new)>(f: Framework<A>, accepted: set<A>, defeated: set<A>) {
    && Characteristic(f, accepted) == accepted
    && (forall xs | Characteristic(f, xs) <= xs :: accepted <= xs)
    && (forall b :: b in defeated <==> b in f.args && AttackedFrom(f, accepted, b))
  }

  ghost predicate ConflictFree<A(!new)>(f: Framework<A>, xs: set<A>) {
    forall a, b | a in xs && b in xs :: !Attacks(f, a, b)
  }

  /** A complete extension defends exactly itself, without conflict. */
  ghost predicate Complete<A(!new)>(f: Framework<A>, xs: set<A>) {
    xs <= f.args && ConflictFree(f, xs) && Characteristic(f, xs) == xs
  }

  lemma {:induction false} GroundedUnique<A(!new)>(f: Framework<A>, accepted: set<A>, defeated: set<A>,
      accepted': set<A>, defeated': set<A>)
    requires Grounded(f, accepted, defeated) && Grounded(f, accepted', defeated')
    ensures accepted == accepted' && defeated == defeated'
  {
    hide Characteristic, AttackedFrom;
    assert accepted <= accepted' && accepted' <= accepted;
  }

  /** The grounded labelling is skeptical: it accepts only what every complete extension does. */
  lemma {:induction false} GroundedInsideComplete<A(!new)>(f: Framework<A>, accepted: set<A>, defeated: set<A>,
      xs: set<A>)
    requires Grounded(f, accepted, defeated) && Complete(f, xs)
    ensures accepted <= xs
  {
    hide Characteristic, AttackedFrom, ConflictFree;
  }

  lemma {:induction false} CharacteristicMonotone<A(!new)>(f: Framework<A>, xs: set<A>, ys: set<A>)
    requires xs <= ys
    ensures Characteristic(f, xs) <= Characteristic(f, ys)
  {
    forall a | a in Characteristic(f, xs)
      ensures Defends(f, ys, a)
    {
      forall b | Attacks(f, b, a)
        ensures AttackedFrom(f, ys, b)
      {
        var c :| c in xs && Attacks(f, c, b);
      }
    }
  }

  /** Nothing the grounded labelling accepts attacks anything else it accepts. */
  lemma {:induction false} GroundedConflictFree<A(!new)>(f: Framework<A>, accepted: set<A>, defeated: set<A>)
    requires WellFormed(f) && Grounded(f, accepted, defeated)
    ensures accepted !! defeated && ConflictFree(f, accepted)
  {
    // The accepted arguments that nothing accepted attacks are already closed under defence.
    var calm := set a | a in accepted && !AttackedFrom(f, accepted, a);
    forall a | a in Characteristic(f, calm)
      ensures a in calm
    {
      CharacteristicMonotone(f, calm, accepted);
      assert Defends(f, calm, a);
      forall b | Attacks(f, b, a)
        ensures b !in accepted
      {
        var c :| c in calm && Attacks(f, c, b);
        assert !AttackedFrom(f, accepted, c);
        assert b !in Characteristic(f, accepted);
      }
    }
    assert Characteristic(f, calm) <= calm;
    forall a, b | a in accepted && b in accepted
      ensures !Attacks(f, a, b)
    {
      assert b in calm;
    }
    forall a | a in accepted
      ensures a !in defeated
    {
      assert a in calm;
    }
  }

  // ----- Labels read off the attack relation -----

  /** Whatever holds all that it defends holds `a`. */
  ghost predicate Forced<A(!new)>(f: Framework<A>, a: A) {
    forall xs: set<A> | Characteristic(f, xs) <= xs :: a in xs
  }

  /** Some set that defends all its members holds `a`. */
  ghost predicate Defensible<A(!new)>(f: Framework<A>, a: A) {
    exists xs: set<A> :: xs <= Characteristic(f, xs) && a in xs
  }

  /** Accepted is forced. */
  lemma {:induction false} ForcedIff<A(!new)>(f: Framework<A>, accepted: set<A>, defeated: set<A>, a: A)
    requires Grounded(f, accepted, defeated)
    ensures Forced(f, a) <==> a in accepted
  {
    hide Characteristic, AttackedFrom;
    if a in accepted {
      forall xs | Characteristic(f, xs) <= xs
        ensures a in xs
      {
        assert accepted <= xs;
      }
    }
  }

  ghost function Harmless<A(!new)>(f: Framework<A>, accepted: set<A>, xs: set<A>): set<A> {
    set a | a in accepted && forall x | x in xs :: !Attacks(f, a, x)
  }

  /** What harmless arguments defend attacks nothing in a set that defends its members: that
      set would attack it back, and something harmless would attack the set. */
  lemma {:induction false} DefendedIsHarmless<A(!new)>(f: Framework<A>, accepted: set<A>, xs: set<A>, a: A, x: A)
    requires xs <= Characteristic(f, xs) && x in xs
    requires Defends(f, Harmless(f, accepted, xs), a)
    ensures !Attacks(f, a, x)
  {
    assert x in Characteristic(f, xs);
    assert Defends(f, xs, x);
    assert forall y | y in xs :: !AttackedFrom(f, Harmless(f, accepted, xs), y);
    assert !AttackedFrom(f, xs, a);
  }

  /** Nothing accepted attacks a set that defends its members. */
  lemma {:induction false} DefendedUndefeated<A(!new)>(f: Framework<A>, accepted: set<A>, defeated: set<A>, xs: set<A>)
    requires Grounded(f, accepted, defeated) && xs <= Characteristic(f, xs)
    ensures xs !! defeated
  {
    var harmless := Harmless(f, accepted, xs);
    assert harmless <= accepted;
    CharacteristicMonotone(f, harmless, accepted);
    forall a | a in Characteristic(f, harmless)
      ensures a in harmless
    {
      forall x | x in xs
        ensures !Attacks(f, a, x)
      {
        DefendedIsHarmless(f, accepted, xs, a, x);
      }
    }
    assert accepted <= harmless;
    hide Characteristic;
  }

  /** What nothing accepted attacks defends itself. */
  lemma {:induction false} UndefeatedDefended<A(!new)>(f: Framework<A>, accepted: set<A>, defeated: set<A>)
    requires WellFormed(f) && Grounded(f, accepted, defeated)
    ensures f.args - defeated <= Characteristic(f, f.args - defeated)
  {
    var xs := f.args - defeated;
    forall a, b | a in xs && Attacks(f, b, a)
      ensures AttackedFrom(f, xs, b)
    {
      assert b !in Characteristic(f, accepted);
      var c :| Attacks(f, c, b) && !AttackedFrom(f, accepted, c);
      assert c in xs;
    }
  }

  /** Undefeated is defensible. */
  lemma {:induction false} DefensibleIff<A(!new)>(f: Framework<A>, accepted: set<A>, defeated: set<A>, a: A)
    requires WellFormed(f) && Grounded(f, accepted, defeated) && a in f.args
    ensures Defensible(f, a) <==> a !in defeated
  {
    UndefeatedDefended(f, accepted, defeated);
    hide Characteristic, Grounded, WellFormed;
    if Defensible(f, a) {
      var xs :| xs <= Characteristic(f, xs) && a in xs;
      DefendedUndefeated(f, accepted, defeated, xs);
    }
    if a !in defeated {
      var xs := f.args - defeated;
      assert xs <= Characteristic(f, xs) && a in xs;
    }
  }

  /** "Accepted iff attacked by nothing accepted" holds of an argument exactly when it is
      forced or cannot be defended. */
  lemma {:induction false} UnattackedRuleIff<A(!new)>(f: Framework<A>, accepted: set<A>, defeated: set<A>, a: A)
    requires WellFormed(f) && Grounded(f, accepted, defeated) && a in f.args
    ensures (a in accepted <==> !AttackedFrom(f, accepted, a)) <==> Forced(f, a) || !Defensible(f, a)
  {
    ForcedIff(f, accepted, defeated, a);
    DefensibleIff(f, accepted, defeated, a);
    GroundedConflictFree(f, accepted, defeated);
    hide Characteristic, AttackedFrom, Forced, Defensible, ConflictFree;
  }

  // ----- Undecided arguments -----

  ghost function Undecided<A(!new)>(f: Framework<A>, accepted: set<A>, defeated: set<A>): set<A> {
    f.args - accepted - defeated
  }

  /** Undecided because of something undecided, never because of something accepted. */
  lemma {:induction false} UndecidedAttacker<A(!new)>(f: Framework<A>, accepted: set<A>, defeated: set<A>, a: A)
      returns (b: A)
    requires WellFormed(f) && Grounded(f, accepted, defeated) && a in Undecided(f, accepted, defeated)
    ensures b in Undecided(f, accepted, defeated) && Attacks(f, b, a)
    ensures forall c | Attacks(f, c, a) :: c !in accepted
  {
    assert a !in Characteristic(f, accepted);
    b :| Attacks(f, b, a) && !AttackedFrom(f, accepted, b);
    assert !AttackedFrom(f, accepted, a);
  }

  /** Each element attacks the one before it, and the last is the first again. */
  ghost predicate AttackCycle<A(!new)>(f: Framework<A>, path: seq<A>) {
    && |path| > 1 && path[0] == path[|path| - 1]
    && forall i | 0 <= i < |path| - 1 :: Attacks(f, path[i + 1], path[i])
  }

  ghost predicate BackwardWalk<A(!new)>(f: Framework<A>, xs: set<A>, path: seq<A>) {
    && |path| > 0
    && (forall i | 0 <= i < |path| :: path[i] in xs)
    && forall i | 0 <= i < |path| - 1 :: Attacks(f, path[i + 1], path[i])
  }

  ghost predicate NoRepeats<A(!new)>(path: seq<A>) {
    forall i, j | 0 <= i < j < |path| :: path[i] != path[j]
  }

  lemma {:induction false} NoRepeatsBound<A(!new)>(path: seq<A>, xs: set<A>)
    requires NoRepeats(path) && forall i | 0 <= i < |path| :: path[i] in xs
    ensures |path| <= |xs|
  {
    if |path| > 0 {
      var last := path[|path| - 1];
      NoRepeatsBound(path[..|path| - 1], xs - {last});
    }
  }

  /** Walking back from attacker to attacker inside a finite set must repeat. */
  lemma {:induction false} WalkFindsCycle<A(!new)>(f: Framework<A>, accepted: set<A>, defeated: set<A>, path: seq<A>)
      returns (cycle: seq<A>)
    requires WellFormed(f) && Grounded(f, accepted, defeated)
    requires BackwardWalk(f, Undecided(f, accepted, defeated), path) && NoRepeats(path)
    ensures AttackCycle(f, cycle) && forall i | 0 <= i < |cycle| :: cycle[i] in Undecided(f, accepted, defeated)
    decreases |Undecided(f, accepted, defeated)| - |path|
  {
    hide *;
    var next := UndecidedAttacker(f, accepted, defeated, WalkEnd(f, Undecided(f, accepted, defeated), path));
    ExtendWalk(f, Undecided(f, accepted, defeated), path, next);
    if next in path {
      cycle := CloseWalk(f, Undecided(f, accepted, defeated), path, next);
    } else {
      cycle := WalkFindsCycle(f, accepted, defeated, path + [next]);
    }
  }

  ghost function WalkEnd<A(!new)>(f: Framework<A>, xs: set<A>, path: seq<A>): (a: A)
    requires BackwardWalk(f, xs, path)
    ensures |path| > 0 && a == path[|path| - 1] && a in xs
  {
    path[|path| - 1]
  }

  lemma {:induction false} ExtendWalk<A(!new)>(f: Framework<A>, xs: set<A>, path: seq<A>, next: A)
    requires BackwardWalk(f, xs, path) && NoRepeats(path)
    requires next in xs && Attacks(f, next, path[|path| - 1])
    ensures BackwardWalk(f, xs, path + [next])
    ensures next !in path ==> NoRepeats(path + [next]) && |path| + 1 <= |xs|
  {
    hide Attacks;
    if next !in path {
      assert NoRepeats(path + [next]);
      NoRepeatsBound(path + [next], xs);
    }
  }

  lemma {:induction false} CloseWalk<A(!new)>(f: Framework<A>, xs: set<A>, path: seq<A>, next: A)
      returns (cycle: seq<A>)
    requires BackwardWalk(f, xs, path + [next]) && next in path
    ensures AttackCycle(f, cycle) && forall i | 0 <= i < |cycle| :: cycle[i] in xs
  {
    hide Attacks;
    var longer := path + [next];
    var i :| 0 <= i < |path| && path[i] == next;
    cycle := longer[i..];
    forall j | 0 <= j < |cycle| - 1
      ensures Attacks(f, cycle[j + 1], cycle[j])
    {
      assert Attacks(f, longer[i + j + 1], longer[i + j]);
    }
  }

  /** Something undecided means some attack cycle is undecided. */
  lemma {:induction false} UndecidedMeansCycle<A(!new)>(f: Framework<A>, accepted: set<A>, defeated: set<A>)
    requires WellFormed(f) && Grounded(f, accepted, defeated)
    requires Undecided(f, accepted, defeated) != {}
    ensures exists cycle ::
              AttackCycle(f, cycle) && forall i | 0 <= i < |cycle| :: cycle[i] in Undecided(f, accepted, defeated)
  {
    var a :| a in Undecided(f, accepted, defeated);
    var cycle := WalkFindsCycle(f, accepted, defeated, [a]);
  }

  /** An attack graph without cycles, of any depth, is labelled completely. */
  lemma {:induction false} AcyclicFullyLabelled<A(!new)>(f: Framework<A>, accepted: set<A>, defeated: set<A>)
    requires WellFormed(f) && Grounded(f, accepted, defeated)
    requires !exists cycle :: AttackCycle(f, cycle)
    ensures accepted + defeated == f.args
  {
    assert accepted <= f.args && defeated <= f.args;
    if Undecided(f, accepted, defeated) != {} {
      UndecidedMeansCycle(f, accepted, defeated);
    }
    assert accepted + defeated == f.args - Undecided(f, accepted, defeated);
  }

  /** A chain: each element is attacked by exactly the next one, the last by nothing. */
  ghost predicate AttackChain<A(!new)>(f: Framework<A>, chain: seq<A>) {
    && (forall i | 0 <= i < |chain| :: chain[i] in f.args && chain[i] in f.attackedBy)
    && (forall i | 0 <= i < |chain| - 1 :: f.attackedBy[chain[i]] == {chain[i + 1]})
    && (|chain| > 0 ==> f.attackedBy[chain[|chain| - 1]] == {})
  }

  /** Labels alternate along a chain, starting with acceptance at its unattacked end. */
  lemma {:induction false} ChainAlternates<A(!new)>(f: Framework<A>, accepted: set<A>, defeated: set<A>, chain: seq<A>,
      i: nat)
    requires WellFormed(f) && Grounded(f, accepted, defeated)
    requires AttackChain(f, chain) && i < |chain|
    ensures if (|chain| - 1 - i) % 2 == 0 then chain[i] in accepted else chain[i] in defeated
    decreases |chain| - i
  {
    if i == |chain| - 1 {
      assert chain[i] in Characteristic(f, accepted);
    } else {
      ChainAlternates(f, accepted, defeated, chain, i + 1);
      assert Attacks(f, chain[i + 1], chain[i]);
      if chain[i + 1] in defeated {
        assert Defends(f, accepted, chain[i]);
        assert chain[i] in Characteristic(f, accepted);
      } else {
        assert AttackedFrom(f, accepted, chain[i]);
      }
    }
  }

  // ----- Reinstatement -----

  /** `f` with a new argument `r` against `x`, and a new argument `s` against `r`. */
  ghost function Countered<A(!new)>(f: Framework<A>, x: A, r: A, s: A): Framework<A>
    requires WellFormed(f) && x in f.args && r !in f.args && s !in f.args && r != s
  {
    Framework(f.args + {r, s}, f.attackedBy[x := f.attackedBy[x] + {r}][r := {s}][s := {}])
  }

  lemma {:induction false} CounteredAttacks<A(!new)>(f: Framework<A>, x: A, r: A, s: A, a: A, b: A)
    requires WellFormed(f) && x in f.args && r !in f.args && s !in f.args && r != s
    ensures Attacks(Countered(f, x, r, s), a, b) <==> Attacks(f, a, b) || (a == r && b == x) || (a == s && b == r)
  {
  }

  /** A refutation that is itself refuted changes no label: `r` is defeated, `s` accepted,
      and every earlier argument keeps the label it had. */
  lemma {:induction false} Reinstatement<A(!new)>(f: Framework<A>, x: A, r: A, s: A, accepted: set<A>, defeated: set<A>,
      accepted': set<A>, defeated': set<A>)
    requires WellFormed(f) && x in f.args && r !in f.args && s !in f.args && r != s
    requires Grounded(f, accepted, defeated)
    requires Grounded(Countered(f, x, r, s), accepted', defeated')
    ensures accepted' == accepted + {s} && defeated' == defeated + {r}
    ensures Undecided(Countered(f, x, r, s), accepted', defeated') == Undecided(f, accepted, defeated)
  {
    hide *;
    CounteredGrounded(f, x, r, s, accepted, defeated);
    GroundedUnique(Countered(f, x, r, s), accepted', defeated', accepted + {s}, defeated + {r});
    CounteredUndecided(f, x, r, s, accepted, defeated);
  }

  lemma {:induction false} CounteredUndecided<A(!new)>(f: Framework<A>, x: A, r: A, s: A, accepted: set<A>,
      defeated: set<A>)
    requires WellFormed(f) && x in f.args && r !in f.args && s !in f.args && r != s
    ensures Undecided(Countered(f, x, r, s), accepted + {s}, defeated + {r}) == Undecided(f, accepted, defeated)
  {
  }

  lemma {:induction false} CounteredDefends<A(!new)>(f: Framework<A>, x: A, r: A, s: A, xs: set<A>, a: A)
    requires WellFormed(f) && x in f.args && r !in f.args && s !in f.args && r != s
    requires xs <= f.args && a in f.args
    ensures Defends(Countered(f, x, r, s), xs + {s}, a) <==> Defends(f, xs, a)
  {
    var g := Countered(f, x, r, s);
    forall b, c
      ensures Attacks(g, b, c) <==> Attacks(f, b, c) || (b == r && c == x) || (b == s && c == r)
    {
      CounteredAttacks(f, x, r, s, b, c);
    }
    hide Countered, WellFormed;
    if Defends(g, xs + {s}, a) {
      forall b | Attacks(f, b, a)
        ensures AttackedFrom(f, xs, b)
      {
        var c :| c in xs + {s} && Attacks(g, c, b);
        assert b in f.args by { AttackersAreArguments(f, b, a); }
      }
    }
    if Defends(f, xs, a) {
      forall b | Attacks(g, b, a)
        ensures AttackedFrom(g, xs + {s}, b)
      {
        if b == r && a == x {
          assert Attacks(g, s, r);
        } else {
          var c :| c in xs && Attacks(f, c, b);
          assert Attacks(g, c, b);
        }
      }
    }
  }

  lemma {:induction false} AttackersAreArguments<A(!new)>(f: Framework<A>, b: A, a: A)
    requires WellFormed(f) && Attacks(f, b, a)
    ensures a in f.args && b in f.args
  {
  }

  lemma {:induction false} CounteredNewcomers<A(!new)>(f: Framework<A>, x: A, r: A, s: A, xs: set<A>)
    requires WellFormed(f) && x in f.args && r !in f.args && s !in f.args && r != s
    ensures s in Characteristic(Countered(f, x, r, s), xs)
    ensures s in xs ==> AttackedFrom(Countered(f, x, r, s), xs, r)
    ensures r !in Characteristic(Countered(f, x, r, s), xs)
  {
    var g := Countered(f, x, r, s);
    assert g.attackedBy[s] == {} && g.attackedBy[r] == {s};
    assert Attacks(g, s, r) && !AttackedFrom(g, xs, s);
  }

  lemma {:induction false} CounteredCharacteristic<A(!new)>(f: Framework<A>, x: A, r: A, s: A, xs: set<A>)
    requires WellFormed(f) && x in f.args && r !in f.args && s !in f.args && r != s
    requires xs <= f.args
    ensures Characteristic(Countered(f, x, r, s), xs + {s}) == Characteristic(f, xs) + {s}
  {
    var g := Countered(f, x, r, s);
    CounteredNewcomers(f, x, r, s, xs + {s});
    assert g.args == f.args + {r, s};
    hide Countered, Defends, WellFormed;
    forall a | a in f.args
      ensures a in Characteristic(g, xs + {s}) <==> a in Characteristic(f, xs)
    {
      CounteredDefends(f, x, r, s, xs, a);
    }
  }

  lemma {:induction false} CounteredGrounded<A(!new)>(f: Framework<A>, x: A, r: A, s: A, accepted: set<A>,
      defeated: set<A>)
    requires WellFormed(f) && x in f.args && r !in f.args && s !in f.args && r != s
    requires Grounded(f, accepted, defeated)
    ensures Grounded(Countered(f, x, r, s), accepted + {s}, defeated + {r})
  {
    var g := Countered(f, x, r, s);
    assert accepted <= f.args;
    CounteredCharacteristic(f, x, r, s, accepted);
    hide Countered, Characteristic, AttackedFrom, WellFormed;
    forall xs | Characteristic(g, xs) <= xs
      ensures accepted + {s} <= xs
    {
      CounteredLeast(f, x, r, s, accepted, defeated, xs);
    }
    forall b
      ensures b in defeated + {r} <==> b in g.args && AttackedFrom(g, accepted + {s}, b)
    {
      CounteredOut(f, x, r, s, accepted, b);
    }
  }

  lemma {:induction false} CounteredLeast<A(!new)>(f: Framework<A>, x: A, r: A, s: A, accepted: set<A>,
      defeated: set<A>, xs: set<A>)
    requires WellFormed(f) && x in f.args && r !in f.args && s !in f.args && r != s
    requires Grounded(f, accepted, defeated)
    requires Characteristic(Countered(f, x, r, s), xs) <= xs
    ensures accepted + {s} <= xs
  {
    var g := Countered(f, x, r, s);
    CounteredNewcomers(f, x, r, s, xs);
    assert Characteristic(f, xs * f.args) <= f.args;
    hide Countered, Characteristic, AttackedFrom, WellFormed;
    var old' := xs * f.args;
    CounteredCharacteristic(f, x, r, s, old');
    CharacteristicMonotone(g, old' + {s}, xs);
    assert Characteristic(f, old') <= old';
  }

  lemma {:induction false} CounteredOut<A(!new)>(f: Framework<A>, x: A, r: A, s: A, accepted: set<A>, b: A)
    requires WellFormed(f) && x in f.args && r !in f.args && s !in f.args && r != s
    requires accepted <= f.args
    ensures b in Countered(f, x, r, s).args && AttackedFrom(Countered(f, x, r, s), accepted + {s}, b) <==>
            b == r || (b in f.args && AttackedFrom(f, accepted, b))
  {
    var g := Countered(f, x, r, s);
    assert g.attackedBy[s] == {} && g.attackedBy[r] == {s};
    forall a
      ensures Attacks(g, a, b) <==> Attacks(f, a, b) || (a == r && b == x) || (a == s && b == r)
    {
      CounteredAttacks(f, x, r, s, a, b);
    }
    assert Attacks(g, s, r);
    if b in f.args && AttackedFrom(f, accepted, b) {
      var a :| a in accepted && Attacks(f, a, b);
      assert Attacks(g, a, b);
    }
    if AttackedFrom(g, accepted + {s}, b) {
      var a :| a in accepted + {s} && Attacks(g, a, b);
      assert Attacks(f, a, b) ==> a in f.args && b in f.args;
    }
  }
}
