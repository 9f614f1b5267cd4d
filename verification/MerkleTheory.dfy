/**
 What a Merkle root pins down, and what an inclusion proof proves.

 Because an odd level repeats its last node, a root is the hash of a full tree over an
 expansion of the leaf list, whose length is a power of two and which begins with the
 list. Hashing is injective and separates leaves from internal nodes, so roots are equal
 exactly when expansions are.
 */
module MerkleTheory {
  import opened Records
  import opened Merkle

  function Pow2(h: nat): (n: nat)
    ensures n > 0
  {
    if h == 0 then 1 else 2 * Pow2(h - 1)
  }

  /** Levels above a level of n nodes. */
  function HeightOf(n: nat): nat
    requires n > 0
  {
    if n == 1 then 0 else 1 + HeightOf((n + 1) / 2)
  }

  // ----- Expansion to a full tree -----

  /** Join consecutive blocks, the odd last block with itself. */
  function JoinPairs(blocks: seq<seq<Hash>>): (up: seq<seq<Hash>>)
    ensures |up| == (|blocks| + 1) / 2
  {
    if blocks == [] then []
    else if |blocks| == 1 then [blocks[0] + blocks[0]]
    else [blocks[0] + blocks[1]] + JoinPairs(blocks[2..])
  }

  function Collapse(blocks: seq<seq<Hash>>): seq<Hash>
    requires |blocks| > 0
    decreases |blocks|
  {
    if |blocks| == 1 then blocks[0] else Collapse(JoinPairs(blocks))
  }

  function Singles(leaves: seq<Hash>): (blocks: seq<seq<Hash>>)
    ensures |blocks| == |leaves|
    ensures forall i | 0 <= i < |leaves| :: blocks[i] == [leaves[i]]
  {
    seq(|leaves|, i requires 0 <= i < |leaves| => [leaves[i]])
  }

  /** The leaves of the full tree whose root the list has. */
  function Expand(leaves: seq<Hash>): seq<Hash> {
    if leaves == [] then [] else Collapse(Singles(leaves))
  }

  /** The hash of a full tree of height h. */
  function FullHash(b: seq<Hash>, h: nat): Hash
    requires |b| == Pow2(h)
  {
    if h == 0 then LeafNode(b[0])
    else InternalNode(FullHash(b[..Pow2(h - 1)], h - 1), FullHash(b[Pow2(h - 1)..], h - 1))
  }

  /** `level` holds the hashes of `blocks`, each the leaves of a full tree of height h. */
  ghost predicate HashesBlocks(level: seq<Hash>, blocks: seq<seq<Hash>>, h: nat) {
    && |level| == |blocks|
    && forall i | 0 <= i < |level| :: |blocks[i]| == Pow2(h) && level[i] == FullHash(blocks[i], h)
  }

  lemma {:induction false} JoinHash(a: seq<Hash>, b: seq<Hash>, h: nat)
    requires |a| == |b| == Pow2(h)
    ensures |a + b| == Pow2(h + 1)
    ensures FullHash(a + b, h + 1) == InternalNode(FullHash(a, h), FullHash(b, h))
  {
    assert (a + b)[..Pow2(h)] == a && (a + b)[Pow2(h)..] == b;
  }

  lemma {:induction false} ParentsHashJoins(level: seq<Hash>, blocks: seq<seq<Hash>>, h: nat)
    requires HashesBlocks(level, blocks, h)
    ensures HashesBlocks(Parents(level), JoinPairs(blocks), h + 1)
    decreases |level|
  {
    hide FullHash;
    if |level| == 1 {
      JoinHash(blocks[0], blocks[0], h);
    } else if |level| > 1 {
      JoinHash(blocks[0], blocks[1], h);
      ParentsHashJoins(level[2..], blocks[2..], h);
    }
  }

  lemma {:induction false} RootOfBlocks(level: seq<Hash>, blocks: seq<seq<Hash>>, h: nat)
    requires |level| > 0 && HashesBlocks(level, blocks, h)
    ensures |Collapse(blocks)| == Pow2(h + HeightOf(|level|))
    ensures LevelRoot(level) == FullHash(Collapse(blocks), h + HeightOf(|level|))
    decreases |level|
  {
    hide FullHash, Parents, JoinPairs;
    if |level| > 1 {
      ParentsHashJoins(level, blocks, h);
      RootOfBlocks(Parents(level), JoinPairs(blocks), h + 1);
    }
  }

  /** The root computed level by level is the hash of the expansion's full tree. */
  lemma {:induction false} RootIsFullHash(leaves: seq<Hash>)
    requires leaves != []
    ensures |Expand(leaves)| == Pow2(HeightOf(|leaves|))
    ensures Root(leaves) == FullHash(Expand(leaves), HeightOf(|leaves|))
  {
    RootOfBlocks(LeafLevel(leaves), Singles(leaves), 0);
  }

  function Flat(blocks: seq<seq<Hash>>): seq<Hash> {
    if blocks == [] then [] else blocks[0] + Flat(blocks[1..])
  }

  lemma {:induction false} JoinKeepsPrefix(blocks: seq<seq<Hash>>)
    ensures Flat(blocks) <= Flat(JoinPairs(blocks))
    decreases |blocks|
  {
    if |blocks| > 1 {
      var rest := blocks[2..];
      JoinKeepsPrefix(rest);
      assert blocks[1..][1..] == rest;
      assert JoinPairs(blocks)[1..] == JoinPairs(rest);
      assert Flat(blocks) == (blocks[0] + blocks[1]) + Flat(rest);
    }
  }

  lemma {:induction false} CollapseKeepsPrefix(blocks: seq<seq<Hash>>)
    requires |blocks| > 0
    ensures Flat(blocks) <= Collapse(blocks)
    decreases |blocks|
  {
    if |blocks| > 1 {
      JoinKeepsPrefix(blocks);
      CollapseKeepsPrefix(JoinPairs(blocks));
    }
  }

  lemma {:induction false} FlatSingles(leaves: seq<Hash>)
    ensures Flat(Singles(leaves)) == leaves
  {
    if leaves != [] {
      assert Singles(leaves)[1..] == Singles(leaves[1..]);
      FlatSingles(leaves[1..]);
    }
  }

  /** The expansion begins with the list itself. */
  lemma {:induction false} ExpandExtends(leaves: seq<Hash>)
    ensures leaves <= Expand(leaves)
  {
    if leaves != [] {
      FlatSingles(leaves);
      CollapseKeepsPrefix(Singles(leaves));
    }
  }

  ghost predicate DrawnFrom(b: seq<Hash>, leaves: seq<Hash>) {
    forall x | x in b :: x in leaves
  }

  lemma {:induction false} JoinAddsNothing(blocks: seq<seq<Hash>>, leaves: seq<Hash>)
    requires forall i | 0 <= i < |blocks| :: DrawnFrom(blocks[i], leaves)
    ensures forall i | 0 <= i < |JoinPairs(blocks)| :: DrawnFrom(JoinPairs(blocks)[i], leaves)
    decreases |blocks|
  {
    if |blocks| > 1 {
      JoinAddsNothing(blocks[2..], leaves);
    }
  }

  lemma {:induction false} CollapseAddsNothing(blocks: seq<seq<Hash>>, leaves: seq<Hash>)
    requires |blocks| > 0 && forall i | 0 <= i < |blocks| :: DrawnFrom(blocks[i], leaves)
    ensures DrawnFrom(Collapse(blocks), leaves)
    decreases |blocks|
  {
    if |blocks| > 1 {
      JoinAddsNothing(blocks, leaves);
      CollapseAddsNothing(JoinPairs(blocks), leaves);
    }
  }

  // ----- Reading the leaves back off a hash -----

  /** The leaves of the tree a hash is the root of. */
  function LeavesOf(h: Hash): seq<Hash> {
    match h
    case Digest(LeafPre(x)) => [x]
    case Digest(InternalPre(l, r)) => LeavesOf(l) + LeavesOf(r)
    case _ => []
  }

  lemma {:induction false} FullHashLeaves(b: seq<Hash>, h: nat)
    requires |b| == Pow2(h)
    ensures LeavesOf(FullHash(b, h)) == b
  {
    if h > 0 {
      FullHashLeaves(b[..Pow2(h - 1)], h - 1);
      FullHashLeaves(b[Pow2(h - 1)..], h - 1);
      assert b == b[..Pow2(h - 1)] + b[Pow2(h - 1)..];
    }
  }

  lemma {:induction false} Pow2Injective(g: nat, h: nat)
    requires Pow2(g) == Pow2(h)
    ensures g == h
  {
    if g > 0 && h > 0 {
      Pow2Injective(g - 1, h - 1);
    }
  }

  lemma {:induction false} RootLeaves(leaves: seq<Hash>)
    ensures LeavesOf(Root(leaves)) == Expand(leaves)
    ensures Root(leaves) == EmptyRoot() <==> leaves == []
  {
    if leaves != [] {
      RootIsFullHash(leaves);
      FullHashLeaves(Expand(leaves), HeightOf(|leaves|));
    }
  }

  /** Two lists have one root exactly when they have one expansion: both empty, or both
      completed to the same full tree. */
  lemma {:induction false} RootsEqualIff(a: seq<Hash>, b: seq<Hash>)
    ensures Root(a) == Root(b) <==> (a == [] <==> b == []) && Expand(a) == Expand(b)
    ensures Root(a) == Root(b) && a != [] ==> b != [] && HeightOf(|a|) == HeightOf(|b|)
  {
    RootLeaves(a);
    RootLeaves(b);
    if a != [] && b != [] && Expand(a) == Expand(b) {
      RootIsFullHash(a);
      RootIsFullHash(b);
      Pow2Injective(HeightOf(|a|), HeightOf(|b|));
    }
  }

  /** The root and the number of leaves together determine the leaves. */
  lemma {:induction false} RootAndCountDetermine(a: seq<Hash>, b: seq<Hash>)
    requires Root(a) == Root(b) && |a| == |b|
    ensures a == b
  {
    RootsEqualIff(a, b);
    ExpandExtends(a);
    ExpandExtends(b);
    assert a == Expand(a)[..|a|] && b == Expand(b)[..|b|];
  }

  lemma {:induction false} OddParents(level: seq<Hash>)
    requires |level| % 2 == 1
    ensures Parents(level) == Parents(level + [level[|level| - 1]])
    decreases |level|
  {
    var more := level + [level[|level| - 1]];
    if |level| > 1 {
      OddParents(level[2..]);
      assert more[2..] == level[2..] + [level[2..][|level| - 3]];
    }
  }

  /** The root alone does not: an odd list and the same list with its last leaf repeated
      have the same root. */
  lemma {:induction false} RepeatedLastSharesRoot(leaves: seq<Hash>)
    requires |leaves| > 1 && |leaves| % 2 == 1
    ensures Root(leaves) == Root(leaves + [leaves[|leaves| - 1]])
  {
    var more := leaves + [leaves[|leaves| - 1]];
    var level := LeafLevel(leaves);
    OddParents(level);
    assert LeafLevel(more) == level + [level[|level| - 1]];
  }

  // ----- The tree hash of RFC 6962 -----

  /** The largest power of two below n. */
  function SplitPoint(n: nat): (k: nat)
    requires n > 1
    ensures 0 < k < n <= 2 * k
  {
    if n == 2 then 1 else 2 * SplitPoint((n + 1) / 2)
  }

  lemma {:induction false} SplitPointIsPowerOfTwo(n: nat) returns (h: nat)
    requires n > 1
    ensures SplitPoint(n) == Pow2(h)
  {
    if n == 2 {
      h := 0;
    } else {
      var g := SplitPointIsPowerOfTwo((n + 1) / 2);
      h := g + 1;
    }
  }

  /** The Merkle Tree Hash of section 2.1 of RFC 6962, over this tree's node hashes. */
  function TreeHash(d: seq<Hash>): Hash
    requires |d| > 0
  {
    if |d| == 1 then LeafNode(d[0])
    else var k := SplitPoint(|d|); InternalNode(TreeHash(d[..k]), TreeHash(d[k..]))
  }

  lemma {:induction false} TreeHashLeaves(d: seq<Hash>)
    requires |d| > 0
    ensures LeavesOf(TreeHash(d)) == d
    decreases |d|
  {
    if |d| > 1 {
      var k := SplitPoint(|d|);
      TreeHashLeaves(d[..k]);
      TreeHashLeaves(d[k..]);
      assert d == d[..k] + d[k..];
    }
  }

  lemma {:induction false} SplitFull(h: nat)
    requires h > 0
    ensures SplitPoint(Pow2(h)) == Pow2(h - 1)
  {
    if h > 1 {
      SplitFull(h - 1);
      assert (Pow2(h) + 1) / 2 == Pow2(h - 1);
    }
  }

  lemma {:induction false} FullTreeHash(d: seq<Hash>, h: nat)
    requires |d| == Pow2(h)
    ensures TreeHash(d) == FullHash(d, h)
  {
    if h > 0 {
      SplitFull(h);
      FullTreeHash(d[..Pow2(h - 1)], h - 1);
      FullTreeHash(d[Pow2(h - 1)..], h - 1);
    }
  }

  lemma {:induction false} HeightOfPow2(h: nat)
    ensures HeightOf(Pow2(h)) == h
  {
    if h > 0 {
      HeightOfPow2(h - 1);
      assert (Pow2(h) + 1) / 2 == Pow2(h - 1);
    }
  }

  /** A full list is its own expansion. */
  lemma {:induction false} ExpandFull(leaves: seq<Hash>, h: nat)
    requires |leaves| == Pow2(h)
    ensures Expand(leaves) == leaves
  {
    HeightOfPow2(h);
    RootIsFullHash(leaves);
    ExpandExtends(leaves);
  }

  /** The level-by-level root is the RFC's tree hash for a power of two of leaves, and for
      no other number of them. */
  lemma {:induction false} AgreesWithRfcIff(leaves: seq<Hash>)
    requires leaves != []
    ensures Root(leaves) == TreeHash(leaves) <==> exists h :: |leaves| == Pow2(h)
  {
    RootIsFullHash(leaves);
    if h: nat :| |leaves| == Pow2(h) {
      HeightOfPow2(h);
      ExpandFull(leaves, h);
      FullTreeHash(leaves, h);
    }
    if Root(leaves) == TreeHash(leaves) {
      RootLeaves(leaves);
      TreeHashLeaves(leaves);
    }
  }

  // ----- What the root alone determines -----

  /** The last 2^g elements repeat the 2^g before them. */
  ghost predicate EndsRepeated(a: seq<Hash>, g: nat) {
    2 * Pow2(g) <= |a| && forall i | |a| - Pow2(g) <= i < |a| :: a[i] == a[i - Pow2(g)]
  }

  lemma {:induction false} Pow2Grows(g: nat, h: nat)
    requires g <= h
    ensures Pow2(g) <= Pow2(h)
    ensures g + 2 <= h ==> 4 * Pow2(g) <= Pow2(h)
    decreases h - g
  {
    if g < h {
      Pow2Grows(g, h - 1);
      if g + 2 <= h {
        Pow2Grows(g + 2, h);
      }
    }
  }

  lemma {:induction false} EvenParent(level: seq<Hash>, j: nat)
    requires |level| % 2 == 0 && 2 * j + 1 < |level|
    ensures j < |Parents(level)| && Parents(level)[j] == InternalNode(level[2 * j], level[2 * j + 1])
  {
    ParentAt(level, j);
  }

  /** Repetition at the end of a level is repetition at the end of the one above. */
  lemma {:induction false} RepeatedAbove(level: seq<Hash>, g: nat)
    requires |level| % 2 == 0
    ensures EndsRepeated(level, g + 1) <==> EndsRepeated(Parents(level), g)
  {
    var up, p := Parents(level), Pow2(g);
    assert Pow2(g + 1) == 2 * p && |level| == 2 * |up|;
    hide Parents, Pow2;
    if EndsRepeated(level, g + 1) {
      forall j | |up| - p <= j < |up|
        ensures up[j] == up[j - p]
      {
        EvenParent(level, j);
        EvenParent(level, j - p);
        assert level[2 * j] == level[2 * j - 2 * p] && level[2 * j + 1] == level[2 * j + 1 - 2 * p];
      }
    }
    if EndsRepeated(up, g) {
      RepeatedBelow(level, up, p);
    }
  }

  lemma {:induction false} RepeatedBelow(level: seq<Hash>, up: seq<Hash>, p: nat)
    requires |level| == 2 * |up| && up == Parents(level) && 0 < 2 * p <= |up|
    requires forall j | |up| - p <= j < |up| :: up[j] == up[j - p]
    ensures forall i | |level| - 2 * p <= i < |level| :: level[i] == level[i - 2 * p]
  {
    hide Parents;
    forall i | |level| - 2 * p <= i < |level|
      ensures level[i] == level[i - 2 * p]
    {
      var j := i / 2;
      EvenParent(level, j);
      EvenParent(level, j - p);
      assert up[j] == up[j - p];
      assert i == 2 * j || i == 2 * j + 1;
    }
  }

  lemma {:induction false} DoublePow2(h: nat)
    ensures Pow2(h) == if h == 0 then 1 else 2 * Pow2(h - 1)
  {
  }

  lemma {:induction false} RootAbove(level: seq<Hash>)
    requires |level| > 1
    ensures LevelRoot(level) == LevelRoot(Parents(level))
  {
  }

  lemma {:induction false} HeightAbove(n: nat)
    requires n > 0
    ensures HeightOf(n) == if n == 1 then 0 else 1 + HeightOf((n + 1) / 2)
  {
  }

  /** Dropping the repetition leaves the root as it is. */
  lemma {:induction false} RepeatedDrops(level: seq<Hash>, h: nat, g: nat)
    requires |level| == Pow2(h) && g + 2 <= h && EndsRepeated(level, g)
    ensures LevelRoot(level[..|level| - Pow2(g)]) == LevelRoot(level)
    decreases g
  {
    hide Parents, LevelRoot, Pow2, EndsRepeated;
    Pow2Grows(g, h);
    DoublePow2(h);
    DoublePow2(g);
    var short, up := level[..|level| - Pow2(g)], Parents(level);
    RootAbove(level);
    RootAbove(short);
    if g == 0 {
      LastRepeated(level, short);
    } else {
      RepeatedAbove(level, g - 1);
      RepeatedDrops(up, h - 1, g - 1);
      ParentsOfPrefix(level, short);
    }
  }

  lemma {:induction false} LastRepeated(level: seq<Hash>, short: seq<Hash>)
    requires |level| % 2 == 0 && EndsRepeated(level, 0) && short == level[..|level| - 1]
    ensures Parents(short) == Parents(level)
  {
    assert level[|level| - 1] == level[|level| - 2];
    forall i | 0 <= i < |Parents(level)|
      ensures Parents(short)[i] == Parents(level)[i]
    {
      ParentAt(short, i);
      ParentAt(level, i);
    }
  }

  lemma {:induction false} ParentsOfPrefix(level: seq<Hash>, short: seq<Hash>)
    requires |level| % 2 == 0 && |short| % 2 == 0 && short <= level
    ensures Parents(short) == Parents(level)[..|short| / 2]
  {
    forall i | 0 <= i < |Parents(short)|
      ensures Parents(short)[i] == Parents(level)[i]
    {
      EvenParent(short, i);
      EvenParent(level, i);
    }
  }

  lemma {:induction false} SameParents(short: seq<Hash>, level: seq<Hash>)
    requires |short| > 1 && |level| % 2 == 0 && Parents(short) == Parents(level) && short != level
    ensures |short| == |level| - 1 && EndsRepeated(level, 0)
  {
    var n := |level|;
    forall i | 0 <= i < |short| && i < n
      ensures short[i] == level[i]
    {
      ParentAt(short, i / 2);
      ParentAt(level, i / 2);
    }
    assert |short| == n ==> short == level;
    ParentAt(short, n / 2 - 1);
    ParentAt(level, n / 2 - 1);
  }

  /** Another level with a full level's root and height shows that the full one ends repeated. */
  lemma {:induction false} RepeatFound(short: seq<Hash>, level: seq<Hash>, h: nat) returns (g: nat)
    requires |level| == Pow2(h) && |short| > 0 && HeightOf(|short|) == h
    requires LevelRoot(short) == LevelRoot(level) && short != level
    ensures g + 2 <= h && EndsRepeated(level, g)
    decreases h
  {
    HeightAbove(|short|);
    DoublePow2(h);
    assert h > 0 by { SingleRoots(short, level); }
    hide Parents, LevelRoot, HeightOf, EndsRepeated, Pow2;
    HeightAbove((|short| + 1) / 2);
    RootAbove(short);
    RootAbove(level);
    if Parents(short) == Parents(level) {
      SameParents(short, level);
      assert h > 1;
      g := 0;
    } else {
      g := RepeatFound(Parents(short), Parents(level), h - 1);
      RepeatedAbove(level, g);
      g := g + 1;
    }
  }

  lemma {:induction false} SingleRoots(a: seq<Hash>, b: seq<Hash>)
    requires a != b && |a| > 0 && |b| > 0 && LevelRoot(a) == LevelRoot(b)
    ensures |a| != 1 || |b| != 1
  {
  }

  lemma {:induction false} LeavesRepeated(a: seq<Hash>, g: nat)
    ensures EndsRepeated(LeafLevel(a), g) <==> EndsRepeated(a, g)
  {
    var level := LeafLevel(a);
    forall i, j | 0 <= i < |a| && 0 <= j < |a|
      ensures level[i] == level[j] <==> a[i] == a[j]
    {
      assert level[i] == LeafNode(a[i]) && level[j] == LeafNode(a[j]);
    }
  }

  /** No other list has this root. */
  ghost predicate RootDetermines(a: seq<Hash>) {
    forall b | Root(b) == Root(a) :: b == a
  }

  /** The list is empty, or its length is a power of two and no half of a block it ends with,
      short of the whole list, repeats the other half. */
  ghost predicate EndsUnrepeated(a: seq<Hash>) {
    a == [] || exists h :: FullUnrepeated(a, h)
  }

  ghost predicate FullUnrepeated(a: seq<Hash>, h: nat) {
    |a| == Pow2(h) && forall g: nat | g + 2 <= h :: !EndsRepeated(a, g)
  }

  /** Some other list of leaves of `a` has its root. */
  lemma {:induction false} OtherList(a: seq<Hash>) returns (b: seq<Hash>)
    requires !EndsUnrepeated(a)
    ensures b != a && Root(b) == Root(a) && DrawnFrom(b, a)
  {
    var h := HeightOf(|a|);
    if |a| == Pow2(h) {
      assert !FullUnrepeated(a, h);
      var g: nat :| g + 2 <= h && EndsRepeated(a, g);
      Pow2Grows(g, h);
      LeavesRepeated(a, g);
      RepeatedDrops(LeafLevel(a), h, g);
      b := a[..|a| - Pow2(g)];
      assert LeafLevel(b) == LeafLevel(a)[..|a| - Pow2(g)];
    } else {
      ExpandKeepsRoot(a);
      CollapseAddsNothing(Singles(a), a);
      b := Expand(a);
    }
  }

  /** Exactly which lists the root alone determines. */
  lemma {:induction false} RootDeterminesIff(a: seq<Hash>)
    ensures RootDetermines(a) <==> EndsUnrepeated(a)
  {
    if EndsUnrepeated(a) {
      forall b | Root(b) == Root(a)
        ensures b == a
      {
        UnrepeatedUnique(a, b);
      }
    } else {
      var b := OtherList(a);
    }
  }

  lemma {:induction false} UnrepeatedUnique(a: seq<Hash>, b: seq<Hash>)
    requires EndsUnrepeated(a) && Root(b) == Root(a)
    ensures b == a
  {
    RootsEqualIff(a, b);
    if a != [] && b != a {
      var h :| FullUnrepeated(a, h);
      HeightOfPow2(h);
      LeafLevelsDiffer(a, b);
      var g := RepeatFound(LeafLevel(b), LeafLevel(a), h);
      LeavesRepeated(a, g);
      assert false;
    }
  }

  lemma {:induction false} LeafLevelsDiffer(a: seq<Hash>, b: seq<Hash>)
    requires a != b
    ensures LeafLevel(a) != LeafLevel(b)
  {
    if |a| == |b| {
      var i :| 0 <= i < |a| && a[i] != b[i];
      assert LeafLevel(a)[i] == LeafNode(a[i]) && LeafLevel(b)[i] == LeafNode(b[i]);
    }
  }

  // ----- Inclusion proofs -----

  lemma {:induction false} SiblingsLength(level: seq<Hash>, idx: nat)
    requires idx < |level|
    ensures |Siblings(level, idx)| == HeightOf(|level|)
    decreases |level|
  {
    if |level| > 1 {
      SiblingsLength(Parents(level), idx / 2);
    }
  }

  /** A climb forgets nothing: its end determines where it began and what it met. */
  lemma {:induction false} ClimbInjective(c: Hash, d: Hash, idx: int, p: seq<Hash>, q: seq<Hash>)
    requires |p| == |q| && Climb(c, idx, p) == Climb(d, idx, q)
    ensures c == d && p == q
    decreases |p|
  {
    if p != [] {
      var c' := if idx % 2 == 0 then InternalNode(c, p[0]) else InternalNode(p[0], c);
      var d' := if idx % 2 == 0 then InternalNode(d, q[0]) else InternalNode(q[0], d);
      ClimbInjective(c', d', idx / 2, p[1..], q[1..]);
      assert p == [p[0]] + p[1..] && q == [q[0]] + q[1..];
    }
  }

  /** The last step of a climb joins what was reached with the last sibling. */
  lemma {:induction false} ClimbLast(c: Hash, idx: int, p: seq<Hash>)
    requires p != []
    ensures var below, s := Climb(c, idx, p[..|p| - 1]), p[|p| - 1];
            Climb(c, idx, p) == InternalNode(below, s) || Climb(c, idx, p) == InternalNode(s, below)
    decreases |p|
  {
    if |p| > 1 {
      var c' := if idx % 2 == 0 then InternalNode(c, p[0]) else InternalNode(p[0], c);
      ClimbLast(c', idx / 2, p[1..]);
      assert p[1..][..|p| - 2] == p[..|p| - 1][1..];
    } else {
      assert p[1..] == [] && p[..0] == [];
    }
  }

  /** A leaf that climbs to a full tree's hash takes exactly its height to do so. */
  lemma {:induction false} ClimbTakesHeight(x: Hash, idx: int, p: seq<Hash>, b: seq<Hash>, h: nat)
    requires |b| == Pow2(h)
    requires Climb(LeafNode(x), idx, p) == FullHash(b, h)
    ensures |p| == h && x in b
    decreases |p|
  {
    if p != [] {
      ClimbLast(LeafNode(x), idx, p);
      if h == 0 {
        assert false;
      } else {
        var rest, lo, hi := p[..|p| - 1], b[..Pow2(h - 1)], b[Pow2(h - 1)..];
        if Climb(LeafNode(x), idx, rest) == FullHash(lo, h - 1) {
          ClimbTakesHeight(x, idx, rest, lo, h - 1);
        } else {
          ClimbTakesHeight(x, idx, rest, hi, h - 1);
        }
      }
    }
  }

  lemma {:induction false} ModUnique(a: int, m: nat, q: int, r: int)
    requires m > 0 && a == q * m + r && 0 <= r < m
    ensures a % m == r && a / m == q
  {
    var q', r' := a / m, a % m;
    assert a == q' * m + r';
    assert (q - q') * m == r' - r;
    MultipleGap(q - q', m);
  }

  lemma {:induction false} MultipleGap(d: int, m: int)
    requires m > 0
    ensures 1 <= d ==> m <= d * m
    ensures d <= -1 ==> d * m + m <= 0
  {
  }

  lemma {:induction false} HalfMod(idx: int, m: nat)
    requires m > 0
    ensures (idx % (2 * m)) / 2 == (idx / 2) % m
    ensures (idx % (2 * m)) % 2 == idx % 2
  {
    var q, r := idx / (2 * m), idx % (2 * m);
    assert idx == q * (2 * m) + r;
    assert q * (2 * m) == 2 * (q * m);
    assert idx / 2 == q * m + r / 2;
    ModUnique(idx / 2, m, q, r / 2);
  }

  /** Only as many low bits of an index matter as the path is long. */
  lemma {:induction false} ClimbMod(c: Hash, idx: int, p: seq<Hash>)
    ensures Climb(c, idx, p) == Climb(c, idx % Pow2(|p|), p)
    decreases |p|
  {
    if p != [] {
      var m := Pow2(|p| - 1);
      HalfMod(idx, m);
      ClimbMod(InternalNode(c, p[0]), idx / 2, p[1..]);
      ClimbMod(InternalNode(p[0], c), idx / 2, p[1..]);
      ClimbMod(InternalNode(c, p[0]), (idx % (2 * m)) / 2, p[1..]);
      ClimbMod(InternalNode(p[0], c), (idx % (2 * m)) / 2, p[1..]);
    }
  }

  /** The proof that the expanded list has for a position, which for a position of the
      list itself is the proof the list has for it. */
  ghost predicate IsProofAt(proof: InclusionProof, leaves: seq<Hash>, j: nat) {
    && j < |Expand(leaves)|
    && proof.leafHash == Expand(leaves)[j]
    && proof.path == Siblings(LeafLevel(Expand(leaves)), j)
  }

  lemma {:induction false} ExpandKeepsRoot(leaves: seq<Hash>)
    requires leaves != []
    ensures Expand(leaves) != [] && Root(Expand(leaves)) == Root(leaves)
    ensures HeightOf(|Expand(leaves)|) == HeightOf(|leaves|) && |Expand(leaves)| == Pow2(HeightOf(|leaves|))
  {
    var h := HeightOf(|leaves|);
    RootIsFullHash(leaves);
    ExpandFull(Expand(leaves), h);
    HeightOfPow2(h);
    RootIsFullHash(Expand(leaves));
  }

  /** Two verifying proofs for one position with paths of one length are one proof. */
  lemma {:induction false} SameClimb(leaves: seq<Hash>, x: Hash, idx: int, p: seq<Hash>, j: nat)
    requires j < |leaves| && |p| == HeightOf(|leaves|) && idx % Pow2(|p|) == j % Pow2(|p|)
    ensures Climb(LeafNode(x), idx, p) == Root(leaves) <==> x == leaves[j] && p == Siblings(LeafLevel(leaves), j)
  {
    var built := Siblings(LeafLevel(leaves), j);
    SiblingsLength(LeafLevel(leaves), j);
    BuiltProofClimbs(LeafLevel(leaves), j);
    ClimbMod(LeafNode(x), idx, p);
    ClimbMod(LeafNode(x), j, p);
    ClimbMod(LeafNode(leaves[j]), j, built);
    if Climb(LeafNode(x), idx, p) == Root(leaves) {
      ClimbInjective(LeafNode(x), LeafNode(leaves[j]), j, p, built);
    }
  }

  /**
   Exactly what verifies. A proof is accepted against the root of a non-empty list when
   and only when it is the one proof the expanded list has for the position that the
   index's low bits give; nothing is accepted against the empty root.
   */
  lemma {:induction false} VerifiesIff(proof: InclusionProof, leaves: seq<Hash>)
    ensures Verifies(proof, Root(leaves)) <==>
            leaves != [] && |proof.path| == HeightOf(|leaves|) &&
                IsProofAt(proof, leaves, proof.index % Pow2(|proof.path|))
  {
    if leaves == [] {
      ClimbNeverEmpty(LeafNode(proof.leafHash), proof.index, proof.path);
    } else {
      ExpandKeepsRoot(leaves);
      RootIsFullHash(leaves);
      if Verifies(proof, Root(leaves)) {
        ClimbTakesHeight(proof.leafHash, proof.index, proof.path, Expand(leaves), HeightOf(|leaves|));
      }
      if |proof.path| == HeightOf(|leaves|) {
        var m := Pow2(|proof.path|);
        ModUnique(proof.index % m, m, 0, proof.index % m);
        SameClimb(Expand(leaves), proof.leafHash, proof.index, proof.path, proof.index % m);
      }
    }
  }

  lemma {:induction false} ClimbNeverEmpty(c: Hash, idx: int, p: seq<Hash>)
    requires c != EmptyRoot()
    ensures Climb(c, idx, p) != EmptyRoot()
    decreases |p|
  {
    if p != [] {
      ClimbNeverEmpty(InternalNode(c, p[0]), idx / 2, p[1..]);
      ClimbNeverEmpty(InternalNode(p[0], c), idx / 2, p[1..]);
    }
  }

  /** For a caller: an accepted proof names a leaf of the list, and with an index inside
      the list it names that very leaf, along the very path the builder gives. */
  lemma {:induction false} AcceptedProofIsBuilt(proof: InclusionProof, leaves: seq<Hash>)
    requires Verifies(proof, Root(leaves))
    ensures proof.leafHash in leaves
    ensures 0 <= proof.index < |leaves| ==>
              proof == InclusionProof(leaves[proof.index], proof.index, Siblings(LeafLevel(leaves), proof.index))
  {
    VerifiesIff(proof, leaves);
    CollapseAddsNothing(Singles(leaves), leaves);
    if 0 <= proof.index < |leaves| {
      SameClimb(leaves, proof.leafHash, proof.index, proof.path, proof.index);
    }
  }

  // ----- The Go verifier -----

  /** The Go twin's climb: its remainder and quotient truncate toward zero. */
  function ClimbTruncating(current: Hash, idx: int, path: seq<Hash>): Hash
    decreases |path|
  {
    if path == [] then current
    else
      var half := if idx < 0 then -((-idx) / 2) else idx / 2;
      if idx - 2 * half == 0 then ClimbTruncating(InternalNode(current, path[0]), half, path[1..])
      else ClimbTruncating(InternalNode(path[0], current), half, path[1..])
  }

  /** The two verifiers agree on every index a builder can produce. */
  lemma {:induction false} ClimbsAgree(c: Hash, idx: nat, p: seq<Hash>)
    ensures ClimbTruncating(c, idx, p) == Climb(c, idx, p)
    decreases |p|
  {
    if p != [] {
      ClimbsAgree(InternalNode(c, p[0]), idx / 2, p[1..]);
      ClimbsAgree(InternalNode(p[0], c), idx / 2, p[1..]);
    }
  }

  function Zeros(n: nat): (p: seq<Hash>)
    ensures |p| == n
  {
    if n == 0 then [] else [Zero] + Zeros(n - 1)
  }

  /** Once two climbs along all-zero siblings are apart, they stay apart. */
  lemma {:induction false} ApartStaysApart(c: Hash, d: Hash, i: int, j: int, n: nat)
    requires c != d && c != Zero && d != Zero
    ensures ClimbTruncating(c, i, Zeros(n)) != Climb(d, j, Zeros(n))
    decreases n
  {
    if n > 0 {
      var i' := if i < 0 then -((-i) / 2) else i / 2;
      var c' := if i - 2 * i' == 0 then InternalNode(c, Zero) else InternalNode(Zero, c);
      var d' := if j % 2 == 0 then InternalNode(d, Zero) else InternalNode(Zero, d);
      assert Zeros(n)[0] == Zero && Zeros(n)[1..] == Zeros(n - 1);
      ApartStaysApart(c', d', i', j / 2, n - 1);
    }
  }

  function Halved(idx: int): int {
    if idx < 0 then -((-idx) / 2) else idx / 2
  }

  /** One step of each along an all-zero path. */
  lemma {:induction false} ZeroStep(c: Hash, idx: int, n: nat)
    requires n > 0
    ensures ClimbTruncating(c, idx, Zeros(n)) ==
            ClimbTruncating(if idx - 2 * Halved(idx) == 0 then InternalNode(c, Zero) else InternalNode(Zero, c),
                Halved(idx), Zeros(n - 1))
    ensures Climb(c, idx, Zeros(n)) ==
            Climb(if idx % 2 == 0 then InternalNode(c, Zero) else InternalNode(Zero, c), idx / 2, Zeros(n - 1))
  {
    assert Zeros(n)[0] == Zero && Zeros(n)[1..] == Zeros(n - 1);
  }

  lemma {:induction false} HalvedParity(idx: int)
    ensures idx - 2 * Halved(idx) == 0 <==> idx % 2 == 0
    ensures idx < 0 && idx % 2 == 1 ==> Halved(idx) == idx / 2 + 1
    ensures idx % 2 == 0 ==> Halved(idx) == idx / 2
  {
  }

  /** Python's quotient of an odd negative index is one less than Go's, so the next step joins
      in opposite orders. */
  lemma {:induction false} OddNegativeParts(c: Hash, idx: int, n: nat)
    requires idx < 0 && idx % 2 == 1 && n >= 2 && c != Zero
    ensures ClimbTruncating(c, idx, Zeros(n)) != Climb(c, idx, Zeros(n))
  {
    hide Climb, ClimbTruncating, Zeros, Halved;
    var x, half := InternalNode(Zero, c), Halved(idx);
    ZeroStep(c, idx, n);
    HalvedParity(idx);
    ZeroStep(x, half, n - 1);
    ZeroStep(x, idx / 2, n - 1);
    HalvedParity(half);
    var left, right := InternalNode(x, Zero), InternalNode(Zero, x);
    if half % 2 == 0 {
      ApartStaysApart(left, right, Halved(half), idx / 2 / 2, n - 2);
    } else {
      ApartStaysApart(right, left, Halved(half), idx / 2 / 2, n - 2);
    }
  }

  /** A negative index with a bit set below the last one a path uses tells the two apart. */
  lemma {:induction false} NegativeIndexParts(c: Hash, idx: int, n: nat)
    requires idx < 0 && n > 0 && idx % Pow2(n - 1) != 0 && c != Zero
    ensures ClimbTruncating(c, idx, Zeros(n)) != Climb(c, idx, Zeros(n))
    decreases n
  {
    assert n > 1;
    if idx % 2 == 1 {
      OddNegativeParts(c, idx, n);
    } else {
      HalfMod(idx, Pow2(n - 2));
      ZeroStep(c, idx, n);
      HalvedParity(idx);
      NegativeIndexParts(InternalNode(c, Zero), idx / 2, n - 1);
    }
  }

  /** With all those bits clear they climb alike. */
  lemma {:induction false} ClearIndexClimbs(c: Hash, idx: int, p: seq<Hash>)
    requires p != [] && idx % Pow2(|p| - 1) == 0
    ensures ClimbTruncating(c, idx, p) == Climb(c, idx, p)
    decreases |p|
  {
    var half := if idx < 0 then -((-idx) / 2) else idx / 2;
    if |p| > 1 {
      HalfMod(idx, Pow2(|p| - 2));
      assert idx % 2 == 0 && half == idx / 2;
      ClearIndexClimbs(InternalNode(c, p[0]), idx / 2, p[1..]);
    } else {
      assert idx - 2 * half == 0 <==> idx % 2 == 0;
    }
  }

  /** Exactly on which indices the two verifiers climb alike, for every node and every path
      of a length: those not negative, and those whose bits below the last one used are clear. */
  lemma {:induction false} ClimbsAgreeIff(idx: int, n: nat)
    ensures (forall c, p | |p| == n :: ClimbTruncating(c, idx, p) == Climb(c, idx, p)) <==>
            idx >= 0 || n == 0 || idx % Pow2(n - 1) == 0
  {
    if idx >= 0 || n == 0 || idx % Pow2(n - 1) == 0 {
      forall c, p | |p| == n
        ensures ClimbTruncating(c, idx, p) == Climb(c, idx, p)
      {
        if idx >= 0 {
          ClimbsAgree(c, idx, p);
        } else if n > 0 {
          ClearIndexClimbs(c, idx, p);
        }
      }
    } else {
      NegativeIndexParts(EmptyRoot(), idx, n);
      assert ClimbTruncating(EmptyRoot(), idx, Zeros(n)) != Climb(EmptyRoot(), idx, Zeros(n));
    }
  }

  /** The smallest case in which they differ: -1 keeps all its low bits in one and loses them in
      the other, so two steps up they agree only if the second sibling is the node itself. */
  lemma {:induction false} NegativeIndexDiffers(c: Hash, s0: Hash, s1: Hash)
    ensures ClimbTruncating(c, -1, [s0, s1]) == Climb(c, -1, [s0, s1]) <==> s1 == InternalNode(s0, c)
  {
    var p := [s0, s1];
    assert p[1..] == [s1] && [s1][1..] == [];
    assert Climb(c, -1, p) == Climb(InternalNode(s0, c), -1, [s1]) == InternalNode(s1, InternalNode(s0, c));
    assert ClimbTruncating(c, -1, p) == ClimbTruncating(InternalNode(s0, c), 0, [s1]) ==
        InternalNode(InternalNode(s0, c), s1);
  }
}
