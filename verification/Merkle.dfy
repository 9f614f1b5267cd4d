/**
 The Merkle tree over the log's entry hashes: root, inclusion proof, verification.

 A level is rebuilt pairwise until one node is left; a level of odd length pairs its last
 node with itself. The loops are proved against the recursive functions here, and
 MerkleTheory says what those functions mean.
 */
module Merkle {
  import opened Options
  import opened Records

  function LeafNode(leaf: Hash): Hash {
    HashBytes(LeafPre(leaf))
  }

  function InternalNode(left: Hash, right: Hash): Hash {
    HashBytes(InternalPre(left, right))
  }

  function EmptyRoot(): Hash {
    HashBytes(EmptyPre)
  }

  function LeafLevel(leaves: seq<Hash>): (level: seq<Hash>)
    ensures |level| == |leaves|
    ensures forall i | 0 <= i < |leaves| :: level[i] == LeafNode(leaves[i])
  {
    seq(|leaves|, i requires 0 <= i < |leaves| => LeafNode(leaves[i]))
  }

  /** The level above: parents of consecutive pairs, the odd last node paired with itself. */
  function Parents(level: seq<Hash>): (up: seq<Hash>)
    ensures |up| == (|level| + 1) / 2
  {
    if level == [] then []
    else if |level| == 1 then [InternalNode(level[0], level[0])]
    else [InternalNode(level[0], level[1])] + Parents(level[2..])
  }

  function LevelRoot(level: seq<Hash>): Hash
    requires |level| > 0
    decreases |level|
  {
    if |level| == 1 then level[0] else LevelRoot(Parents(level))
  }

  function Root(leaves: seq<Hash>): Hash {
    if leaves == [] then EmptyRoot() else LevelRoot(LeafLevel(leaves))
  }

  method NextLevel(level: seq<Hash>) returns (nxt: seq<Hash>)
    ensures nxt == Parents(level)
  {
    nxt := [];
    var i := 0;
    while i < |level|
      invariant 0 <= i
      invariant if i <= |level| then nxt + Parents(level[i..]) == Parents(level) else nxt == Parents(level)
    {
      var left := level[i];
      var right := if i + 1 < |level| then level[i + 1] else left;
      ghost var rest := level[i..];
      assert i + 2 <= |level| ==> rest[2..] == level[i + 2..];
      nxt := nxt + [InternalNode(left, right)];
      i := i + 2;
    }
    assert i <= |level| ==> level[i..] == [];
  }

  /** `root_hash`. */
  method RootHash(leaves: seq<Hash>) returns (root: Hash)
    ensures root == Root(leaves)
  {
    if |leaves| == 0 {
      return EmptyRoot();
    }
    var level := LeafLevel(leaves);
    while |level| > 1
      invariant |level| > 0
      invariant LevelRoot(level) == Root(leaves)
      decreases |level|
    {
      level := NextLevel(level);
    }
    root := level[0];
  }

  datatype InclusionProof = InclusionProof(leafHash: Hash, index: int, path: seq<Hash>)

  /** The neighbour of node `idx`; the odd last node is its own. */
  function Sibling(level: seq<Hash>, idx: nat): Hash
    requires idx < |level|
  {
    if idx % 2 == 1 then level[idx - 1]
    else if idx + 1 < |level| then level[idx + 1]
    else level[idx]
  }

  /** The neighbours met on the way from node `idx` to the root. */
  function Siblings(level: seq<Hash>, idx: nat): (path: seq<Hash>)
    requires idx < |level|
    decreases |level|
  {
    if |level| == 1 then [] else [Sibling(level, idx)] + Siblings(Parents(level), idx / 2)
  }

  /** Recompute a root from a node, its position and its siblings. Indices may be any
      integer: the source takes their lowest bit and floors the halves. */
  function Climb(current: Hash, idx: int, path: seq<Hash>): Hash
    decreases |path|
  {
    if path == [] then current
    else if idx % 2 == 0 then Climb(InternalNode(current, path[0]), idx / 2, path[1..])
    else Climb(InternalNode(path[0], current), idx / 2, path[1..])
  }

  ghost predicate Verifies(proof: InclusionProof, root: Hash) {
    Climb(LeafNode(proof.leafHash), proof.index, proof.path) == root
  }

  lemma {:induction false} SiblingsStep(level: seq<Hash>, idx: nat)
    requires 1 < |level| && idx < |level|
    ensures Siblings(level, idx) == [Sibling(level, idx)] + Siblings(Parents(level), idx / 2)
    ensures Sibling(level, idx) == level[if idx % 2 == 1 then idx - 1 else if idx + 1 < |level| then idx + 1 else idx]
  {
  }

  lemma {:induction false} SiblingsEnd(level: seq<Hash>, idx: nat)
    requires |level| == 1 && idx == 0
    ensures Siblings(level, idx) == []
  {
  }

  /** The proof-building loop of `inclusion_proof`, from the leaf level up. */
  method SiblingPath(leafLevel: seq<Hash>, index: nat) returns (path: seq<Hash>)
    requires index < |leafLevel|
    ensures path == Siblings(leafLevel, index)
  {
    hide *;
    var level, idx := leafLevel, index;
    path := [];
    while |level| > 1
      invariant 0 <= idx < |level|
      invariant path + Siblings(level, idx) == Siblings(leafLevel, index)
      decreases |level|
    {
      SiblingsStep(level, idx);
      ghost var done, rest := path, Siblings(Parents(level), idx / 2);
      var siblingIdx;
      if idx % 2 == 0 {
        siblingIdx := idx + 1;
        if siblingIdx >= |level| {
          siblingIdx := idx;
        }
      } else {
        siblingIdx := idx - 1;
      }
      path := path + [level[siblingIdx]];
      assert path + rest == done + ([level[siblingIdx]] + rest);
      level := NextLevel(level);
      idx := idx / 2;
    }
    SiblingsEnd(level, idx);
  }

  /** `inclusion_proof`: None stands for its two IndexErrors. */
  method BuildInclusionProof(leaves: seq<Hash>, index: int) returns (proof: Option<InclusionProof>)
    ensures proof.Some? <==> 0 <= index < |leaves|
    ensures proof.Some? ==> proof.value == InclusionProof(leaves[index], index, Siblings(LeafLevel(leaves), index))
    ensures proof.Some? ==> Verifies(proof.value, Root(leaves))
  {
    if |leaves| == 0 {
      return None;
    }
    if index < 0 || index >= |leaves| {
      return None;
    }
    BuiltProofVerifies(leaves, index);
    var path := SiblingPath(LeafLevel(leaves), index);
    proof := Some(InclusionProof(leaves[index], index, path));
  }

  /** `verify_inclusion`. */
  method VerifyInclusion(proof: InclusionProof, root: Hash) returns (ok: bool)
    ensures ok <==> Verifies(proof, root)
  {
    var current := LeafNode(proof.leafHash);
    var idx := proof.index;
    for i := 0 to |proof.path|
      invariant Climb(current, idx, proof.path[i..]) == Climb(LeafNode(proof.leafHash), proof.index, proof.path)
    {
      assert proof.path[i..][1..] == proof.path[i + 1..];
      var sibling := proof.path[i];
      if idx % 2 == 0 {
        current := InternalNode(current, sibling);
      } else {
        current := InternalNode(sibling, current);
      }
      idx := idx / 2;
    }
    ok := current == root;
  }

  lemma {:induction false} ParentAt(level: seq<Hash>, i: nat)
    requires 2 * i < |level|
    ensures i < |Parents(level)|
    ensures Parents(level)[i] ==
            InternalNode(level[2 * i], if 2 * i + 1 < |level| then level[2 * i + 1] else level[2 * i])
  {
    if i > 0 {
      ParentAt(level[2..], i - 1);
    }
  }

  /** Completeness: climbing from a node along its own siblings reaches the root. */
  lemma {:induction false} BuiltProofClimbs(level: seq<Hash>, idx: nat)
    requires idx < |level|
    ensures Climb(level[idx], idx, Siblings(level, idx)) == LevelRoot(level)
    decreases |level|
  {
    if |level| > 1 {
      var path := Siblings(level, idx);
      ParentAt(level, idx / 2);
      assert path[1..] == Siblings(Parents(level), idx / 2);
      BuiltProofClimbs(Parents(level), idx / 2);
    }
  }

  /** The built proof of any leaf verifies against the list's root. */
  lemma {:induction false} BuiltProofVerifies(leaves: seq<Hash>, index: nat)
    requires index < |leaves|
    ensures Verifies(InclusionProof(leaves[index], index, Siblings(LeafLevel(leaves), index)), Root(leaves))
  {
    BuiltProofClimbs(LeafLevel(leaves), index);
  }
}
