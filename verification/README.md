# ArxDB verification

ArxDB is a reasoning graph: claims are nodes, inference steps are edges with any number of
premises and a discrete strength κ, refutations are edges too, and every committed edge is an
entry of a signed, hash-chained log. This project models its four hard parts in Dafny and
proves what they promise, for all inputs, all runs and all reachable states.

**Query engine.** `Derivation` says what a derivation is: a finite tree of edges, as strong as
its weakest edge and as high as its longest run of edges with premises. `Reachability` holds the
source's loops and proves that they compute, for each claim, the strength of its strongest and
the height of its lowest derivation, whatever the order of the edges and however cyclic they are.
`ProofTree` shows that the back-pointers are acyclic, with a ghost time stamp per claim, and that
the collected edges are those of one derivation. `Query` and `PathDiscovery` are the two queries,
stated in terms of derivations only.

**Refutation.** `Argumentation` is Dung's theory (1995) of the grounded labelling;
`RefutationResolution` builds the attack graph in two mirrored dictionaries, labels it in the
source's loop, and proves the result to be the grounded labelling of the attack relation read
directly off the store. Together with reachability this gives consistency: nothing derivable
from the active subgraph is contradicted by something else derivable from it.

**Merkle tree, log and attestation.** `Merkle` has the loops, `MerkleTheory` what a root pins
down and what an inclusion proof proves, `AppendLog` and `Attestation` the log over them and the
history check.

**Storage.** `GraphTables` and `Storage` are the relational index and the atomic commit, with a
fault allowed after any statement. `ByteKeys`, `PebbleIndex`, `PebbleReads`, `PebbleStorage` and
`PebbleRuns` are the key-value twin: relations and log encoded in one ordered byte map, proved to
refine the relational tables. `Instances` has small stores on which the code departs from its
documentation. `Verifier` and `VerifyCommit` close the circle: in a store that only
`verify_and_commit` has written, every strength that a query reports was earned.

## Modelling choices

- A content address is a free term over the bytes hashed (`Records.Hash`), and those bytes are
  classified by what they encode. That hashing is injective and that leaf, internal and empty
  nodes are separated is therefore built into the datatype. Which records an arbitrary other
  string decodes to is left open.
- The byte-level key-value index uses real 34-byte strings and an arbitrary hash function; it
  assumes nothing about collisions.
- Signing is any pair of functions in which signatures by a key pair verify.
- The clock, and where storage fails, are parameters: a commit takes the number of statements
  that succeed (`Storage`), or a fault position (`PebbleStorage`).
- `except Exception: return None` is an `Option`; an exception that leaves a function is `None`
  or a result constructor of its own.
- The rank of K_INF is floating-point infinity in the source. Ranks are only compared, so the
  model uses 4.
- Some methods take or return ghost values: the edges that fired in the κ loop, the attack pairs
  recorded so far, the relational tables that a byte map represents.
- How an address prints is a parameter of the queries that sort by it.

## What the code does where its documentation says otherwise

- Seeding makes a zero-premise edge the best edge of its conclusion even when an earlier one is
  stronger (`src/arxdb/query/reachability.py:164-168`), so a reported proof tree can be weaker
  than the reported κ: `Instances.WeakAxiomReported` has such a store. Exactly when it is not, in
  terms of the edges and extra seeds: `ProofTree.WeakestEverywhereIff`.
- κ and depth are said to describe the best derivation (`src/arxdb/query/reachability.py:50-53`,
  `src/arxdb/query/path.py:50-58`), but may belong to different ones: on the store of
  `Instances.StrengthAndDepthApart` no derivation has both. One derivation has both exactly when
  dropping every edge weaker than κ leaves the depth as it is (`Query.HasBothIff`), which the same
  query tells when run again with only the edges no weaker than κ active (`Query.RerunTells`).
- The reported proof tree can be higher than the depth even where a derivation has both κ and that
  depth: `Instances.TreeAboveDepth`.
- A reported gap is said to name an edge that would establish its conclusion
  (`src/arxdb/query/path.py:34-37`). Assuming what the edge waits for does so exactly when the edge
  is itself no weaker than the threshold (`PathDiscovery.ClosedGapIff`);
  `Instances.UselessGap` has a store with a gap that helps nothing.
- "IN iff not attacked by any IN edge" (`src/arxdb/query/refutation.py:11`) fails for two edges
  that contend with each other: `Instances.ContendersUndecided`. It holds of an edge exactly when
  the edge is in every set that holds all it defends or in none that defends all it holds
  (`RefutationResolution.RuleHoldsIff`), and of a store exactly when every edge that can be
  defended is of the first kind (`RefutationResolution.RuleHoldsEverywhereIff`).
- The missing frontier of an unreachable target can be empty (`src/arxdb/query/path.py:124-129`):
  `Instances.NothingMissing` has such a store; exactly when every way to the target has all its
  premises, `PathDiscovery.EmptyFrontier`.
- The Merkle root is the tree hash of section 2.1 of RFC 6962 only for leaf counts that are powers
  of two: `MerkleTheory.AgreesWithRfcIff`. Repeating the last leaf of an odd list of more than one
  leaf keeps the root, so `verify_history` with a root alone accepts a log with its last payload
  appended again: `Attestation.RepeatedAppendAccepted`. Exactly which logs the root alone pins
  down, by how they end: `Attestation.RootAlonePinsIff`. With the anchored entry count it pins
  down every log: `Attestation.AcceptedHistoryIsAnchored`.
- `_find_log_entry` dereferences a missing row (`src/arxdb/attestation/attest.py:101-104`);
  `Attestation.FindLogEntry` says exactly when, `Attestation.MisnumberedRow` has such a table, and
  `Attestation.VerifyEdgeAttestation` says that it never happens on a log written by appends.
- Python's floor division and Go's truncating division make the two inclusion verifiers differ on
  some negative indices: `MerkleTheory.NegativeIndexDiffers`. Exactly on which, for each path
  length: `MerkleTheory.ClimbsAgreeIff`.
- The relational index lists an outgoing edge once per repeated premise and the key-value index
  once: `PebbleReads.TwicePremise`, and in general `PebbleReads.OutgoingAgreesIff`. Re-registering an edge with other endpoints keeps the
  first in one and takes the last in the other: `PebbleReads.ConflictingRegistrations`, and in
  general `PebbleReads.AgreeThroughoutIff`. So re-committing an edge changes nothing in the one
  (`Storage.RecommitOnlyLogs`), and in the other exactly when what it registered still stands
  (`PebbleRuns.RecommitIff`).
- A refutation proposed through `verify_and_commit` concludes a claim, never an edge, and so
  attacks nothing (`src/arxdb/verification/commit.py:100-113`,
  `src/arxdb/query/refutation.py:75-80`): `VerifyCommit.FacadeRefutationsAttackNothing`.

## Model

| member | source | states |
|---|---|---|
| KappaAlgebra.MinKappa | src/arxdb/verification/kappa.py:44-48 | an error exactly for no labels, otherwise a label of the list of least rank |
| KappaAlgebra.WeakerIsRank | src/arxdb/verification/kappa.py:30-36 | the scale, label by label: K0 < K1 < K2 < K3 < K_INF |
| KappaAlgebra.PairConjoins | src/arxdb/verification/kappa.py:58-73 | of any two labels the weaker one is their minimum, and what they conjoin to |
| KappaAlgebra.MinKappaIs | src/arxdb/verification/kappa.py:44-48 | the minimum of a list is the one label in it that nothing in it is weaker than |
| Derivation.ClosedBoundsTrees | src/arxdb/query/reachability.py:117-132 | no derivation is stronger than any map that honours the seeds and that no edge can raise |
| Derivation.OptimalIsLeast | src/arxdb/query/reachability.py:117-132 | the map of strongest derivations is the least of all such closed maps |
| Derivation.OptimalIsSupported | src/arxdb/query/reachability.py:97-101 | every value in it is a seed's or exactly what some edge fires at, so it is a fixpoint |
| Derivation.OptimalIsUnique | src/arxdb/query/reachability.py:117-132 | edge lists with the same members give the same κ map, whatever their order and repetitions |
| Derivation.StrongTrees | src/arxdb/query/reachability.py:128 | a derivation meets a threshold exactly when all its edges do |
| Derivation.ThresholdCut | src/arxdb/query/path.py:89-93 | thresholding the κ map after the fixpoint gives the claims derivable from the edges filtered beforehand |
| Derivation.ThresholdIsHornClosure | src/arxdb/query/reachability.py:220 | the claims at κ ≥ k are the least set with the seeds that is closed under the edges of strength ≥ k |
| Derivation.DepthBoundsTrees | src/arxdb/query/reachability.py:134-150 | no derivation is lower than any depth map to which the depth loop has nothing to add |
| Reachability.Seed | src/arxdb/query/reachability.py:155-168 | raises κ only to a stronger value, sets depth 0, and overwrites the best edge whenever there is an edge |
| Reachability.SeedAll | src/arxdb/query/reachability.py:107-115 | after seeding each claim has its strongest seed's κ, depth 0, and its last-listed axiom as best edge |
| Reachability.ImproveStamps | src/arxdb/query/reachability.py:128-132 | an assignment of the κ loop keeps every best edge's premises stronger than its conclusion, or equal and stamped earlier |
| Reachability.SlackShrinks | src/arxdb/query/reachability.py:117-119 | each assignment of the κ loop uses up one of at most five rises per claim |
| Reachability.RaiseKappa | src/arxdb/query/reachability.py:117-132 | the κ loop ends with a map no edge can raise, each value witnessed by a derivation; κ and best edges are the replay of the listed firings, which are those of pass after pass in list order, each a strict rise, at most 5·claims of them |
| Reachability.PassesUnique | src/arxdb/query/reachability.py:120-132 | the list in its order determines which edges fire, and when |
| Reachability.LowerDepth | src/arxdb/query/reachability.py:137-150 | the depth loop terminates with the height of each claim's lowest derivation, every depth below the number of claims with one |
| Reachability.Fixpoint | src/arxdb/query/reachability.py:89-152 | κ is the optimum over all derivations, depth the minimum height, both on the same claims; back-pointers are well stamped and those the list determines; κ is the seeds' κ after at most 5·claims strictly rising firings |
| Reachability.BestUnique | src/arxdb/query/reachability.py:107-132 | an edge list and extra seeds determine the best-edge map |
| ProofTree.CollectProofTree | src/arxdb/query/reachability.py:171-192 | the stack walk collects the least edge set with the target's best edge that is closed under best edges of premises, and lists it in hex order |
| HexOrder.SortByHex | src/arxdb/query/reachability.py:192 | the set's members, none twice, none before one that prints lower |
| HexOrder.AscendingUnique | src/arxdb/query/reachability.py:179 | where addresses print differently a set has one such listing, so the report is deterministic |
| ProofTree.PointersDescend | src/arxdb/query/reachability.py:128-131 | along any chain of back-pointers strength rises, or stays and the stamp falls |
| ProofTree.NoPointerCycle | src/arxdb/query/reachability.py:171-192 | no chain of back-pointers of a fixpoint returns to its start |
| ProofTree.Unfold | src/arxdb/query/reachability.py:176-180 | the back-pointers of an established claim unfold into a finite derivation |
| ProofTree.CollectedIsTree | src/arxdb/query/reachability.py:181-192 | the collected edges are exactly the edges of that derivation |
| ProofTree.ProofTreeIsReal | src/arxdb/query/reachability.py:171-192 | the reported edges are one derivation of the target, no lower than the reported depth and closed under premises; their weakest has the reported κ iff no reported axiom is weaker |
| ProofTree.WeakestEverywhereIff | src/arxdb/query/reachability.py:164-168 | every reported tree is as strong as reported iff, wherever no derivation is stronger than the claim's strongest seed, the last-listed axiom is that seed |
| ProofTree.UnbeatenKeepsSeed | src/arxdb/query/reachability.py:128-131 | a seeded claim ends at its strongest seed's κ iff no derivation is stronger |
| ProofTree.FaithfulSeedsSuffice | src/arxdb/query/reachability.py:107-115 | it suffices that each claim's last-listed axiom is its strongest seed |
| ProofTree.WeakAxiomListedLast | src/arxdb/query/reachability.py:164-168 | two axioms for one claim, the weaker listed last: κ is K3 and the reported tree is the K1 edge |
| ProofTree.StrengthIsWeakestUsed | src/arxdb/query/reachability.py:97-98 | a derivation's strength is the κ of its weakest edge, or K_INF when nothing but an assumption |
| Query.DerivationEdges | src/arxdb/query/reachability.py:63-86 | the loop with its skips computes the specified list, in listing order |
| Query.DerivationListIs | src/arxdb/query/reachability.py:66-72 | that list holds exactly the listed, active edges that resolve, are no refutation and passed or were flagged, and no address stands for two records |
| Query.DerivationListHolds | src/arxdb/query/reachability.py:74-86 | a record is in the list iff indexed, active, resolvable, no refutation and not vetoed, field by field |
| Query.FixpointAnswers | src/arxdb/query/reachability.py:215-220 | being in the κ map, κ, depth and the threshold test mean: derivable, strongest, lowest, derivable at that strength |
| Query.Reachable | src/arxdb/query/reachability.py:195-224 | established iff some derivation meets min_kappa; κ and depth are the best there are; the proof tree is one derivation's edges, those the list's best edges lead to, in hex order, with the reported κ as weakest when seeds are faithful |
| Query.ThresholdMeans | src/arxdb/query/reachability.py:128 | derivable at a threshold iff some derivation uses only edges of the labels at or above it |
| Query.EstablishedAtEach | src/arxdb/query/reachability.py:220 | for each of the five thresholds, with its labels listed: established iff some derivation uses only edges of those labels; and what the reported κ says of all five |
| Query.AnswerUnique | src/arxdb/query/reachability.py:195-224 | edge list, extra seeds, target and threshold determine the whole answer |
| Query.HasBothIff | src/arxdb/query/reachability.py:50-53 | one derivation is both strongest and lowest iff dropping every edge weaker than the strength leaves the lowest height as it is |
| Query.RerunTells | src/arxdb/query/reachability.py:204-210 | one derivation has the reported κ and depth iff the query with only the edges no weaker than κ active reports the same depth |
| PathDiscovery.ScanCandidates | src/arxdb/query/path.py:124-129 | reports one gap per candidate with unestablished premises, in order, and pushes those premises |
| PathDiscovery.CandidatesAre | src/arxdb/query/path.py:111-117 | row by row in listing order, the edge of each row that concludes the node and can derive |
| PathDiscovery.BlockingPicks | src/arxdb/query/path.py:125 | the blocking premises are those not established, in order, repetitions included |
| PathDiscovery.GapsAre | src/arxdb/query/path.py:124-127 | candidate by candidate, the gaps come in order |
| PathDiscovery.PushesAre | src/arxdb/query/path.py:128-129 | and so do the premises pushed |
| PathDiscovery.OneCandidate | src/arxdb/query/path.py:125-129 | one candidate makes one gap, with its premises and rule, if anything blocks it, and what blocks it is pushed |
| PathDiscovery.MissingFrontier | src/arxdb/query/path.py:105-131 | visits the least set with the target and all unestablished premises of its members, and reports exactly their gaps, in the order in which the stack yields the nodes |
| PathDiscovery.VisitsUnique | src/arxdb/query/path.py:105-109 | the order of the traversal, each time the node pushed last among those not visited, is determined |
| PathDiscovery.ReportUnique | src/arxdb/query/path.py:101-131 | and so is the report, gap by gap |
| PathDiscovery.ReportedGapIs | src/arxdb/query/path.py:119-127 | each gap is a leaf with no candidate, or has one candidate's premises and rule and its unestablished premises |
| PathDiscovery.ConeIsACut | src/arxdb/query/path.py:75-80 | a strong enough derivation of any visited claim must assume a visited claim |
| PathDiscovery.ConeIsReported | src/arxdb/query/path.py:124-129 | the visited claims are exactly the target and the claims listed as blocking |
| PathDiscovery.FrontierComplete | src/arxdb/query/path.py:73-84 | any assumptions that make the target derivable at min_kappa include it or a claim listed as blocking |
| PathDiscovery.ClosedGapIff | src/arxdb/query/path.py:34-37 | assuming what an edge waits for makes that edge establish its conclusion at the threshold iff the edge is no weaker than the threshold |
| PathDiscovery.ClosedGapSuffices | src/arxdb/query/path.py:34-37 | then the conclusion is derivable at the threshold |
| Instances.UselessGap | src/arxdb/query/path.py:124-129 | a K0 inference with an open premise: at K1 it is reported as a gap, and assuming the premise does not make the conclusion derivable |
| PathDiscovery.EmptyFrontier | src/arxdb/query/path.py:119-129 | the report is empty iff the target has candidate edges and each has all its premises |
| Instances.NothingMissing | src/arxdb/query/path.py:124-131 | a K1 axiom and a K0 inference from it: at K1 the conclusion is unreachable with κ K0 and nothing is reported missing |
| Instances.StrengthAndDepthApart | src/arxdb/query/reachability.py:134-150 | a store whose answer is κ K3 at depth 0 though no derivation has both |
| Instances.TreeAboveDepth | src/arxdb/query/reachability.py:120-150 | a store, all of one strength, whose answer is depth 1, with a derivation of that κ and height, and the proof tree of height 2 |
| Instances.WeakAxiomReported | src/arxdb/query/reachability.py:164-168 | a store with two axioms for a claim, the weaker listed last: κ K3 and the K1 axiom as proof tree |
| PathDiscovery.Discover | src/arxdb/query/path.py:68-131 | reachable iff derivable at min_kappa, with best κ and depth; otherwise the frontier's exact contents and its completeness when index and records agree |
| PathDiscovery.ReachableAtEach | src/arxdb/query/path.py:89-93 | for each of the five thresholds, with its labels listed: reachable iff some derivation uses only edges of those labels |
| Argumentation.GroundedUnique | src/arxdb/query/refutation.py:8-13 | the grounded labelling is unique, so it does not depend on iteration order |
| Argumentation.GroundedInsideComplete | src/arxdb/query/refutation.py:8-13 | IN lies inside every complete extension |
| Argumentation.GroundedConflictFree | src/arxdb/query/refutation.py:41-48 | IN and OUT are disjoint and no IN argument attacks another |
| Argumentation.ForcedIff | src/arxdb/query/refutation.py:8-13 | IN is what every set closed under defence holds |
| Argumentation.DefensibleIff | src/arxdb/query/refutation.py:8-13 | an argument is not OUT iff some set that defends all its members holds it |
| Argumentation.UndecidedAttacker | src/arxdb/query/refutation.py:45-47 | every UNDECIDED argument has an UNDECIDED attacker and no IN attacker |
| Argumentation.UndecidedMeansCycle | src/arxdb/query/refutation.py:45-47 | a non-empty undecided set contains an attack cycle |
| Argumentation.AcyclicFullyLabelled | src/arxdb/query/refutation.py:100-119 | an attack graph without cycles is labelled completely |
| Argumentation.ChainAlternates | src/arxdb/query/refutation.py:100-119 | labels alternate along an attack chain of any length, IN at its unattacked end |
| Argumentation.Reinstatement | src/arxdb/query/refutation.py:100-119 | adding an argument against x and one against that one changes no label of the old arguments |
| RefutationResolution.ResolveEdges | src/arxdb/query/refutation.py:62-66 | the map of stored edges, with the order in which the later loops take them |
| RefutationResolution.ResolvedIs | src/arxdb/query/refutation.py:62-66 | it is the one map with exactly the listed addresses that resolve, each at its record |
| RefutationResolution.RefutationAttacks | src/arxdb/query/refutation.py:68-80 | the two dictionaries mirror each other and record exactly the attacks of refutations on the edges they conclude |
| RefutationResolution.GroupByProposition | src/arxdb/query/refutation.py:84-89 | each group holds exactly the edges concluding its claim and domain, with their polarity |
| RefutationResolution.Contend | src/arxdb/query/refutation.py:91-98 | adds exactly the mutual attacks between the positive and the negative members of a group |
| RefutationResolution.ContentionAttacks | src/arxdb/query/refutation.py:90-98 | over all groups, in any order, adds exactly the attacks between opposed edges |
| RefutationResolution.BuiltFramework | src/arxdb/query/refutation.py:68-98 | the dictionaries built are the attack relation defined on the store: refutation of an edge's address, or opposite polarity of one proposition |
| RefutationResolution.StoreAttacksIff | src/arxdb/query/refutation.py:15-19 | one stored edge attacks another iff it is a refutation concluding the other's address, or the two conclude one claim in one domain with opposite polarity |
| RefutationResolution.Label | src/arxdb/query/refutation.py:100-117 | the loop computes the least fixpoint of the characteristic function, and exactly what it attacks |
| RefutationResolution.ComputeActiveSubgraph | src/arxdb/query/refutation.py:55-122 | IN, OUT and UNDECIDED are the grounded labelling of the stored edges' attack relation |
| RefutationResolution.NoContradictionDerivable | src/arxdb/query/refutation.py:82-98 | no two derivations from IN edges, with nothing assumed, conclude a resolved claim and its negation |
| RefutationResolution.ActiveReachabilityConsistent | src/arxdb/query/reachability.py:208-210 | restricted to the active subgraph, `reachable` never answers for both a claim and its opposite |
| RefutationResolution.StoreReinstatement | src/arxdb/query/refutation.py:55-122 | committing a fresh refutation of an edge and a fresh refutation of it adds one OUT and one IN edge and changes nothing else |
| RefutationResolution.UnattackedByInIsNotIn | src/arxdb/query/refutation.py:11 | in the attack graph of two arguments that attack each other neither is IN nor OUT |
| Instances.ContendersUndecided | src/arxdb/query/refutation.py:11 | a store of two edges concluding a claim and its negation: both are undecided, and no IN edge attacks either |
| RefutationResolution.RuleHoldsIff | src/arxdb/query/refutation.py:11 | "IN iff no IN attacker" holds of an edge iff it is in every set that holds all it defends, or in no set that defends all it holds |
| RefutationResolution.RuleHoldsEverywhereIff | src/arxdb/query/refutation.py:8-13 | it holds of a store iff every edge that can be defended is in every set that holds all it defends, that is iff nothing is undecided |
| Merkle.RootHash | src/arxdb/storage/merkle.py:44-56 | the level loop computes the recursive root that `MerkleTheory` characterises |
| Merkle.BuildInclusionProof | src/arxdb/storage/merkle.py:59-86 | a proof for exactly the indices in range, with the siblings met, and it verifies against the root |
| Merkle.VerifyInclusion | src/arxdb/storage/merkle.py:89-99 | accepts exactly when climbing from the leaf along the path ends in the root, for any integer index |
| Merkle.BuiltProofVerifies | src/arxdb/storage/merkle.py:59-99 | for every list and valid index the built proof verifies against the list's root |
| MerkleTheory.RootIsFullHash | src/arxdb/storage/merkle.py:49-56 | the root is the hash of a full binary tree over the duplicate-last expansion of the leaves |
| MerkleTheory.ExpandExtends | src/arxdb/storage/merkle.py:53 | the expansion begins with the leaf list itself |
| MerkleTheory.RootsEqualIff | src/arxdb/storage/merkle.py:44-56 | two lists have one root iff both or neither is empty and their expansions are equal |
| MerkleTheory.RootAndCountDetermine | src/arxdb/storage/merkle.py:44-56 | root and leaf count determine the list |
| MerkleTheory.RepeatedLastSharesRoot | src/arxdb/storage/merkle.py:53 | an odd list of more than one leaf shares its root with the list that repeats its last leaf |
| MerkleTheory.RootDeterminesIff | src/arxdb/storage/merkle.py:44-56 | no other list has the root iff the list is empty, or its length is a power of two and no final block of 2^g leaves, short of half the list, repeats the 2^g before it |
| MerkleTheory.AgreesWithRfcIff | src/arxdb/storage/merkle.py:44-56 | for a non-empty list the root is the tree hash of section 2.1 of RFC 6962 iff the number of leaves is a power of two |
| MerkleTheory.ClimbTakesHeight | src/arxdb/storage/merkle.py:91-99 | a climb that ends in a full tree's hash is as long as the tree is high and started at one of its leaves |
| MerkleTheory.ClimbInjective | src/arxdb/storage/merkle.py:91-99 | two climbs of one length from one index to one end started alike and met the same siblings |
| MerkleTheory.VerifiesIff | src/arxdb/storage/merkle.py:89-99 | a proof verifies against a list's root iff the list is not empty and it is the proof of the expansion's leaf at the index modulo the tree's width |
| MerkleTheory.AcceptedProofIsBuilt | src/arxdb/storage/merkle.py:59-99 | an accepted proof names a leaf of the list, and with an index inside the list it is the built proof |
| MerkleTheory.ClimbsAgree | go/pkg/merkle/merkle.go:108-122 | the Go and the Python verifier climb alike from every non-negative index |
| MerkleTheory.ClimbsAgreeIff | go/pkg/merkle/merkle.go:113-120 | for each index and path length the two verifiers climb alike on all nodes and paths iff the index is not negative, the path is empty, or the index's bits below the last one used are all clear |
| MerkleTheory.NegativeIndexDiffers | go/pkg/merkle/merkle.go:113-120 | the smallest difference: at index -1 with two siblings they agree iff the second sibling is the first one's parent |
| AppendLog.Log.Append | src/arxdb/storage/append_log.py:116-157 | one new row, numbered by the count, chained to the last, signed over the five fields; every older row unchanged |
| AppendLog.NewEntryIs | src/arxdb/storage/append_log.py:125-157 | the entry field by field: number, time, signer, hash, predecessor, and a signature over those five |
| AppendLog.VerifyEntryIff | src/arxdb/storage/append_log.py:195-210 | an entry verifies iff its hash is its payload's and the scheme accepts its signature over its own five fields |
| AppendLog.AppendKeepsChain | src/arxdb/storage/append_log.py:116-157 | appending with a key pair keeps every entry verifying, numbered and linked |
| AppendLog.Log.EntryHashes | src/arxdb/storage/append_log.py:180-184 | the entry hashes in order of sequence number |
| AppendLog.Log.RootOfLog | src/arxdb/storage/append_log.py:186-187 | the Merkle root of the entry hashes |
| AppendLog.Log.GetInclusionProof | src/arxdb/storage/append_log.py:189-193 | a proof for exactly the numbers in the log, for that entry, and it verifies against the log's root |
| Attestation.VerifyHistory | src/arxdb/attestation/attest.py:142-166 | accepts any table, honest or not, exactly when its rows 0..n-1 are there, hashed, signed and linked, and have the trusted root |
| Attestation.AcceptsHistoryIff | src/arxdb/attestation/attest.py:142-166 | accepted iff every row is there, hashed, signed over its own fields by its signer and linked, and the hashes have the root |
| Attestation.ForgedRowRejected | src/arxdb/attestation/attest.py:150-161 | a row whose signature does not verify has its table rejected against every root |
| Attestation.AnyRunAccepted | src/arxdb/attestation/attest.py:142-166 | after any run of appends the log's own root is accepted and the payloads are the old ones followed by the appended |
| Attestation.StoreRunPinned | src/arxdb/attestation/attest.py:142-166 | after any run of commits (failing anywhere), puts and appends the root is accepted, and any table of that length accepted against it holds the logged payloads |
| Attestation.AcceptedHistoryIsAnchored | src/arxdb/attestation/attest.py:142-166 | a table accepted against an anchored root and of the anchored length has the anchored payloads, in order |
| Attestation.AcceptedWithoutCountIff | src/arxdb/attestation/attest.py:166 | without the length, acceptance means that the entry hashes have the same expansion |
| Attestation.RepeatedAppendAccepted | src/arxdb/attestation/attest.py:150-151 | a log of odd length with its last payload appended again is accepted against the old root |
| Attestation.RootAlonePinsIff | src/arxdb/attestation/attest.py:142-151 | every table accepted against a log's root holds its payloads iff the log's entry hashes end so that the root determines them |
| Attestation.MisnumberedRow | src/arxdb/attestation/attest.py:101-104 | a table of one row not numbered 0: the search raises for every address and the history check rejects it |
| Attestation.Roster.Identify | src/arxdb/attestation/roster.py:87-98 | the first agent bound to the key, or None iff no binding has it |
| Attestation.Anchor | src/arxdb/attestation/attest.py:169-176 | the record holds the log's root, its length and the roster's address |
| Attestation.CommitRoster | src/arxdb/attestation/attest.py:179-198 | appends only to an empty log, otherwise changes nothing, and succeeds iff entry 0 then is the roster |
| Attestation.AnchorCommitsRoster | src/arxdb/attestation/attest.py:182-185 | any table accepted against an anchor's root and count has the roster as entry 0 |
| Attestation.FindLogEntry | src/arxdb/attestation/attest.py:94-105 | the first row with the address, none iff all rows differ, or an exception iff a row is missing first |
| Attestation.VerifyEdgeAttestation | src/arxdb/attestation/attest.py:108-139 | on any table: the first agent bound, a valid signature iff the first row with the edge's address is hashed and its signature is accepted over its own fields, the blob guarantees, and an exception iff a row is missing before that; on an honest log the signature guarantee holds iff the edge was logged |
| Attestation.LoggedIsSigned | src/arxdb/attestation/attest.py:121-123 | on a log written by appends a logged edge is found, with a signature that verifies, and the search does not raise |
| GraphTables.CoveredIsFixed | src/arxdb/storage/graph_index.py:81-102 | registering an edge whose rows are all there changes nothing |
| GraphTables.RegisterKeepsWellFormed | src/arxdb/storage/graph_index.py:84-101 | premise rows stay gapless and owned by registered edges, and every endpoint stays a registered node |
| Storage.Store.PutObject | src/arxdb/storage/object_store.py:39-55 | stores the blob under its address unless one is there |
| Storage.Store.RegisterEdgeRows | src/arxdb/storage/graph_index.py:81-102 | the statement-by-statement inserts equal one relational registration, or raise |
| Storage.Store.CommitEdgeTx | src/arxdb/storage/storage.py:53-81 | with any number of statements succeeding: all of the commit, logged with its payload at its time, or blobs only with graph and log as before |
| Storage.AtomicRun | src/arxdb/storage/storage.py:60-81 | over every run with faults anywhere: graph edges are exactly the addresses logged by commits, each with blob and registered ends; the log is exactly the successful payloads in order |
| Storage.RunEntries | src/arxdb/storage/append_log.py:125-157 | after any run every log entry, field by field, from the payloads and times of the successful commits and appends |
| Storage.OpIsLogged | src/arxdb/storage/storage.py:75-77 | every successful commit and every append is in the log at its time |
| Storage.RunHoldsBlobs | src/arxdb/storage/storage.py:66-71 | after any run, failures included, exactly the records, proofs and blobs that got written are stored, each under its address |
| Storage.RunIndexesFirst | src/arxdb/storage/graph_index.py:81-102 | after any run the index has the conclusion, and at each position the premise, of the first commit that registered the edge with one, and exactly the nodes named |
| Storage.StepKeepsConsistent | src/arxdb/storage/storage.py:53-81 | every commit, put or append, failing or not, keeps the store consistent with its history |
| Storage.FailuresLeaveNoTrace | src/arxdb/storage/storage.py:78-80 | over every run, graph and log are those of the run without its failed commits, and every blob of that run is there |
| Storage.RecommitOnlyLogs | src/arxdb/storage/storage.py:53-81 | re-committing an edge, whatever ran in between, adds one log entry and changes no table |
| ByteKeys.PrefixUpperBound | go/pkg/storage/graph_index.go:203-215 | the loop increments the last byte below 0xff and drops the rest, or reports no bound |
| ByteKeys.RangeIsPrefix | go/pkg/storage/graph_index.go:203-215 | a key is at least p and below p's upper bound iff p is a prefix of it, all-0xff prefixes included |
| ByteKeys.BigEndianOrder | go/pkg/storage/graph_index.go:48-54 | byte order of positions is numeric order, and equal bytes are equal positions |
| ByteKeys.BigEndianRoundTrip | go/pkg/storage/append_log.go:221-223 | decoding an encoded 64-bit number gives it back |
| ByteKeys.ListingUnique | go/pkg/storage/graph_index.go:133-150 | a set of keys has one strictly increasing listing |
| PebbleIndex.RegisterEdgeInBatch | go/pkg/storage/graph_index.go:100-129 | leaves in the batch exactly the writes, in order, that `EdgeWritesAt` reads back |
| PebbleIndex.EdgeWritesAt | go/pkg/storage/graph_index.go:34-129 | what each key holds after a registration, decided by parsing the key: the five relations do not overlap |
| PebbleIndex.GraphKeyLayout | go/pkg/storage/graph_index.go:16-22 | the five key forms, byte for byte |
| PebbleIndex.RegisterRefines | go/pkg/storage/graph_index.go:100-129 | on a map that represents the tables, a registration the tables do not contradict is the relational registration |
| PebbleIndex.RegisterDiverges | go/pkg/storage/graph_index.go:111-118 | one that they contradict makes map and tables differ |
| PebbleIndex.RegisterNodeRefines | go/pkg/storage/graph_index.go:95-98 | registering a node likewise |
| PebbleReads.IncomingEdges | go/pkg/storage/graph_index.go:133-150 | exactly the edges concluding the node in the represented tables, in ascending order |
| PebbleReads.OutgoingEdges | go/pkg/storage/graph_index.go:152-168 | exactly the edges with the node as a premise, each once, in ascending order |
| PebbleReads.AllNodes | go/pkg/storage/graph_index.go:217-235 | exactly the registered nodes, in ascending order |
| PebbleReads.AllEdges | go/pkg/storage/graph_index.go:237-254 | exactly the registered edges, in ascending order |
| PebbleReads.GetConnectivity | go/pkg/storage/graph_index.go:170-201 | the relational premises in position order and conclusion, or nothing for an unknown edge |
| PebbleReads.RunPremises | src/arxdb/storage/graph_index.py:118-132 | after a compatible run an edge's premise rows are the longest list registered for it, and all others are prefixes of it |
| PebbleReads.IndexRefines | go/pkg/storage/graph_index.go:93-129 | after every compatible run of registrations the byte map represents the relational tables |
| PebbleReads.AgreeThroughoutIff | src/arxdb/storage/graph_index.py:85-101 | the two indexes agree after every step of a run iff no two registrations of one edge contradict each other |
| PebbleReads.ListingsAgree | src/arxdb/storage/graph_index.py:104-109 | two ascending listings of one set are one list, so ordered queries and prefix scans return the same |
| PebbleReads.OutgoingAgreesIff | src/arxdb/storage/graph_index.py:111-116 | the relational outgoing list has the same members, and is the same list iff no edge repeats the node among its premises |
| PebbleReads.TwicePremise | src/arxdb/storage/graph_index.py:111-116 | an edge that names a premise twice: the relational rows list it twice, the keys once |
| PebbleReads.ConflictingRegistrations | go/pkg/storage/graph_index.go:111-122 | one edge with two conclusions: the tables keep the first, the map takes the last and lists the edge under both |
| PebbleStorage.LogKeysDistinct | go/pkg/storage/append_log.go:50-66 | log keys are distinct per number, from each other, from the length key and from every graph key |
| PebbleStorage.LogKeyLayout | go/pkg/storage/append_log.go:50-66 | the log's key forms, byte for byte |
| PebbleStorage.LenInBatch | go/pkg/storage/append_log.go:159-170 | the length as seen through the batch, 0 when there is none |
| PebbleStorage.AppendInBatch | go/pkg/storage/append_log.go:172-227 | the entry is numbered and chained through the batch's view, and exactly its three keys are written |
| PebbleStorage.LogWritesExtend | go/pkg/storage/append_log.go:211-225 | those writes turn a map holding a log into one holding the log with the entry at its end |
| PebbleStorage.LogWritesKeepGraph | go/pkg/storage/append_log.go:215-225 | and change no graph answer |
| PebbleStorage.EdgeWritesKeepLog | go/pkg/storage/graph_index.go:100-129 | graph writes leave the log as it was |
| PebbleStorage.Get | go/pkg/storage/append_log.go:245-256 | the entry at the number or nothing, for every 64-bit number, negative ones included |
| PebbleStorage.EntryHashes | go/pkg/storage/append_log.go:271-289 | the entry hashes in order |
| PebbleStorage.Engine.CommitEdgeTx | go/pkg/storage/storage.go:69-113 | the state changes by exactly one step: blobs, graph writes and one chained entry, or on a fault anywhere the blobs written before it only |
| PebbleRuns.EngineLogs | go/pkg/storage/append_log.go:159-227 | over every run of commits with faults, whatever they register, the map holds exactly the successful commits' log, each entry numbered, timed, hashed, chained and signed, and on graph keys is what their registrations leave |
| PebbleRuns.CommitIsLogged | go/pkg/storage/append_log.go:187-227 | every successful commit's record is in the log at its time |
| PebbleRuns.RunWrites | go/pkg/storage/storage.go:83-92 | after any run every stored blob was written and sits under its address, and every address written to, of a record or a proof, is taken |
| PebbleRuns.RunHoldsBlob | go/pkg/storage/storage.go:83-92 | a record or proof that got written can be read back, unless the run also wrote another blob with its address |
| PebbleRuns.EngineRefines | go/pkg/storage/storage.go:75-113 | when no two registrations contradict each other it represents the relational tables of the successful commits |
| PebbleRuns.AtomicEngineRun | go/pkg/storage/storage.go:69-113 | over every run an edge is indexed iff a successful commit hashed to it; then its blob is stored and its indexed conclusion and premises are registered nodes |
| PebbleRuns.RecommitIff | go/pkg/storage/graph_index.go:100-129 | a commit changes no graph key iff some registration put its conclusion and each of its premises where it puts them and no later one put anything else |
| PebbleRuns.RecommitOnlyLogs | go/pkg/storage/storage.go:75-113 | so re-committing changes no graph key when no later registration of the edge contradicts it |
| PebbleReads.RunKeysAt | go/pkg/storage/graph_index.go:93-129 | after any run of registrations a key holds v iff some registration put v there and none after it put anything else |
| Verifier.StoredStrengthIsEarned | src/arxdb/verification/verifier.py:87-179 | a proposal that is not rejected has the one κ that its type, and for a definition its claim, can earn |
| Verifier.RejectedIff | src/arxdb/verification/verifier.py:115-179 | rejected iff the sanity filter vetoes or the one checker that type and proof call for fails; otherwise the filter's verdict stands |
| Verifier.InRosterIff | src/arxdb/verification/checkers/roster.py:20-36 | accepted ground is exactly a claim whose words make one of the five lines |
| Verifier.WordsAre | src/arxdb/verification/checkers/roster.py:30-31 | a white character separates whatever stands on either side, and a string without one is a word |
| Verifier.AsciiSpaces | src/arxdb/verification/checkers/roster.py:30-31 | which ASCII characters separate |
| Verifier.NormalizeComparesWords | src/arxdb/verification/checkers/roster.py:30-31 | normalising is idempotent, and two claims match iff they have the same words |
| Records.StoredRecordsResolve | src/arxdb/query/resolve.py:24-55 | a stored record is read back under its address, neither kind is taken for the other, and what is not stored does not resolve |
| Records.OtherBlobsResolve | src/arxdb/query/resolve.py:24-55 | any other blob resolves to what the decoders make of it |
| VerifyCommit.VerifyAndCommit | src/arxdb/verification/commit.py:64-134 | a veto stores nothing; otherwise node blobs and then one atomic commit of a record that speaks for the proposal field by field; stored iff not vetoed and no statement fails |
| VerifyCommit.BuiltRecords | src/arxdb/verification/commit.py:99-113 | the record has the proposal's type, premises in order, conclusion, rule, proof address and signer, the filter's verdict, and the κ that can be earned |
| VerifyCommit.RunsAreEarned | src/arxdb/verification/commit.py:88-127 | over every run, every indexed edge is the record of a proposal that was not vetoed, with its claims stored and its conclusion and premises indexed |
| VerifyCommit.IndexIsRecord | src/arxdb/verification/commit.py:88-127 | over every run, each indexed edge is the stored record of a proposal that its checker passed; the index has the record's conclusion and premises in order; its claims are stored |
| VerifyCommit.PremisesDerived | src/arxdb/verification/commit.py:99-113 | a derivation ending in such a record derives each of the proposal's premises, in order, each a stored claim |
| VerifyCommit.AttemptKept | src/arxdb/verification/commit.py:115-127 | what one proposal stored, log entry, record, proof and index entry, is there whatever is proposed later and wherever it fails |
| VerifyCommit.StoredIsAttested | src/arxdb/attestation/attest.py:108-139 | a stored proposal is attested after any later run: valid signature, proof bound and intact, and all four guarantees iff the roster binds its signer |
| VerifyCommit.EarnedStrengths | src/arxdb/verification/verifier.py:87-112 | a listed edge at κ ≥ K3 is a deduction or roster definition, at κ ≥ K1 no analogy, at K_INF concludes a roster claim |
| VerifyCommit.KappaIsEarned | src/arxdb/verification/commit.py:64-134 | a claim established at K_INF is a roster claim; at K3 it has a derivation of deductions and roster definitions; at K1 one without analogies |
| VerifyCommit.FacadeIndexMatches | src/arxdb/verification/commit.py:99-127 | index and records agree on conclusions, as frontier completeness needs |
| VerifyCommit.FacadeConsistent | src/arxdb/query/refutation.py:82-98 | such a store's active subgraph never derives two opposite claims, with no condition on the claims |
| VerifyCommit.FacadeRefutationsAttackNothing | src/arxdb/verification/commit.py:99-113 | such a store's only attacks are contentions: a refutation proposed there attacks no edge |

## Left out

- BLAKE3, Ed25519 and CBOR: content addresses are free terms, signing is any scheme in which a key pair's signatures verify, and the key-value engine's entry codec is any function, assumed to round-trip only where an entry is read back.
- Z3, Lean, sympy and spectral checkers, their timeouts, and the ELENCHUS text predicates: each is an arbitrary function of the proposal; only the κ that its file fixes is modelled.
- Overlapping commits: the engines are modelled one commit at a time.
- SQLite and Pebble internals, file sharding and fsync, gRPC, HTTP, the visualizer, key files and the seed corpus: I/O, UI and data.
- `Query.DerivationEdges`: the rows come in any order, where `all_edges` sorts them by address. κ, depth and what is derivable are proved not to depend on it (`Derivation.OptimalIsUnique`, `Query.SameLowest`); the reported proof tree does, and is proved to be a function of the listing (`Query.AnswerUnique`). Sorted listing itself is in `PebbleReads`.
- That index and edge records name the same conclusions, which frontier completeness needs, is not checked by `commit_edge_tx`; it is proved for stores that only `verify_and_commit` wrote (`VerifyCommit.FacadeIndexMatches`), not for others.
- `series`, `parallel`, `corroborate` and `max_kappa`: no query calls them; the fixpoint's own conjunction and choice are `Derivation.PathKappa` and `Derivation.OptimalIsUnique`.
- The Go log's root hash, inclusion proof and entry verification: they repeat the Python ones over the entry hashes that `PebbleStorage.EntryHashes` returns.
- `PebbleStorage.Engine.CommitEdgeTx`: premise and entry counts are assumed to fit a signed 64-bit integer, as Go's `int` does.
- Roster construction and its checks, `resolve`, `from_bytes` and the anchor's own encoding: attestation uses only a roster's bindings and bytes. The Go service's standalone registrations: one `PebbleReads` operation each, in a batch of its own.
