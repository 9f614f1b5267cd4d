/**
 The path query: the depth of a target that is established strongly enough, or the
 goal-specific frontier of what is missing when it is not.
 */
module PathDiscovery {
  import opened Options
  import opened KappaAlgebra
  import opened Records
  import opened Derivation
  import opened Reachability
  import opened ProofTree
  import opened Query

  datatype MissingEdge = MissingEdge(conclusion: Hash, premises: seq<Hash>, blocking: seq<Hash>, rule: string)

  datatype PathResult = PathResult(
    target: Hash, reachable: bool, depth: Option<nat>, kappa: Option<Kappa>, missing: seq<MissingEdge>)

  /** The derivation edges that the index lists as concluding `node`, in listing order. */
  function Candidates(rows: seq<Row>, node: Hash, edgeMap: map<Hash, Edge>): (es: seq<Edge>)
    ensures forall e :: e in es <==>
            exists row :: row in rows && row.conclusion == node && row.edge in edgeMap && edgeMap[row.edge] == e
  {
    if rows == [] then []
    else
      var last := rows[|rows| - 1];
      assert rows == rows[..|rows| - 1] + [last];
      var rest := Candidates(rows[..|rows| - 1], node, edgeMap);
      if last.conclusion == node && last.edge in edgeMap then rest + [edgeMap[last.edge]] else rest
  }

  /** Row by row, so in listing order: each row's edge if the row concludes the node and the
      edge can derive. */
  lemma {:induction false} CandidatesAre(rows: seq<Row>, more: seq<Row>, row: Row, node: Hash, edgeMap: map<Hash, Edge>)
    ensures Candidates(rows + more, node, edgeMap) == Candidates(rows, node, edgeMap) + Candidates(more, node, edgeMap)
    ensures Candidates([row], node, edgeMap) ==
            if row.conclusion == node && row.edge in edgeMap then [edgeMap[row.edge]] else []
    decreases |more|
  {
    assert [row][..0] == [];
    if more == [] {
      assert rows + more == rows;
    } else {
      var n := |more| - 1;
      assert (rows + more)[..|rows + more| - 1] == rows + more[..n];
      CandidatesAre(rows, more[..n], row, node, edgeMap);
    }
  }

  /** The premises not yet established. */
  function Blocking(ps: seq<Hash>, established: set<Hash>): (b: seq<Hash>)
    ensures forall p :: p in b <==> p in ps && p !in established
    ensures b == [] <==> forall p | p in ps :: p in established
  {
    if ps == [] then []
    else
      assert ps == ps[..|ps| - 1] + [ps[|ps| - 1]];
      var rest := Blocking(ps[..|ps| - 1], established);
      if ps[|ps| - 1] in established then rest else rest + [ps[|ps| - 1]]
  }

  function GapAt(node: Hash, e: Edge, established: set<Hash>): MissingEdge {
    MissingEdge(node, e.premises, Blocking(e.premises, established), e.rule)
  }

  /** The gaps reported for one node's candidates, in order. */
  function GapsAt(node: Hash, es: seq<Edge>, established: set<Hash>): (gaps: seq<MissingEdge>)
    ensures forall me :: me in gaps <==>
            exists e :: e in es && Blocking(e.premises, established) != [] && me == GapAt(node, e, established)
  {
    if es == [] then []
    else
      var last := es[|es| - 1];
      assert es == es[..|es| - 1] + [last];
      var rest := GapsAt(node, es[..|es| - 1], established);
      if Blocking(last.premises, established) == [] then rest else rest + [GapAt(node, last, established)]
  }

  /** The nodes those gaps send the search to. */
  function PushedAt(es: seq<Edge>, established: set<Hash>): (ps: seq<Hash>)
    ensures forall p :: p in ps <==> exists e :: e in es && p in Blocking(e.premises, established)
  {
    if es == [] then []
    else
      assert es == es[..|es| - 1] + [es[|es| - 1]];
      PushedAt(es[..|es| - 1], established) + Blocking(es[|es| - 1].premises, established)
  }

  /** Candidate by candidate, in order: a gap if anything blocks the candidate. */
  lemma {:induction false} GapsAre(node: Hash, es: seq<Edge>, more: seq<Edge>, established: set<Hash>)
    ensures GapsAt(node, es + more, established) == GapsAt(node, es, established) + GapsAt(node, more, established)
    decreases |more|
  {
    hide Blocking, GapAt;
    if more == [] {
      assert es + more == es;
    } else {
      var n := |more| - 1;
      assert (es + more)[..|es + more| - 1] == es + more[..n];
      GapsAre(node, es, more[..n], established);
    }
  }

  /** And the premises that block it are pushed. */
  lemma {:induction false} PushesAre(es: seq<Edge>, more: seq<Edge>, established: set<Hash>)
    ensures PushedAt(es + more, established) == PushedAt(es, established) + PushedAt(more, established)
    decreases |more|
  {
    hide Blocking;
    if more == [] {
      assert es + more == es;
    } else {
      var n := |more| - 1;
      assert (es + more)[..|es + more| - 1] == es + more[..n];
      PushesAre(es, more[..n], established);
    }
  }

  lemma {:induction false} OneCandidate(node: Hash, e: Edge, established: set<Hash>)
    ensures var b := Blocking(e.premises, established);
            && GapsAt(node, [e], established) == (if b == [] then [] else [MissingEdge(node, e.premises, b, e.rule)])
            && PushedAt([e], established) == b
  {
    hide Blocking;
    assert [e][..0] == [];
    assert GapsAt(node, [], established) == [] && PushedAt([], established) == [];
  }

  /** What the search works on besides the target. */
  datatype Search = Search(rows: seq<Row>, edgeMap: map<Hash, Edge>, established: set<Hash>)

  ghost predicate NeedsNode(n: Hash, p: Hash, s: Search) {
    p in PushedAt(Candidates(s.rows, n, s.edgeMap), s.established)
  }

  ghost predicate ConeClosed(nodes: set<Hash>, target: Hash, s: Search) {
    && target in nodes
    && forall n, p | n in nodes && NeedsNode(n, p, s) :: p in nodes
  }

  /** The target's cone: the least set with the target and all unestablished premises of its members. */
  ghost predicate IsCone(nodes: set<Hash>, target: Hash, s: Search) {
    ConeClosed(nodes, target, s) && forall other | ConeClosed(other, target, s) :: nodes <= other
  }

  ghost predicate GapOf(me: MissingEdge, n: Hash, s: Search) {
    var es := Candidates(s.rows, n, s.edgeMap);
    if es == [] then me == MissingEdge(n, [], [], "") else me in GapsAt(n, es, s.established)
  }

  /** The report holds exactly the gaps of the cone's nodes. */
  ghost predicate Reports(missing: seq<MissingEdge>, nodes: set<Hash>, s: Search) {
    forall me :: me in missing <==> exists n :: n in nodes && GapOf(me, n, s)
  }

  ghost predicate ReportsCone(missing: seq<MissingEdge>, target: Hash, s: Search) {
    exists nodes :: IsCone(nodes, target, s) && Reports(missing, nodes, s)
  }

  ghost function Sought(target: Hash, edgeMap: map<Hash, Edge>): set<Hash> {
    {target} + (set h, p | h in edgeMap && p in edgeMap[h].premises :: p)
  }

  lemma NeedsSought(n: Hash, p: Hash, target: Hash, s: Search)
    requires NeedsNode(n, p, s)
    ensures p in Sought(target, s.edgeMap)
  {
    var e :| e in Candidates(s.rows, n, s.edgeMap) && p in Blocking(e.premises, s.established);
    var row :| row in s.rows && row.conclusion == n && row.edge in s.edgeMap && s.edgeMap[row.edge] == e;
  }

  lemma {:induction false} ReportsStep(missing: seq<MissingEdge>, nodes: set<Hash>, n: Hash, found: seq<MissingEdge>,
      s: Search)
    requires Reports(missing, nodes, s)
    requires forall me :: me in found <==> GapOf(me, n, s)
    ensures Reports(missing + found, nodes + {n}, s)
  {
    hide GapOf;
  }

  /** The traversal's state: what is seen is needed, what seen nodes need is seen or on
      the stack, and the gaps of exactly the seen nodes are reported. */
  ghost predicate Traversing(seen: set<Hash>, stack: seq<Hash>, missing: seq<MissingEdge>, target: Hash, s: Search) {
    && (target in seen || target in stack)
    && (forall n, p | n in seen && NeedsNode(n, p, s) :: p in seen || p in stack)
    && (forall other | ConeClosed(other, target, s) :: seen <= other && forall n | n in stack :: n in other)
    && Reports(missing, seen, s)
    && seen <= Sought(target, s.edgeMap)
    && (forall n | n in stack :: n in Sought(target, s.edgeMap))
  }

  lemma {:induction false} PopSeen(seen: set<Hash>, stack: seq<Hash>, node: Hash, missing: seq<MissingEdge>,
      target: Hash, s: Search)
    requires Traversing(seen, stack + [node], missing, target, s) && node in seen
    ensures Traversing(seen, stack, missing, target, s)
  {
    hide NeedsNode, Reports, ConeClosed, Sought;
  }

  lemma {:induction false} PopNew(seen: set<Hash>, stack: seq<Hash>, node: Hash, missing: seq<MissingEdge>,
      target: Hash, s: Search, pushed: seq<Hash>, found: seq<MissingEdge>)
    requires Traversing(seen, stack + [node], missing, target, s) && node !in seen
    requires forall p :: p in pushed <==> NeedsNode(node, p, s)
    requires forall me :: me in found <==> GapOf(me, node, s)
    ensures Traversing(seen + {node}, stack + pushed, missing + found, target, s)
    ensures Sought(target, s.edgeMap) - (seen + {node}) < Sought(target, s.edgeMap) - seen
  {
    hide NeedsNode, Reports, Sought, GapOf;
    assert node in stack + [node];
    ReportsStep(missing, seen, node, found, s);
    forall p | p in pushed
      ensures p in Sought(target, s.edgeMap)
    {
      NeedsSought(node, p, target, s);
    }
  }

  lemma {:induction false} VisitNew(seen: set<Hash>, stack: seq<Hash>, node: Hash, missing: seq<MissingEdge>,
      target: Hash, s: Search)
    requires Traversing(seen, stack + [node], missing, target, s) && node !in seen
    ensures var es := Candidates(s.rows, node, s.edgeMap);
            && (es == [] ==> Traversing(seen + {node}, stack, missing + [MissingEdge(node, [], [], "")], target, s))
            && (es != [] ==> Traversing(seen + {node}, stack + PushedAt(es, s.established),
                 missing + GapsAt(node, es, s.established), target, s))
    ensures Sought(target, s.edgeMap) - (seen + {node}) < Sought(target, s.edgeMap) - seen
  {
    hide *;
    NodeGaps(node, s);
    var es := Candidates(s.rows, node, s.edgeMap);
    if es == [] {
      PopNew(seen, stack, node, missing, target, s, [], [MissingEdge(node, [], [], "")]);
      assert stack + [] == stack;
    } else {
      PopNew(seen, stack, node, missing, target, s, PushedAt(es, s.established), GapsAt(node, es, s.established));
    }
  }

  /** Report the gaps of one node's candidates and push the nodes they wait for. */
  method ScanCandidates(node: Hash, incoming: seq<Edge>, established: set<Hash>, missing0: seq<MissingEdge>,
      stack0: seq<Hash>) returns (missing: seq<MissingEdge>, stack: seq<Hash>)
    ensures missing == missing0 + GapsAt(node, incoming, established)
    ensures stack == stack0 + PushedAt(incoming, established)
  {
    hide *;
    missing, stack := missing0, stack0;
    GapsBegin(node, established);
    for i := 0 to |incoming|
      invariant missing == missing0 + GapsAt(node, incoming[..i], established)
      invariant stack == stack0 + PushedAt(incoming[..i], established)
    {
      GapsNext(node, incoming, i, established);
      var blocking := Blocking(incoming[i].premises, established);
      if |blocking| > 0 {
        missing := missing + [MissingEdge(node, incoming[i].premises, blocking, incoming[i].rule)];
        stack := stack + blocking;
      }
    }
    assert incoming[..|incoming|] == incoming;
  }

  // ----- The order of the traversal -----

  /** The target and everything pushed while the given nodes were visited, in order. */
  function Pushes(order: seq<Hash>, target: Hash, s: Search): seq<Hash> {
    if order == [] then [target]
    else
      var n := |order| - 1;
      Pushes(order[..n], target, s) + PushedAt(Candidates(s.rows, order[n], s.edgeMap), s.established)
  }

  function Unseen(xs: seq<Hash>, seen: set<Hash>): (r: seq<Hash>)
    ensures forall x :: x in r <==> x in xs && x !in seen
  {
    if xs == [] then []
    else
      var n := |xs| - 1;
      assert xs == xs[..n] + [xs[n]];
      Unseen(xs[..n], seen) + if xs[n] in seen then [] else [xs[n]]
  }

  /** Each node visited is the one pushed last among those not yet visited, and at the end
      there are none. */
  ghost predicate Visits(order: seq<Hash>, target: Hash, s: Search) {
    VisitsSoFar(order, target, s) && Unseen(Pushes(order, target, s), ToSet(order)) == []
  }

  ghost predicate VisitsSoFar(order: seq<Hash>, target: Hash, s: Search) {
    forall i | 0 <= i < |order| :: IsNext(order[i], order[..i], target, s)
  }

  ghost predicate IsNext(node: Hash, order: seq<Hash>, target: Hash, s: Search) {
    var open := Unseen(Pushes(order, target, s), ToSet(order));
    open != [] && node == open[|open| - 1]
  }

  /** The gaps of the nodes, one node after another. */
  function AllGaps(order: seq<Hash>, s: Search): seq<MissingEdge> {
    if order == [] then []
    else
      var n := |order| - 1;
      var es := Candidates(s.rows, order[n], s.edgeMap);
      AllGaps(order[..n], s) +
      if es == [] then [MissingEdge(order[n], [], [], "")] else GapsAt(order[n], es, s.established)
  }

  /** The report, in its order: the gaps of the nodes as the traversal visits them. */
  ghost predicate ReportsInOrder(missing: seq<MissingEdge>, target: Hash, s: Search) {
    exists order :: Visits(order, target, s) && missing == AllGaps(order, s)
  }

  /** There is only one such order, and so one report. */
  lemma {:induction false} VisitsUnique(a: seq<Hash>, b: seq<Hash>, target: Hash, s: Search, n: nat)
    requires Visits(a, target, s) && Visits(b, target, s) && n <= |a|
    ensures n <= |b| && a[..n] == b[..n]
  {
    hide Unseen, Pushes;
    if n > 0 {
      VisitsUnique(a, b, target, s, n - 1);
      assert IsNext(a[n - 1], a[..n - 1], target, s);
      assert b[..|b|] == b;
      assert n - 1 < |b|;
      assert IsNext(b[n - 1], b[..n - 1], target, s);
    }
  }

  lemma {:induction false} ReportUnique(missing: seq<MissingEdge>, missing': seq<MissingEdge>, target: Hash, s: Search)
    requires ReportsInOrder(missing, target, s) && ReportsInOrder(missing', target, s)
    ensures missing == missing'
  {
    hide Visits, AllGaps;
    var a :| Visits(a, target, s) && missing == AllGaps(a, s);
    var b :| Visits(b, target, s) && missing' == AllGaps(b, s);
    hide *;
    SameVisits(a, b, target, s);
  }

  lemma {:induction false} SameVisits(a: seq<Hash>, b: seq<Hash>, target: Hash, s: Search)
    requires Visits(a, target, s) && Visits(b, target, s)
    ensures a == b
  {
    hide Visits;
    VisitsUnique(a, b, target, s, |a|);
    VisitsUnique(b, a, target, s, |b|);
    assert a[..|a|] == a && b[..|b|] == b;
  }

  lemma {:induction false} UnseenAppend(xs: seq<Hash>, ys: seq<Hash>, seen: set<Hash>)
    ensures Unseen(xs + ys, seen) == Unseen(xs, seen) + Unseen(ys, seen)
    decreases |ys|
  {
    if ys == [] {
      assert xs + ys == xs;
    } else {
      var n := |ys| - 1;
      assert (xs + ys)[..|xs + ys| - 1] == xs + ys[..n];
      UnseenAppend(xs, ys[..n], seen);
    }
  }

  lemma {:induction false} UnseenTwice(xs: seq<Hash>, seen: set<Hash>, more: set<Hash>)
    requires seen <= more
    ensures Unseen(Unseen(xs, seen), more) == Unseen(xs, more)
    decreases |xs|
  {
    if xs != [] {
      var n := |xs| - 1;
      UnseenTwice(xs[..n], seen, more);
      UnseenAppend(Unseen(xs[..n], seen), if xs[n] in seen then [] else [xs[n]], more);
      UnseenOne(xs[n], more);
    }
  }

  lemma {:induction false} UnseenOne(x: Hash, seen: set<Hash>)
    ensures Unseen([x], seen) == if x in seen then [] else [x]
    ensures Unseen([], seen) == []
  {
    assert [x][..0] == [];
  }

  /** What the traversal knows of its order: the stack holds, of the nodes not yet visited,
      just what was pushed, in the order in which it was pushed. */
  ghost predicate Ordered(order: seq<Hash>, stack: seq<Hash>, missing: seq<MissingEdge>, target: Hash, s: Search) {
    && VisitsSoFar(order, target, s) && missing == AllGaps(order, s)
    && Unseen(stack, ToSet(order)) == Unseen(Pushes(order, target, s), ToSet(order))
  }

  lemma {:induction false} OrderBegins(target: Hash, s: Search)
    ensures Ordered([], [target], [], target, s)
  {
  }

  lemma {:induction false} OrderSkips(order: seq<Hash>, stack: seq<Hash>, node: Hash, missing: seq<MissingEdge>,
      target: Hash, s: Search)
    requires Ordered(order, stack + [node], missing, target, s) && node in order
    ensures Ordered(order, stack, missing, target, s)
  {
    hide Pushes, AllGaps, VisitsSoFar;
    UnseenAppend(stack, [node], ToSet(order));
    UnseenOne(node, ToSet(order));
    hide Unseen;
  }

  lemma {:induction false} OrderVisits(order: seq<Hash>, stack: seq<Hash>, node: Hash, missing: seq<MissingEdge>,
      target: Hash, s: Search)
    requires Ordered(order, stack + [node], missing, target, s) && node !in order
    ensures var es := Candidates(s.rows, node, s.edgeMap);
            && (es == [] ==> Ordered(order + [node], stack, missing + [MissingEdge(node, [], [], "")], target, s))
            && (es != [] ==> Ordered(order + [node], stack + PushedAt(es, s.established),
                                     missing + GapsAt(node, es, s.established), target, s))
  {
    var next, es := order + [node], Candidates(s.rows, node, s.edgeMap);
    var pushed := PushedAt(es, s.established);
    assert next[..|order|] == order;
    assert Pushes(next, target, s) == Pushes(order, target, s) + pushed;
    assert AllGaps(next, s) == AllGaps(order, s) + if es == [] then [MissingEdge(node, [], [], "")]
                                                   else GapsAt(node, es, s.established);
    assert es == [] ==> stack + pushed == stack;
    hide Pushes, AllGaps, GapsAt, PushedAt, Candidates, Unseen, VisitsSoFar;
    UnseenVisited(order, stack, node, Pushes(order, target, s), pushed);
    NextVisit(order, node, target, s);
  }

  lemma {:induction false} UnseenVisited(order: seq<Hash>, stack: seq<Hash>, node: Hash, pushes: seq<Hash>,
      pushed: seq<Hash>)
    requires Unseen(stack + [node], ToSet(order)) == Unseen(pushes, ToSet(order)) && node !in order
    ensures Unseen(pushes, ToSet(order)) != [] &&
            node == Unseen(pushes, ToSet(order))[|Unseen(pushes, ToSet(order))| - 1]
    ensures Unseen(stack + pushed, ToSet(order + [node])) == Unseen(pushes + pushed, ToSet(order + [node]))
  {
    hide Unseen;
    var seen, more := ToSet(order), ToSet(order + [node]);
    SeenIs(order, node);
    UnseenAppend(stack, [node], seen);
    UnseenOne(node, seen);
    UnseenTwice(stack + [node], seen, more);
    UnseenTwice(pushes, seen, more);
    UnseenAppend(stack, [node], more);
    UnseenOne(node, more);
    UnseenAppend(stack, pushed, more);
    UnseenAppend(pushes, pushed, more);
  }

  lemma {:induction false} NextVisit(order: seq<Hash>, node: Hash, target: Hash, s: Search)
    requires VisitsSoFar(order, target, s) && IsNext(node, order, target, s)
    ensures VisitsSoFar(order + [node], target, s)
  {
    hide IsNext;
    var next := order + [node];
    assert next[..|order|] == order;
    forall i | 0 <= i < |next|
      ensures IsNext(next[i], next[..i], target, s)
    {
      if i < |order| {
        assert next[..i] == order[..i];
      }
    }
  }

  lemma {:induction false} OrderEnds(order: seq<Hash>, missing: seq<MissingEdge>, target: Hash, s: Search)
    requires Ordered(order, [], missing, target, s)
    ensures ReportsInOrder(missing, target, s)
  {
    hide Pushes, AllGaps, VisitsSoFar;
  }

  /** The backward traversal of `path_discovery`. */
  method MissingFrontier(target: Hash, s: Search) returns (missing: seq<MissingEdge>)
    ensures ReportsCone(missing, target, s) && ReportsInOrder(missing, target, s)
  {
    missing := [];
    var seen: set<Hash> := {};
    var stack := [target];
    ghost var order: seq<Hash> := [];
    hide *;
    GoBegins(target, s);
    SeenNothing();
    while |stack| > 0
      invariant Going(order, stack, missing, target, s) && seen == ToSet(order)
      decreases Sought(target, s.edgeMap) - seen, |stack|
    {
      var node := stack[|stack| - 1];
      assert stack == stack[..|stack| - 1] + [node];
      stack := stack[..|stack| - 1];
      SeenIs(order, node);
      if node in seen {
        GoSkips(order, stack, node, missing, target, s);
        continue;
      }
      var incoming := Candidates(s.rows, node, s.edgeMap);
      GoVisits(order, stack, node, missing, target, s);
      if |incoming| == 0 {
        missing := missing + [MissingEdge(node, [], [], "")];
      } else {
        missing, stack := ScanCandidates(node, incoming, s.established, missing, stack);
      }
      seen := seen + {node};
      order := order + [node];
    }
    GoEnds(order, stack, missing, target, s);
  }

  /** All that the traversal keeps. */
  ghost predicate Going(order: seq<Hash>, stack: seq<Hash>, missing: seq<MissingEdge>, target: Hash, s: Search) {
    Traversing(ToSet(order), stack, missing, target, s) && Ordered(order, stack, missing, target, s)
  }

  lemma {:induction false} GoBegins(target: Hash, s: Search)
    ensures Going([], [target], [], target, s)
  {
    NoReports(s);
    OrderBegins(target, s);
    assert ToSet<Hash>([]) == {};
    assert Traversing({}, [target], [], target, s);
  }

  lemma {:induction false} GoSkips(order: seq<Hash>, stack: seq<Hash>, node: Hash, missing: seq<MissingEdge>,
      target: Hash, s: Search)
    requires Going(order, stack + [node], missing, target, s) && node in order
    ensures Going(order, stack, missing, target, s)
  {
    hide Traversing, Ordered;
    SeenIs(order, node);
    PopSeen(ToSet(order), stack, node, missing, target, s);
    OrderSkips(order, stack, node, missing, target, s);
  }

  lemma {:induction false} GoVisits(order: seq<Hash>, stack: seq<Hash>, node: Hash, missing: seq<MissingEdge>,
      target: Hash, s: Search)
    requires Going(order, stack + [node], missing, target, s) && node !in order
    ensures var es := Candidates(s.rows, node, s.edgeMap);
            && (es == [] ==> Going(order + [node], stack, missing + [MissingEdge(node, [], [], "")], target, s))
            && (es != [] ==> Going(order + [node], stack + PushedAt(es, s.established),
                                   missing + GapsAt(node, es, s.established), target, s))
    ensures Sought(target, s.edgeMap) - (ToSet(order) + {node}) < Sought(target, s.edgeMap) - ToSet(order)
  {
    hide Traversing, Ordered, Sought;
    SeenIs(order, node);
    VisitNew(ToSet(order), stack, node, missing, target, s);
    OrderVisits(order, stack, node, missing, target, s);
  }

  lemma {:induction false} GoEnds(order: seq<Hash>, stack: seq<Hash>, missing: seq<MissingEdge>, target: Hash,
      s: Search)
    requires Going(order, stack, missing, target, s) && stack == []
    ensures ReportsCone(missing, target, s) && ReportsInOrder(missing, target, s)
  {
    hide Traversing, Ordered;
    TraversalDone(ToSet(order), missing, target, s);
    OrderEnds(order, missing, target, s);
  }

  lemma {:induction false} SeenNothing()
    ensures ToSet<Hash>([]) == {}
  {
  }

  lemma {:induction false} SeenIs(order: seq<Hash>, node: Hash)
    ensures node in order <==> node in ToSet(order)
    ensures ToSet(order + [node]) == ToSet(order) + {node}
  {
  }

  lemma {:induction false} ConeOf(missing: seq<MissingEdge>, target: Hash, s: Search) returns (nodes: set<Hash>)
    requires ReportsCone(missing, target, s)
    ensures IsCone(nodes, target, s) && Reports(missing, nodes, s)
  {
    hide IsCone, Reports;
    nodes :| IsCone(nodes, target, s) && Reports(missing, nodes, s);
  }

  lemma {:induction false} TraversalDone(seen: set<Hash>, missing: seq<MissingEdge>, target: Hash, s: Search)
    requires Traversing(seen, [], missing, target, s)
    ensures IsCone(seen, target, s) && Reports(missing, seen, s)
    ensures ReportsCone(missing, target, s)
  {
    hide NeedsNode, Reports, Sought;
  }

  lemma {:induction false} GapsBegin(node: Hash, established: set<Hash>)
    ensures GapsAt(node, [], established) == [] && PushedAt([], established) == []
  {
  }

  lemma {:induction false} GapsNext(node: Hash, es: seq<Edge>, i: nat, established: set<Hash>)
    requires i < |es|
    ensures var b := Blocking(es[i].premises, established);
            && GapsAt(node, es[..i + 1], established) ==
                 GapsAt(node, es[..i],
                 established) + (if b == [] then [] else [MissingEdge(node, es[i].premises, b, es[i].rule)])
            && PushedAt(es[..i + 1], established) == PushedAt(es[..i], established) + b
  {
    assert es[..i + 1][..i] == es[..i];
  }

  lemma {:induction false} NoReports(s: Search)
    ensures Reports([], {}, s)
  {
  }

  lemma {:induction false} NodeGaps(node: Hash, s: Search)
    ensures var es := Candidates(s.rows, node, s.edgeMap);
            && (es == [] ==> forall p :: !NeedsNode(node, p, s))
            && (forall p :: NeedsNode(node, p, s) <==> p in PushedAt(es, s.established))
            && (es == [] ==> forall me :: me in [MissingEdge(node, [], [], "")] <==> GapOf(me, node, s))
            && (es != [] ==> forall me :: me in GapsAt(node, es, s.established) <==> GapOf(me, node, s))
  {
  }

  // ----- What the frontier guarantees -----

  /** The index's edge table names the conclusion that the edge's own record names. */
  ghost predicate IndexMatches(store: Store) {
    forall row | row in store.rows ::
      var e := ResolveEdge(row.edge, store.objects);
      e.Some? ==> e.value.conclusion == row.conclusion
  }

  lemma {:induction false} CandidateInCone(en: Entry, edges: seq<Entry>, store: Store, nodes: set<Hash>, target: Hash,
      s: Search, p: Hash)
    requires IsDerivationList(edges, store, None) && IndexMatches(store) && DistinctHashes(edges)
    requires s.rows == store.rows && s.edgeMap == EdgeMap(edges)
    requires ConeClosed(nodes, target, s)
    requires en in edges && en.edge.conclusion in nodes && p in en.edge.premises && p !in s.established
    ensures p in nodes
  {
    hide EdgeMap;
    assert Listed(en.hash, store);
    var row :| row in store.rows && row.edge == en.hash;
    assert Entry(en.hash, s.edgeMap[en.hash]) in edges;
    assert en.edge in Candidates(s.rows, en.edge.conclusion, s.edgeMap);
    assert NeedsNode(en.edge.conclusion, p, s);
  }

  lemma {:induction false} BlockedPremise(e: Edge, kappa: map<Hash, Kappa>, k: Kappa) returns (p: Hash)
    requires EdgeClosed(e, kappa) && Rank(k) <= Rank(e.kappa)
    requires e.conclusion !in Established(kappa, k)
    ensures p in e.premises && p !in Established(kappa, k)
  {
    if !AllIn(e.premises, kappa) {
      p :| p in e.premises && p !in kappa;
    } else {
      p :| p in e.premises && kappa[p] == PathKappa(e, kappa);
    }
  }

  /** A derivation of a cone node, strong enough, must assume a cone node. */
  lemma {:induction false} ConeIsACut(t: Tree, edges: seq<Entry>, assumed: set<Hash>, kappa: map<Hash, Kappa>, k: Kappa,
      nodes: set<Hash>)
    requires forall en | en in edges :: EdgeClosed(en.edge, kappa)
    requires Valid(t, edges, assumed) && Rank(k) <= Rank(Strength(t)) && Root(t) in nodes
    requires nodes !! Established(kappa, k)
    requires forall en, p | en in edges && en.edge.conclusion in nodes && p in en.edge.premises &&
            p !in Established(kappa, k) :: p in nodes
    ensures exists a :: a in assumed && a in nodes
  {
    hide EdgeClosed, Established, Strength;
    if t.Step? {
      StepStrength(t, Rank(k));
      var p := BlockedPremise(t.entry.edge, kappa, k);
      var i :| 0 <= i < |t.entry.edge.premises| && t.entry.edge.premises[i] == p;
      ConeIsACut(t.subs[i], edges, assumed, kappa, k, nodes);
    }
  }

  ghost predicate BlocksSomewhere(p: Hash, missing: seq<MissingEdge>) {
    exists me :: me in missing && p in me.blocking
  }

  lemma {:induction false} NeededBlocks(n: Hash, p: Hash, missing: seq<MissingEdge>, nodes: set<Hash>, s: Search)
    requires Reports(missing, nodes, s) && n in nodes && NeedsNode(n, p, s)
    ensures BlocksSomewhere(p, missing)
  {
    var es := Candidates(s.rows, n, s.edgeMap);
    var e :| e in es && p in Blocking(e.premises, s.established);
    var me := GapAt(n, e, s.established);
    assert GapOf(me, n, s);
    assert me in missing && p in me.blocking;
  }

  lemma {:induction false} BlockingNeeded(p: Hash, missing: seq<MissingEdge>, nodes: set<Hash>, s: Search)
      returns (n: Hash)
    requires Reports(missing, nodes, s) && BlocksSomewhere(p, missing)
    ensures n in nodes && NeedsNode(n, p, s)
  {
    var me :| me in missing && p in me.blocking;
    n :| n in nodes && GapOf(me, n, s);
  }

  /** The cone is the target and the reported blocking nodes. */
  lemma {:induction false} ConeIsReported(missing: seq<MissingEdge>, nodes: set<Hash>, target: Hash, s: Search)
    requires IsCone(nodes, target, s) && Reports(missing, nodes, s)
    ensures forall n :: n in nodes <==> n == target || BlocksSomewhere(n, missing)
  {
    hide BlocksSomewhere, Reports, NeedsNode;
    var named := set n | n in nodes && (n == target || BlocksSomewhere(n, missing));
    forall n, p | n in nodes && NeedsNode(n, p, s)
      ensures p in named
    {
      NeededBlocks(n, p, missing, nodes, s);
    }
    assert ConeClosed(named, target, s);
    forall p | BlocksSomewhere(p, missing)
      ensures p in nodes
    {
      var n := BlockingNeeded(p, missing, nodes, s);
    }
  }

  // ----- What a report says -----

  /** The premises not established, each where it stands. */
  ghost predicate PicksUnestablished(b: seq<Hash>, ps: seq<Hash>, established: set<Hash>, at: seq<nat>) {
    && |at| == |b| && (forall j | 0 <= j < |b| :: at[j] < |ps| && b[j] == ps[at[j]])
    && (forall i, j | 0 <= i < j < |at| :: at[i] < at[j])
    && forall i: nat | i < |ps| :: i in at <==> ps[i] !in established
  }

  lemma {:induction false} BlockingPicks(ps: seq<Hash>, established: set<Hash>) returns (at: seq<nat>)
    ensures PicksUnestablished(Blocking(ps, established), ps, established, at)
  {
    at := [];
    if ps != [] {
      var n := |ps| - 1;
      at := BlockingPicks(ps[..n], established);
      PicksNext(ps, established, at);
      hide Blocking, PicksUnestablished;
      if ps[n] !in established {
        at := at + [n];
      }
    }
  }

  lemma {:induction false} PicksNext(ps: seq<Hash>, established: set<Hash>, at: seq<nat>)
    requires ps != []
    requires var n := |ps| - 1; PicksUnestablished(Blocking(ps[..n], established), ps[..n], established, at)
    ensures var n := |ps| - 1;
            PicksUnestablished(Blocking(ps, established), ps, established,
                if ps[n] in established then at else at + [n])
  {
    hide *;
    var n := |ps| - 1;
    var before := Blocking(ps[..n], established);
    BlockingLast(ps, established);
    LastSplit(ps);
    if ps[n] in established {
      AppendsNothing(before);
      PicksSkip(before, ps[..n], ps[n], established, at);
    } else {
      PicksTake(before, ps[..n], ps[n], established, at);
    }
  }

  lemma {:induction false} LastSplit(ps: seq<Hash>)
    requires ps != []
    ensures ps == ps[..|ps| - 1] + [ps[|ps| - 1]]
  {
  }

  lemma {:induction false} AppendsNothing(ps: seq<Hash>)
    ensures ps + [] == ps
  {
  }

  lemma {:induction false} PicksSkip(b: seq<Hash>, ps: seq<Hash>, p: Hash, established: set<Hash>, at: seq<nat>)
    requires PicksUnestablished(b, ps, established, at) && p in established
    ensures PicksUnestablished(b, ps + [p], established, at)
  {
    forall i | i in at
      ensures i < |ps|
    {
      var j :| 0 <= j < |at| && at[j] == i;
    }
  }

  lemma {:induction false} PicksTake(b: seq<Hash>, ps: seq<Hash>, p: Hash, established: set<Hash>, at: seq<nat>)
    requires PicksUnestablished(b, ps, established, at) && p !in established
    ensures PicksUnestablished(b + [p], ps + [p], established, at + [|ps|])
  {
    forall i | i in at
      ensures i < |ps|
    {
      var j :| 0 <= j < |at| && at[j] == i;
    }
    assert forall i :: i in at + [|ps|] <==> i in at || i == |ps|;
  }

  lemma {:induction false} BlockingLast(ps: seq<Hash>, established: set<Hash>)
    requires ps != []
    ensures var n := |ps| - 1;
            Blocking(ps, established) == Blocking(ps[..n], established) + if ps[n] in established then [] else [ps[n]]
  {
  }

  /** A gap in the report: its conclusion is in the cone; and it is a leaf, which no edge
      concludes, or names an edge listed for it, with that edge's premises and rule, and as
      blocking the premises not established, in order, of which there are some. */
  lemma {:induction false} ReportedGapIs(me: MissingEdge, missing: seq<MissingEdge>, nodes: set<Hash>, s: Search)
    requires Reports(missing, nodes, s) && me in missing
    ensures me.conclusion in nodes
    ensures || (me.premises == me.blocking == [] && me.rule == "" && Candidates(s.rows, me.conclusion, s.edgeMap) == [])
            || exists e :: e in Candidates(s.rows, me.conclusion, s.edgeMap) && me.premises == e.premises
                           && me.rule == e.rule && me.blocking == Blocking(e.premises, s.established) != []
  {
    var n :| n in nodes && GapOf(me, n, s);
  }

  // ----- What closing a gap is worth -----

  lemma {:induction false} MoreSeeds(t: Tree, edges: seq<Entry>, seeds: set<Hash>, more: set<Hash>)
    requires Valid(t, edges, seeds) && seeds <= more
    ensures Valid(t, edges, more)
  {
    if t.Step? {
      forall i | 0 <= i < |t.subs|
        ensures Valid(t.subs[i], edges, more)
      {
        MoreSeeds(t.subs[i], edges, seeds, more);
      }
    }
  }

  ghost predicate MeetsAll(subs: seq<Tree>, ps: seq<Hash>, k: Kappa, edges: seq<Entry>, seeds: set<Hash>) {
    |subs| == |ps| && forall i | 0 <= i < |ps| ::
      Derives(subs[i], edges, seeds, ps[i]) && Rank(k) <= Rank(Strength(subs[i]))
  }

  /** A premise is established, or assumed. */
  lemma {:induction false} PremiseTrees(ps: seq<Hash>, k: Kappa, edges: seq<Entry>, established: set<Hash>,
      seeds: set<Hash>) returns (subs: seq<Tree>)
    requires forall n | n in established :: DerivableAt(n, k, edges, {})
    requires forall p | p in ps :: p in established || p in seeds
    ensures MeetsAll(subs, ps, k, edges, seeds)
  {
    hide Strength, Derives, DerivableAt;
    if ps == [] {
      subs := [];
    } else {
      var last := ps[|ps| - 1];
      assert ps == ps[..|ps| - 1] + [last];
      var before := PremiseTrees(ps[..|ps| - 1], k, edges, established, seeds);
      var t := PremiseTree(last, k, edges, established, seeds);
      subs := before + [t];
    }
  }

  lemma {:induction false} PremiseTree(p: Hash, k: Kappa, edges: seq<Entry>, established: set<Hash>, seeds: set<Hash>)
      returns (t: Tree)
    requires forall n | n in established :: DerivableAt(n, k, edges, {})
    requires p in established || p in seeds
    ensures Derives(t, edges, seeds, p) && Rank(k) <= Rank(Strength(t))
  {
    if p in seeds {
      t := Assume(p);
    } else {
      hide Strength;
      assert DerivableAt(p, k, edges, {});
      t :| Derives(t, edges, {}, p) && Rank(k) <= Rank(Strength(t));
      MoreSeeds(t, edges, {}, seeds);
    }
  }

  ghost predicate EstablishesBy(en: Entry, k: Kappa, edges: seq<Entry>, seeds: set<Hash>) {
    exists t: Tree ::
      t.Step? && t.entry == en && Derives(t, edges, seeds, en.edge.conclusion) && Rank(k) <= Rank(Strength(t))
  }

  /** Assuming what a reported edge waits for makes that edge establish its conclusion at the
      threshold exactly when the edge itself is no weaker than the threshold. */
  lemma {:induction false} ClosedGapIff(en: Entry, k: Kappa, edges: seq<Entry>, established: set<Hash>)
    requires en in edges && forall n | n in established :: DerivableAt(n, k, edges, {})
    ensures EstablishesBy(en, k, edges, ToSet(Blocking(en.edge.premises, established))) <==>
            Rank(k) <= Rank(en.edge.kappa)
  {
    var ps := en.edge.premises;
    var seeds := ToSet(Blocking(ps, established));
    if EstablishesBy(en, k, edges, seeds) {
      WeakEdgeCaps(en, k, edges, seeds);
    }
    if Rank(k) <= Rank(en.edge.kappa) {
      assert forall p | p in ps :: p in established || p in Blocking(ps, established);
      hide *;
      var subs := PremiseTrees(ps, k, edges, established, seeds);
      MetEstablishes(en, subs, k, edges, seeds);
    }
  }

  lemma {:induction false} WeakEdgeCaps(en: Entry, k: Kappa, edges: seq<Entry>, seeds: set<Hash>)
    requires EstablishesBy(en, k, edges, seeds)
    ensures Rank(k) <= Rank(en.edge.kappa)
  {
    hide Strength, Derives;
    var t: Tree :|
      t.Step? && t.entry == en && Derives(t, edges, seeds, en.edge.conclusion) && Rank(k) <= Rank(Strength(t));
    StepStrength(t, Rank(k));
  }

  lemma {:induction false} MetEstablishes(en: Entry, subs: seq<Tree>, k: Kappa, edges: seq<Entry>, seeds: set<Hash>)
    requires en in edges && MeetsAll(subs, en.edge.premises, k, edges, seeds) && Rank(k) <= Rank(en.edge.kappa)
    ensures EstablishesBy(en, k, edges, seeds)
  {
    hide Strength;
    var t := Step(en, subs);
    assert Derives(t, edges, seeds, en.edge.conclusion);
    StepStrength(t, Rank(k));
  }

  /** Then the conclusion is derivable at the threshold. */
  lemma {:induction false} ClosedGapSuffices(en: Entry, k: Kappa, edges: seq<Entry>, established: set<Hash>)
    requires en in edges && forall n | n in established :: DerivableAt(n, k, edges, {})
    requires Rank(k) <= Rank(en.edge.kappa)
    ensures DerivableAt(en.edge.conclusion, k, edges, ToSet(Blocking(en.edge.premises, established)))
  {
    hide Derives, Strength;
    ClosedGapIff(en, k, edges, established);
  }

  ghost predicate MeetsFrontier(assumed: set<Hash>, target: Hash, missing: seq<MissingEdge>) {
    exists a :: a in assumed && (a == target || BlocksSomewhere(a, missing))
  }

  /** Whatever would make the target derivable assumes it or a reported blocking node. */
  lemma {:induction false} FrontierComplete(assumed: set<Hash>, target: Hash, k: Kappa, missing: seq<MissingEdge>,
      nodes: set<Hash>, edges: seq<Entry>, kappa: map<Hash, Kappa>, store: Store)
    requires IsDerivationList(edges, store, None) && DistinctHashes(edges) && IndexMatches(store)
    requires forall en | en in edges :: EdgeClosed(en.edge, kappa)
    requires var s := Search(store.rows, EdgeMap(edges), Established(kappa, k));
             IsCone(nodes, target, s) && Reports(missing, nodes, s)
    requires nodes !! Established(kappa, k)
    requires DerivableAt(target, k, edges, assumed)
    ensures MeetsFrontier(assumed, target, missing)
  {
    hide IsDerivationList, DistinctHashes, IndexMatches, EdgeClosed, Reports, EdgeMap, Valid, Strength, BlocksSomewhere,
        Established, NeedsNode;
    var s := Search(store.rows, EdgeMap(edges), Established(kappa, k));
    var t :| Derives(t, edges, assumed, target) && Rank(k) <= Rank(Strength(t));
    forall en, p | en in edges && en.edge.conclusion in nodes && p in en.edge.premises && p !in Established(kappa, k)
      ensures p in nodes
    {
      CandidateInCone(en, edges, store, nodes, target, s, p);
    }
    ConeIsACut(t, edges, assumed, kappa, k, nodes);
    ConeIsReported(missing, nodes, target, s);
  }

  lemma {:induction false} ConeUnestablished(nodes: set<Hash>, target: Hash, s: Search)
    requires IsCone(nodes, target, s) && target !in s.established
    ensures nodes !! s.established
  {
    var open := nodes - s.established;
    forall n, p | n in open && NeedsNode(n, p, s)
      ensures p in open
    {
      var e :| e in Candidates(s.rows, n, s.edgeMap) && p in Blocking(e.premises, s.established);
    }
    assert ConeClosed(open, target, s);
  }

  /** The target has candidate edges, and none of them waits for a premise. */
  ghost predicate OnlyTooWeak(target: Hash, s: Search) {
    var es := Candidates(s.rows, target, s.edgeMap);
    es != [] && forall e, p | e in es && p in e.premises :: p in s.established
  }

  /** The frontier can be empty: exactly when every way to the target has all its
      premises and is simply too weak. */
  lemma {:induction false} EmptyFrontier(missing: seq<MissingEdge>, nodes: set<Hash>, target: Hash, s: Search)
    requires IsCone(nodes, target, s) && Reports(missing, nodes, s)
    ensures missing == [] <==> OnlyTooWeak(target, s)
  {
    hide Reports, GapOf, NeedsNode;
    if OnlyTooWeak(target, s) {
      NothingBlocks(target, s);
      assert ConeClosed({target}, target, s);
      if missing != [] {
        var n := ReportedGap(missing[0], missing, nodes, s);
      }
    } else {
      var me := SomethingBlocks(target, s);
      GapReported(me, target, missing, nodes, s);
    }
  }

  lemma {:induction false} ReportedGap(me: MissingEdge, missing: seq<MissingEdge>, nodes: set<Hash>, s: Search)
      returns (n: Hash)
    requires Reports(missing, nodes, s) && me in missing
    ensures n in nodes && GapOf(me, n, s)
  {
    hide GapOf;
    n :| n in nodes && GapOf(me, n, s);
  }

  lemma {:induction false} GapReported(me: MissingEdge, n: Hash, missing: seq<MissingEdge>, nodes: set<Hash>, s: Search)
    requires Reports(missing, nodes, s) && n in nodes && GapOf(me, n, s)
    ensures me in missing
  {
    hide GapOf;
  }

  lemma {:induction false} SomethingBlocks(target: Hash, s: Search) returns (me: MissingEdge)
    requires !OnlyTooWeak(target, s)
    ensures GapOf(me, target, s)
  {
    var es := Candidates(s.rows, target, s.edgeMap);
    if es == [] {
      me := MissingEdge(target, [], [], "");
    } else {
      var e :| e in es && Blocking(e.premises, s.established) != [];
      me := GapAt(target, e, s.established);
    }
  }

  lemma {:induction false} NothingBlocks(target: Hash, s: Search)
    requires OnlyTooWeak(target, s)
    ensures forall p :: !NeedsNode(target, p, s)
    ensures forall me :: !GapOf(me, target, s)
  {
    assert forall e | e in Candidates(s.rows, target, s.edgeMap) :: Blocking(e.premises, s.established) == [];
  }

  /**
   What the path query promises. A reachable target comes with its best strength and lowest
   depth and no gaps. For one that is not, the cone holds no established node, the report
   is exactly the cone's gaps, whatever would make the target derivable must assume it or a
   blocking node, and the report is empty exactly when the target's edges are all too weak.
   */
  ghost predicate DiscoversWith(r: PathResult, target: Hash, k: Kappa, store: Store, edges: seq<Entry>,
      established: set<Hash>, visited: set<Hash>) {
    var s := Search(store.rows, EdgeMap(edges), established);
    && r.target == target
    && (r.reachable <==> target in established)
    && (forall n :: n in established <==> DerivableAt(n, k, edges, {}))
    && (r.kappa.Some? <==> exists t :: Derives(t, edges, {}, target))
    && (r.kappa.Some? <==> r.depth.Some?)
    && (r.kappa.Some? ==>
         StrongestDerivation(target, r.kappa.value, edges, {}) && LowestDerivation(target, r.depth.value, edges, {}))
    && (r.reachable ==> r.missing == [])
    && (!r.reachable ==>
          && IsCone(visited, target, s) && Reports(r.missing, visited, s) && ReportsInOrder(r.missing, target, s)
          && visited !! established
          && (forall n :: n in visited <==> n == target || BlocksSomewhere(n, r.missing))
          && (r.missing == [] <==> OnlyTooWeak(target, s)))
  }

  ghost predicate Discovers(r: PathResult, target: Hash, k: Kappa, store: Store, edges: seq<Entry>) {
    exists established, visited :: DiscoversWith(r, target, k, store, edges, established, visited)
  }

  /** `path_discovery`. */
  method Discover(target: Hash, store: Store, minKappa: Kappa) returns (r: PathResult)
    ensures Discovers(r, target, minKappa, store, DerivationList(store, None))
    ensures !r.reachable && IndexMatches(store) ==>
              forall assumed | DerivableAt(target, minKappa, DerivationList(store, None), assumed) ::
                  MeetsFrontier(assumed, target, r.missing)
  {
    var list := DerivationEdges(store, None);
    DerivationListIs(store, None);
    var kappa, depth, best, _, _ := Fixpoint(list, []);
    var good := Established(kappa, minKappa);
    var s := Search(store.rows, EdgeMap(list), good);
    hide *;
    FixpointDiscovers(target, minKappa, list, kappa, depth, best);
    if target in good {
      TargetGood(target, minKappa, list, kappa, depth);
      r := PathResult(target, true, Some(depth[target]), Some(kappa[target]), []);
      ReachableDiscovers(r, target, minKappa, store, list, kappa, depth, {});
      return;
    }
    var actualKappa := if target in kappa then Some(kappa[target]) else None;
    var actualDepth := if target in depth then Some(depth[target]) else None;
    var missing := MissingFrontier(target, s);
    ghost var visited := ConeOf(missing, target, s);
    r := PathResult(target, false, actualDepth, actualKappa, missing);
    ConeUnestablished(visited, target, s);
    ConeIsReported(missing, visited, target, s);
    EmptyFrontier(missing, visited, target, s);
    UnreachableDiscovers(r, target, minKappa, store, list, kappa, depth, visited);
    AllMeetFrontier(target, minKappa, missing, visited, list, kappa, store);
  }

  lemma {:induction false} AllMeetFrontier(target: Hash, k: Kappa, missing: seq<MissingEdge>, nodes: set<Hash>,
      edges: seq<Entry>, kappa: map<Hash, Kappa>, store: Store)
    requires IsDerivationList(edges, store, None) && DistinctHashes(edges)
    requires forall en | en in edges :: EdgeClosed(en.edge, kappa)
    requires var s := Search(store.rows, EdgeMap(edges), Established(kappa, k));
             IsCone(nodes, target, s) && Reports(missing, nodes, s)
    requires nodes !! Established(kappa, k)
    ensures IndexMatches(store) ==>
            forall assumed | DerivableAt(target, k, edges, assumed) :: MeetsFrontier(assumed, target, missing)
  {
    hide *;
    forall assumed | IndexMatches(store) && DerivableAt(target, k, edges, assumed)
      ensures MeetsFrontier(assumed, target, missing)
    {
      FrontierComplete(assumed, target, k, missing, nodes, edges, kappa, store);
    }
  }

  ghost predicate Summarises(target: Hash, k: Kappa, edges: seq<Entry>, kappa: map<Hash, Kappa>,
      depth: map<Hash, nat>) {
    && (target in kappa <==> exists t :: Derives(t, edges, {}, target))
    && (target in kappa <==> target in depth)
    && (target in kappa ==>
         StrongestDerivation(target, kappa[target], edges, {}) && LowestDerivation(target, depth[target], edges, {}))
    && (forall n :: n in Established(kappa, k) <==> DerivableAt(n, k, edges, {}))
  }

  lemma {:induction false} FixpointDiscovers(target: Hash, k: Kappa, edges: seq<Entry>, kappa: map<Hash, Kappa>,
      depth: map<Hash, nat>, best: map<Hash, Hash>)
    requires IsFixpoint(edges, [], kappa, depth, best)
    ensures Summarises(target, k, edges, kappa, depth)
    ensures forall en | en in edges :: EdgeClosed(en.edge, kappa)
  {
    hide StrongestDerivation, LowestDerivation, DerivableAt, Derives, Optimal, Shallowest, WellStamped, KeepsSeeds,
        EdgeClosed;
    assert ToSet<Hash>([]) == {};
    FixpointAnswers(target, k, edges, [], kappa, depth, best);
    forall n
      ensures n in Established(kappa, k) <==> DerivableAt(n, k, edges, {})
    {
      FixpointAnswers(n, k, edges, [], kappa, depth, best);
    }
  }

  lemma {:induction false} TargetGood(target: Hash, k: Kappa, edges: seq<Entry>, kappa: map<Hash, Kappa>,
      depth: map<Hash, nat>)
    requires Summarises(target, k, edges, kappa, depth)
    requires target in Established(kappa, k)
    ensures target in kappa && target in depth
  {
  }

  lemma {:induction false} ReachableDiscovers(r: PathResult, target: Hash, k: Kappa, store: Store, edges: seq<Entry>,
      kappa: map<Hash, Kappa>, depth: map<Hash, nat>, visited: set<Hash>)
    requires Summarises(target, k, edges, kappa, depth)
    requires target in kappa && target in depth && target in Established(kappa, k)
    requires r == PathResult(target, true, Some(depth[target]), Some(kappa[target]), [])
    ensures DiscoversWith(r, target, k, store, edges, Established(kappa, k), visited)
    ensures Discovers(r, target, k, store, edges)
  {
    hide StrongestDerivation, LowestDerivation, DerivableAt, Derives, Established, EdgeMap;
  }

  lemma {:induction false} UnreachableDiscovers(r: PathResult, target: Hash, k: Kappa, store: Store, edges: seq<Entry>,
      kappa: map<Hash, Kappa>, depth: map<Hash, nat>, visited: set<Hash>)
    requires Summarises(target, k, edges, kappa, depth)
    requires target !in Established(kappa, k)
    requires r.target == target && !r.reachable
    requires r.kappa == if target in kappa then Some(kappa[target]) else None
    requires r.depth == if target in depth then Some(depth[target]) else None
    requires var s := Search(store.rows, EdgeMap(edges), Established(kappa, k));
             && IsCone(visited, target, s) && Reports(r.missing, visited, s) && ReportsInOrder(r.missing, target, s)
             && visited !! Established(kappa, k)
             && (forall n :: n in visited <==> n == target || BlocksSomewhere(n, r.missing))
             && (r.missing == [] <==> OnlyTooWeak(target, s))
    ensures DiscoversWith(r, target, k, store, edges, Established(kappa, k), visited)
    ensures Discovers(r, target, k, store, edges)
  {
    hide StrongestDerivation, LowestDerivation, DerivableAt, Derives, Established, EdgeMap, IsCone, Reports,
        OnlyTooWeak, BlocksSomewhere;
  }

  /** What the path query says, threshold by threshold. */
  lemma {:induction false} ReachableAtEach(r: PathResult, target: Hash, k: Kappa, store: Store, edges: seq<Entry>)
    requires Discovers(r, target, k, store, edges)
    ensures k == K0 ==> (r.reachable <==> DerivableFrom(target, {K0, K1, K2, K3, KInf}, edges, {}))
    ensures k == K1 ==> (r.reachable <==> DerivableFrom(target, {K1, K2, K3, KInf}, edges, {}))
    ensures k == K2 ==> (r.reachable <==> DerivableFrom(target, {K2, K3, KInf}, edges, {}))
    ensures k == K3 ==> (r.reachable <==> DerivableFrom(target, {K3, KInf}, edges, {}))
    ensures k == KInf ==> (r.reachable <==> DerivableFrom(target, {KInf}, edges, {}))
  {
    ThresholdMeans(target, k, edges, {});
    hide StrongestDerivation, LowestDerivation, DerivableAt, DerivableFrom, IsCone, Reports, OnlyTooWeak,
        BlocksSomewhere;
    var established, visited :| DiscoversWith(r, target, k, store, edges, established, visited);
    assert target in established <==> DerivableAt(target, k, edges, {});
  }
}
