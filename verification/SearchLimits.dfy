/**
  When the two limits of the bounded search cost nothing: exactly for which sizes of
  graph, and for which lengths of walk, the answer is the same as without them.
 */
module SearchLimits {
  import opened Wrappers
  import opened Sequences
  import opened BoundedSearch

  // ------------------------------------------------ Searching all there is

  ghost predicate Closed<N(!new)>(p: Problem<N>, nodes: set<N>) {
    forall m, n :: m in nodes && n in p.children(m) ==> n in nodes
  }

  lemma {:induction false} ClosedHoldsReachable<N(!new)>(p: Problem<N>, root: N, nodes: set<N>, n: N, steps: nat)
    requires Closed(p, nodes) && root in nodes && ReachableIn(p, root, n, steps)
    ensures n in nodes
    decreases steps
  {
    if steps > 0 {
      var m :| ReachableIn(p, root, m, steps - 1) && n in p.children(m);
      ClosedHoldsReachable(p, root, nodes, m, steps - 1);
    }
  }

  ghost predicate IsPending<N(!new)>(pending: seq<Entry<N>>, n: N) {
    exists i :: 0 <= i < |pending| && pending[i].node == n
  }

  /** Every child of a node already tested is tested too, or pending. */
  ghost predicate Frontier<N(!new)>(p: Problem<N>, pending: seq<Entry<N>>, seen: set<N>) {
    forall m, n :: m in seen && n in p.children(m) ==> n in seen || IsPending(pending, n)
  }

  /** A walk from the root along children that meets no node twice. */
  ghost predicate Trail<N(!new)>(p: Problem<N>, root: N, path: seq<N>) {
    && |path| > 0 && path[0] == root && Distinct(path)
    && forall i :: 0 <= i < |path| - 1 ==> path[i + 1] in p.children(path[i])
  }

  /** No trail is longer than `steps` edges. */
  ghost predicate TrailsWithin<N(!new)>(p: Problem<N>, root: N, steps: nat) {
    forall path :: Trail(p, root, path) ==> |path| <= steps + 1
  }

  /** The entry hangs off the end of `up`, a trail of nodes tested, at its depth. */
  ghost predicate Leads<N(!new)>(p: Problem<N>, root: N, seen: set<N>, e: Entry<N>, up: seq<N>) {
    && |up| == e.depth && (forall n :: n in up ==> n in seen)
    && if up == [] then e.node == root else Trail(p, root, up) && e.node in p.children(up[|up| - 1])
  }

  ghost predicate Led<N(!new)>(p: Problem<N>, root: N, seen: set<N>, e: Entry<N>) {
    exists up :: Leads(p, root, seen, e, up)
  }

  /** The pending nodes lie in `nodes`, each at the end of a trail of nodes tested. */
  ghost predicate PendingWithin<N(!new)>(p: Problem<N>, root: N, pending: seq<Entry<N>>, nodes: set<N>, seen: set<N>) {
    forall i :: 0 <= i < |pending| ==> pending[i].node in nodes && Led(p, root, seen, pending[i])
  }

  /** A node not tested yet extends the trail to it. */
  lemma TrailExtends<N(!new)>(p: Problem<N>, root: N, seen: set<N>, e: Entry<N>, up: seq<N>)
    requires Leads(p, root, seen, e, up) && e.node !in seen
    ensures Trail(p, root, up + [e.node])
  {
    var path := up + [e.node];
    forall i, j | 0 <= i < j < |path|
      ensures path[i] != path[j]
    {
      assert path[i] in up;
    }
  }

  lemma LedStays<N(!new)>(p: Problem<N>, root: N, seen: set<N>, e: Entry<N>, node: N)
    requires Led(p, root, seen, e)
    ensures Led(p, root, seen + {node}, e)
  {
    var up :| Leads(p, root, seen, e, up);
    assert Leads(p, root, seen + {node}, e, up);
  }

  lemma ChildIsLed<N(!new)>(p: Problem<N>, root: N, seen: set<N>, e: Entry<N>, child: N)
    requires Led(p, root, seen, e) && e.node !in seen && child in p.children(e.node)
    ensures Led(p, root, seen + {e.node}, Entry(child, e.depth + 1))
  {
    var up :| Leads(p, root, seen, e, up);
    TrailExtends(p, root, seen, e, up);
    assert Leads(p, root, seen + {e.node}, Entry(child, e.depth + 1), up + [e.node]);
  }

  lemma TrailExtendsTwice<N(!new)>(p: Problem<N>, root: N, seen: set<N>, e: Entry<N>, up: seq<N>, child: N)
    requires Leads(p, root, seen, e, up) && e.node !in seen && child in p.children(e.node) && child !in seen + {e.node}
    ensures Trail(p, root, up + [e.node] + [child])
  {
    TrailExtends(p, root, seen, e, up);
    assert Leads(p, root, seen + {e.node}, Entry(child, e.depth + 1), up + [e.node]);
    TrailExtends(p, root, seen + {e.node}, Entry(child, e.depth + 1), up + [e.node]);
  }

  /** At the depth limit every child has been tested, when no trail is longer. */
  lemma CutLosesNothing<N(!new)>(p: Problem<N>, root: N, seen: set<N>, e: Entry<N>, child: N)
    requires TrailsWithin(p, root, p.maxDepth) && Led(p, root, seen, e) && e.node !in seen
    requires e.depth >= p.maxDepth && child in p.children(e.node)
    ensures child in seen + {e.node}
  {
    var up :| Leads(p, root, seen, e, up);
    if child !in seen + {e.node} {
      TrailExtendsTwice(p, root, seen, e, up, child);
    }
  }

  lemma PoppedSeen<N(!new)>(p: Problem<N>, pending: seq<Entry<N>>, seen: set<N>, n: N)
    requires pending != [] && IsPending(pending, n)
    ensures n == pending[0].node || IsPending(pending[1..], n)
  {
    var i :| 0 <= i < |pending| && pending[i].node == n;
    if i > 0 {
      assert pending[1..][i - 1].node == n;
    }
  }

  lemma FrontierAfterPop<N(!new)>(p: Problem<N>, pending: seq<Entry<N>>, seen: set<N>)
    requires pending != [] && Frontier(p, pending, seen)
    ensures forall m, n :: m in seen && n in p.children(m) ==> n in seen + {pending[0].node} || IsPending(pending[1..], n)
  {
    forall m, n | m in seen && n in p.children(m)
      ensures n in seen + {pending[0].node} || IsPending(pending[1..], n)
    {
      if n !in seen {
        PoppedSeen(p, pending, seen, n);
      }
    }
  }

  lemma FrontierAfterVisit<N(!new)>(p: Problem<N>, root: N, pending: seq<Entry<N>>, seen: set<N>)
    requires pending != [] && Frontier(p, pending, seen) && TrailsWithin(p, root, p.maxDepth)
    requires Led(p, root, seen, pending[0]) && pending[0].node !in seen
    ensures Frontier(p, Deeper(p, pending[0]) + pending[1..], seen + {pending[0].node})
  {
    FrontierAfterPop(p, pending, seen);
    var e, deeper := pending[0], Deeper(p, pending[0]);
    var after := deeper + pending[1..];
    forall m, n | m in seen + {e.node} && n in p.children(m)
      ensures n in seen + {e.node} || IsPending(after, n)
    {
      if m == e.node && e.depth >= p.maxDepth {
        CutLosesNothing(p, root, seen, e, n);
      } else if m == e.node {
        var k :| 0 <= k < |p.children(e.node)| && p.children(e.node)[k] == n;
        assert after[k].node == n;
      } else if n !in seen + {e.node} {
        var k :| 0 <= k < |pending[1..]| && pending[1..][k].node == n;
        assert after[|deeper| + k].node == n;
      }
    }
  }

  ghost predicate AllTested<N(!new)>(pending: seq<Entry<N>>, tested: set<N>) {
    forall i :: 0 <= i < |pending| ==> pending[i].node in tested
  }

  /** `tested` holds the pending nodes and, with every node, its children. */
  ghost predicate Exhausted<N(!new)>(p: Problem<N>, pending: seq<Entry<N>>, tested: set<N>) {
    Closed(p, tested) && AllTested(pending, tested)
  }

  lemma PendingWithinAfterVisit<N(!new)>(p: Problem<N>, root: N, pending: seq<Entry<N>>, nodes: set<N>, seen: set<N>)
    requires Closed(p, nodes) && pending != [] && PendingWithin(p, root, pending, nodes, seen) && pending[0].node !in seen
    ensures PendingWithin(p, root, Deeper(p, pending[0]) + pending[1..], nodes, seen + {pending[0].node})
  {
    var e, deeper := pending[0], Deeper(p, pending[0]);
    var after := deeper + pending[1..];
    assert e.node in nodes && Led(p, root, seen, e);
    forall i | 0 <= i < |after|
      ensures after[i].node in nodes && Led(p, root, seen + {e.node}, after[i])
    {
      if i < |deeper| {
        assert after[i].node in p.children(e.node);
        ChildIsLed(p, root, seen, e, after[i].node);
      } else {
        assert after[i] == pending[i - |deeper| + 1];
        LedStays(p, root, seen, after[i], e.node);
      }
    }
  }

  lemma AllTestedAfterPop<N(!new)>(pending: seq<Entry<N>>, deeper: seq<Entry<N>>, tested: set<N>)
    requires pending != [] && pending[0].node in tested && AllTested(deeper + pending[1..], tested)
    ensures AllTested(pending, tested)
  {
    forall i | 0 <= i < |pending|
      ensures pending[i].node in tested
    {
      if i > 0 {
        assert pending[i] == (deeper + pending[1..])[|deeper| + i - 1];
      }
    }
  }

  lemma FrontierWhenEmpty<N(!new)>(p: Problem<N>, seen: set<N>)
    requires Frontier(p, [], seen)
    ensures Exhausted(p, [], seen + {})
  {
    assert seen + {} == seen;
  }

  /** Unless a match stops it or the nodes run out, the search tests every node it can
      reach, as long as no trail is longer than the depth limit. */
  lemma {:induction false} SearchCloses<N(!new)>(p: Problem<N>, root: N, pending: seq<Entry<N>>, seen: set<N>, budget: nat, nodes: set<N>)
    requires Closed(p, nodes) && TrailsWithin(p, root, p.maxDepth) && seen <= nodes
    requires Frontier(p, pending, seen) && PendingWithin(p, root, pending, nodes, seen)
    ensures var o := Search(p, pending, seen, budget);
            var tested := seen + AsSet(o.visited);
            tested <= nodes && (o.found.None? && |o.visited| < budget ==> Exhausted(p, pending, tested))
    decreases budget, |pending|
  {
    if pending == [] {
      FrontierWhenEmpty(p, seen);
    } else if budget > 0 {
      var node := pending[0].node;
      assert node in nodes;
      if node in seen {
        SearchClosesAfterRepeat(p, root, pending, seen, budget, nodes);
      } else if !p.matches(node) {
        SearchClosesAfterVisit(p, root, pending, seen, budget, nodes);
      }
    }
  }

  lemma {:induction false} SearchClosesAfterRepeat<N(!new)>(p: Problem<N>, root: N, pending: seq<Entry<N>>, seen: set<N>, budget: nat, nodes: set<N>)
    requires Closed(p, nodes) && TrailsWithin(p, root, p.maxDepth) && seen <= nodes
    requires Frontier(p, pending, seen) && PendingWithin(p, root, pending, nodes, seen)
    requires budget > 0 && pending != [] && pending[0].node in seen
    ensures var o := Search(p, pending, seen, budget);
            var tested := seen + AsSet(o.visited);
            tested <= nodes && (o.found.None? && |o.visited| < budget ==> Exhausted(p, pending, tested))
    decreases budget, |pending|, 0
  {
    FrontierAfterPop(p, pending, seen);
    assert seen + {pending[0].node} == seen;
    SearchCloses(p, root, pending[1..], seen, budget, nodes);
    var tested := seen + AsSet(Search(p, pending[1..], seen, budget).visited);
    assert [] + pending[1..] == pending[1..];
    if AllTested(pending[1..], tested) {
      AllTestedAfterPop(pending, [], tested);
    }
  }

  lemma {:induction false} SearchClosesAfterVisit<N(!new)>(p: Problem<N>, root: N, pending: seq<Entry<N>>, seen: set<N>, budget: nat, nodes: set<N>)
    requires Closed(p, nodes) && TrailsWithin(p, root, p.maxDepth) && seen <= nodes
    requires Frontier(p, pending, seen) && PendingWithin(p, root, pending, nodes, seen)
    requires budget > 0 && pending != [] && pending[0].node in nodes - seen && !p.matches(pending[0].node)
    ensures var o := Search(p, pending, seen, budget);
            var tested := seen + AsSet(o.visited);
            tested <= nodes && (o.found.None? && |o.visited| < budget ==> Exhausted(p, pending, tested))
    decreases budget, |pending|, 0
  {
    hide Closed, TrailsWithin, Frontier, Led, Exhausted, Deeper, AsSet;
    var e := pending[0];
    var after := Deeper(p, e) + pending[1..];
    FrontierAfterVisit(p, root, pending, seen);
    PendingWithinAfterVisit(p, root, pending, nodes, seen);
    SearchCloses(p, root, after, seen + {e.node}, budget - 1, nodes);
    var rest := Search(p, after, seen + {e.node}, budget - 1);
    ClosesOneMore(p, pending, Deeper(p, e), seen, rest.visited);
    assert Search(p, pending, seen, budget) == Outcome([e.node] + rest.visited, rest.found);
  }

  lemma ClosesOneMore<N(!new)>(p: Problem<N>, pending: seq<Entry<N>>, deeper: seq<Entry<N>>, seen: set<N>, rest: seq<N>)
    requires pending != []
    ensures var node := pending[0].node;
            var tested := seen + {node} + AsSet(rest);
            && seen + AsSet([node] + rest) == tested
            && (Exhausted(p, deeper + pending[1..], tested) ==> Exhausted(p, pending, tested))
  {
    var tested := seen + {pending[0].node} + AsSet(rest);
    VisitedSplits(seen, pending[0].node, rest);
    if AllTested(deeper + pending[1..], tested) {
      AllTestedAfterPop(pending, deeper, tested);
    }
  }

  function AsSet<N>(s: seq<N>): set<N> {
    set n | n in s
  }

  lemma VisitedSplits<N(!new)>(seen: set<N>, node: N, rest: seq<N>)
    ensures seen + AsSet([node] + rest) == seen + {node} + AsSet(rest)
  {
  }

  lemma {:induction false} SubsetIsSmaller<N(!new)>(a: set<N>, b: set<N>)
    requires a <= b
    ensures |a| <= |b| && (|a| == |b| ==> a == b)
  {
    assert b == a + (b - a);
    assert |b| == |a| + |b - a|;
  }

  lemma {:induction false} DistinctFillSet<N(!new)>(s: seq<N>)
    requires Distinct(s)
    ensures |AsSet(s)| == |s|
  {
    if s != [] {
      var init, last := s[..|s| - 1], s[|s| - 1];
      DistinctFillSet(init);
      assert AsSet(s) == AsSet(init) + {last};
    }
  }

  /** Nothing is returned just when no reachable node matches. */
  ghost predicate Exact<N(!new)>(p: Problem<N>, root: N) {
    SearchFrom(p, root).found.None? <==> forall n :: Reachable(p, root, n) ==> !p.matches(n)
  }

  /** Some set of `n` nodes holds the root and, with every node, its children. */
  ghost predicate Spans<N(!new)>(p: Problem<N>, root: N, nodes: set<N>, n: nat) {
    Closed(p, nodes) && root in nodes && |nodes| == n
  }

  /** The nodes hold the root, are closed, and fit the node limit. */
  ghost predicate FitsNodes<N(!new)>(p: Problem<N>, root: N, nodes: set<N>) {
    Closed(p, nodes) && root in nodes && |nodes| <= p.maxNodes
  }

  lemma RootIsLed<N(!new)>(p: Problem<N>, root: N, nodes: set<N>)
    requires root in nodes
    ensures Frontier(p, [Entry(root, 0)], {}) && PendingWithin(p, root, [Entry(root, 0)], nodes, {})
  {
    assert Leads(p, root, {}, Entry(root, 0), []);
  }

  /** The answer is exact on every graph, however large, whose nodes within reach are no
      more than the node limit, and whose trails are no longer than the depth limit. */
  lemma SearchIsExactOnShortTrails<N(!new)>(p: Problem<N>, root: N, nodes: set<N>)
    requires FitsNodes(p, root, nodes) && TrailsWithin(p, root, p.maxDepth)
    ensures Exact(p, root)
  {
    var o := SearchFrom(p, root);
    if o.found.Some? {
      FoundIsReachableMatch(p, root);
    } else {
      TestsAreBounded(p, [Entry(root, 0)], {}, p.maxNodes);
      RootIsLed(p, root, nodes);
      SearchCloses(p, root, [Entry(root, 0)], {}, p.maxNodes, nodes);
      var tested := {} + AsSet(o.visited);
      if |o.visited| == p.maxNodes {
        DistinctFillSet(o.visited);
        assert tested == AsSet(o.visited);
        SubsetIsSmaller(tested, nodes);
      } else {
        assert [Entry(root, 0)][0].node == root;
      }
      forall n | Reachable(p, root, n)
        ensures !p.matches(n)
      {
        var steps: nat :| ReachableIn(p, root, n, steps);
        ClosedHoldsReachable(p, root, tested, n, steps);
      }
    }
  }

  lemma {:induction false} TrailStaysInside<N(!new)>(p: Problem<N>, root: N, nodes: set<N>, path: seq<N>, i: nat)
    requires Closed(p, nodes) && root in nodes && Trail(p, root, path) && i < |path|
    ensures path[i] in nodes
  {
    if i > 0 {
      TrailStaysInside(p, root, nodes, path, i - 1);
      assert path[i - 1 + 1] in p.children(path[i - 1]);
    }
  }

  /** A trail has no more nodes than a closed set around its root. */
  lemma TrailsFitClosedSet<N(!new)>(p: Problem<N>, root: N, nodes: set<N>, steps: nat)
    requires Closed(p, nodes) && root in nodes && |nodes| <= steps + 1
    ensures TrailsWithin(p, root, steps)
  {
    forall path | Trail(p, root, path)
      ensures |path| <= steps + 1
    {
      forall n | n in AsSet(path)
        ensures n in nodes
      {
        var i :| 0 <= i < |path| && path[i] == n;
        TrailStaysInside(p, root, nodes, path, i);
      }
      DistinctFillSet(path);
      SubsetIsSmaller(AsSet(path), nodes);
    }
  }

  /** So it is exact whenever the nodes within reach fit both limits, the root being at
      depth 0. */
  lemma SearchIsExactWithinLimits<N(!new)>(p: Problem<N>, root: N, nodes: set<N>)
    requires FitsNodes(p, root, nodes) && |nodes| <= p.maxDepth + 1
    ensures Exact(p, root)
  {
    TrailsFitClosedSet(p, root, nodes, p.maxDepth);
    SearchIsExactOnShortTrails(p, root, nodes);
  }

  // -------------------------------------------------- The limits are the right ones

  /** A chain of nodes 0, 1, ..., `last`. */
  function ChainChildren(last: int): int -> seq<int> {
    (k: int) => if 0 <= k < last then [k + 1] else []
  }

  /** The chain of `n` nodes, of which the last matches. */
  function Chain(n: nat, maxNodes: nat, maxDepth: nat): Problem<int> {
    Problem((k: int) => k == n - 1, ChainChildren(n - 1), maxNodes, maxDepth)
  }

  function Below(n: nat): (below: set<int>)
    ensures forall k :: k in below <==> 0 <= k < n
  {
    if n == 0 then {} else Below(n - 1) + {n - 1}
  }

  lemma {:induction false} BelowHas(n: nat)
    ensures |Below(n)| == n
  {
    if n > 0 {
      BelowHas(n - 1);
    }
  }

  lemma ChainSpans(n: nat, maxNodes: nat, maxDepth: nat)
    requires n > 0
    ensures Spans(Chain(n, maxNodes, maxDepth), 0, Below(n), n)
  {
    hide Below;
    BelowHas(n);
  }

  lemma {:induction false} ChainReaches(n: nat, maxNodes: nat, maxDepth: nat, k: nat)
    requires k < n
    ensures ReachableIn(Chain(n, maxNodes, maxDepth), 0, k, k)
  {
    if k > 0 {
      ChainReaches(n, maxNodes, maxDepth, k - 1);
      assert Chain(n, maxNodes, maxDepth).children(k - 1)[0] == k;
    }
  }

  /** What is pushed below the chain's node `k`. */
  function ChainLeft(k: nat, maxDepth: nat): seq<Entry<int>> {
    if k <= maxDepth then [Entry(k, k)] else []
  }

  lemma ChainStep(n: nat, maxNodes: nat, maxDepth: nat, k: nat)
    requires k < n - 1 && k < maxNodes && k <= maxDepth
    ensures Search(Chain(n, maxNodes, maxDepth), ChainLeft(k, maxDepth), Below(k), maxNodes - k).found ==
            Search(Chain(n, maxNodes, maxDepth), ChainLeft(k + 1, maxDepth), Below(k + 1), maxNodes - k - 1).found
  {
    hide Search;
    assert Below(k) + {k as int} == Below(k + 1);
    assert Deeper(Chain(n, maxNodes, maxDepth), Entry(k as int, k)) == ChainLeft(k + 1, maxDepth);
    assert ChainLeft(k + 1, maxDepth) + [Entry(k as int, k)][1..] == ChainLeft(k + 1, maxDepth);
    VisitedOne(Chain(n, maxNodes, maxDepth), ChainLeft(k, maxDepth), Below(k), maxNodes - k, ChainLeft(k + 1, maxDepth));
  }

  lemma NothingLeft<N>(p: Problem<N>, pending: seq<Entry<N>>, seen: set<N>, budget: nat)
    requires pending == [] || budget == 0
    ensures Search(p, pending, seen, budget).found.None?
  {
  }

  lemma {:induction false} ChainIsCut(n: nat, maxNodes: nat, maxDepth: nat, k: nat)
    requires k < n && k <= maxNodes && k <= maxDepth + 1 && (n > maxNodes || n > maxDepth + 1)
    ensures Search(Chain(n, maxNodes, maxDepth), ChainLeft(k, maxDepth), Below(k), maxNodes - k).found.None?
    decreases n - k
  {
    hide Search, Below;
    if k == maxNodes || k > maxDepth {
      NothingLeft(Chain(n, maxNodes, maxDepth), ChainLeft(k, maxDepth), Below(k), maxNodes - k);
    } else {
      ChainStep(n, maxNodes, maxDepth, k);
      ChainIsCut(n, maxNodes, maxDepth, k + 1);
    }
  }

  lemma ChainIsMissed(n: nat, maxNodes: nat, maxDepth: nat)
    requires n > 0 && (n > maxNodes || n > maxDepth + 1)
    ensures !Exact(Chain(n, maxNodes, maxDepth), 0)
  {
    ChainIsCut(n, maxNodes, maxDepth, 0);
    assert Below(0) == {};
    ChainReaches(n, maxNodes, maxDepth, n - 1);
    assert Reachable(Chain(n, maxNodes, maxDepth), 0, n - 1);
  }

  /** The answer is exact on every graph with `n` nodes within reach. */
  ghost predicate ExactForSize(n: nat, maxNodes: nat, maxDepth: nat) {
    forall p: Problem<int>, root, nodes ::
      p.maxNodes == maxNodes && p.maxDepth == maxDepth && Spans(p, root, nodes, n) ==> Exact(p, root)
  }

  /** Both limits are sharp: the answer is exact on every graph of a size exactly up to
      the node limit, and to one more than the depth limit. */
  lemma ExactForSizeIff(n: nat, maxNodes: nat, maxDepth: nat)
    ensures ExactForSize(n, maxNodes, maxDepth) <==> n <= maxNodes && n <= maxDepth + 1
  {
    if n <= maxNodes && n <= maxDepth + 1 {
      forall p: Problem<int>, root, nodes | p.maxNodes == maxNodes && p.maxDepth == maxDepth && Spans(p, root, nodes, n)
        ensures Exact(p, root)
      {
        SearchIsExactWithinLimits(p, root, nodes);
      }
    } else {
      ChainSpans(n, maxNodes, maxDepth);
      ChainIsMissed(n, maxNodes, maxDepth);
    }
  }

  /** The answer is exact on every graph within the node limit whose trails have at most
      `steps` edges. */
  ghost predicate ExactForTrails(steps: nat, maxNodes: nat, maxDepth: nat) {
    forall p: Problem<int>, root, nodes ::
      p.maxNodes == maxNodes && p.maxDepth == maxDepth && FitsNodes(p, root, nodes) && TrailsWithin(p, root, steps) ==> Exact(p, root)
  }

  /** The same for graphs of any size within the node limit, by the length of their
      trails: the depth limit allows that length, or the node limit allows none beyond
      the depth limit. */
  lemma ExactForTrailsIff(steps: nat, maxNodes: nat, maxDepth: nat)
    ensures ExactForTrails(steps, maxNodes, maxDepth) <==> steps <= maxDepth || maxNodes <= maxDepth + 1
  {
    if steps <= maxDepth || maxNodes <= maxDepth + 1 {
      forall p: Problem<int>, root, nodes | p.maxNodes == maxNodes && p.maxDepth == maxDepth && FitsNodes(p, root, nodes) &&
                                            TrailsWithin(p, root, steps)
        ensures Exact(p, root)
      {
        if maxNodes <= maxDepth + 1 {
          SearchIsExactWithinLimits(p, root, nodes);
        } else {
          SearchIsExactOnShortTrails(p, root, nodes);
        }
      }
    } else {
      LongChainIsMissed(steps, maxNodes, maxDepth);
    }
  }

  lemma LongChainIsMissed(steps: nat, maxNodes: nat, maxDepth: nat)
    requires steps > maxDepth && maxNodes > maxDepth + 1
    ensures !ExactForTrails(steps, maxNodes, maxDepth)
  {
    hide Exact, Closed, TrailsWithin;
    var n := maxDepth + 2;
    ChainSpans(n, maxNodes, maxDepth);
    TrailsFitClosedSet(Chain(n, maxNodes, maxDepth), 0, Below(n), steps);
    assert FitsNodes(Chain(n, maxNodes, maxDepth), 0, Below(n));
    ChainIsMissed(n, maxNodes, maxDepth);
  }

  // --------------------------------------------- Matches within the depth limit

  /** Nothing is returned just when no node within the depth limit matches. */
  ghost predicate ExactWithinDepth<N(!new)>(p: Problem<N>, root: N) {
    SearchFrom(p, root).found.None? <==> forall n :: WithinDepth(p, root, n) ==> !p.matches(n)
  }

  lemma ExactIsExactWithinDepth<N(!new)>(p: Problem<N>, root: N)
    requires Exact(p, root)
    ensures ExactWithinDepth(p, root)
  {
    if SearchFrom(p, root).found.Some? {
      FoundIsReachableMatch(p, root);
    } else {
      forall n | WithinDepth(p, root, n)
        ensures !p.matches(n)
      {
        assert Reachable(p, root, n);
      }
    }
  }

  lemma RootOnlyIsExact<N(!new)>(p: Problem<N>, root: N)
    requires p.maxDepth == 0 && p.maxNodes > 0
    ensures ExactWithinDepth(p, root)
  {
    if SearchFrom(p, root).found.Some? {
      FoundIsReachableMatch(p, root);
    } else {
      assert [Entry(root, 0)][0].node !in {} && !p.matches(root);
      forall n | WithinDepth(p, root, n)
        ensures !p.matches(n)
      {
        assert ReachableIn(p, root, n, 0);
      }
    }
  }

  /** With a depth limit of one, the root and each of its children is pushed before
      anything is cut. */
  lemma RootAndChildrenAreTested<N(!new)>(p: Problem<N>, root: N, nodes: set<N>, n: N)
    requires p.maxDepth == 1 && Closed(p, nodes) && root in nodes && |nodes| <= p.maxNodes
    requires SearchFrom(p, root).found.None? && WithinDepth(p, root, n)
    ensures !p.matches(n)
  {
    hide ReachableIn, WithinDepth;
    var pending := [Entry(root, 0)];
    SubsetIsSmaller({root}, nodes);
    TestsAreBounded(p, pending, {}, p.maxNodes);
    var after := Deeper(p, pending[0]);
    assert after + pending[1..] == after;
    assert pending[0].node !in {} && !p.matches(root);
    forall i | 0 <= i < |after| ensures after[i].node in nodes {
      assert after[i].node in p.children(root);
    }
    PendingAreTested(p, after, {} + {root}, p.maxNodes - 1, nodes);
    var rest := Search(p, after, {} + {root}, p.maxNodes - 1);
    assert SearchFrom(p, root) == Outcome([root] + rest.visited, rest.found);
    WithinOneStep(p, root, n);
    if n != root {
      var k :| 0 <= k < |p.children(root)| && p.children(root)[k] == n;
      assert after[k].node == n;
      if |rest.visited| == p.maxNodes - 1 {
        DistinctFillSet([root] + rest.visited);
        assert AsSet([root] + rest.visited) == {} + {root} + AsSet(rest.visited);
        SubsetIsSmaller({} + {root} + AsSet(rest.visited), nodes);
      }
      assert n in [root] + rest.visited;
    }
  }

  lemma WithinOneStep<N(!new)>(p: Problem<N>, root: N, n: N)
    requires p.maxDepth == 1 && WithinDepth(p, root, n)
    ensures n == root || n in p.children(root)
  {
    var steps: nat :| steps <= p.maxDepth && ReachableIn(p, root, n, steps);
    if steps == 1 {
      var m :| ReachableIn(p, root, m, 0) && n in p.children(m);
    }
  }

  /** Every pending node gets tested, unless a match or the node limit stops the search. */
  lemma {:induction false} PendingAreTested<N(!new)>(p: Problem<N>, pending: seq<Entry<N>>, seen: set<N>, budget: nat, nodes: set<N>)
    requires Closed(p, nodes) && seen <= nodes && AllTested(pending, nodes)
    ensures var o := Search(p, pending, seen, budget);
            var tested := seen + AsSet(o.visited);
            tested <= nodes && (o.found.None? && |o.visited| < budget ==> AllTested(pending, tested))
    decreases budget, |pending|
  {
    if pending != [] && budget > 0 {
      var e := pending[0];
      assert e.node in nodes;
      if e.node in seen {
        assert [] + pending[1..] == pending[1..];
        PendingAreTested(p, pending[1..], seen, budget, nodes);
        var tested := seen + AsSet(Search(p, pending[1..], seen, budget).visited);
        if AllTested(pending[1..], tested) {
          AllTestedAfterPop(pending, [], tested);
        }
      } else if !p.matches(e.node) {
        VisitedPendingAreTested(p, pending, seen, budget, nodes);
      }
    }
  }

  lemma {:induction false} VisitedPendingAreTested<N(!new)>(p: Problem<N>, pending: seq<Entry<N>>, seen: set<N>, budget: nat, nodes: set<N>)
    requires Closed(p, nodes) && seen <= nodes && AllTested(pending, nodes)
    requires budget > 0 && pending != [] && pending[0].node in nodes - seen && !p.matches(pending[0].node)
    ensures var o := Search(p, pending, seen, budget);
            var tested := seen + AsSet(o.visited);
            tested <= nodes && (o.found.None? && |o.visited| < budget ==> AllTested(pending, tested))
    decreases budget, |pending|, 0
  {
    var e, deeper := pending[0], Deeper(p, pending[0]);
    forall i | 0 <= i < |deeper + pending[1..]| ensures (deeper + pending[1..])[i].node in nodes {
      if i < |deeper| {
        assert deeper[i].node in p.children(e.node);
      } else {
        assert (deeper + pending[1..])[i] == pending[i - |deeper| + 1];
      }
    }
    PendingAreTested(p, deeper + pending[1..], seen + {e.node}, budget - 1, nodes);
    var rest := Search(p, deeper + pending[1..], seen + {e.node}, budget - 1);
    assert Search(p, pending, seen, budget) == Outcome([e.node] + rest.visited, rest.found);
    VisitedSplits(seen, e.node, rest.visited);
    var tested := seen + {e.node} + AsSet(rest.visited);
    if AllTested(deeper + pending[1..], tested) {
      AllTestedAfterPop(pending, deeper, tested);
    }
  }

  /** 0 has the children 1, ..., `last`. */
  function StarChildren(last: int): int -> seq<int> {
    (k: int) => if k == 0 && last > 0 then Count(1, last) else []
  }

  function Count(from: int, to: int): seq<int>
    requires from <= to + 1
  {
    seq(to + 1 - from, i requires 0 <= i < to + 1 - from => from + i)
  }

  function Star(n: nat, maxNodes: nat, maxDepth: nat): Problem<int> {
    Problem((k: int) => k == n - 1, StarChildren(n - 1), maxNodes, maxDepth)
  }

  function StarLeft(n: nat, k: nat): seq<Entry<int>>
    requires k <= n
  {
    Entries(Count(k, n - 1), 1)
  }

  lemma StarPopped(n: nat, k: nat)
    requires k < n
    ensures StarLeft(n, k) != [] && StarLeft(n, k)[0] == Entry(k, 1) && StarLeft(n, k)[1..] == StarLeft(n, k + 1)
  {
  }

  lemma StarStep(n: nat, maxNodes: nat, maxDepth: nat, k: nat)
    requires 0 < k < maxNodes < n && maxDepth > 0
    ensures Search(Star(n, maxNodes, maxDepth), StarLeft(n, k), Below(k), maxNodes - k).found ==
            Search(Star(n, maxNodes, maxDepth), StarLeft(n, k + 1), Below(k + 1), maxNodes - k - 1).found
  {
    StarPopped(n, k);
    assert Deeper(Star(n, maxNodes, maxDepth), StarLeft(n, k)[0]) + StarLeft(n, k)[1..] == StarLeft(n, k + 1);
    assert Below(k) + {k as int} == Below(k + 1);
    VisitedOne(Star(n, maxNodes, maxDepth), StarLeft(n, k), Below(k), maxNodes - k, StarLeft(n, k + 1));
  }

  lemma {:induction false} StarIsCut(n: nat, maxNodes: nat, maxDepth: nat, k: nat)
    requires 0 < k <= maxNodes < n && maxDepth > 0
    ensures Search(Star(n, maxNodes, maxDepth), StarLeft(n, k), Below(k), maxNodes - k).found.None?
    decreases maxNodes - k
  {
    if k < maxNodes {
      StarStep(n, maxNodes, maxDepth, k);
      StarIsCut(n, maxNodes, maxDepth, k + 1);
    }
  }

  /** Too few nodes: the last child of the root is missed. */
  lemma StarIsMissed(n: nat, maxNodes: nat, maxDepth: nat)
    requires n > maxNodes && (maxDepth > 0 || n == 1)
    ensures !ExactWithinDepth(Star(n, maxNodes, maxDepth), 0)
  {
    hide Search;
    var p := Star(n, maxNodes, maxDepth);
    assert ReachableIn(p, 0, 0, 0);
    if maxNodes == 0 {
      NothingLeft(p, [Entry(0, 0)], {}, 0);
    }
    if n > 1 {
      assert p.children(0)[n - 2] == n - 1;
      assert ReachableIn(p, 0, n - 1, 1);
      if maxNodes > 0 {
        StarIsCut(n, maxNodes, maxDepth, 1);
        assert {} + {0} == Below(1);
        assert Deeper(p, Entry(0, 0)) + [Entry(0, 0)][1..] == StarLeft(n, 1);
        VisitedOne(p, [Entry(0, 0)], {}, maxNodes, StarLeft(n, 1));
      }
    }
    assert WithinDepth(p, 0, n - 1);
  }

  /** 0 has the children 1 and `depth`; 1, ..., `depth` are a chain that goes on to
      `depth + 1`. */
  function DetourChildren(depth: int): int -> seq<int> {
    (k: int) => if k == 0 then [1, depth] else if 0 < k <= depth then [k + 1] else []
  }

  function Detour(maxNodes: nat, maxDepth: nat): Problem<int> {
    Problem((k: int) => k == maxDepth + 1, DetourChildren(maxDepth), maxNodes, maxDepth)
  }

  lemma {:induction false} DetourIsCut(maxNodes: nat, maxDepth: nat, k: nat)
    requires 0 < k <= maxDepth && k <= maxNodes
    ensures Search(Detour(maxNodes, maxDepth), [Entry(k, k), Entry(maxDepth, 1)], Below(k), maxNodes - k).found.None?
    decreases maxDepth - k
  {
    var p := Detour(maxNodes, maxDepth);
    var pending: seq<Entry<int>> := [Entry(k, k), Entry(maxDepth, 1)];
    if k < maxNodes {
      assert Below(k) + {k as int} == Below(k + 1);
      if k < maxDepth {
        DetourIsCut(maxNodes, maxDepth, k + 1);
        assert Deeper(p, pending[0]) + pending[1..] == [Entry(k + 1, k + 1), Entry(maxDepth, 1)];
        VisitedOne(p, pending, Below(k), maxNodes - k, [Entry(k + 1, k + 1), Entry(maxDepth, 1)]);
      } else {
        assert Deeper(p, pending[0]) + pending[1..] == [Entry(maxDepth, 1)];
        VisitedOne(p, pending, Below(k), maxNodes - k, [Entry(maxDepth, 1)]);
        SeenIsSkipped(p, Entry(maxDepth as int, 1), Below(k + 1), maxNodes - k - 1);
      }
    }
  }

  /** Met first at the end of the chain, `depth` is cut, and met again below the root it
      is skipped: its child, two steps from the root, is missed. */
  lemma DetourIsMissed(maxNodes: nat, maxDepth: nat)
    requires maxDepth >= 2
    ensures !ExactWithinDepth(Detour(maxNodes, maxDepth), 0)
  {
    var p := Detour(maxNodes, maxDepth);
    if maxNodes > 0 {
      DetourIsCut(maxNodes, maxDepth, 1);
      assert {} + {0} == Below(1);
      assert Deeper(p, Entry(0, 0)) + [Entry(0, 0)][1..] == [Entry(1, 1), Entry(maxDepth as int, 1)];
      VisitedOne(p, [Entry(0, 0)], {}, maxNodes, [Entry(1, 1), Entry(maxDepth as int, 1)]);
    }
    assert p.children(0)[1] == maxDepth && p.children(maxDepth)[0] == maxDepth + 1;
    assert ReachableIn(p, 0, 0, 0) && ReachableIn(p, 0, maxDepth, 1) && ReachableIn(p, 0, maxDepth + 1, 2);
    assert WithinDepth(p, 0, maxDepth + 1);
  }

  lemma SeenIsSkipped<N>(p: Problem<N>, e: Entry<N>, seen: set<N>, budget: nat)
    requires e.node in seen
    ensures Search(p, [e], seen, budget).found.None?
  {
  }

  /** Matches within the depth limit are found on every graph with `n` nodes in reach. */
  ghost predicate ExactWithinDepthForSize(n: nat, maxNodes: nat, maxDepth: nat) {
    forall p: Problem<int>, root, nodes ::
      p.maxNodes == maxNodes && p.maxDepth == maxDepth && Spans(p, root, nodes, n) ==> ExactWithinDepth(p, root)
  }

  predicate LimitsSuffice(n: nat, maxNodes: nat, maxDepth: nat) {
    if maxDepth == 0 then maxNodes > 0 else n <= maxNodes && (maxDepth == 1 || n <= maxDepth + 1)
  }

  lemma SufficientLimitsAreExact(p: Problem<int>, root: int, nodes: set<int>, n: nat)
    requires Spans(p, root, nodes, n) && LimitsSuffice(n, p.maxNodes, p.maxDepth)
    ensures ExactWithinDepth(p, root)
  {
    if p.maxDepth == 0 {
      RootOnlyIsExact(p, root);
    } else if n <= p.maxDepth + 1 {
      SearchIsExactWithinLimits(p, root, nodes);
      ExactIsExactWithinDepth(p, root);
    } else if SearchFrom(p, root).found.Some? {
      FoundIsReachableMatch(p, root);
    } else {
      forall m | WithinDepth(p, root, m)
        ensures !p.matches(m)
      {
        RootAndChildrenAreTested(p, root, nodes, m);
      }
    }
  }

  lemma StarSpans(m: nat, n: nat, maxNodes: nat, maxDepth: nat)
    requires 0 < m <= n
    ensures Spans(Star(m, maxNodes, maxDepth), 0, Below(n), n)
  {
    hide Below;
    BelowHas(n);
  }

  lemma DetourSpans(n: nat, maxNodes: nat, maxDepth: nat)
    requires n > maxDepth + 1 && maxDepth > 0
    ensures Spans(Detour(maxNodes, maxDepth), 0, Below(n), n)
  {
    hide Below;
    BelowHas(n);
  }

  lemma InsufficientLimitsMiss(n: nat, maxNodes: nat, maxDepth: nat)
    requires n > 0 && !LimitsSuffice(n, maxNodes, maxDepth)
    ensures !ExactWithinDepthForSize(n, maxNodes, maxDepth)
  {
    hide ExactWithinDepth, Spans, Below;
    if maxDepth == 0 {
      StarIsMissed(1, maxNodes, maxDepth);
      StarSpans(1, n, maxNodes, maxDepth);
    } else if n > maxNodes {
      StarIsMissed(n, maxNodes, maxDepth);
      StarSpans(n, n, maxNodes, maxDepth);
    } else {
      DetourIsMissed(maxNodes, maxDepth);
      DetourSpans(n, maxNodes, maxDepth);
    }
  }

  /** Every match within the depth limit is found on every graph of a size exactly when
      that size fits the node limit and is at most one more than the depth limit; a depth
      limit of one needs only the former, and one of zero only a node to test. */
  lemma ExactWithinDepthForSizeIff(n: nat, maxNodes: nat, maxDepth: nat)
    requires n > 0
    ensures ExactWithinDepthForSize(n, maxNodes, maxDepth) <==> LimitsSuffice(n, maxNodes, maxDepth)
  {
    if LimitsSuffice(n, maxNodes, maxDepth) {
      forall p: Problem<int>, root, nodes | p.maxNodes == maxNodes && p.maxDepth == maxDepth && Spans(p, root, nodes, n)
        ensures ExactWithinDepth(p, root)
      {
        SufficientLimitsAreExact(p, root, nodes, n);
      }
    } else {
      InsufficientLimitsMiss(n, maxNodes, maxDepth);
    }
  }

  const MAX_NODES := 1200
  const MAX_DEPTH := 64

  /** With the program's limits every graph of up to 65 nodes is searched exactly, no
      larger size is, and up to 1200 nodes exactly those trails of up to 64 edges are. */
  lemma ProgramLimits(n: nat, steps: nat)
    ensures ExactForSize(n, MAX_NODES, MAX_DEPTH) <==> n <= 65
    ensures ExactForTrails(steps, MAX_NODES, MAX_DEPTH) <==> steps <= 64
    ensures n > 0 ==> (ExactWithinDepthForSize(n, MAX_NODES, MAX_DEPTH) <==> n <= 65)
  {
    if n > 0 {
      ExactWithinDepthForSizeIff(n, MAX_NODES, MAX_DEPTH);
    }
    ExactForSizeIff(n, MAX_NODES, MAX_DEPTH);
    ExactForTrailsIff(steps, MAX_NODES, MAX_DEPTH);
  }

  /** 0 has the children 1 and 2; 2 is below 1 too, and has the child 3. */
  function DiamondChildren(n: int): seq<int> {
    if n == 0 then [1, 2] else if n == 1 then [2] else if n == 2 then [3] else []
  }

  /** The depth limit can hide a match that is within it: 2 is first met at the limit,
      below 1, so that its child 3 is not pushed, and met again higher up only to be
      skipped. */
  lemma DepthLimitCanHideMatch()
    ensures var p := Problem((n: int) => n == 3, DiamondChildren, 10, 2);
            SearchFrom(p, 0).found.None? && p.matches(3) && WithinDepth(p, 0, 3)
  {
    var p := Problem((n: int) => n == 3, DiamondChildren, 10, 2);
    DiamondSearch(p);
    assert DiamondChildren(0)[1] == 2 && DiamondChildren(2)[0] == 3;
    assert ReachableIn(p, 0, 0, 0) && ReachableIn(p, 0, 2, 1) && ReachableIn(p, 0, 3, 2);
  }

  lemma DiamondSearch(p: Problem<int>)
    requires p.children == DiamondChildren && p.maxDepth == 2
    requires !p.matches(0) && !p.matches(1) && !p.matches(2)
    ensures p.maxNodes == 10 ==> SearchFrom(p, 0).found.None?
  {
    VisitedOne(p, [Entry(0, 0)], {}, 10, [Entry(1, 1), Entry(2, 1)]);
    VisitedOne(p, [Entry(1, 1), Entry(2, 1)], {} + {0}, 9, [Entry(2, 2), Entry(2, 1)]);
    VisitedOne(p, [Entry(2, 2), Entry(2, 1)], {} + {0} + {1}, 8, [Entry(2, 1)]);
    SeenIsSkipped(p, Entry(2, 1), {} + {0} + {1} + {2}, 7);
  }
}
