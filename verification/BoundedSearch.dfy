/**
  The bounded depth-first search of the accessibility tree, which may be cyclic.
 */
module BoundedSearch {
  import opened Wrappers
  import opened Sequences

  datatype Problem<!N> = Problem(matches: N -> bool, children: N -> seq<N>, maxNodes: nat, maxDepth: nat)

  datatype Entry<N> = Entry(node: N, depth: nat)

  /** The nodes tested, in order, and the one returned. */
  datatype Outcome<N> = Outcome(visited: seq<N>, found: Option<N>)

  function Entries<N>(nodes: seq<N>, depth: nat): seq<Entry<N>> {
    seq(|nodes|, i requires 0 <= i < |nodes| => Entry(nodes[i], depth))
  }

  /** What testing `e` pushes: its children, unless it is at the depth limit. */
  function Deeper<N>(p: Problem<N>, e: Entry<N>): seq<Entry<N>> {
    if e.depth >= p.maxDepth then [] else Entries(p.children(e.node), e.depth + 1)
  }

  /** The search with its next entry in front. */
  function Search<N(==)>(p: Problem<N>, pending: seq<Entry<N>>, seen: set<N>, budget: nat): Outcome<N>
    decreases budget, |pending|
  {
    if pending == [] || budget == 0 then Outcome([], None)
    else
      var e := pending[0];
      if e.node in seen then Search(p, pending[1..], seen, budget)
      else if p.matches(e.node) then Outcome([e.node], Some(e.node))
      else
        var rest := Search(p, Deeper(p, e) + pending[1..], seen + {e.node}, budget - 1);
        Outcome([e.node] + rest.visited, rest.found)
  }

  function SearchFrom<N(==)>(p: Problem<N>, root: N): Outcome<N> {
    Search(p, [Entry(root, 0)], {}, p.maxNodes)
  }

  // -------------------------------------------------------------- The loop

  /** The stack, top first. */
  function TopFirst<N>(stack: seq<Entry<N>>): seq<Entry<N>> {
    if stack == [] then [] else [stack[|stack| - 1]] + TopFirst(stack[..|stack| - 1])
  }

  lemma PushIsInFront<N>(stack: seq<Entry<N>>, e: Entry<N>)
    ensures TopFirst(stack + [e]) == [e] + TopFirst(stack)
  {
    assert (stack + [e])[..|stack|] == stack;
  }

  lemma PushStep<N>(stack: seq<Entry<N>>, nodes: seq<N>, i: nat, depth: nat, below: seq<Entry<N>>)
    requires i < |nodes| && TopFirst(stack) == Entries(nodes[i + 1..], depth) + below
    ensures TopFirst(stack + [Entry(nodes[i], depth)]) == Entries(nodes[i..], depth) + below
  {
    PushIsInFront(stack, Entry(nodes[i], depth));
    assert nodes[i..] == [nodes[i]] + nodes[i + 1..];
    assert Entries(nodes[i..], depth) == [Entry(nodes[i], depth)] + Entries(nodes[i + 1..], depth);
  }

  /** Pushing in reverse leaves the first child on top. */
  method PushReversed<N>(stack: seq<Entry<N>>, nodes: seq<N>, depth: nat) returns (pushed: seq<Entry<N>>)
    ensures TopFirst(pushed) == Entries(nodes, depth) + TopFirst(stack)
  {
    pushed := stack;
    var i := |nodes|;
    assert Entries(nodes[i..], depth) == [];
    while i > 0
      invariant 0 <= i <= |nodes|
      invariant TopFirst(pushed) == Entries(nodes[i..], depth) + TopFirst(stack)
    {
      i := i - 1;
      PushStep(pushed, nodes, i, depth, TopFirst(stack));
      pushed := pushed + [Entry(nodes[i], depth)];
    }
    assert nodes[0..] == nodes;
  }

  lemma VisitedOne<N>(p: Problem<N>, pending: seq<Entry<N>>, seen: set<N>, budget: nat, after: seq<Entry<N>>)
    requires budget > 0 && pending != [] && pending[0].node !in seen && !p.matches(pending[0].node)
    requires after == Deeper(p, pending[0]) + pending[1..]
    ensures Search(p, pending, seen, budget).found == Search(p, after, seen + {pending[0].node}, budget - 1).found
  {
  }

  /** What is left to search gives `answer`. */
  ghost predicate WillAnswer<N>(p: Problem<N>, stack: seq<Entry<N>>, seen: set<N>, budget: nat, answer: Option<N>) {
    Search(p, TopFirst(stack), seen, budget).found == answer
  }

  lemma PopTopFirst<N>(stack: seq<Entry<N>>)
    requires stack != []
    ensures var top := TopFirst(stack);
            top != [] && top[0] == stack[|stack| - 1] && top[1..] == TopFirst(stack[..|stack| - 1])
  {
  }

  lemma MatchStep<N>(p: Problem<N>, stack: seq<Entry<N>>, seen: set<N>, budget: nat, answer: Option<N>, node: N)
    requires stack != [] && budget > 0 && WillAnswer(p, stack, seen, budget, answer)
    requires stack[|stack| - 1].node == node && node !in seen && p.matches(node)
    ensures answer == Some(node)
  {
    PopTopFirst(stack);
  }

  lemma RepeatStep<N>(p: Problem<N>, stack: seq<Entry<N>>, seen: set<N>, budget: nat, answer: Option<N>)
    requires stack != [] && budget > 0 && WillAnswer(p, stack, seen, budget, answer)
    requires stack[|stack| - 1].node in seen
    ensures WillAnswer(p, stack[..|stack| - 1], seen, budget, answer)
  {
    PopTopFirst(stack);
  }

  lemma VisitStep<N>(p: Problem<N>, stack: seq<Entry<N>>, seen: set<N>, budget: nat, answer: Option<N>, node: N, pushed: seq<Entry<N>>)
    requires stack != [] && budget > 0 && WillAnswer(p, stack, seen, budget, answer)
    requires stack[|stack| - 1].node == node && node !in seen && !p.matches(node)
    requires TopFirst(pushed) == Deeper(p, stack[|stack| - 1]) + TopFirst(stack[..|stack| - 1])
    ensures WillAnswer(p, pushed, seen + {node}, budget - 1, answer)
  {
    PopTopFirst(stack);
    VisitedOne(p, TopFirst(stack), seen, budget, TopFirst(pushed));
  }

  lemma FirstStep<N>(p: Problem<N>, root: N)
    ensures WillAnswer(p, [Entry(root, 0)], {}, p.maxNodes, SearchFrom(p, root).found)
  {
    var stack := [Entry(root, 0)];
    assert stack[..0] == [];
    assert TopFirst(stack) == stack;
  }

  lemma LastStep<N>(p: Problem<N>, stack: seq<Entry<N>>, seen: set<N>, budget: nat, answer: Option<N>)
    requires (stack == [] || budget == 0) && WillAnswer(p, stack, seen, budget, answer)
    ensures answer.None?
  {
  }

  /** The search terminates on every finite-branching graph: a repeated node shrinks
      the stack, and any other uses up one of `maxNodes`. */
  method FirstDescendant<N(==)>(p: Problem<N>, root: N) returns (found: Option<N>)
    ensures found == SearchFrom(p, root).found
  {
    hide Search, TopFirst, WillAnswer, Entries;
    var visitedCount := 0;
    var stack := [Entry(root, 0)];
    var seen: set<N> := {};
    ghost var answer := SearchFrom(p, root).found;
    FirstStep(p, root);
    while stack != [] && visitedCount < p.maxNodes
      invariant visitedCount <= p.maxNodes
      invariant WillAnswer(p, stack, seen, p.maxNodes - visitedCount, answer)
      decreases p.maxNodes - visitedCount, |stack|
    {
      ghost var left, tested, before := p.maxNodes - visitedCount, seen, stack;
      var Entry(node, depth) := stack[|stack| - 1];
      stack := stack[..|stack| - 1];
      if node in seen {
        RepeatStep(p, before, tested, left, answer);
        continue;
      }
      seen := seen + {node};
      visitedCount := visitedCount + 1;
      if p.matches(node) {
        MatchStep(p, before, tested, left, answer, node);
        return Some(node);
      }
      if depth >= p.maxDepth {
        assert [] + TopFirst(stack) == TopFirst(stack);
        VisitStep(p, before, tested, left, answer, node, stack);
        continue;
      }
      stack := PushReversed(stack, p.children(node), depth + 1);
      VisitStep(p, before, tested, left, answer, node, stack);
    }
    LastStep(p, stack, seen, p.maxNodes - visitedCount, answer);
    return None;
  }

  // ------------------------------------------------ What the search tests

  /** A match is the last node tested; without one, every node tested fails. */
  ghost predicate StopsAtMatch<N(!new)>(p: Problem<N>, o: Outcome<N>) {
    match o.found
    case None => forall n :: n in o.visited ==> !p.matches(n)
    case Some(n) =>
      && |o.visited| > 0 && o.visited[|o.visited| - 1] == n && p.matches(n)
      && forall i :: 0 <= i < |o.visited| - 1 ==> !p.matches(o.visited[i])
  }

  ghost predicate TestsOnce<N(!new)>(tested: seq<N>, seen: set<N>) {
    Distinct(tested) && forall n :: n in tested ==> n !in seen
  }

  lemma TestsOneMore<N(!new)>(node: N, tested: seq<N>, seen: set<N>)
    requires node !in seen && TestsOnce(tested, seen + {node})
    ensures TestsOnce([node] + tested, seen)
  {
    assert forall i :: 0 <= i < |tested| ==> tested[i] in tested;
  }

  lemma StopsOneLater<N(!new)>(p: Problem<N>, node: N, o: Outcome<N>)
    requires StopsAtMatch(p, o) && !p.matches(node)
    ensures StopsAtMatch(p, Outcome([node] + o.visited, o.found))
  {
    assert forall n :: n in [node] + o.visited ==> n == node || n in o.visited;
  }

  /** No node is tested twice, at most `budget` are tested, and the search stops at
      the first that matches. */
  lemma {:induction false} TestsAreBounded<N(!new)>(p: Problem<N>, pending: seq<Entry<N>>, seen: set<N>, budget: nat)
    ensures var o := Search(p, pending, seen, budget);
            |o.visited| <= budget && TestsOnce(o.visited, seen) && StopsAtMatch(p, o)
    decreases budget, |pending|
  {
    if pending != [] && budget > 0 {
      var e := pending[0];
      if e.node in seen {
        TestsAreBounded(p, pending[1..], seen, budget);
      } else if !p.matches(e.node) {
        var after := Deeper(p, e) + pending[1..];
        TestsAreBounded(p, after, seen + {e.node}, budget - 1);
        var rest := Search(p, after, seen + {e.node}, budget - 1);
        TestsOneMore(e.node, rest.visited, seen);
        StopsOneLater(p, e.node, rest);
      }
    }
  }

  // ------------------------------------------------------- Reachability

  /** `n` is `steps` edges away from `root` on some walk. */
  ghost predicate ReachableIn<N(!new)>(p: Problem<N>, root: N, n: N, steps: nat) {
    if steps == 0 then n == root
    else exists m :: ReachableIn(p, root, m, steps - 1) && n in p.children(m)
  }

  ghost predicate Reachable<N(!new)>(p: Problem<N>, root: N, n: N) {
    exists steps: nat :: ReachableIn(p, root, n, steps)
  }

  ghost predicate PendingReachable<N(!new)>(p: Problem<N>, root: N, pending: seq<Entry<N>>) {
    forall i :: 0 <= i < |pending| ==>
      pending[i].depth <= p.maxDepth && ReachableIn(p, root, pending[i].node, pending[i].depth)
  }

  ghost predicate WithinDepth<N(!new)>(p: Problem<N>, root: N, n: N) {
    exists steps: nat :: steps <= p.maxDepth && ReachableIn(p, root, n, steps)
  }

  lemma DeeperIsReachable<N(!new)>(p: Problem<N>, root: N, pending: seq<Entry<N>>)
    requires pending != [] && PendingReachable(p, root, pending)
    ensures PendingReachable(p, root, Deeper(p, pending[0]) + pending[1..])
  {
    var e, deeper := pending[0], Deeper(p, pending[0]);
    assert ReachableIn(p, root, e.node, e.depth);
    forall i | 0 <= i < |deeper + pending[1..]|
      ensures (deeper + pending[1..])[i].depth <= p.maxDepth
      ensures ReachableIn(p, root, (deeper + pending[1..])[i].node, (deeper + pending[1..])[i].depth)
    {
      if i < |deeper| {
        assert deeper[i].node in p.children(e.node);
      } else {
        assert (deeper + pending[1..])[i] == pending[i - |deeper| + 1];
      }
    }
  }

  /** Only nodes within the depth limit are tested. */
  lemma {:induction false} TestsStayWithinDepth<N(!new)>(p: Problem<N>, root: N, pending: seq<Entry<N>>, seen: set<N>, budget: nat)
    requires PendingReachable(p, root, pending)
    ensures forall n :: n in Search(p, pending, seen, budget).visited ==> WithinDepth(p, root, n)
    decreases budget, |pending|
  {
    if pending != [] && budget > 0 {
      var e := pending[0];
      assert WithinDepth(p, root, e.node);
      if e.node in seen {
        TestsStayWithinDepth(p, root, pending[1..], seen, budget);
      } else if !p.matches(e.node) {
        DeeperIsReachable(p, root, pending);
        TestsStayWithinDepth(p, root, Deeper(p, e) + pending[1..], seen + {e.node}, budget - 1);
      }
    }
  }

  /** What is returned matches and is within the depth limit. */
  lemma FoundIsReachableMatch<N(!new)>(p: Problem<N>, root: N)
    requires SearchFrom(p, root).found.Some?
    ensures var n := SearchFrom(p, root).found.value; p.matches(n) && WithinDepth(p, root, n)
  {
    TestsAreBounded(p, [Entry(root, 0)], {}, p.maxNodes);
    assert ReachableIn(p, root, root, 0);
    TestsStayWithinDepth(p, root, [Entry(root, 0)], {}, p.maxNodes);
    var o := SearchFrom(p, root);
    assert o.visited[|o.visited| - 1] in o.visited;
  }

  // -------------------------------------------------------------- Trees

  datatype Tree<N> = Tree(id: N, kids: seq<Tree<N>>)

  /** A tree whose root is pending at a depth. */
  datatype Planted<N> = Planted(tree: Tree<N>, depth: nat)

  function Ids<N>(trees: seq<Tree<N>>): seq<N> {
    seq(|trees|, i requires 0 <= i < |trees| => trees[i].id)
  }

  /** The graph below `t.id` is the tree `t`. */
  ghost predicate Draws<N>(p: Problem<N>, t: Tree<N>) {
    p.children(t.id) == Ids(t.kids) && forall k :: k in t.kids ==> Draws(p, k)
  }

  /** The nodes of the tree at most `depth` below its root, parents first and siblings
      in order. */
  function Preorder<N>(t: Tree<N>, depth: nat): seq<N>
    decreases t, 0
  {
    [t.id] + (if depth == 0 then [] else PreorderAll(t.kids, depth - 1))
  }

  function PreorderAll<N>(trees: seq<Tree<N>>, depth: nat): seq<N>
    decreases trees, |trees|
  {
    if trees == [] then [] else Preorder(trees[0], depth) + PreorderAll(trees[1..], depth)
  }

  function FirstMatch<N>(matches: N -> bool, nodes: seq<N>): Option<N> {
    if nodes == [] then None else if matches(nodes[0]) then Some(nodes[0]) else FirstMatch(matches, nodes[1..])
  }

  function Take<N>(nodes: seq<N>, n: nat): seq<N> {
    if |nodes| <= n then nodes else nodes[..n]
  }

  function Plant<N>(trees: seq<Tree<N>>, depth: nat): seq<Planted<N>> {
    seq(|trees|, i requires 0 <= i < |trees| => Planted(trees[i], depth))
  }

  function Roots<N>(pending: seq<Planted<N>>): seq<Entry<N>> {
    seq(|pending|, i requires 0 <= i < |pending| => Entry(pending[i].tree.id, pending[i].depth))
  }

  /** The preorder of the pending trees, each cut at the depth limit. */
  function PendingOrder<N>(pending: seq<Planted<N>>, maxDepth: nat): seq<N> {
    if pending == [] then []
    else Preorder(pending[0].tree, DepthLeft(pending[0].depth, maxDepth)) + PendingOrder(pending[1..], maxDepth)
  }

  function DepthLeft(depth: nat, maxDepth: nat): nat {
    if depth >= maxDepth then 0 else maxDepth - depth
  }

  ghost predicate Drawn<N>(p: Problem<N>, pending: seq<Planted<N>>) {
    forall i :: 0 <= i < |pending| ==> Draws(p, pending[i].tree)
  }

  lemma {:induction false} OrderOfPlanted<N>(trees: seq<Tree<N>>, depth: nat, maxDepth: nat)
    requires depth <= maxDepth
    ensures PendingOrder(Plant(trees, depth), maxDepth) == PreorderAll(trees, maxDepth - depth)
    decreases |trees|
  {
    if trees != [] {
      assert Plant(trees, depth)[1..] == Plant(trees[1..], depth);
      OrderOfPlanted(trees[1..], depth, maxDepth);
    }
  }

  lemma {:induction false} OrderConcat<N>(a: seq<Planted<N>>, b: seq<Planted<N>>, maxDepth: nat)
    ensures PendingOrder(a + b, maxDepth) == PendingOrder(a, maxDepth) + PendingOrder(b, maxDepth)
  {
    if a == [] {
      assert a + b == b;
    } else {
      assert (a + b)[1..] == a[1..] + b;
      OrderConcat(a[1..], b, maxDepth);
      var head := Preorder(a[0].tree, DepthLeft(a[0].depth, maxDepth));
      assert head + (PendingOrder(a[1..], maxDepth) + PendingOrder(b, maxDepth)) ==
             (head + PendingOrder(a[1..], maxDepth)) + PendingOrder(b, maxDepth);
    }
  }

  /** The trees pending after the root of the first is tested. */
  function AfterRoot<N>(pending: seq<Planted<N>>, maxDepth: nat): seq<Planted<N>>
    requires pending != []
  {
    var Planted(t, depth) := pending[0];
    (if depth >= maxDepth then [] else Plant(t.kids, depth + 1)) + pending[1..]
  }

  lemma AfterRootIsDrawn<N>(p: Problem<N>, pending: seq<Planted<N>>)
    requires pending != [] && Drawn(p, pending)
    ensures Drawn(p, AfterRoot(pending, p.maxDepth))
  {
    var t := pending[0].tree;
    var after := AfterRoot(pending, p.maxDepth);
    var deeper := |after| - (|pending| - 1);
    forall i | 0 <= i < |after|
      ensures Draws(p, after[i].tree)
    {
      if i < deeper {
        assert t.kids[i] in t.kids;
      } else {
        assert after[i] == pending[i - deeper + 1];
      }
    }
  }

  lemma OrderAfterRoot<N>(pending: seq<Planted<N>>, maxDepth: nat)
    requires pending != []
    ensures PendingOrder(pending, maxDepth) == [pending[0].tree.id] + PendingOrder(AfterRoot(pending, maxDepth), maxDepth)
  {
    var Planted(t, depth) := pending[0];
    if depth >= maxDepth {
      assert AfterRoot(pending, maxDepth) == pending[1..];
    } else {
      OrderConcat(Plant(t.kids, depth + 1), pending[1..], maxDepth);
      OrderOfPlanted(t.kids, depth + 1, maxDepth);
    }
  }

  lemma RootsAfterRoot<N>(p: Problem<N>, pending: seq<Planted<N>>)
    requires pending != [] && Drawn(p, pending)
    ensures var Planted(t, depth) := pending[0];
            Roots(AfterRoot(pending, p.maxDepth)) == Deeper(p, Entry(t.id, depth)) + Roots(pending)[1..]
  {
    assert Draws(p, pending[0].tree);
  }

  lemma OrderTail<N(!new)>(order: seq<N>, node: N, later: seq<N>, seen: set<N>)
    requires order == [node] + later && Distinct(order) && (forall n :: n in order ==> n !in seen)
    ensures Distinct(later) && (forall n :: n in later ==> n !in seen + {node}) && node !in seen
  {
    assert forall i :: 0 <= i < |later| ==> later[i] == order[i + 1];
    assert order[0] == node;
  }

  lemma TakeTail<N>(node: N, later: seq<N>, n: nat)
    requires n > 0
    ensures Take([node] + later, n) == [node] + Take(later, n - 1)
  {
  }

  lemma FirstMatchOneMore<N>(matches: N -> bool, node: N, later: seq<N>)
    ensures FirstMatch(matches, [node] + later) == if matches(node) then Some(node) else FirstMatch(matches, later)
  {
    assert ([node] + later)[1..] == later;
  }

  lemma RootMatches<N>(p: Problem<N>, pending: seq<Planted<N>>, seen: set<N>, budget: nat)
    requires pending != [] && budget > 0 && pending[0].tree.id !in seen && p.matches(pending[0].tree.id)
    ensures Search(p, Roots(pending), seen, budget).found == Some(pending[0].tree.id)
  {
  }

  lemma NothingToSearch<N>(p: Problem<N>, pending: seq<Planted<N>>, seen: set<N>, budget: nat)
    requires pending == [] || budget == 0
    ensures Search(p, Roots(pending), seen, budget).found == FirstMatch(p.matches, Take(PendingOrder(pending, p.maxDepth), budget))
  {
  }

  /** Over trees with distinct nodes, the search tests them in preorder. */
  lemma {:induction false} ForestSearchIsPreorder<N(!new)>(p: Problem<N>, pending: seq<Planted<N>>, seen: set<N>, budget: nat)
    requires Drawn(p, pending) && Distinct(PendingOrder(pending, p.maxDepth))
    requires forall n :: n in PendingOrder(pending, p.maxDepth) ==> n !in seen
    ensures Search(p, Roots(pending), seen, budget).found == FirstMatch(p.matches, Take(PendingOrder(pending, p.maxDepth), budget))
    decreases budget
  {
    hide Search, FirstMatch, PendingOrder, AfterRoot, Take, Distinct, Drawn, Deeper;
    if pending == [] || budget == 0 {
      NothingToSearch(p, pending, seen, budget);
    } else {
      var node := pending[0].tree.id;
      var after := AfterRoot(pending, p.maxDepth);
      var later := PendingOrder(after, p.maxDepth);
      FirstMatchOneMore(p.matches, node, Take(later, budget - 1));
      OrderAfterRoot(pending, p.maxDepth);
      OrderTail(PendingOrder(pending, p.maxDepth), node, later, seen);
      TakeTail(node, later, budget);
      if p.matches(node) {
        RootMatches(p, pending, seen, budget);
      } else {
        AfterRootIsDrawn(p, pending);
        RootsAfterRoot(p, pending);
        VisitedOne(p, Roots(pending), seen, budget, Roots(after));
        ForestSearchIsPreorder(p, after, seen + {node}, budget - 1);
      }
    }
  }

  /** On a tree the search returns exactly the first match in preorder among the first
      `maxNodes` nodes no deeper than `maxDepth`. */
  lemma TreeSearchIsPreorder<N(!new)>(p: Problem<N>, t: Tree<N>)
    requires Draws(p, t) && Distinct(Preorder(t, p.maxDepth))
    ensures SearchFrom(p, t.id).found == FirstMatch(p.matches, Take(Preorder(t, p.maxDepth), p.maxNodes))
  {
    var pending := [Planted(t, 0)];
    assert PendingOrder(pending, p.maxDepth) == Preorder(t, p.maxDepth);
    assert Roots(pending) == [Entry(t.id, 0)];
    ForestSearchIsPreorder(p, pending, {}, p.maxNodes);
  }
}
