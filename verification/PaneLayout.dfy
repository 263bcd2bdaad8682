/**
  Terminal pane layouts and the normaliser that gives every leaf a stable id.

  A leaf id either passes the program's UUID test (`Stable`) or does not
  (`Legacy`). `randomUUID()` is a supply of numbers never seen before: an
  operation is given the next unused number and returns the one after the last it
  drew.
 */
module PaneLayout {
  import opened Wrappers
  import opened Sequences

  datatype LeafId = Stable(uuid: nat) | Legacy(name: string)

  /** JavaScript's truth of a leaf id that may be null: the empty string is not. */
  predicate TruthyLeaf(id: Option<LeafId>) {
    id.Some? && id.value != Legacy("")
  }

  datatype Direction = Horizontal | Vertical

  datatype Node =
    | Leaf(leafId: LeafId)
    | Split(direction: Direction, ratio: Option<real>, first: Node, second: Node)

  // ------------------------------------------------------------ Tree helpers

  function LeafIds(node: Node): (ids: seq<LeafId>)
    ensures |ids| > 0
  {
    match node
    case Leaf(id) => [id]
    case Split(_, _, a, b) => LeafIds(a) + LeafIds(b)
  }

  function LayoutLeafIds(root: Option<Node>): seq<LeafId> {
    if root.None? then [] else LeafIds(root.value)
  }

  function FirstLeafId(node: Node): LeafId {
    match node
    case Leaf(id) => id
    case Split(_, _, a, _) => FirstLeafId(a)
  }

  predicate ContainsLeafId(node: Node, id: LeafId) {
    match node
    case Leaf(i) => i == id
    case Split(_, _, a, b) => ContainsLeafId(a, id) || ContainsLeafId(b, id)
  }

  function CollectLeafCounts(node: Node, counts: map<LeafId, nat>): map<LeafId, nat> {
    match node
    case Leaf(id) => counts[id := (if id in counts then counts[id] else 0) + 1]
    case Split(_, _, a, b) => CollectLeafCounts(b, CollectLeafCounts(a, counts))
  }

  lemma {:induction false} FirstLeafIdIsHead(node: Node)
    ensures FirstLeafId(node) == LeafIds(node)[0]
  {
    if node.Split? {
      FirstLeafIdIsHead(node.first);
    }
  }

  lemma {:induction false} ContainsLeafIdIsMembership(node: Node, id: LeafId)
    ensures ContainsLeafId(node, id) <==> id in LeafIds(node)
  {
    if node.Split? {
      ContainsLeafIdIsMembership(node.first, id);
      ContainsLeafIdIsMembership(node.second, id);
    }
  }

  /** The running counts are the multiplicities in the leaf sequence. */
  lemma {:induction false} LeafCountsAreMultiplicities(node: Node, counts: map<LeafId, nat>, id: LeafId)
    ensures var r := CollectLeafCounts(node, counts);
            (if id in r then r[id] else 0) ==
            (if id in counts then counts[id] else 0) + multiset(LeafIds(node))[id]
  {
    if node.Split? {
      LeafCountsAreMultiplicities(node.first, counts, id);
      LeafCountsAreMultiplicities(node.second, CollectLeafCounts(node.first, counts), id);
    }
  }

  predicate SameShape(a: Node, b: Node) {
    match (a, b)
    case (Leaf(_), Leaf(_)) => true
    case (Split(d, r, a1, a2), Split(d', r', b1, b2)) =>
      d == d' && r == r' && SameShape(a1, b1) && SameShape(a2, b2)
    case _ => false
  }

  predicate AllStable(ids: seq<LeafId>) {
    forall i :: 0 <= i < |ids| ==> ids[i].Stable?
  }

  /** Every stable id in the sequence was drawn before `next`. */
  predicate DrawnBefore(ids: seq<LeafId>, next: nat) {
    forall i :: 0 <= i < |ids| && ids[i].Stable? ==> ids[i].uuid < next
  }

  // ------------------------------------------------- Choosing the new ids

  /** What the position loop over the input leaves computes. */
  datatype Assignment = Assignment(ids: map<LeafId, LeafId>, changed: bool, next: nat)

  /** The leaf id at `i` occurs nowhere else. */
  predicate Unique(ids: seq<LeafId>, i: nat)
    requires i < |ids|
  {
    forall j :: 0 <= j < |ids| && j != i ==> ids[j] != ids[i]
  }

  lemma UniqueMeansCountedOnce(ids: seq<LeafId>, i: nat)
    requires i < |ids|
    ensures Unique(ids, i) <==> multiset(ids)[ids[i]] == 1
    ensures multiset(ids)[ids[i]] >= 1
  {
    assert ids == ids[..i] + [ids[i]] + ids[i + 1..];
    assert Unique(ids, i) ==> ids[i] !in ids[..i] && ids[i] !in ids[i + 1..];
    if !Unique(ids, i) {
      var j :| 0 <= j < |ids| && j != i && ids[j] == ids[i];
      assert if j < i then ids[..i][j] == ids[i] else ids[i + 1..][j - i - 1] == ids[i];
    }
  }

  predicate UsesPreferred(ids: seq<LeafId>, preferred: seq<LeafId>) {
    |preferred| == |ids|
  }

  function AssignStep(ids: seq<LeafId>, preferred: seq<LeafId>, i: nat, a: Assignment): Assignment
    requires i < |ids|
  {
    var id := ids[i];
    if !Unique(ids, i) || id in a.ids then a.(changed := true)
    else if id.Stable? then a.(ids := a.ids[id := id])
    else if UsesPreferred(ids, preferred) && preferred[i].Stable? then
      a.(ids := a.ids[id := preferred[i]], changed := true)
    else Assignment(a.ids[id := Stable(a.next)], true, a.next + 1)
  }

  /** The assignment after the first `n` positions. */
  function AssignUpTo(ids: seq<LeafId>, preferred: seq<LeafId>, n: nat, start: Assignment): Assignment
    requires n <= |ids|
  {
    if n == 0 then start
    else AssignStep(ids, preferred, n - 1, AssignUpTo(ids, preferred, n - 1, start))
  }

  function AssignLeafIds(ids: seq<LeafId>, preferred: seq<LeafId>, changed: bool, next: nat): Assignment {
    AssignUpTo(ids, preferred, |ids|, Assignment(map[], changed, next))
  }

  /** The program's loop, over the leaves in order. */
  method AssignLeafIdsLoop(ids: seq<LeafId>, preferred: seq<LeafId>, counts: map<LeafId, nat>,
                           changedBefore: bool, supply: nat)
    returns (leafIdByInputLeafId: map<LeafId, LeafId>, changed: bool, next: nat)
    requires forall id :: id in ids ==> id in counts && counts[id] == multiset(ids)[id]
    ensures Assignment(leafIdByInputLeafId, changed, next) == AssignLeafIds(ids, preferred, changedBefore, supply)
  {
    leafIdByInputLeafId, changed, next := map[], changedBefore, supply;
    var usePreferredLeafIds := |preferred| == |ids|;
    for index := 0 to |ids|
      invariant Assignment(leafIdByInputLeafId, changed, next) ==
                AssignUpTo(ids, preferred, index, Assignment(map[], changedBefore, supply))
    {
      var leafId := ids[index];
      assert leafId in ids;
      UniqueMeansCountedOnce(ids, index);
      if counts[leafId] != 1 || leafId in leafIdByInputLeafId {
        changed := true;
        continue;
      }
      if leafId.Stable? {
        leafIdByInputLeafId := leafIdByInputLeafId[leafId := leafId];
        continue;
      }
      changed := true;
      if usePreferredLeafIds && preferred[index].Stable? {
        leafIdByInputLeafId := leafIdByInputLeafId[leafId := preferred[index]];
      } else {
        leafIdByInputLeafId := leafIdByInputLeafId[leafId := Stable(next)];
        next := next + 1;
      }
    }
  }

  lemma {:induction false} AssignUpToKeepsChanged(ids: seq<LeafId>, preferred: seq<LeafId>, n: nat, start: Assignment)
    requires n <= |ids|
    ensures var a := AssignUpTo(ids, preferred, n, start);
            (start.changed ==> a.changed) && (!a.changed ==> a.next == start.next)
  {
    if n > 0 {
      AssignUpToKeepsChanged(ids, preferred, n - 1, start);
    }
  }

  function DuplicatedIds(ids: seq<LeafId>): set<LeafId> {
    set id | id in ids && multiset(ids)[id] > 1
  }

  datatype Cloned = Cloned(node: Node, next: nat)

  function CloneWithLeafIds(node: Node, leafMap: map<LeafId, LeafId>, duplicated: set<LeafId>, next: nat): Cloned {
    match node
    case Leaf(id) =>
      if id in duplicated || id !in leafMap then Cloned(Leaf(Stable(next)), next + 1)
      else Cloned(Leaf(leafMap[id]), next)
    case Split(d, r, a, b) =>
      var first := CloneWithLeafIds(a, leafMap, duplicated, next);
      var second := CloneWithLeafIds(b, leafMap, duplicated, first.next);
      Cloned(Split(d, r, first.node, second.node), second.next)
  }

  // ------------------------------------------------------------- Positions

  /** The leaf at `i` keeps its id. */
  predicate Retains(ids: seq<LeafId>, i: nat)
    requires i < |ids|
  {
    Unique(ids, i) && ids[i].Stable?
  }

  /** The leaf at `i` takes over the id that the preferred layout has there. */
  predicate Adopts(ids: seq<LeafId>, preferred: seq<LeafId>, i: nat)
    requires i < |ids|
  {
    Unique(ids, i) && !ids[i].Stable? && UsesPreferred(ids, preferred) && preferred[i].Stable?
  }

  /** An id adopted from the preferred layout is also retained or adopted at
      another position. */
  ghost predicate Clash(ids: seq<LeafId>, preferred: seq<LeafId>) {
    exists i, j :: 0 <= i < |ids| && 0 <= j < |ids| && i != j && ClashAt(ids, preferred, i, j)
  }

  predicate ClashAt(ids: seq<LeafId>, preferred: seq<LeafId>, i: nat, j: nat)
    requires i < |ids| && j < |ids|
  {
    Adopts(ids, preferred, i) &&
    ((Retains(ids, j) && ids[j] == preferred[i]) ||
     (Adopts(ids, preferred, j) && preferred[j] == preferred[i]))
  }

  /** `out` renames `ids` position by position: retained, adopted, or fresh. */
  ghost predicate Renames(ids: seq<LeafId>, preferred: seq<LeafId>, out: seq<LeafId>, lo: nat, hi: nat) {
    && |out| == |ids|
    && (forall i :: 0 <= i < |ids| ==> RenamesAt(ids, preferred, out[i], i, lo, hi))
    && (forall i, j :: 0 <= i < j < |ids| && !Named(ids, preferred, i) && !Named(ids, preferred, j) ==> out[i] != out[j])
  }

  predicate Named(ids: seq<LeafId>, preferred: seq<LeafId>, i: nat)
    requires i < |ids|
  {
    Retains(ids, i) || Adopts(ids, preferred, i)
  }

  predicate RenamesAt(ids: seq<LeafId>, preferred: seq<LeafId>, o: LeafId, i: nat, lo: nat, hi: nat)
    requires i < |ids|
  {
    if Retains(ids, i) then o == ids[i]
    else if Adopts(ids, preferred, i) then o == preferred[i]
    else o.Stable? && lo <= o.uuid < hi
  }

  /** What holds of the assignment after `n` positions. */
  ghost predicate Assigned(ids: seq<LeafId>, preferred: seq<LeafId>, n: nat, lo: nat, a: Assignment)
    requires n <= |ids|
  {
    && lo <= a.next
    && (forall id :: id in a.ids ==> exists i :: 0 <= i < n && ids[i] == id && Unique(ids, i))
    && (forall i :: 0 <= i < n ==> AssignedAt(ids, preferred, i, lo, a))
    && (forall i, j :: 0 <= i < j < n ==> FreshApart(ids, preferred, i, j, a))
  }

  ghost predicate AssignedAt(ids: seq<LeafId>, preferred: seq<LeafId>, i: nat, lo: nat, a: Assignment)
    requires i < |ids|
  {
    && (Unique(ids, i) ==> ids[i] in a.ids && RenamesAt(ids, preferred, a.ids[ids[i]], i, lo, a.next))
    && (!a.changed ==> Retains(ids, i))
  }

  ghost predicate FreshApart(ids: seq<LeafId>, preferred: seq<LeafId>, i: nat, j: nat, a: Assignment)
    requires i < |ids| && j < |ids|
  {
    && (Unique(ids, i) && Unique(ids, j) && ids[i] in a.ids && ids[j] in a.ids &&
        !Named(ids, preferred, i) && !Named(ids, preferred, j)
        ==> a.ids[ids[i]] != a.ids[ids[j]])
  }

  /** A step leaves what was mapped, and draws forward. */
  lemma AssignStepExtends(ids: seq<LeafId>, preferred: seq<LeafId>, n: nat, a: Assignment)
    requires n < |ids|
    ensures var b := AssignStep(ids, preferred, n, a);
            && a.next <= b.next && (!b.changed ==> !a.changed && Retains(ids, n))
            && (forall id :: id in a.ids ==> id in b.ids && b.ids[id] == a.ids[id])
            && (forall id :: id in b.ids && id !in a.ids ==> id == ids[n] && Unique(ids, n))
  {
  }

  lemma NextIdIsNew(ids: seq<LeafId>, preferred: seq<LeafId>, n: nat, lo: nat, a: Assignment)
    requires n < |ids| && Assigned(ids, preferred, n, lo, a) && Unique(ids, n)
    ensures ids[n] !in a.ids
  {
    hide AssignedAt, FreshApart;
  }

  lemma StepAssignsNext(ids: seq<LeafId>, preferred: seq<LeafId>, n: nat, lo: nat, a: Assignment)
    requires n < |ids| && Assigned(ids, preferred, n, lo, a)
    ensures AssignedAt(ids, preferred, n, lo, AssignStep(ids, preferred, n, a))
  {
    hide AssignedAt, FreshApart, Unique;
    if Unique(ids, n) {
      NextIdIsNew(ids, preferred, n, lo, a);
    }
    NewIdIsAssigned(ids, preferred, n, lo, a);
  }

  lemma NewIdIsAssigned(ids: seq<LeafId>, preferred: seq<LeafId>, n: nat, lo: nat, a: Assignment)
    requires n < |ids| && lo <= a.next && (Unique(ids, n) ==> ids[n] !in a.ids)
    ensures AssignedAt(ids, preferred, n, lo, AssignStep(ids, preferred, n, a))
  {
    hide Unique;
  }

  lemma StepKeepsAssigned(ids: seq<LeafId>, preferred: seq<LeafId>, n: nat, i: nat, lo: nat, a: Assignment)
    requires i < n < |ids| && AssignedAt(ids, preferred, i, lo, a)
    ensures AssignedAt(ids, preferred, i, lo, AssignStep(ids, preferred, n, a))
  {
    hide AssignStep, Unique;
    AssignStepExtends(ids, preferred, n, a);
  }

  lemma StepKeepsApart(ids: seq<LeafId>, preferred: seq<LeafId>, n: nat, i: nat, j: nat, lo: nat, a: Assignment)
    requires i < j <= n < |ids| && AssignedAt(ids, preferred, i, lo, a)
    requires if j < n then AssignedAt(ids, preferred, j, lo, a) && FreshApart(ids, preferred, i, j, a)
             else Unique(ids, n) ==> ids[n] !in a.ids
    ensures FreshApart(ids, preferred, i, j, AssignStep(ids, preferred, n, a))
  {
    AssignStepExtends(ids, preferred, n, a);
  }

  lemma AssignStepAssigns(ids: seq<LeafId>, preferred: seq<LeafId>, n: nat, lo: nat, a: Assignment)
    requires n < |ids| && Assigned(ids, preferred, n, lo, a)
    ensures Assigned(ids, preferred, n + 1, lo, AssignStep(ids, preferred, n, a))
  {
    hide AssignStep, AssignedAt, FreshApart, Unique;
    var b := AssignStep(ids, preferred, n, a);
    AssignStepExtends(ids, preferred, n, a);
    if Unique(ids, n) {
      NextIdIsNew(ids, preferred, n, lo, a);
    }
    forall i | 0 <= i < n + 1 ensures AssignedAt(ids, preferred, i, lo, b) {
      if i < n {
        StepKeepsAssigned(ids, preferred, n, i, lo, a);
      } else {
        StepAssignsNext(ids, preferred, n, lo, a);
      }
    }
    forall i, j | 0 <= i < j < n + 1 ensures FreshApart(ids, preferred, i, j, b) {
      StepKeepsApart(ids, preferred, n, i, j, lo, a);
    }
    forall id | id in b.ids ensures exists i :: 0 <= i < n + 1 && ids[i] == id && Unique(ids, i) {
      if id in a.ids {
        var i :| 0 <= i < n && ids[i] == id && Unique(ids, i);
      }
    }
  }

  lemma {:induction false} AssignUpToAssigns(ids: seq<LeafId>, preferred: seq<LeafId>, n: nat, start: Assignment)
    requires n <= |ids| && start.ids == map[]
    ensures Assigned(ids, preferred, n, start.next, AssignUpTo(ids, preferred, n, start))
  {
    hide AssignStep, AssignedAt, FreshApart;
    if n > 0 {
      var before := AssignUpTo(ids, preferred, n - 1, start);
      AssignUpToAssigns(ids, preferred, n - 1, start);
      AssignStepAssigns(ids, preferred, n - 1, start.next, before);
      assert AssignUpTo(ids, preferred, n, start) == AssignStep(ids, preferred, n - 1, before);
    }
  }

  lemma {:induction false} CloneRenames(node: Node, leafMap: map<LeafId, LeafId>, duplicated: set<LeafId>, next: nat)
    ensures var c := CloneWithLeafIds(node, leafMap, duplicated, next);
            var ids, out := LeafIds(node), LeafIds(c.node);
            SameShape(node, c.node) && |out| == |ids| && next <= c.next &&
            (forall i :: 0 <= i < |ids| ==> ClonedAt(ids[i], out[i], leafMap, duplicated, next, c.next)) &&
            (forall i, j :: 0 <= i < j < |ids| && IsDrawn(ids[i], leafMap, duplicated) && IsDrawn(ids[j], leafMap, duplicated)
               ==> out[i] != out[j])
  {
    if node.Split? {
      var first := CloneWithLeafIds(node.first, leafMap, duplicated, next);
      CloneRenames(node.first, leafMap, duplicated, next);
      CloneRenames(node.second, leafMap, duplicated, first.next);
      var ids, out := LeafIds(node.first), LeafIds(first.node);
      assert forall i :: 0 <= i < |ids| ==> ClonedAt(ids[i], out[i], leafMap, duplicated, next, first.next);
    }
  }

  predicate IsDrawn(id: LeafId, leafMap: map<LeafId, LeafId>, duplicated: set<LeafId>) {
    id in duplicated || id !in leafMap
  }

  predicate ClonedAt(id: LeafId, o: LeafId, leafMap: map<LeafId, LeafId>, duplicated: set<LeafId>, lo: nat, hi: nat) {
    if IsDrawn(id, leafMap, duplicated) then o.Stable? && lo <= o.uuid < hi
    else o == leafMap[id]
  }

  /** The whole renaming of a tree, as one pass makes it. */
  function RenameTree(node: Node, preferred: seq<LeafId>, changed: bool, next: nat): Cloned {
    var ids := LeafIds(node);
    var a := AssignLeafIds(ids, preferred, changed, next);
    if a.changed then CloneWithLeafIds(node, a.ids, DuplicatedIds(ids), a.next) else Cloned(node, a.next)
  }

  predicate Carries(leafMap: map<LeafId, LeafId>, duplicated: set<LeafId>, id: LeafId) {
    id !in duplicated && id in leafMap
  }

  /** The map carries exactly the uniquely named leaves, each to the new id at its position. */
  ghost predicate FollowsMap(ids: seq<LeafId>, out: seq<LeafId>, leafMap: map<LeafId, LeafId>) {
    && |out| == |ids|
    && (forall i :: 0 <= i < |ids| ==> FollowsAt(ids, out[i], leafMap, i))
    && (forall id :: id in leafMap ==> NamesUniqueLeaf(ids, id))
  }

  predicate FollowsAt(ids: seq<LeafId>, o: LeafId, leafMap: map<LeafId, LeafId>, i: nat)
    requires i < |ids|
  {
    Unique(ids, i) ==> Carries(leafMap, DuplicatedIds(ids), ids[i]) && leafMap[ids[i]] == o
  }

  ghost predicate NamesUniqueLeaf(ids: seq<LeafId>, id: LeafId) {
    exists i :: 0 <= i < |ids| && ids[i] == id && Unique(ids, i)
  }

  lemma SameShapeReflexive(node: Node)
    ensures SameShape(node, node)
  {
  }

  /** When nothing is to change, every leaf retains its id. */
  lemma UnchangedTreeRenames(ids: seq<LeafId>, preferred: seq<LeafId>, lo: nat, a: Assignment)
    requires Assigned(ids, preferred, |ids|, lo, a) && !a.changed
    ensures Renames(ids, preferred, ids, lo, a.next) && FollowsMap(ids, ids, a.ids)
  {
    forall i | 0 <= i < |ids|
      ensures RenamesAt(ids, preferred, ids[i], i, lo, a.next) && Named(ids, preferred, i) && FollowsAt(ids, ids[i], a.ids, i)
    {
      assert AssignedAt(ids, preferred, i, lo, a);
      UniqueMeansCountedOnce(ids, i);
    }
  }

  lemma ClonedTreeRenames(ids: seq<LeafId>, preferred: seq<LeafId>, out: seq<LeafId>, lo: nat, a: Assignment, hi: nat)
    requires Assigned(ids, preferred, |ids|, lo, a) && |out| == |ids| && a.next <= hi
    requires forall i :: 0 <= i < |ids| ==> ClonedAt(ids[i], out[i], a.ids, DuplicatedIds(ids), a.next, hi)
    requires forall i, j :: 0 <= i < j < |ids| && IsDrawn(ids[i], a.ids, DuplicatedIds(ids)) && IsDrawn(ids[j], a.ids, DuplicatedIds(ids))
               ==> out[i] != out[j]
    ensures Renames(ids, preferred, out, lo, hi) && FollowsMap(ids, out, a.ids)
  {
    var duplicated := DuplicatedIds(ids);
    forall i | 0 <= i < |ids|
      ensures IsDrawn(ids[i], a.ids, duplicated) <==> !Unique(ids, i)
      ensures RenamesAt(ids, preferred, out[i], i, lo, hi) && FollowsAt(ids, out[i], a.ids, i)
    {
      UniqueMeansCountedOnce(ids, i);
      assert AssignedAt(ids, preferred, i, lo, a);
      assert ClonedAt(ids[i], out[i], a.ids, duplicated, a.next, hi);
    }
    forall i, j | 0 <= i < j < |ids| && !Named(ids, preferred, i) && !Named(ids, preferred, j)
      ensures out[i] != out[j]
    {
      assert FreshApart(ids, preferred, i, j, a);
      assert AssignedAt(ids, preferred, i, lo, a) && AssignedAt(ids, preferred, j, lo, a);
      assert ClonedAt(ids[i], out[i], a.ids, duplicated, a.next, hi);
      assert ClonedAt(ids[j], out[j], a.ids, duplicated, a.next, hi);
    }
  }

  /** Position by position, the new tree has the retained, the adopted, or a fresh
      id, and the map follows it. */
  lemma RenameTreeRenames(node: Node, preferred: seq<LeafId>, changed: bool, next: nat)
    ensures var c := RenameTree(node, preferred, changed, next);
            var ids, out := LeafIds(node), LeafIds(c.node);
            SameShape(node, c.node) && Renames(ids, preferred, out, next, c.next) &&
            FollowsMap(ids, out, AssignLeafIds(ids, preferred, changed, next).ids)
  {
    var ids := LeafIds(node);
    var a := AssignLeafIds(ids, preferred, changed, next);
    AssignUpToAssigns(ids, preferred, |ids|, Assignment(map[], changed, next));
    if a.changed {
      CloneRenames(node, a.ids, DuplicatedIds(ids), a.next);
      var c := CloneWithLeafIds(node, a.ids, DuplicatedIds(ids), a.next);
      ClonedTreeRenames(ids, preferred, LeafIds(c.node), next, a, c.next);
    } else {
      SameShapeReflexive(node);
      UnchangedTreeRenames(ids, preferred, next, a);
    }
  }

  lemma RenamedIsStable(ids: seq<LeafId>, preferred: seq<LeafId>, out: seq<LeafId>, lo: nat, hi: nat)
    requires Renames(ids, preferred, out, lo, hi)
    ensures AllStable(out)
  {
    assert forall i :: 0 <= i < |ids| ==> RenamesAt(ids, preferred, out[i], i, lo, hi);
  }

  /** The new ids are pairwise distinct exactly when no adopted id clashes. */
  lemma DistinctIffNoClash(ids: seq<LeafId>, preferred: seq<LeafId>, out: seq<LeafId>, lo: nat, hi: nat)
    requires Renames(ids, preferred, out, lo, hi)
    requires DrawnBefore(ids, lo) && DrawnBefore(preferred, lo)
    ensures Distinct(out) <==> !Clash(ids, preferred)
  {
    if Clash(ids, preferred) {
      var i, j :| 0 <= i < |ids| && 0 <= j < |ids| && i != j && ClashAt(ids, preferred, i, j);
      assert RenamesAt(ids, preferred, out[i], i, lo, hi) && RenamesAt(ids, preferred, out[j], j, lo, hi);
      assert out[i] == out[j];
    } else {
      forall i, j | 0 <= i < j < |out| ensures out[i] != out[j] {
        assert RenamesAt(ids, preferred, out[i], i, lo, hi) && RenamesAt(ids, preferred, out[j], j, lo, hi);
        assert !ClashAt(ids, preferred, i, j) && !ClashAt(ids, preferred, j, i);
      }
    }
  }

  ghost predicate IsIdentity(leafMap: map<LeafId, LeafId>) {
    forall id :: id in leafMap ==> leafMap[id] == id && id.Stable?
  }

  lemma AssignStepRetains(ids: seq<LeafId>, preferred: seq<LeafId>, i: nat, a: Assignment)
    requires i < |ids| && ids[i].Stable? && Unique(ids, i) && ids[i] !in a.ids
    ensures AssignStep(ids, preferred, i, a) == a.(ids := a.ids[ids[i] := ids[i]])
  {
  }

  lemma LaterIdIsNew(ids: seq<LeafId>, n: nat)
    requires n < |ids| && Distinct(ids)
    ensures ids[n] !in ids[..n] && Unique(ids, n) && ids[..n + 1] == ids[..n] + [ids[n]]
  {
  }

  /** A tree whose ids are already stable and distinct is left alone. */
  lemma {:induction false} AssignUpToRetains(ids: seq<LeafId>, preferred: seq<LeafId>, n: nat, start: Assignment)
    requires n <= |ids| && start.ids == map[] && AllStable(ids) && Distinct(ids)
    ensures var a := AssignUpTo(ids, preferred, n, start);
            IsIdentity(a.ids) && a.changed == start.changed && a.next == start.next &&
            (forall i :: 0 <= i < n ==> ids[i] in a.ids) && (forall id :: id in a.ids ==> id in ids[..n])
  {
    hide AssignStep, Unique, Distinct;
    if n > 0 {
      AssignUpToRetains(ids, preferred, n - 1, start);
      LaterIdIsNew(ids, n - 1);
      AssignStepRetains(ids, preferred, n - 1, AssignUpTo(ids, preferred, n - 1, start));
    }
  }

  /** One that is not distinct is always changed. */
  lemma DuplicatesForceChange(ids: seq<LeafId>, preferred: seq<LeafId>, changed: bool, next: nat)
    requires !Distinct(ids)
    ensures AssignLeafIds(ids, preferred, changed, next).changed
  {
    var start := Assignment(map[], changed, next);
    AssignUpToAssigns(ids, preferred, |ids|, start);
    var i, j :| 0 <= i < j < |ids| && ids[i] == ids[j];
    assert AssignedAt(ids, preferred, i, next, AssignUpTo(ids, preferred, |ids|, start));
  }

  /** A tree where adopting goes wrong: the second leaf takes the id that the first one retains. */
  lemma AdoptedIdCanClash()
    ensures var tree := Split(Vertical, None, Leaf(Stable(0)), Leaf(Legacy("2")));
            var preferred := [Stable(1), Stable(0)];
            LeafIds(RenameTree(tree, preferred, false, 2).node) == [Stable(0), Stable(0)]
  {
    var tree := Split(Vertical, None, Leaf(Stable(0)), Leaf(Legacy("2")));
    var preferred := [Stable(1), Stable(0)];
    var ids := LeafIds(tree);
    assert ids == [Stable(0), Legacy("2")];
    assert Unique(ids, 0) && Unique(ids, 1);
    RenameTreeRenames(tree, preferred, false, 2);
    var out := LeafIds(RenameTree(tree, preferred, false, 2).node);
    assert RenamesAt(ids, preferred, out[0], 0, 2, 2) && RenamesAt(ids, preferred, out[1], 1, 2, 2);
  }

  lemma {:induction false} AssignUpToDrawsForward(ids: seq<LeafId>, preferred: seq<LeafId>, n: nat, start: Assignment)
    requires n <= |ids|
    ensures start.next <= AssignUpTo(ids, preferred, n, start).next
  {
    if n > 0 {
      AssignUpToDrawsForward(ids, preferred, n - 1, start);
    }
  }

  lemma RenameTreeDrawsForward(node: Node, preferred: seq<LeafId>, changed: bool, next: nat)
    ensures next <= RenameTree(node, preferred, changed, next).next
  {
    var ids := LeafIds(node);
    var a := AssignLeafIds(ids, preferred, changed, next);
    AssignUpToDrawsForward(ids, preferred, |ids|, Assignment(map[], changed, next));
    CloneRenames(node, a.ids, DuplicatedIds(ids), a.next);
  }
}
