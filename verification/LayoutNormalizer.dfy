/**
  Normalising one persisted layout snapshot: its tree is renamed, and the active
  leaf, the expanded leaf and four leaf-keyed records follow their leaves.

  Records are maps; `undefined` is None. When two entries of a record are renamed
  to one key, the one later in JavaScript's key order wins: here that winner is an
  arbitrary one of them.
 */
module LayoutNormalizer {
  import opened Wrappers
  import opened Sequences
  import opened PtyIds
  import opened PaneLayout

  datatype Layout = Layout(
    root: Option<Node>,
    active: Option<LeafId>,
    expanded: Option<LeafId>,
    ptys: Option<map<LeafId, PtyId>>,
    buffers: Option<map<LeafId, string>>,
    scrollbackRefs: Option<map<LeafId, string>>,
    titles: Option<map<LeafId, string>>)

  function Entries<V>(record: Option<map<LeafId, V>>): map<LeafId, V> {
    if record.None? then map[] else record.value
  }

  // --------------------------------------------------------------- Records

  ghost predicate CarriedFrom<V>(source: map<LeafId, V>, leafMap: map<LeafId, LeafId>, duplicated: set<LeafId>,
                                 id: LeafId, key: LeafId)
  {
    id in source && Carries(leafMap, duplicated, id) && leafMap[id] == key
  }

  function CarriedKeys<V>(source: map<LeafId, V>, leafMap: map<LeafId, LeafId>, duplicated: set<LeafId>): set<LeafId> {
    set id | id in source && Carries(leafMap, duplicated, id) :: leafMap[id]
  }

  ghost function RemapEntries<V>(source: map<LeafId, V>, leafMap: map<LeafId, LeafId>, duplicated: set<LeafId>): map<LeafId, V> {
    map key | key in CarriedKeys(source, leafMap, duplicated) ::
      var id :| CarriedFrom(source, leafMap, duplicated, id, key); source[id]
  }

  /** An empty result is dropped. */
  ghost function RemapLeafRecord<V>(source: Option<map<LeafId, V>>, leafMap: map<LeafId, LeafId>,
                                    duplicated: set<LeafId>): Option<map<LeafId, V>>
  {
    if source.None? then None
    else
      var next := RemapEntries(source.value, leafMap, duplicated);
      if next == map[] then None else Some(next)
  }

  ghost predicate InjectiveOn(leafMap: map<LeafId, LeafId>, duplicated: set<LeafId>) {
    forall a, b :: Carries(leafMap, duplicated, a) && Carries(leafMap, duplicated, b) && a != b ==> leafMap[a] != leafMap[b]
  }

  lemma RemapEntriesAt<V>(source: map<LeafId, V>, leafMap: map<LeafId, LeafId>, duplicated: set<LeafId>, id: LeafId)
    requires InjectiveOn(leafMap, duplicated) && id in source && Carries(leafMap, duplicated, id)
    ensures var r := RemapEntries(source, leafMap, duplicated); leafMap[id] in r && r[leafMap[id]] == source[id]
  {
    var r := RemapEntries(source, leafMap, duplicated);
    assert CarriedFrom(source, leafMap, duplicated, id, leafMap[id]);
    assert leafMap[id] in r;
    var w :| CarriedFrom(source, leafMap, duplicated, w, leafMap[id]) && r[leafMap[id]] == source[w];
  }

  lemma RemapEntriesOnlyCarried<V>(source: map<LeafId, V>, leafMap: map<LeafId, LeafId>, duplicated: set<LeafId>, key: LeafId)
    requires key in RemapEntries(source, leafMap, duplicated)
    ensures exists id :: CarriedFrom(source, leafMap, duplicated, id, key) && RemapEntries(source, leafMap, duplicated)[key] == source[id]
  {
    assert exists id :: CarriedFrom(source, leafMap, duplicated, id, key);
  }

  /** `next` holds the entries whose turn has come. */
  ghost predicate RemappedBut<V>(source: map<LeafId, V>, leafMap: map<LeafId, LeafId>, duplicated: set<LeafId>,
                                       todo: set<LeafId>, next: map<LeafId, V>)
  {
    && (forall key :: key in next ==>
          exists id :: CarriedFrom(source, leafMap, duplicated, id, key) && id !in todo && next[key] == source[id])
    && (forall id :: id in source && id !in todo && Carries(leafMap, duplicated, id) ==> leafMap[id] in next)
  }

  lemma RemapOneMore<V>(source: map<LeafId, V>, leafMap: map<LeafId, LeafId>, duplicated: set<LeafId>,
                              todo: set<LeafId>, next: map<LeafId, V>, id: LeafId)
    requires RemappedBut(source, leafMap, duplicated, todo, next) && id in todo && id in source
    ensures RemappedBut(source, leafMap, duplicated, todo - {id},
                        if Carries(leafMap, duplicated, id) then next[leafMap[id] := source[id]] else next)
  {
    if Carries(leafMap, duplicated, id) {
      var after := next[leafMap[id] := source[id]];
      forall key | key in after
        ensures exists e :: CarriedFrom(source, leafMap, duplicated, e, key) && e !in todo - {id} && after[key] == source[e]
      {
        if key == leafMap[id] {
          assert CarriedFrom(source, leafMap, duplicated, id, key);
        } else {
          var e :| CarriedFrom(source, leafMap, duplicated, e, key) && e !in todo && next[key] == source[e];
        }
      }
    }
  }

  lemma RemappedAll<V>(source: map<LeafId, V>, leafMap: map<LeafId, LeafId>, duplicated: set<LeafId>, next: map<LeafId, V>)
    requires RemappedBut(source, leafMap, duplicated, {}, next)
    ensures forall key :: key in next <==> exists id :: CarriedFrom(source, leafMap, duplicated, id, key)
    ensures forall key :: key in next ==> exists id :: CarriedFrom(source, leafMap, duplicated, id, key) && next[key] == source[id]
    ensures InjectiveOn(leafMap, duplicated) ==> next == RemapEntries(source, leafMap, duplicated)
  {
    if InjectiveOn(leafMap, duplicated) {
      var spec := RemapEntries(source, leafMap, duplicated);
      forall key | key in next ensures key in spec && spec[key] == next[key] {
        var id :| CarriedFrom(source, leafMap, duplicated, id, key) && next[key] == source[id];
        RemapEntriesAt(source, leafMap, duplicated, id);
      }
      assert forall key :: key in spec ==> key in next;
    }
  }

  /** The program's loop, whatever order the entries come in. */
  method RemapEntriesLoop<V>(source: map<LeafId, V>, leafMap: map<LeafId, LeafId>, duplicated: set<LeafId>)
    returns (next: map<LeafId, V>)
    ensures RemappedBut(source, leafMap, duplicated, {}, next)
    ensures forall key :: key in next <==> exists id :: CarriedFrom(source, leafMap, duplicated, id, key)
    ensures forall key :: key in next ==> exists id :: CarriedFrom(source, leafMap, duplicated, id, key) && next[key] == source[id]
    ensures InjectiveOn(leafMap, duplicated) ==> next == RemapEntries(source, leafMap, duplicated)
  {
    hide RemapEntries, CarriedFrom, InjectiveOn;
    next := map[];
    var todo := source.Keys;
    while todo != {}
      invariant todo <= source.Keys && RemappedBut(source, leafMap, duplicated, todo, next)
      decreases |todo|
    {
      var id :| id in todo;
      RemapOneMore(source, leafMap, duplicated, todo, next, id);
      todo := todo - {id};
      if id in duplicated {
        continue;
      }
      if id in leafMap {
        next := next[leafMap[id] := source[id]];
      }
    }
    RemappedAll(source, leafMap, duplicated, next);
  }

  // ------------------------------------------------------------ The snapshot

  /** A missing root is taken from the preferred layout, when that has one. */
  function ResolveRoot(snapshot: Layout, preferred: Option<Layout>): Layout {
    if snapshot.root.Some? || preferred.None? || preferred.value.root.None? then snapshot
    else
      var root := preferred.value.root.value;
      var Inside := (id: Option<LeafId>) => TruthyLeaf(id) && id.value in LeafIds(root);
      snapshot.(
        root := Some(root),
        active := if Inside(snapshot.active) then snapshot.active
                  else if Inside(preferred.value.active) then preferred.value.active
                  else Some(FirstLeafId(root)),
        expanded := if Inside(snapshot.expanded) then snapshot.expanded
                    else if Inside(preferred.value.expanded) then preferred.value.expanded
                    else None)
  }

  function PreferredLeafIds(preferred: Option<Layout>): seq<LeafId> {
    if preferred.None? then [] else LayoutLeafIds(preferred.value.root)
  }

  datatype Normalization = Normalization(
    snapshot: Layout,
    changed: bool,
    leafMap: map<LeafId, LeafId>,
    next: nat)

  function MapActive(active: Option<LeafId>, leafMap: map<LeafId, LeafId>, duplicated: set<LeafId>, root: Node): Option<LeafId> {
    if TruthyLeaf(active) && active.value !in duplicated then
      Some(if active.value in leafMap then leafMap[active.value] else FirstLeafId(root))
    else if active.None? then None
    else Some(FirstLeafId(root))
  }

  function MapExpanded(expanded: Option<LeafId>, leafMap: map<LeafId, LeafId>, duplicated: set<LeafId>): Option<LeafId> {
    if TruthyLeaf(expanded) && Carries(leafMap, duplicated, expanded.value) then Some(leafMap[expanded.value]) else None
  }

  ghost function RenameSnapshot(input: Layout, leafMap: map<LeafId, LeafId>, duplicated: set<LeafId>, root: Node): Layout {
    Layout(
      Some(root),
      MapActive(input.active, leafMap, duplicated, root),
      MapExpanded(input.expanded, leafMap, duplicated),
      RemapLeafRecord(input.ptys, leafMap, duplicated),
      RemapLeafRecord(input.buffers, leafMap, duplicated),
      RemapLeafRecord(input.scrollbackRefs, leafMap, duplicated),
      RemapLeafRecord(input.titles, leafMap, duplicated))
  }

  /** The program's comparison: an absent record and an empty one are the same. */
  ghost predicate SameContents(a: Layout, b: Layout) {
    && a.active == b.active && a.expanded == b.expanded
    && Entries(a.ptys) == Entries(b.ptys)
    && Entries(a.buffers) == Entries(b.buffers)
    && Entries(a.scrollbackRefs) == Entries(b.scrollbackRefs)
    && Entries(a.titles) == Entries(b.titles)
  }

  /** The pass over a snapshot that has a root; `original` is returned when nothing changes. */
  ghost function NormalizeRooted(original: Layout, input: Layout, preferred: seq<LeafId>, changed: bool, next: nat): Normalization
    requires input.root.Some?
  {
    var ids := LeafIds(input.root.value);
    var a := AssignLeafIds(ids, preferred, changed, next);
    var renamed := RenameTree(input.root.value, preferred, changed, next);
    var out := RenameSnapshot(input, a.ids, DuplicatedIds(ids), renamed.node);
    if !a.changed && SameContents(input, out) then Normalization(original, false, a.ids, a.next)
    else Normalization(out, true, a.ids, renamed.next)
  }

  ghost function Normalize(snapshot: Layout, preferred: Option<Layout>, next: nat): Normalization {
    var input := ResolveRoot(snapshot, preferred);
    if input.root.None? then Normalization(snapshot, false, map[], next)
    else NormalizeRooted(snapshot, input, PreferredLeafIds(preferred), snapshot.root.None?, next)
  }

  // ------------------------------------------------------------ Main results

  /** Every id that occurs in the tree was drawn before `next`. */
  ghost predicate Supplied(layout: Layout, next: nat) {
    DrawnBefore(LayoutLeafIds(layout.root), next)
  }

  ghost predicate SuppliedFor(snapshot: Layout, preferred: Option<Layout>, next: nat) {
    Supplied(snapshot, next) && (preferred.Some? ==> Supplied(preferred.value, next))
  }

  ghost predicate LayoutClash(snapshot: Layout, preferred: Option<Layout>) {
    Clash(LayoutLeafIds(ResolveRoot(snapshot, preferred).root), PreferredLeafIds(preferred))
  }

  lemma RootedPassFields(original: Layout, input: Layout, preferred: seq<LeafId>, changed: bool, next: nat)
    requires input.root.Some? && (original == input || changed)
    ensures var n := NormalizeRooted(original, input, preferred, changed, next);
            var ids := LeafIds(input.root.value);
            var renamed := RenameTree(input.root.value, preferred, changed, next);
            n.snapshot.root == Some(renamed.node) && n.next == renamed.next &&
            n.leafMap == AssignLeafIds(ids, preferred, changed, next).ids &&
            SameContents(n.snapshot, RenameSnapshot(input, n.leafMap, DuplicatedIds(ids), renamed.node))
  {
    AssignUpToKeepsChanged(LeafIds(input.root.value), preferred, |LeafIds(input.root.value)|, Assignment(map[], changed, next));
  }

  /** What the pass does to a rooted snapshot, in terms of the map it builds. */
  lemma RootedPass(original: Layout, input: Layout, preferred: seq<LeafId>, changed: bool, next: nat)
    requires input.root.Some? && (original == input || changed)
    ensures var n := NormalizeRooted(original, input, preferred, changed, next);
            n.snapshot.root.Some? && SameShape(input.root.value, n.snapshot.root.value) &&
            var ids, out := LeafIds(input.root.value), LeafIds(n.snapshot.root.value);
            Renames(ids, preferred, out, next, n.next) && FollowsMap(ids, out, n.leafMap) &&
            SameContents(n.snapshot, RenameSnapshot(input, n.leafMap, DuplicatedIds(ids), n.snapshot.root.value))
  {
    RootedPassFields(original, input, preferred, changed, next);
    RenameTreeRenames(input.root.value, preferred, changed, next);
  }

  /** The tree keeps its shape and its leaves are renamed position by position. */
  lemma NormalizeRenamesTree(snapshot: Layout, preferred: Option<Layout>, next: nat)
    requires ResolveRoot(snapshot, preferred).root.Some?
    ensures var input := ResolveRoot(snapshot, preferred).root.value;
            var n := Normalize(snapshot, preferred, next);
            n.snapshot.root.Some? && SameShape(input, n.snapshot.root.value) &&
            AllStable(LeafIds(n.snapshot.root.value)) &&
            Renames(LeafIds(input), PreferredLeafIds(preferred), LeafIds(n.snapshot.root.value), next, n.next)
  {
    var input := ResolveRoot(snapshot, preferred);
    RootedPass(snapshot, input, PreferredLeafIds(preferred), snapshot.root.None?, next);
    var n := Normalize(snapshot, preferred, next);
    RenamedIsStable(LeafIds(input.root.value), PreferredLeafIds(preferred), LeafIds(n.snapshot.root.value), next, n.next);
  }

  /** The new ids are pairwise distinct exactly when no adopted id clashes. */
  lemma NormalizeIsDistinct(snapshot: Layout, preferred: Option<Layout>, next: nat)
    requires ResolveRoot(snapshot, preferred).root.Some? && SuppliedFor(snapshot, preferred, next)
    ensures var root := Normalize(snapshot, preferred, next).snapshot.root;
            root.Some? && (Distinct(LeafIds(root.value)) <==> !LayoutClash(snapshot, preferred))
  {
    NormalizeRenamesTree(snapshot, preferred, next);
    var n := Normalize(snapshot, preferred, next);
    DistinctIffNoClash(LeafIds(ResolveRoot(snapshot, preferred).root.value), PreferredLeafIds(preferred),
                       LeafIds(n.snapshot.root.value), next, n.next);
  }

  lemma CarriedIsUnique(ids: seq<LeafId>, out: seq<LeafId>, leafMap: map<LeafId, LeafId>, id: LeafId) returns (i: nat)
    requires FollowsMap(ids, out, leafMap) && id in leafMap
    ensures i < |ids| && ids[i] == id && Unique(ids, i) && leafMap[id] == out[i]
  {
    assert NamesUniqueLeaf(ids, id);
    i :| i < |ids| && ids[i] == id && Unique(ids, i);
    assert FollowsAt(ids, out[i], leafMap, i);
  }

  /** Values of uniquely named leaves end at their leaf's position, and nothing else appears. */
  ghost predicate RecordFollows<V>(source: map<LeafId, V>, record: map<LeafId, V>, ids: seq<LeafId>, out: seq<LeafId>)
    requires |out| == |ids|
  {
    && (forall i :: 0 <= i < |ids| && Unique(ids, i) && ids[i] in source ==>
          out[i] in record && record[out[i]] == source[ids[i]])
    && (forall key :: key in record ==> exists i :: 0 <= i < |ids| && ValueMoved(source, record[key], ids, i) && out[i] == key)
  }

  predicate ValueMoved<V(==)>(source: map<LeafId, V>, value: V, ids: seq<LeafId>, i: nat)
    requires i < |ids|
  {
    Unique(ids, i) && ids[i] in source && value == source[ids[i]]
  }

  lemma RemappedRecordFollows<V>(source: Option<map<LeafId, V>>, ids: seq<LeafId>, out: seq<LeafId>, leafMap: map<LeafId, LeafId>)
    requires FollowsMap(ids, out, leafMap) && Distinct(out)
    ensures RecordFollows(Entries(source), Entries(RemapLeafRecord(source, leafMap, DuplicatedIds(ids))), ids, out)
  {
    var duplicated := DuplicatedIds(ids);
    var entries := Entries(source);
    forall a, b | Carries(leafMap, duplicated, a) && Carries(leafMap, duplicated, b) && a != b
      ensures leafMap[a] != leafMap[b]
    {
      var i := CarriedIsUnique(ids, out, leafMap, a);
      var j := CarriedIsUnique(ids, out, leafMap, b);
    }
    var record := RemapEntries(entries, leafMap, duplicated);
    assert Entries(RemapLeafRecord(source, leafMap, duplicated)) == record;
    forall i | 0 <= i < |ids| && Unique(ids, i) && ids[i] in entries
      ensures out[i] in record && record[out[i]] == entries[ids[i]]
    {
      assert FollowsAt(ids, out[i], leafMap, i);
      RemapEntriesAt(entries, leafMap, duplicated, ids[i]);
    }
    forall key | key in record
      ensures exists i :: 0 <= i < |ids| && ValueMoved(entries, record[key], ids, i) && out[i] == key
    {
      RemapEntriesOnlyCarried(entries, leafMap, duplicated, key);
      var id :| CarriedFrom(entries, leafMap, duplicated, id, key) && record[key] == entries[id];
      var i := CarriedIsUnique(ids, out, leafMap, id);
      assert ValueMoved(entries, record[key], ids, i);
    }
  }

  /** All four records follow their leaves. */
  ghost predicate RecordsFollow(before: Layout, after: Layout, ids: seq<LeafId>, out: seq<LeafId>)
    requires |out| == |ids|
  {
    && RecordFollows(Entries(before.ptys), Entries(after.ptys), ids, out)
    && RecordFollows(Entries(before.buffers), Entries(after.buffers), ids, out)
    && RecordFollows(Entries(before.scrollbackRefs), Entries(after.scrollbackRefs), ids, out)
    && RecordFollows(Entries(before.titles), Entries(after.titles), ids, out)
  }

  lemma RenamedRecordsFollow(before: Layout, after: Layout, leafMap: map<LeafId, LeafId>, ids: seq<LeafId>, out: seq<LeafId>, root: Node)
    requires FollowsMap(ids, out, leafMap) && Distinct(out)
    requires SameContents(after, RenameSnapshot(before, leafMap, DuplicatedIds(ids), root))
    ensures RecordsFollow(before, after, ids, out)
  {
    RemappedRecordFollows(before.ptys, ids, out, leafMap);
    RemappedRecordFollows(before.buffers, ids, out, leafMap);
    RemappedRecordFollows(before.scrollbackRefs, ids, out, leafMap);
    RemappedRecordFollows(before.titles, ids, out, leafMap);
  }

  /** Without a clash, every record follows its leaves. */
  lemma NormalizeMovesRecords(snapshot: Layout, preferred: Option<Layout>, next: nat)
    requires ResolveRoot(snapshot, preferred).root.Some? && SuppliedFor(snapshot, preferred, next)
    requires !LayoutClash(snapshot, preferred)
    ensures var input := ResolveRoot(snapshot, preferred).root.value;
            var n := Normalize(snapshot, preferred, next).snapshot;
            n.root.Some? && |LeafIds(n.root.value)| == |LeafIds(input)| &&
            RecordsFollow(snapshot, n, LeafIds(input), LeafIds(n.root.value))
  {
    var input := ResolveRoot(snapshot, preferred);
    var n := Normalize(snapshot, preferred, next);
    NormalizeIsDistinct(snapshot, preferred, next);
    RootedPass(snapshot, input, PreferredLeafIds(preferred), snapshot.root.None?, next);
    RenamedRecordsFollow(input, n.snapshot, n.leafMap, LeafIds(input.root.value), LeafIds(n.snapshot.root.value), n.snapshot.root.value);
  }

  /** The pointer is at the leaf at `i`, which has a name of its own. */
  predicate PointsAt(pointer: Option<LeafId>, ids: seq<LeafId>, i: nat) {
    i < |ids| && Unique(ids, i) && pointer == Some(ids[i]) && TruthyLeaf(pointer)
  }

  /** The active leaf stays on its leaf; null stays null; anything else becomes the first leaf. */
  ghost predicate ActiveFollows(before: Option<LeafId>, after: Option<LeafId>, ids: seq<LeafId>, out: seq<LeafId>)
    requires |out| == |ids| > 0
  {
    && (forall i: nat :: PointsAt(before, ids, i) ==> after == Some(out[i]))
    && ((forall i: nat :: !PointsAt(before, ids, i)) ==> after == if before.None? then None else Some(out[0]))
  }

  /** The expanded leaf stays on its leaf, or is none. */
  ghost predicate ExpandedFollows(before: Option<LeafId>, after: Option<LeafId>, ids: seq<LeafId>, out: seq<LeafId>)
    requires |out| == |ids|
  {
    && (forall i: nat :: PointsAt(before, ids, i) ==> after == Some(out[i]))
    && ((forall i: nat :: !PointsAt(before, ids, i)) ==> after.None?)
  }

  lemma PointedLeafIsCarried(pointer: Option<LeafId>, leafMap: map<LeafId, LeafId>, ids: seq<LeafId>, out: seq<LeafId>)
    requires FollowsMap(ids, out, leafMap)
    ensures forall i: nat :: PointsAt(pointer, ids, i) ==>
              Carries(leafMap, DuplicatedIds(ids), pointer.value) && leafMap[pointer.value] == out[i]
    ensures (forall i: nat :: !PointsAt(pointer, ids, i)) && TruthyLeaf(pointer) ==> pointer.value !in leafMap
  {
    forall i: nat | PointsAt(pointer, ids, i)
      ensures Carries(leafMap, DuplicatedIds(ids), pointer.value) && leafMap[pointer.value] == out[i]
    {
      assert FollowsAt(ids, out[i], leafMap, i);
    }
    if TruthyLeaf(pointer) && pointer.value in leafMap {
      var i := CarriedIsUnique(ids, out, leafMap, pointer.value);
      assert PointsAt(pointer, ids, i);
    }
  }

  lemma MappedActiveFollows(active: Option<LeafId>, leafMap: map<LeafId, LeafId>, ids: seq<LeafId>, root: Node)
    requires FollowsMap(ids, LeafIds(root), leafMap)
    ensures ActiveFollows(active, MapActive(active, leafMap, DuplicatedIds(ids), root), ids, LeafIds(root))
  {
    hide LeafIds, FirstLeafId, FollowsAt, DuplicatedIds, PointsAt;
    FirstLeafIdIsHead(root);
    PointedLeafIsCarried(active, leafMap, ids, LeafIds(root));
    NullPointsNowhere(ids);
  }

  lemma NullPointsNowhere(ids: seq<LeafId>)
    ensures forall pointer, i: nat :: PointsAt(pointer, ids, i) ==> TruthyLeaf(pointer)
  {
  }

  lemma MappedExpandedFollows(expanded: Option<LeafId>, leafMap: map<LeafId, LeafId>, ids: seq<LeafId>, out: seq<LeafId>)
    requires FollowsMap(ids, out, leafMap)
    ensures ExpandedFollows(expanded, MapExpanded(expanded, leafMap, DuplicatedIds(ids)), ids, out)
  {
    hide FollowsAt, DuplicatedIds, PointsAt;
    PointedLeafIsCarried(expanded, leafMap, ids, out);
    NullPointsNowhere(ids);
  }

  lemma RenamedPointersFollow(before: Layout, after: Layout, leafMap: map<LeafId, LeafId>, ids: seq<LeafId>, root: Node)
    requires FollowsMap(ids, LeafIds(root), leafMap)
    requires SameContents(after, RenameSnapshot(before, leafMap, DuplicatedIds(ids), root))
    ensures ActiveFollows(before.active, after.active, ids, LeafIds(root))
    ensures ExpandedFollows(before.expanded, after.expanded, ids, LeafIds(root))
  {
    hide ActiveFollows, ExpandedFollows, LeafIds, MapActive, MapExpanded, RemapLeafRecord, DuplicatedIds;
    MappedActiveFollows(before.active, leafMap, ids, root);
    MappedExpandedFollows(before.expanded, leafMap, ids, LeafIds(root));
  }

  /** The active leaf and the expanded leaf stay on their leaf when that is uniquely
      named; otherwise the one is null if it was, or the first leaf, the other none. */
  lemma NormalizeMovesPointers(snapshot: Layout, preferred: Option<Layout>, next: nat)
    requires ResolveRoot(snapshot, preferred).root.Some?
    ensures var input := ResolveRoot(snapshot, preferred);
            var n := Normalize(snapshot, preferred, next).snapshot;
            n.root.Some? && |LeafIds(n.root.value)| == |LeafIds(input.root.value)| &&
            var ids, out := LeafIds(input.root.value), LeafIds(n.root.value);
            ActiveFollows(input.active, n.active, ids, out) && ExpandedFollows(input.expanded, n.expanded, ids, out)
  {
    var input := ResolveRoot(snapshot, preferred);
    var n := Normalize(snapshot, preferred, next);
    RootedPass(snapshot, input, PreferredLeafIds(preferred), snapshot.root.None?, next);
    RenamedPointersFollow(input, n.snapshot, n.leafMap, LeafIds(input.root.value), n.snapshot.root.value);
  }

  lemma PointersAreLeaves(before: Layout, after: Layout, ids: seq<LeafId>, out: seq<LeafId>)
    requires |out| == |ids| > 0
    requires ActiveFollows(before.active, after.active, ids, out) && ExpandedFollows(before.expanded, after.expanded, ids, out)
    ensures after.active.Some? ==> after.active.value in out
    ensures after.expanded.Some? ==> after.expanded.value in out
  {
    if i: nat :| PointsAt(before.active, ids, i) {
      assert after.active == Some(out[i]);
    }
    if i: nat :| PointsAt(before.expanded, ids, i) {
      assert after.expanded == Some(out[i]);
    }
  }

  /** A layout without a root takes the preferred one's tree. Each pointer keeps its leaf
      if the tree has it, or else takes the preferred one's if the tree has that; failing
      both, the first leaf is active and none is expanded. */
  lemma BorrowedTree(snapshot: Layout, preferred: Layout)
    requires snapshot.root.None? && preferred.root.Some?
    ensures var input, ids := ResolveRoot(snapshot, Some(preferred)), LeafIds(preferred.root.value);
            && input == snapshot.(root := preferred.root, active := input.active, expanded := input.expanded)
            && Borrows(snapshot.active, preferred.active, input.active, ids, Some(ids[0]))
            && Borrows(snapshot.expanded, preferred.expanded, input.expanded, ids, None)
  {
    FirstLeafIdIsHead(preferred.root.value);
  }

  predicate IsLeaf(pointer: Option<LeafId>, ids: seq<LeafId>) {
    pointer.Some? && pointer.value != Legacy("") && pointer.value in ids
  }

  predicate Borrows(own: Option<LeafId>, preferred: Option<LeafId>, result: Option<LeafId>, ids: seq<LeafId>, otherwise: Option<LeafId>) {
    && (IsLeaf(own, ids) ==> result == own)
    && (!IsLeaf(own, ids) && IsLeaf(preferred, ids) ==> result == preferred)
    && (!IsLeaf(own, ids) && !IsLeaf(preferred, ids) ==> result == otherwise)
  }

  /** With a root of its own, or none to take, it is as it is. */
  lemma OwnTree(snapshot: Layout, preferred: Option<Layout>)
    requires snapshot.root.Some? || preferred.None? || preferred.value.root.None?
    ensures ResolveRoot(snapshot, preferred) == snapshot
  {
  }

  lemma AllRetained(ids: seq<LeafId>, preferred: seq<LeafId>, out: seq<LeafId>, lo: nat, hi: nat)
    requires Renames(ids, preferred, out, lo, hi) && DrawnBefore(ids, lo)
    ensures out == ids <==> forall i :: 0 <= i < |ids| ==> Retains(ids, i)
  {
    forall i | 0 <= i < |ids|
      ensures out[i] == ids[i] <==> Retains(ids, i)
    {
      assert RenamesAt(ids, preferred, out[i], i, lo, hi);
    }
  }

  lemma RetainedAreDistinct(ids: seq<LeafId>)
    requires forall i :: 0 <= i < |ids| ==> Retains(ids, i)
    ensures AllStable(ids) && Distinct(ids)
  {
    forall i, j | 0 <= i < j < |ids|
      ensures ids[i] != ids[j]
    {
      assert Retains(ids, i);
    }
    forall i | 0 <= i < |ids|
      ensures ids[i].Stable?
    {
      assert Retains(ids, i);
    }
  }

  lemma AssignmentChanges(ids: seq<LeafId>, preferred: seq<LeafId>, changed: bool, next: nat)
    ensures AssignLeafIds(ids, preferred, changed, next).changed <==> changed || exists i :: 0 <= i < |ids| && !Retains(ids, i)
  {
    var start := Assignment(map[], changed, next);
    AssignUpToKeepsChanged(ids, preferred, |ids|, start);
    AssignUpToAssigns(ids, preferred, |ids|, start);
    if i :| 0 <= i < |ids| && !Retains(ids, i) {
      assert AssignedAt(ids, preferred, i, next, AssignUpTo(ids, preferred, |ids|, start));
      assert AssignUpTo(ids, preferred, |ids|, start).changed;
    } else {
      RetainedAreDistinct(ids);
      AssignUpToRetains(ids, preferred, |ids|, start);
    }
  }

  /** `changed` says exactly whether the tree was taken over, a leaf was renamed, or a
      pointer or record came out different. */
  lemma ChangedIff(snapshot: Layout, preferred: Option<Layout>, next: nat)
    requires ResolveRoot(snapshot, preferred).root.Some? && SuppliedFor(snapshot, preferred, next)
    ensures var n := Normalize(snapshot, preferred, next);
            n.changed <==> snapshot.root.None? || LayoutLeafIds(n.snapshot.root) != LayoutLeafIds(snapshot.root) || !SameContents(snapshot, n.snapshot)
    ensures var n := Normalize(snapshot, preferred, next); !n.changed ==> n.snapshot == snapshot
  {
    hide AssignUpTo, RenameSnapshot, Retains, LeafIds, Renames, DrawnBefore, RenameTree;
    var input := ResolveRoot(snapshot, preferred);
    var n := Normalize(snapshot, preferred, next);
    NormalizeRenamesTree(snapshot, preferred, next);
    AllRetained(LeafIds(input.root.value), PreferredLeafIds(preferred), LeafIds(n.snapshot.root.value), next, n.next);
    AssignmentChanges(LeafIds(input.root.value), PreferredLeafIds(preferred), snapshot.root.None?, next);
  }

  // ------------------------------------------------------------ Fixed point

  /** What one pass leaves behind when there is no clash. */
  ghost predicate Normal(layout: Layout) {
    layout.root.Some? ==>
      var ids := LeafIds(layout.root.value);
      && AllStable(ids) && Distinct(ids)
      && (layout.active.Some? ==> layout.active.value in ids)
      && (layout.expanded.Some? ==> layout.expanded.value in ids)
      && KeysAmong(layout.ptys, ids) && KeysAmong(layout.buffers, ids)
      && KeysAmong(layout.scrollbackRefs, ids) && KeysAmong(layout.titles, ids)
  }

  ghost predicate KeysAmong<V>(record: Option<map<LeafId, V>>, ids: seq<LeafId>) {
    forall key :: key in Entries(record) ==> key in ids
  }

  lemma RemapByIdentity<V>(source: Option<map<LeafId, V>>, leafMap: map<LeafId, LeafId>)
    requires IsIdentity(leafMap) && forall key :: key in Entries(source) ==> key in leafMap
    ensures Entries(RemapLeafRecord(source, leafMap, {})) == Entries(source)
  {
    var entries := Entries(source);
    var r := RemapEntries(entries, leafMap, {});
    forall id | id in entries ensures id in r && r[id] == entries[id] {
      RemapEntriesAt(entries, leafMap, {}, id);
    }
    forall key | key in r ensures key in entries {
      RemapEntriesOnlyCarried(entries, leafMap, {}, key);
    }
    assert r == entries;
  }

  lemma IdentityRenamesNothing(layout: Layout, leafMap: map<LeafId, LeafId>, ids: seq<LeafId>, root: Node)
    requires Normal(layout) && layout.root == Some(root) && ids == LeafIds(root)
    requires IsIdentity(leafMap) && forall i :: 0 <= i < |ids| ==> ids[i] in leafMap
    ensures SameContents(layout, RenameSnapshot(layout, leafMap, {}, root))
  {
    RemapByIdentity(layout.ptys, leafMap);
    RemapByIdentity(layout.buffers, leafMap);
    RemapByIdentity(layout.scrollbackRefs, leafMap);
    RemapByIdentity(layout.titles, leafMap);
  }

  /** A normal layout is returned untouched, whatever layout is preferred. */
  lemma NormalIsFixed(layout: Layout, preferred: Option<Layout>, next: nat)
    requires Normal(layout) && (layout.root.Some? || ResolveRoot(layout, preferred).root.None?)
    ensures var n := Normalize(layout, preferred, next);
            n.snapshot == layout && !n.changed && n.next == next && IsIdentity(n.leafMap)
  {
    if layout.root.Some? {
      var ids := LeafIds(layout.root.value);
      AssignUpToRetains(ids, PreferredLeafIds(preferred), |ids|, Assignment(map[], false, next));
      forall i | 0 <= i < |ids| ensures multiset(ids)[ids[i]] == 1 {
        UniqueMeansCountedOnce(ids, i);
      }
      assert DuplicatedIds(ids) == {};
      IdentityRenamesNothing(layout, AssignLeafIds(ids, PreferredLeafIds(preferred), false, next).ids, ids, layout.root.value);
    }
  }

  lemma FollowingRecordHasLeafKeys<V>(source: Option<map<LeafId, V>>, record: Option<map<LeafId, V>>, ids: seq<LeafId>, out: seq<LeafId>)
    requires |out| == |ids| && RecordFollows(Entries(source), Entries(record), ids, out)
    ensures KeysAmong(record, out)
  {
  }

  lemma NormalizeMakesNormal(snapshot: Layout, preferred: Option<Layout>, next: nat)
    requires SuppliedFor(snapshot, preferred, next) && !LayoutClash(snapshot, preferred)
    ensures Normal(Normalize(snapshot, preferred, next).snapshot)
  {
    if ResolveRoot(snapshot, preferred).root.Some? {
      NormalizeRenamesTree(snapshot, preferred, next);
      NormalizeIsDistinct(snapshot, preferred, next);
      NormalizeMovesRecords(snapshot, preferred, next);
      NormalizeMovesPointers(snapshot, preferred, next);
      var n := Normalize(snapshot, preferred, next).snapshot;
      var ids, out := LeafIds(ResolveRoot(snapshot, preferred).root.value), LeafIds(n.root.value);
      PointersAreLeaves(ResolveRoot(snapshot, preferred), n, ids, out);
      FollowingRecordHasLeafKeys(snapshot.ptys, n.ptys, ids, out);
      FollowingRecordHasLeafKeys(snapshot.buffers, n.buffers, ids, out);
      FollowingRecordHasLeafKeys(snapshot.scrollbackRefs, n.scrollbackRefs, ids, out);
      FollowingRecordHasLeafKeys(snapshot.titles, n.titles, ids, out);
    }
  }

  /** One pass reaches a fixed point exactly when there was no clash: the second
      pass draws no id and reports no change. */
  lemma SecondPassIsIdentityIffNoClash(snapshot: Layout, preferred: Option<Layout>, next: nat, later: nat)
    requires SuppliedFor(snapshot, preferred, next)
    ensures var once := Normalize(snapshot, preferred, next).snapshot;
            var twice := Normalize(once, Some(once), later);
            (!LayoutClash(snapshot, preferred) <==> !twice.changed) &&
            (!twice.changed ==> twice.snapshot == once && twice.next == later && IsIdentity(twice.leafMap))
  {
    var once := Normalize(snapshot, preferred, next).snapshot;
    if !LayoutClash(snapshot, preferred) {
      NormalizeMakesNormal(snapshot, preferred, next);
      NormalIsFixed(once, Some(once), later);
    } else {
      NormalizeIsDistinct(snapshot, preferred, next);
      DuplicatesForceChange(LeafIds(once.root.value), PreferredLeafIds(Some(once)), false, later);
    }
  }

  // ----------------------------------------------------------- The program

  /** Without a clash no two entries of a record are renamed to one key. */
  lemma NoClashIsInjective(snapshot: Layout, preferred: Option<Layout>, next: nat)
    requires ResolveRoot(snapshot, preferred).root.Some? && SuppliedFor(snapshot, preferred, next) && !LayoutClash(snapshot, preferred)
    ensures var ids := LeafIds(ResolveRoot(snapshot, preferred).root.value);
            InjectiveOn(AssignLeafIds(ids, PreferredLeafIds(preferred), snapshot.root.None?, next).ids, DuplicatedIds(ids))
  {
    var root := ResolveRoot(snapshot, preferred).root.value;
    NormalizeIsDistinct(snapshot, preferred, next);
    RootedPassFields(snapshot, ResolveRoot(snapshot, preferred), PreferredLeafIds(preferred), snapshot.root.None?, next);
    RenameTreeRenames(root, PreferredLeafIds(preferred), snapshot.root.None?, next);
    DistinctIsInjective(LeafIds(root), LeafIds(RenameTree(root, PreferredLeafIds(preferred), snapshot.root.None?, next).node),
                        AssignLeafIds(LeafIds(root), PreferredLeafIds(preferred), snapshot.root.None?, next).ids);
  }

  lemma DistinctIsInjective(ids: seq<LeafId>, out: seq<LeafId>, leafMap: map<LeafId, LeafId>)
    requires FollowsMap(ids, out, leafMap) && Distinct(out)
    ensures InjectiveOn(leafMap, DuplicatedIds(ids))
  {
    forall a, b | Carries(leafMap, DuplicatedIds(ids), a) && Carries(leafMap, DuplicatedIds(ids), b) && a != b
      ensures leafMap[a] != leafMap[b]
    {
      var i := CarriedIsUnique(ids, out, leafMap, a);
      var j := CarriedIsUnique(ids, out, leafMap, b);
    }
  }

  /** An outcome of remapping a record, in some order of its entries. */
  ghost predicate Remaps<V>(source: Option<map<LeafId, V>>, leafMap: map<LeafId, LeafId>, duplicated: set<LeafId>, record: Option<map<LeafId, V>>) {
    if source.None? then record.None?
    else RemappedBut(source.value, leafMap, duplicated, {}, Entries(record)) && record != Some(map[])
  }

  lemma RemappedKeys<V>(source: map<LeafId, V>, leafMap: map<LeafId, LeafId>, duplicated: set<LeafId>)
    ensures forall key :: key in RemapEntries(source, leafMap, duplicated) <==> exists id :: CarriedFrom(source, leafMap, duplicated, id, key)
  {
  }

  /** Where no two entries are renamed to one key there is one outcome; the keys are
      the same in any case. */
  lemma RemapsInjectively<V>(source: Option<map<LeafId, V>>, leafMap: map<LeafId, LeafId>, duplicated: set<LeafId>, record: Option<map<LeafId, V>>)
    requires Remaps(source, leafMap, duplicated, record)
    ensures InjectiveOn(leafMap, duplicated) ==> record == RemapLeafRecord(source, leafMap, duplicated)
    ensures Entries(record).Keys == Entries(RemapLeafRecord(source, leafMap, duplicated)).Keys
  {
    hide RemapEntries, CarriedFrom, InjectiveOn;
    if source.Some? {
      RemappedAll(source.value, leafMap, duplicated, Entries(record));
      RemappedKeys(source.value, leafMap, duplicated);
    }
  }

  lemma RemapIsAnOutcome<V>(source: Option<map<LeafId, V>>, leafMap: map<LeafId, LeafId>, duplicated: set<LeafId>)
    ensures Remaps(source, leafMap, duplicated, RemapLeafRecord(source, leafMap, duplicated))
  {
    if source.Some? {
      var r := RemapEntries(source.value, leafMap, duplicated);
      forall key | key in r
        ensures exists id :: CarriedFrom(source.value, leafMap, duplicated, id, key) && id !in {} && r[key] == source.value[id]
      {
        RemapEntriesOnlyCarried(source.value, leafMap, duplicated, key);
      }
      forall id | id in source.value && Carries(leafMap, duplicated, id)
        ensures leafMap[id] in r
      {
        assert CarriedFrom(source.value, leafMap, duplicated, id, leafMap[id]);
      }
    }
  }

  method RemapRecord<V>(source: Option<map<LeafId, V>>, leafMap: map<LeafId, LeafId>, duplicated: set<LeafId>)
    returns (next: Option<map<LeafId, V>>)
    ensures Remaps(source, leafMap, duplicated, next)
  {
    if source.None? {
      return None;
    }
    var entries := RemapEntriesLoop(source.value, leafMap, duplicated);
    return if |entries| > 0 then Some(entries) else None;
  }

  method CountLeaves(root: Node) returns (counts: map<LeafId, nat>, duplicated: set<LeafId>)
    ensures forall id :: id in LeafIds(root) ==> id in counts && counts[id] == multiset(LeafIds(root))[id]
    ensures duplicated == DuplicatedIds(LeafIds(root))
  {
    hide LeafIds, CollectLeafCounts;
    counts := CollectLeafCounts(root, map[]);
    forall id
      ensures (if id in counts then counts[id] else 0) == multiset(LeafIds(root))[id]
    {
      LeafCountsAreMultiplicities(root, map[], id);
    }
    assert forall id :: id in LeafIds(root) ==> multiset(LeafIds(root))[id] > 0;
    duplicated := set id | id in counts && counts[id] > 1;
  }

  /** An outcome of renaming a layout, each record in some order. */
  ghost predicate RenamedAs(input: Layout, leafMap: map<LeafId, LeafId>, duplicated: set<LeafId>, root: Node, out: Layout) {
    && out.root == Some(root)
    && out.active == MapActive(input.active, leafMap, duplicated, root)
    && out.expanded == MapExpanded(input.expanded, leafMap, duplicated)
    && Remaps(input.ptys, leafMap, duplicated, out.ptys)
    && Remaps(input.buffers, leafMap, duplicated, out.buffers)
    && Remaps(input.scrollbackRefs, leafMap, duplicated, out.scrollbackRefs)
    && Remaps(input.titles, leafMap, duplicated, out.titles)
  }

  ghost predicate NormalizesRooted(original: Layout, input: Layout, preferred: seq<LeafId>, changed: bool, next: nat, n: Normalization)
    requires input.root.Some?
  {
    var ids := LeafIds(input.root.value);
    var a := AssignLeafIds(ids, preferred, changed, next);
    var renamed := RenameTree(input.root.value, preferred, changed, next);
    exists out ::
      && RenamedAs(input, a.ids, DuplicatedIds(ids), renamed.node, out)
      && n == if !a.changed && SameContents(input, out) then Normalization(original, false, a.ids, a.next)
              else Normalization(out, true, a.ids, renamed.next)
  }

  /** An outcome of the pass over a layout: where two entries of a record are renamed to
      one key, either may win. */
  ghost predicate Normalizes(snapshot: Layout, preferred: Option<Layout>, next: nat, n: Normalization) {
    var input := ResolveRoot(snapshot, preferred);
    if input.root.None? then n == Normalization(snapshot, false, map[], next)
    else NormalizesRooted(snapshot, input, PreferredLeafIds(preferred), snapshot.root.None?, next, n)
  }

  lemma RenamedInjectively(input: Layout, leafMap: map<LeafId, LeafId>, duplicated: set<LeafId>, root: Node, out: Layout)
    requires RenamedAs(input, leafMap, duplicated, root, out)
    ensures InjectiveOn(leafMap, duplicated) ==> out == RenameSnapshot(input, leafMap, duplicated, root)
    ensures SameButValues(out, RenameSnapshot(input, leafMap, duplicated, root))
  {
    hide Remaps, RemapLeafRecord, InjectiveOn, MapActive, MapExpanded;
    RemapsInjectively(input.ptys, leafMap, duplicated, out.ptys);
    RemapsInjectively(input.buffers, leafMap, duplicated, out.buffers);
    RemapsInjectively(input.scrollbackRefs, leafMap, duplicated, out.scrollbackRefs);
    RemapsInjectively(input.titles, leafMap, duplicated, out.titles);
  }

  /** The same tree and pointers, and records with the same keys. */
  ghost predicate SameButValues(a: Layout, b: Layout) {
    && a.root == b.root && a.active == b.active && a.expanded == b.expanded
    && Entries(a.ptys).Keys == Entries(b.ptys).Keys
    && Entries(a.buffers).Keys == Entries(b.buffers).Keys
    && Entries(a.scrollbackRefs).Keys == Entries(b.scrollbackRefs).Keys
    && Entries(a.titles).Keys == Entries(b.titles).Keys
  }

  /** When nothing is to change, no two entries are renamed to one key. */
  lemma UnchangedIsInjective(ids: seq<LeafId>, preferred: seq<LeafId>, changed: bool, next: nat)
    requires !AssignLeafIds(ids, preferred, changed, next).changed
    ensures InjectiveOn(AssignLeafIds(ids, preferred, changed, next).ids, DuplicatedIds(ids))
  {
    hide AssignUpTo, InjectiveOn, FollowsMap;
    var a := AssignLeafIds(ids, preferred, changed, next);
    AssignUpToAssigns(ids, preferred, |ids|, Assignment(map[], changed, next));
    UnchangedTreeRenames(ids, preferred, next, a);
    assert forall i :: 0 <= i < |ids| ==> AssignedAt(ids, preferred, i, next, a);
    RetainedAreDistinct(ids);
    DistinctIsInjective(ids, ids, a.ids);
  }

  /** All outcomes agree but for the values of keys that two entries compete for; and
      without a clash there is only one. */
  lemma OutcomesAgree(snapshot: Layout, preferred: Option<Layout>, next: nat, n: Normalization)
    requires Normalizes(snapshot, preferred, next, n)
    ensures var m := Normalize(snapshot, preferred, next);
            n.changed == m.changed && n.leafMap == m.leafMap && n.next == m.next && SameButValues(n.snapshot, m.snapshot)
    ensures SuppliedFor(snapshot, preferred, next) && !LayoutClash(snapshot, preferred) ==> n == Normalize(snapshot, preferred, next)
  {
    hide RenamedAs, InjectiveOn, AssignUpTo, RenameSnapshot, LayoutClash, SuppliedFor;
    var input := ResolveRoot(snapshot, preferred);
    if input.root.Some? {
      var ids := LeafIds(input.root.value);
      var a := AssignLeafIds(ids, PreferredLeafIds(preferred), snapshot.root.None?, next);
      var root := RenameTree(input.root.value, PreferredLeafIds(preferred), snapshot.root.None?, next).node;
      var out :| RenamedAs(input, a.ids, DuplicatedIds(ids), root, out)
        && n == if !a.changed && SameContents(input, out) then Normalization(snapshot, false, a.ids, a.next)
                else Normalization(out, true, a.ids, RenameTree(input.root.value, PreferredLeafIds(preferred), snapshot.root.None?, next).next);
      RenamedInjectively(input, a.ids, DuplicatedIds(ids), root, out);
      if !a.changed {
        UnchangedIsInjective(ids, PreferredLeafIds(preferred), snapshot.root.None?, next);
      } else if SuppliedFor(snapshot, preferred, next) && !LayoutClash(snapshot, preferred) {
        NoClashIsInjective(snapshot, preferred, next);
      }
    }
  }

  /** The function the proofs are about is one of the outcomes. */
  lemma NormalizeIsAnOutcome(snapshot: Layout, preferred: Option<Layout>, next: nat)
    ensures Normalizes(snapshot, preferred, next, Normalize(snapshot, preferred, next))
  {
    hide Remaps, RemapLeafRecord, AssignUpTo, MapActive, MapExpanded;
    var input := ResolveRoot(snapshot, preferred);
    if input.root.Some? {
      var ids := LeafIds(input.root.value);
      var a := AssignLeafIds(ids, PreferredLeafIds(preferred), snapshot.root.None?, next);
      var renamed := RenameTree(input.root.value, PreferredLeafIds(preferred), snapshot.root.None?, next);
      RemapIsAnOutcome(input.ptys, a.ids, DuplicatedIds(ids));
      RemapIsAnOutcome(input.buffers, a.ids, DuplicatedIds(ids));
      RemapIsAnOutcome(input.scrollbackRefs, a.ids, DuplicatedIds(ids));
      RemapIsAnOutcome(input.titles, a.ids, DuplicatedIds(ids));
      assert RenamedAs(input, a.ids, DuplicatedIds(ids), renamed.node, RenameSnapshot(input, a.ids, DuplicatedIds(ids), renamed.node));
    }
  }

  /** The pass over one layout, loops and all. */
  method NormalizeLayout(snapshot: Layout, preferred: Option<Layout>, supply: nat) returns (n: Normalization)
    ensures Normalizes(snapshot, preferred, supply, n)
  {
    hide Remaps, MapActive, MapExpanded, AssignUpTo, LeafIds;
    var input := ResolveRoot(snapshot, preferred);
    if input.root.None? {
      return Normalization(snapshot, false, map[], supply);
    }
    var inputRoot := input.root.value;
    var counts, duplicated := CountLeaves(inputRoot);
    var leafMap, changed, next := AssignLeafIdsLoop(LeafIds(inputRoot), PreferredLeafIds(preferred), counts, snapshot.root.None?, supply);
    var renamed := if changed then CloneWithLeafIds(inputRoot, leafMap, duplicated, next) else Cloned(inputRoot, next);
    var active := MapActive(input.active, leafMap, duplicated, renamed.node);
    var expanded := MapExpanded(input.expanded, leafMap, duplicated);
    var ptys := RemapRecord(input.ptys, leafMap, duplicated);
    var buffers := RemapRecord(input.buffers, leafMap, duplicated);
    var scrollbackRefs := RemapRecord(input.scrollbackRefs, leafMap, duplicated);
    var titles := RemapRecord(input.titles, leafMap, duplicated);
    var recordsChanged := Entries(input.ptys) != Entries(ptys) || Entries(input.buffers) != Entries(buffers) ||
      Entries(input.scrollbackRefs) != Entries(scrollbackRefs) || Entries(input.titles) != Entries(titles);
    var metadataChanged := active != input.active || expanded != input.expanded;
    var out := Layout(Some(renamed.node), active, expanded, ptys, buffers, scrollbackRefs, titles);
    n := if !changed && !recordsChanged && !metadataChanged then Normalization(snapshot, false, leafMap, next)
         else Normalization(out, true, leafMap, renamed.next);
    assert RenamedAs(input, leafMap, duplicated, renamed.node, out);
    assert SameContents(input, out) <==> !recordsChanged && !metadataChanged;
    assert renamed == RenameTree(inputRoot, PreferredLeafIds(preferred), snapshot.root.None?, supply);
    assert NormalizesRooted(snapshot, input, PreferredLeafIds(preferred), snapshot.root.None?, supply, n);
  }
}
