/**
  What a session write does to every binding, through the normaliser and the merge:
  an incoming binding follows its leaf and wins; a prior one comes back where nothing
  is incoming, if its leaf has a place and it passes the test of its branch.
 */
module WriteRule {
  import opened Wrappers
  import opened Sequences
  import opened PtyIds
  import opened PaneLayout
  import opened LayoutNormalizer
  import opened SessionNormalizer
  import opened PtyBindings

  // ------------------------------------------------------- Through the normaliser

  /** The leaves before the pass, the root being the layout's own or the preferred one. */
  function InputIds(layout: Layout, preferred: Option<Layout>): seq<LeafId> {
    LayoutLeafIds(ResolveRoot(layout, preferred).root)
  }

  /** The leaf at `i` has a name of its own, holds `value` in the record, and becomes `leaf`. */
  predicate ArrivesFrom<V(==)>(record: map<LeafId, V>, ids: seq<LeafId>, out: seq<LeafId>, leaf: LeafId, value: V, i: nat) {
    i < |ids| && i < |out| && Unique(ids, i) && out[i] == leaf && BoundAt(record, ids[i], value)
  }

  /** A value reaches `leaf` by way of the tree; without a tree nothing is renamed. */
  ghost predicate Arrives<V>(record: map<LeafId, V>, ids: seq<LeafId>, out: seq<LeafId>, leaf: LeafId, value: V) {
    if ids == [] then BoundAt(record, leaf, value) else exists i: nat :: ArrivesFrom(record, ids, out, leaf, value, i)
  }

  /** `after` holds the values that arrive, one for each leaf where any does. */
  ghost predicate Arrived<V(!new)>(record: map<LeafId, V>, after: map<LeafId, V>, ids: seq<LeafId>, out: seq<LeafId>) {
    && (forall leaf :: leaf in after ==> Arrives(record, ids, out, leaf, after[leaf]))
    && (forall leaf, value :: Arrives(record, ids, out, leaf, value) ==> leaf in after)
  }

  lemma RemappedArrived<V(!new)>(record: map<LeafId, V>, leafMap: map<LeafId, LeafId>, ids: seq<LeafId>, out: seq<LeafId>)
    requires FollowsMap(ids, out, leafMap) && ids != []
    ensures Arrived(record, RemapEntries(record, leafMap, DuplicatedIds(ids)), ids, out)
  {
    var after := RemapEntries(record, leafMap, DuplicatedIds(ids));
    forall leaf | leaf in after
      ensures Arrives(record, ids, out, leaf, after[leaf])
    {
      RemapEntriesOnlyCarried(record, leafMap, DuplicatedIds(ids), leaf);
      var id :| CarriedFrom(record, leafMap, DuplicatedIds(ids), id, leaf) && after[leaf] == record[id];
      var i := CarriedIsUnique(ids, out, leafMap, id);
      assert ArrivesFrom(record, ids, out, leaf, after[leaf], i);
    }
    forall leaf, value | Arrives(record, ids, out, leaf, value)
      ensures leaf in after
    {
      var i: nat :| ArrivesFrom(record, ids, out, leaf, value, i);
      assert FollowsAt(ids, out[i], leafMap, i);
      assert CarriedFrom(record, leafMap, DuplicatedIds(ids), ids[i], leaf);
    }
  }

  lemma NothingRenamed<V(!new)>(record: map<LeafId, V>)
    ensures Arrived(record, record, [], [])
  {
  }

  /** In each of the four records, what the pass leaves is what arrives. */
  ghost predicate AllArrived(before: Layout, after: Layout, ids: seq<LeafId>, out: seq<LeafId>) {
    && Arrived(Entries(before.ptys), Entries(after.ptys), ids, out)
    && Arrived(Entries(before.buffers), Entries(after.buffers), ids, out)
    && Arrived(Entries(before.scrollbackRefs), Entries(after.scrollbackRefs), ids, out)
    && Arrived(Entries(before.titles), Entries(after.titles), ids, out)
  }

  lemma RenamedArrived(input: Layout, snapshot: Layout, leafMap: map<LeafId, LeafId>, ids: seq<LeafId>, out: seq<LeafId>, root: Node)
    requires FollowsMap(ids, out, leafMap) && ids != []
    requires SameContents(snapshot, RenameSnapshot(input, leafMap, DuplicatedIds(ids), root))
    ensures AllArrived(input, snapshot, ids, out)
  {
    hide Arrived, FollowsMap, DuplicatedIds, RemapEntries;
    RemappedArrived(Entries(input.ptys), leafMap, ids, out);
    RemappedArrived(Entries(input.buffers), leafMap, ids, out);
    RemappedArrived(Entries(input.scrollbackRefs), leafMap, ids, out);
    RemappedArrived(Entries(input.titles), leafMap, ids, out);
    RemappedNothing<PtyId>(leafMap, DuplicatedIds(ids));
    RemappedNothing<string>(leafMap, DuplicatedIds(ids));
  }

  lemma RemappedNothing<V>(leafMap: map<LeafId, LeafId>, duplicated: set<LeafId>)
    ensures RemapEntries<V>(map[], leafMap, duplicated) == map[]
  {
  }

  /** The records after the pass hold what arrives. */
  lemma NormalizedRecords(layout: Layout, preferred: Option<Layout>, next: nat)
    ensures var after := Normalize(layout, preferred, next).snapshot;
            AllArrived(layout, after, InputIds(layout, preferred), LayoutLeafIds(after.root))
  {
    hide Arrived;
    var input := ResolveRoot(layout, preferred);
    if input.root.Some? {
      RootedPass(layout, input, PreferredLeafIds(preferred), layout.root.None?, next);
      var n := Normalize(layout, preferred, next);
      RenamedArrived(input, n.snapshot, n.leafMap, LeafIds(input.root.value), LeafIds(n.snapshot.root.value), n.snapshot.root.value);
    } else {
      NothingRenamed(Entries(layout.ptys));
      NothingRenamed(Entries(layout.buffers));
      NothingRenamed(Entries(layout.scrollbackRefs));
      NothingRenamed(Entries(layout.titles));
    }
  }

  ghost predicate ArrivesOnce(bindings: map<LeafId, PtyId>, ids: seq<LeafId>, out: seq<LeafId>, leaf: LeafId) {
    forall p, q :: Arrives(bindings, ids, out, leaf, p) && Arrives(bindings, ids, out, leaf, q) ==> p == q
  }

  /** Without a clash at most one binding arrives at a leaf. */
  lemma NoClashArrivesOnce(layout: Layout, preferred: Option<Layout>, next: nat, leaf: LeafId)
    requires SuppliedFor(layout, preferred, next) && !LayoutClash(layout, preferred)
    ensures ArrivesOnce(Entries(layout.ptys), InputIds(layout, preferred), LayoutLeafIds(Normalize(layout, preferred, next).snapshot.root), leaf)
  {
    if ResolveRoot(layout, preferred).root.Some? {
      NormalizeIsDistinct(layout, preferred, next);
      DistinctArrivesOnce(Entries(layout.ptys), InputIds(layout, preferred), LayoutLeafIds(Normalize(layout, preferred, next).snapshot.root), leaf);
    }
  }

  lemma DistinctArrivesOnce(bindings: map<LeafId, PtyId>, ids: seq<LeafId>, out: seq<LeafId>, leaf: LeafId)
    requires Distinct(out)
    ensures ArrivesOnce(bindings, ids, out, leaf)
  {
    forall p, q | Arrives(bindings, ids, out, leaf, p) && Arrives(bindings, ids, out, leaf, q)
      ensures p == q
    {
      if ids != [] {
        var i: nat :| ArrivesFrom(bindings, ids, out, leaf, p, i);
        var j: nat :| ArrivesFrom(bindings, ids, out, leaf, q, j);
      }
    }
  }

  // --------------------------------------------------------------- Known leaves

  /** A leaf id handed out before the pass: a new id cannot be it. */
  predicate Known(leaf: LeafId, next: nat) {
    leaf.Stable? && leaf.uuid < next
  }

  predicate NamedOnceAt(ids: seq<LeafId>, leaf: LeafId, i: nat)
    requires i < |ids|
  {
    ids[i] == leaf && Unique(ids, i)
  }

  predicate TakesPlace(ids: seq<LeafId>, prior: seq<LeafId>, leaf: LeafId, i: nat)
    requires i < |ids|
  {
    |prior| == |ids| && prior[i] == leaf && Unique(ids, i) && !ids[i].Stable?
  }

  /** The leaf at `i` becomes `leaf`: it is it, or it is a legacy leaf in its place. */
  predicate BecomesAt(ids: seq<LeafId>, prior: seq<LeafId>, leaf: LeafId, i: nat) {
    i < |ids| && (NamedOnceAt(ids, leaf, i) || TakesPlace(ids, prior, leaf, i))
  }

  lemma KnownLeafBecomes(layout: Layout, preferred: Option<Layout>, next: nat, leaf: LeafId, i: nat)
    requires Known(leaf, next)
    ensures var ids, out := InputIds(layout, preferred), LayoutLeafIds(Normalize(layout, preferred, next).snapshot.root);
            |out| == |ids| && (i < |ids| ==> (out[i] == leaf <==> BecomesAt(ids, PreferredLeafIds(preferred), leaf, i)))
  {
    if ResolveRoot(layout, preferred).root.Some? {
      NormalizeRenamesTree(layout, preferred, next);
      RenamedToKnown(InputIds(layout, preferred), PreferredLeafIds(preferred),
                     LayoutLeafIds(Normalize(layout, preferred, next).snapshot.root), next, Normalize(layout, preferred, next).next, leaf, i);
    }
  }

  lemma PlacedLeafArrives(layout: Layout, preferred: Option<Layout>, next: nat, leaf: LeafId, i: nat)
    requires leaf.Stable? && BecomesAt(InputIds(layout, preferred), PreferredLeafIds(preferred), leaf, i)
    ensures leaf in LayoutLeafIds(Normalize(layout, preferred, next).snapshot.root)
  {
    NormalizeRenamesTree(layout, preferred, next);
    var n := Normalize(layout, preferred, next);
    var out := LayoutLeafIds(n.snapshot.root);
    assert RenamesAt(InputIds(layout, preferred), PreferredLeafIds(preferred), out[i], i, next, n.next);
    assert out[i] == leaf;
  }

  lemma RenamedToKnown(ids: seq<LeafId>, prior: seq<LeafId>, out: seq<LeafId>, lo: nat, hi: nat, leaf: LeafId, i: nat)
    requires Renames(ids, prior, out, lo, hi) && Known(leaf, lo)
    ensures i < |ids| ==> (out[i] == leaf <==> BecomesAt(ids, prior, leaf, i))
  {
    if i < |ids| {
      assert RenamesAt(ids, prior, out[i], i, lo, hi);
    }
  }

  // ----------------------------------------------------------- Through the merge

  function Preferred(s: State, tab: TabId): Option<Layout> {
    PriorLayout(PriorLayouts(s.session), tab)
  }

  function Incoming(w: Write, tab: TabId): Layout {
    if tab in w.incoming.layouts then w.incoming.layouts[tab] else EMPTY_LAYOUT
  }

  /** The tab's layout as the write's pass leaves it. */
  ghost function Passed(s: State, w: Write, tab: TabId): Layout {
    if tab in PassOf(s, w).layouts then PassOf(s, w).layouts[tab] else EMPTY_LAYOUT
  }

  /** The write binds a leaf, uniquely named there, that becomes `leaf`. */
  ghost predicate IncomingBinds(s: State, w: Write, tab: TabId, leaf: LeafId, pty: PtyId) {
    && tab in w.incoming.layouts
    && Arrives(Entries(Incoming(w, tab).ptys), InputIds(Incoming(w, tab), Preferred(s, tab)), LayoutLeafIds(Passed(s, w, tab).root), leaf, pty)
  }

  ghost predicate IncomingAt(s: State, w: Write, tab: TabId, leaf: LeafId) {
    exists pty :: IncomingBinds(s, w, tab, leaf, pty)
  }

  ghost predicate IncomingAnywhere(s: State, w: Write, tab: TabId) {
    exists leaf :: IncomingAt(s, w, tab, leaf)
  }

  /** The leaf ids of the leases are absent or stable. */
  ghost predicate LeasesSettled(leases: seq<Lease>) {
    forall i :: 0 <= i < |leases| && leases[i].leaf.Some? ==> leases[i].leaf.value.Stable?
  }

  lemma SettledLeasesStay(s: State, w: Write)
    requires LeasesSettled(s.leases)
    ensures RemappedLeases(s, w) == s.leases
  {
  }

  /** The leases a write tests prior bindings against: those of the store, unless one of
      them still names a legacy leaf. */
  ghost function TestedLeases(s: State, w: Write): (leases: seq<Lease>)
    ensures leases == RemappedLeases(s, w)
  {
    if LeasesSettled(s.leases) then SettledLeasesStay(s, w); s.leases else RemappedLeases(s, w)
  }

  /** The prior binding of the leaf, as the write tests it. */
  ghost function Tested(s: State, w: Write, tab: TabId, leaf: LeafId, pty: PtyId): Binding
    requires s.session.Some?
  {
    LeafBinding(ContextOf(s, w), LastListing(w.worktreeOrder, s.session.value.tabs + w.incoming.tabs, tab), tab, leaf, pty)
  }

  /** The test of the branch: stricter when the write carries some binding of the tab. */
  ghost predicate PassesTest(s: State, w: Write, tab: TabId, leaf: LeafId, pty: PtyId)
    requires s.session.Some?
  {
    if IncomingAnywhere(s, w, tab) then HasRestorableLease(TestedLeases(s, w), Tested(s, w, tab, leaf, pty))
    else IsRestorable(TestedLeases(s, w), Tested(s, w, tab, leaf, pty))
  }

  ghost predicate Returns(s: State, w: Write, tab: TabId, leaf: LeafId, pty: PtyId) {
    && tab in w.incoming.layouts && s.session.Some? && LeafBound(s.session.value, tab, leaf, pty)
    && leaf in LiveLeafIds(Passed(s, w, tab).root) && PassesTest(s, w, tab, leaf, pty)
  }

  lemma PassedRecords(s: State, w: Write, tab: TabId)
    requires ValidWrite(w) && tab in w.incoming.layouts
    ensures tab in PassOf(s, w).layouts
    ensures AllArrived(Incoming(w, tab), Passed(s, w, tab), InputIds(Incoming(w, tab), Preferred(s, tab)), LayoutLeafIds(Passed(s, w, tab).root))
  {
    hide AllArrived, Normalize, NormalizeSession;
    var seed := SessionPassOfTab(w.tabOrder, w.incoming.layouts, PriorLayouts(s.session), w.next, tab);
    NormalizedRecords(w.incoming.layouts[tab], Preferred(s, tab), seed);
  }

  lemma PassedIsIncoming(s: State, w: Write, tab: TabId, leaf: LeafId)
    requires ValidWrite(w) && tab in w.incoming.layouts
    ensures leaf in Entries(Passed(s, w, tab).ptys) <==> IncomingAt(s, w, tab, leaf)
    ensures leaf in Entries(Passed(s, w, tab).ptys) ==> IncomingBinds(s, w, tab, leaf, Entries(Passed(s, w, tab).ptys)[leaf])
    ensures Entries(Passed(s, w, tab).ptys) != map[] <==> IncomingAnywhere(s, w, tab)
  {
    PassedRecords(s, w, tab);
    var after := Entries(Passed(s, w, tab).ptys);
    forall l
      ensures l in after <==> IncomingAt(s, w, tab, l)
    {
      if l in after {
        assert IncomingBinds(s, w, tab, l, after[l]);
      }
    }
    if after != map[] {
      var l :| l in after;
      assert IncomingAt(s, w, tab, l);
    }
  }

  ghost function Merged(s: State, w: Write, tab: TabId): Layout {
    if s.session.Some? && tab in s.session.value.layouts
    then MergeLayout(ContextOf(s, w), LastListing(w.worktreeOrder, s.session.value.tabs + w.incoming.tabs, tab), tab,
                     s.session.value.layouts[tab], Passed(s, w, tab))
    else Passed(s, w, tab)
  }

  lemma WrittenLayout(s: State, w: Write, tab: TabId)
    requires tab in PassOf(s, w).layouts
    ensures var after := AfterWrite(s, w).session.value; tab in after.layouts && after.layouts[tab] == Merged(s, w, tab)
  {
  }

  /** The merge, for a tab the write lists. */
  lemma MergedBindings(s: State, w: Write, tab: TabId, leaf: LeafId, pty: PtyId)
    requires tab in w.incoming.layouts
    requires Entries(Passed(s, w, tab).ptys) != map[] <==> IncomingAnywhere(s, w, tab)
    ensures var passed := Entries(Passed(s, w, tab).ptys);
            BoundAt(Entries(Merged(s, w, tab).ptys), leaf, pty) <==>
            if leaf in passed then passed[leaf] == pty else Returns(s, w, tab, leaf, pty)
  {
    if s.session.Some? && tab in s.session.value.layouts && s.session.value.layouts[tab].ptys.Some? {
      var prior := s.session.value;
      var worktree := LastListing(w.worktreeOrder, prior.tabs + w.incoming.tabs, tab);
      MergeRule(ContextOf(s, w), worktree, tab, prior.layouts[tab], Passed(s, w, tab), leaf, pty);
    }
  }

  /** What every session write does to every leaf of the tabs it lists. Where a binding
      is incoming, one of those incoming is there afterwards; elsewhere exactly the
      prior binding that returns. Tabs it does not list have none. */
  lemma LeafWriteRule(s: State, w: Write, tab: TabId, leaf: LeafId, pty: PtyId)
    requires ValidWrite(w)
    ensures var after := AfterWrite(s, w).session.value;
            && (IncomingAt(s, w, tab, leaf) ==>
                  (LeafBound(after, tab, leaf, pty) ==> IncomingBinds(s, w, tab, leaf, pty)) &&
                  exists p :: IncomingBinds(s, w, tab, leaf, p) && LeafBound(after, tab, leaf, p))
            && (!IncomingAt(s, w, tab, leaf) ==> (LeafBound(after, tab, leaf, pty) <==> Returns(s, w, tab, leaf, pty)))
  {
    if tab in w.incoming.layouts {
      PassedRecords(s, w, tab);
      PassedIsIncoming(s, w, tab, leaf);
      WrittenLayout(s, w, tab);
      MergedBindings(s, w, tab, leaf, pty);
      if leaf in Entries(Passed(s, w, tab).ptys) {
        MergedBindings(s, w, tab, leaf, Entries(Passed(s, w, tab).ptys)[leaf]);
      }
    } else {
      SessionPassByTab(w.tabOrder, w.incoming.layouts, PriorLayouts(s.session), w.next);
    }
  }

  /** A binding that a write brings back is not one of a dead lease. */
  lemma ReturnedBindingHasNoDeadLease(s: State, w: Write, tab: TabId, leaf: LeafId, pty: PtyId)
    requires LeasesUnique(RemappedLeases(s, w)) && ValidWrite(w) && s.session.Some?
    requires LeafBound(AfterWrite(s, w).session.value, tab, leaf, pty) && !IncomingAt(s, w, tab, leaf)
    requires IncomingAnywhere(s, w, tab) ==> Tested(s, w, tab, leaf, pty).target.Some?
    ensures IsRestorable(RemappedLeases(s, w), Tested(s, w, tab, leaf, pty))
  {
    hide AfterWrite, IncomingAt, IncomingAnywhere, Tested, LeafBound, Passed, RemappedLeases;
    LeafWriteRule(s, w, tab, leaf, pty);
    LiveLeaseExcludesDeadIffTargetKnown(Tested(s, w, tab, leaf, pty));
  }

  /** Only one binding of the tab is incoming at the leaf. */
  ghost predicate Unambiguous(s: State, w: Write, tab: TabId, leaf: LeafId) {
    forall p, q :: IncomingBinds(s, w, tab, leaf, p) && IncomingBinds(s, w, tab, leaf, q) ==> p == q
  }

  lemma NoClashIsUnambiguous(s: State, w: Write, tab: TabId, leaf: LeafId)
    requires ValidWrite(w)
    requires tab in w.incoming.layouts ==>
      SuppliedFor(w.incoming.layouts[tab], Preferred(s, tab), w.next) && !LayoutClash(w.incoming.layouts[tab], Preferred(s, tab))
    ensures Unambiguous(s, w, tab, leaf)
  {
    if tab in w.incoming.layouts {
      var seed := SessionPassOfTab(w.tabOrder, w.incoming.layouts, PriorLayouts(s.session), w.next, tab);
      SuppliedLater(w.incoming.layouts[tab], Preferred(s, tab), w.next, seed);
      NoClashArrivesOnce(w.incoming.layouts[tab], Preferred(s, tab), seed, leaf);
    }
  }

  /** Where the incoming bindings do not compete, the rule is exact. */
  lemma LeafWriteRuleIff(s: State, w: Write, tab: TabId, leaf: LeafId, pty: PtyId)
    requires ValidWrite(w) && Unambiguous(s, w, tab, leaf)
    ensures LeafBound(AfterWrite(s, w).session.value, tab, leaf, pty) <==>
            if IncomingAt(s, w, tab, leaf) then IncomingBinds(s, w, tab, leaf, pty) else Returns(s, w, tab, leaf, pty)
  {
    LeafWriteRule(s, w, tab, leaf, pty);
  }

  // ------------------------------------------- The rule, read off the write itself

  /** For a leaf id handed out before the write: the write binds it, or binds a legacy
      leaf in its place. */
  ghost predicate BindsKnown(s: State, w: Write, tab: TabId, leaf: LeafId, pty: PtyId) {
    var ids, bindings := InputIds(Incoming(w, tab), Preferred(s, tab)), Entries(Incoming(w, tab).ptys);
    if ids == [] then BoundAt(bindings, leaf, pty)
    else exists i: nat :: BecomesAt(ids, PreferredLeafIds(Preferred(s, tab)), leaf, i) && BoundAt(bindings, ids[i], pty)
  }

  /** The tree the write leaves has the leaf. */
  ghost predicate Places(s: State, w: Write, tab: TabId, leaf: LeafId) {
    exists i: nat :: BecomesAt(InputIds(Incoming(w, tab), Preferred(s, tab)), PreferredLeafIds(Preferred(s, tab)), leaf, i)
  }

  /** The write binds some uniquely named leaf of the tab. */
  ghost predicate BindsSome(s: State, w: Write, tab: TabId) {
    var ids, bindings := InputIds(Incoming(w, tab), Preferred(s, tab)), Entries(Incoming(w, tab).ptys);
    if ids == [] then bindings != map[] else exists i: nat :: i < |ids| && Unique(ids, i) && ids[i] in bindings
  }

  lemma PassedTree(s: State, w: Write, tab: TabId, leaf: LeafId, i: nat)
    requires ValidWrite(w) && tab in w.incoming.layouts && Known(leaf, w.next)
    ensures var ids, out := InputIds(Incoming(w, tab), Preferred(s, tab)), LayoutLeafIds(Passed(s, w, tab).root);
            |out| == |ids| && (i < |ids| ==> (out[i] == leaf <==> BecomesAt(ids, PreferredLeafIds(Preferred(s, tab)), leaf, i)))
  {
    var seed := SessionPassOfTab(w.tabOrder, w.incoming.layouts, PriorLayouts(s.session), w.next, tab);
    KnownLeafBecomes(w.incoming.layouts[tab], Preferred(s, tab), seed, leaf, i);
  }

  lemma KnownIncoming(s: State, w: Write, tab: TabId, leaf: LeafId, pty: PtyId)
    requires ValidWrite(w) && tab in w.incoming.layouts && Known(leaf, w.next)
    ensures IncomingBinds(s, w, tab, leaf, pty) <==> BindsKnown(s, w, tab, leaf, pty)
  {
    var bindings, prior := Entries(Incoming(w, tab).ptys), PreferredLeafIds(Preferred(s, tab));
    var ids, out := InputIds(Incoming(w, tab), Preferred(s, tab)), LayoutLeafIds(Passed(s, w, tab).root);
    if ids != [] && IncomingBinds(s, w, tab, leaf, pty) {
      var i: nat :| ArrivesFrom(bindings, ids, out, leaf, pty, i);
      PassedTree(s, w, tab, leaf, i);
      assert BecomesAt(ids, prior, leaf, i);
    }
    if ids != [] && BindsKnown(s, w, tab, leaf, pty) {
      var i: nat :| BecomesAt(ids, prior, leaf, i) && BoundAt(bindings, ids[i], pty);
      PassedTree(s, w, tab, leaf, i);
      assert ArrivesFrom(bindings, ids, out, leaf, pty, i);
    }
  }

  lemma KnownPlace(s: State, w: Write, tab: TabId, leaf: LeafId)
    requires ValidWrite(w) && tab in w.incoming.layouts && Known(leaf, w.next)
    ensures leaf in LiveLeafIds(Passed(s, w, tab).root) <==> Places(s, w, tab, leaf)
  {
    var ids, out := InputIds(Incoming(w, tab), Preferred(s, tab)), LayoutLeafIds(Passed(s, w, tab).root);
    if leaf in out {
      var i :| 0 <= i < |out| && out[i] == leaf;
      PassedTree(s, w, tab, leaf, i);
    }
    if Places(s, w, tab, leaf) {
      var i: nat :| BecomesAt(ids, PreferredLeafIds(Preferred(s, tab)), leaf, i);
      PassedTree(s, w, tab, leaf, i);
      assert out[i] == leaf;
    }
  }

  lemma IncomingAnywhereIff(s: State, w: Write, tab: TabId, leaf: LeafId)
    requires ValidWrite(w) && tab in w.incoming.layouts && Known(leaf, w.next)
    ensures IncomingAnywhere(s, w, tab) <==> BindsSome(s, w, tab)
  {
    var bindings := Entries(Incoming(w, tab).ptys);
    var ids, out := InputIds(Incoming(w, tab), Preferred(s, tab)), LayoutLeafIds(Passed(s, w, tab).root);
    PassedTree(s, w, tab, leaf, 0);
    if IncomingAnywhere(s, w, tab) {
      var l, p :| IncomingAt(s, w, tab, l) && IncomingBinds(s, w, tab, l, p);
      if ids != [] {
        var i: nat :| ArrivesFrom(bindings, ids, out, l, p, i);
      }
    } else if BindsSome(s, w, tab) {
      if ids == [] {
        var l :| l in bindings;
        assert IncomingBinds(s, w, tab, l, bindings[l]) && IncomingAt(s, w, tab, l);
      } else {
        var i: nat :| i < |ids| && Unique(ids, i) && ids[i] in bindings;
        assert ArrivesFrom(bindings, ids, out, out[i], bindings[ids[i]], i);
        assert IncomingBinds(s, w, tab, out[i], bindings[ids[i]]) && IncomingAt(s, w, tab, out[i]);
      }
    }
  }

  ghost predicate BindsKnownSome(s: State, w: Write, tab: TabId, leaf: LeafId) {
    exists p :: BindsKnown(s, w, tab, leaf, p)
  }

  /** The leaf is bound to `pty` once the write has landed: the write says so, or says
      nothing of the leaf, gives it a place, and the prior binding passes its test. */
  ghost predicate LeafKept(s: State, w: Write, tab: TabId, leaf: LeafId, pty: PtyId) {
    && tab in w.incoming.layouts
    && if BindsKnownSome(s, w, tab, leaf) then BindsKnown(s, w, tab, leaf, pty)
       else
         && s.session.Some? && LeafBound(s.session.value, tab, leaf, pty) && Places(s, w, tab, leaf)
         && if BindsSome(s, w, tab) then HasRestorableLease(TestedLeases(s, w), Tested(s, w, tab, leaf, pty))
            else IsRestorable(TestedLeases(s, w), Tested(s, w, tab, leaf, pty))
  }

  /** Two incoming bindings do not compete for the leaf. */
  ghost predicate Uncontested(s: State, w: Write, tab: TabId, leaf: LeafId) {
    forall p, q :: BindsKnown(s, w, tab, leaf, p) && BindsKnown(s, w, tab, leaf, q) ==> p == q
  }

  lemma CompetitorsClash(ids: seq<LeafId>, prior: seq<LeafId>, leaf: LeafId, i: nat, j: nat)
    requires leaf.Stable? && i != j && BecomesAt(ids, prior, leaf, i) && BecomesAt(ids, prior, leaf, j)
    ensures Clash(ids, prior)
  {
    assert ClashAt(ids, prior, i, j) || ClashAt(ids, prior, j, i);
  }

  /** They can only when an id adopted from the prior layout clashes. */
  lemma NoClashIsUncontested(s: State, w: Write, tab: TabId, leaf: LeafId)
    requires leaf.Stable? && !LayoutClash(Incoming(w, tab), Preferred(s, tab))
    ensures Uncontested(s, w, tab, leaf)
  {
    var ids, prior := InputIds(Incoming(w, tab), Preferred(s, tab)), PreferredLeafIds(Preferred(s, tab));
    forall i: nat, j: nat | BecomesAt(ids, prior, leaf, i) && BecomesAt(ids, prior, leaf, j)
      ensures i == j
    {
      if i != j {
        CompetitorsClash(ids, prior, leaf, i, j);
      }
    }
  }

  /** The exact rule, for every leaf id handed out before the write. */
  lemma KnownLeafWriteRule(s: State, w: Write, tab: TabId, leaf: LeafId, pty: PtyId)
    requires ValidWrite(w) && Known(leaf, w.next) && Uncontested(s, w, tab, leaf)
    ensures LeafBound(AfterWrite(s, w).session.value, tab, leaf, pty) <==> LeafKept(s, w, tab, leaf, pty)
  {
    if tab in w.incoming.layouts {
      forall p
        ensures IncomingBinds(s, w, tab, leaf, p) <==> BindsKnown(s, w, tab, leaf, p)
      {
        KnownIncoming(s, w, tab, leaf, p);
      }
      assert IncomingAt(s, w, tab, leaf) <==> BindsKnownSome(s, w, tab, leaf);
      KnownPlace(s, w, tab, leaf);
      IncomingAnywhereIff(s, w, tab, leaf);
    }
    LeafWriteRuleIff(s, w, tab, leaf, pty);
  }

  /** A write that binds a neighbour but not the leaf drops the leaf's binding, fresh as
      it may be, unless a live lease backs it; a pane without leases always loses it. */
  lemma PartialWriteDropsUnleasedPane(s: State, w: Write, tab: TabId, leaf: LeafId, pty: PtyId)
    requires ValidWrite(w) && Known(leaf, w.next) && s.session.Some? && LeafBound(s.session.value, tab, leaf, pty)
    requires tab in w.incoming.layouts && BindsSome(s, w, tab) && !BindsKnownSome(s, w, tab, leaf)
    ensures LeafBound(AfterWrite(s, w).session.value, tab, leaf, pty) <==>
            Places(s, w, tab, leaf) && HasRestorableLease(TestedLeases(s, w), Tested(s, w, tab, leaf, pty))
    ensures (forall lease :: lease in TestedLeases(s, w) ==> !Matches(lease, Tested(s, w, tab, leaf, pty))) ==>
            !LeafBound(AfterWrite(s, w).session.value, tab, leaf, pty)
  {
    KnownLeafWriteRule(s, w, tab, leaf, pty);
  }

  // ------------------------------------------------------------------- The tab

  /** The tab is bound to `pty` once the write has landed: it lists the tab and says so,
      or lists it unbound and the prior binding passes its test. */
  ghost predicate TabKept(s: State, w: Write, worktree: WorktreeId, tab: TabId, pty: PtyId) {
    && worktree in w.incoming.tabs && FindTab(w.incoming.tabs[worktree], tab).Some?
    && var listed := FindTab(w.incoming.tabs[worktree], tab).value;
       if Truthy(listed.pty) then listed.pty == Some(pty)
       else
         && s.session.Some? && TabBound(s.session.value, worktree, tab, pty)
         && IsRestorable(TestedLeases(s, w), TabBinding(ContextOf(s, w), worktree, tab, pty))
  }

  lemma TabWriteRule(s: State, w: Write, worktree: WorktreeId, tab: TabId, pty: PtyId)
    requires Truthy(Some(pty))
    ensures TabBound(AfterWrite(s, w).session.value, worktree, tab, pty) <==> TabKept(s, w, worktree, tab, pty)
  {
    hide PassOf, LeasesAfter, MergeLayouts, MergeTabList, IsRestorable;
    if worktree in w.incoming.tabs {
      FoundTabHasId(w.incoming.tabs[worktree], tab);
      if s.session.Some? && worktree in s.session.value.tabs {
        FindMergedTab(ContextOf(s, w), worktree, s.session.value.tabs[worktree], w.incoming.tabs[worktree], tab);
      }
    }
  }

  // ------------------------------------------------------------- Stale writes

  /** A write from before the spawn: it lists the tab and its layout, binds neither,
      and gives the leaf its place. */
  ghost predicate StaleWrite(s: State, w: Write, args: SpawnArgs) {
    && args.worktree in w.incoming.tabs
    && FindTab(w.incoming.tabs[args.worktree], args.tab).Some?
    && !Truthy(FindTab(w.incoming.tabs[args.worktree], args.tab).value.pty)
    && args.tab in w.incoming.layouts
    && Entries(w.incoming.layouts[args.tab].ptys) == map[]
    && Places(s, w, args.tab, args.leaf)
  }

  /** A stale write keeps the tab's binding exactly when no matching lease is dead. */
  lemma StaleWriteKeepsTab(s: State, w: Write, args: SpawnArgs)
    requires s.session.Some? && Bound(s.session.value, args) && Truthy(Some(args.pty)) && StaleWrite(s, w, args)
    ensures TabBound(AfterWrite(s, w).session.value, args.worktree, args.tab, args.pty) <==>
            IsRestorable(TestedLeases(s, w), TabBinding(ContextOf(s, w), args.worktree, args.tab, args.pty))
  {
    TabWriteRule(s, w, args.worktree, args.tab, args.pty);
  }

  lemma PlacedIsLive(s: State, w: Write, tab: TabId, leaf: LeafId)
    requires ValidWrite(w) && tab in w.incoming.layouts && leaf.Stable? && Places(s, w, tab, leaf)
    ensures leaf in LiveLeafIds(Passed(s, w, tab).root)
  {
    hide Normalize, NormalizeSession, InputIds, BecomesAt;
    var seed := SessionPassOfTab(w.tabOrder, w.incoming.layouts, PriorLayouts(s.session), w.next, tab);
    var i: nat :| BecomesAt(InputIds(Incoming(w, tab), Preferred(s, tab)), PreferredLeafIds(Preferred(s, tab)), leaf, i);
    PlacedLeafArrives(w.incoming.layouts[tab], Preferred(s, tab), seed, leaf, i);
  }

  lemma NothingIncoming(s: State, w: Write, tab: TabId, leaf: LeafId)
    requires tab in w.incoming.layouts && Entries(w.incoming.layouts[tab].ptys) == map[]
    ensures !IncomingAt(s, w, tab, leaf) && !IncomingAnywhere(s, w, tab)
  {
    hide PassOf, InputIds, LayoutLeafIds;
    forall l, pty
      ensures !IncomingBinds(s, w, tab, l, pty)
    {
    }
  }

  /** ... and the leaf's binding likewise. */
  lemma StaleWriteKeepsLeaf(s: State, w: Write, args: SpawnArgs)
    requires s.session.Some? && Bound(s.session.value, args) && ValidWrite(w) && args.leaf.Stable? && StaleWrite(s, w, args)
    ensures LeafBound(AfterWrite(s, w).session.value, args.tab, args.leaf, args.pty) <==>
            IsRestorable(TestedLeases(s, w), Tested(s, w, args.tab, args.leaf, args.pty))
  {
    hide IncomingAt, IncomingAnywhere, AfterWrite, Tested, IsRestorable, Passed;
    PlacedIsLive(s, w, args.tab, args.leaf);
    NothingIncoming(s, w, args.tab, args.leaf);
    LeafWriteRule(s, w, args.tab, args.leaf, args.pty);
  }
}
