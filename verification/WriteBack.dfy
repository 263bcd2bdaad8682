/**
  Writing the stored session back: when the whole write, through the normaliser, the
  lease remap and the merge, leaves the store as it is.
 */
module WriteBack {
  import opened Wrappers
  import opened Sequences
  import opened PtyIds
  import opened PaneLayout
  import opened LayoutNormalizer
  import opened SessionNormalizer
  import opened PtyBindings
  import opened WriteRule

  // ------------------------------------------------------------------- Layouts

  lemma PreservedKeys(prior: Option<map<LeafId, string>>, incoming: Option<map<LeafId, string>>, live: set<LeafId>, ids: seq<LeafId>)
    requires KeysAmong(incoming, ids) && forall id :: id in live ==> id in ids
    ensures KeysAmong(PreserveMissing(prior, incoming, live), ids)
  {
  }

  lemma RestoredKeys(ctx: Context, worktree: Option<WorktreeId>, tab: TabId, prior: Layout, layout: Layout, ids: seq<LeafId>)
    requires ids == LayoutLeafIds(layout.root) && KeysAmong(layout.ptys, ids)
    ensures KeysAmong(Some(RestorableBindings(ctx, worktree, tab, prior, layout) + Entries(layout.ptys)), ids)
  {
  }

  /** The merge adds values for leaves of the tree only, and leaves the tree alone. */
  lemma MergeKeepsNormal(ctx: Context, worktree: Option<WorktreeId>, tab: TabId, prior: Layout, layout: Layout)
    ensures MergeLayout(ctx, worktree, tab, prior, layout).root == layout.root
    ensures Normal(layout) ==> Normal(MergeLayout(ctx, worktree, tab, prior, layout))
  {
    hide Restores, PreserveMissing, RestorableBindings, KeysAmong, LeafIds, AllStable, Distinct;
    if Normal(layout) && layout.root.Some? {
      var ids, live := LeafIds(layout.root.value), LiveLeafIds(layout.root);
      RestoredKeys(ctx, worktree, tab, prior, layout, ids);
      PreservedKeys(prior.buffers, layout.buffers, live, ids);
      PreservedKeys(prior.scrollbackRefs, layout.scrollbackRefs, live, ids);
      PreservedKeys(prior.titles, layout.titles, live, ids);
    }
  }

  lemma MergeWithItself(ctx: Context, worktree: Option<WorktreeId>, tab: TabId, layout: Layout)
    ensures MergeLayout(ctx, worktree, tab, layout, layout) == layout
  {
    assert RestorableBindings(ctx, worktree, tab, layout, layout) == map[];
  }

  lemma RootlessMerge(ctx: Context, worktree: Option<WorktreeId>, tab: TabId, prior: Layout, layout: Layout)
    requires layout.root.None?
    ensures MergeLayout(ctx, worktree, tab, prior, layout) == layout
  {
    assert RestorableBindings(ctx, worktree, tab, prior, layout) == map[];
  }

  // ---------------------------------------------------------- The stored session

  ghost function Stored(s: State, w: Write): Session {
    AfterWrite(s, w).session.value
  }

  lemma StoredLayouts(s: State, w: Write)
    requires ValidWrite(w)
    ensures Stored(s, w).layouts.Keys == PassOf(s, w).layouts.Keys == w.incoming.layouts.Keys
  {
    hide NormalizeSession, MergeLayout;
    SessionPassByTab(w.tabOrder, w.incoming.layouts, PriorLayouts(s.session), w.next);
  }

  /** The stored layout has the tree of the tab's share of the pass, and is normal with it. */
  lemma StoredLayout(s: State, w: Write, tab: TabId) returns (seed: nat)
    requires ValidWrite(w) && tab in w.incoming.layouts
    ensures w.next <= seed && tab in Stored(s, w).layouts
    ensures var passed := Normalize(w.incoming.layouts[tab], Preferred(s, tab), seed).snapshot;
            var stored := Stored(s, w).layouts[tab];
            stored.root == passed.root && (Normal(passed) ==> Normal(stored)) && (passed.root.None? ==> stored == passed)
  {
    hide Normalize, Normal, NormalizeSession, AfterWrite, MergeLayout;
    seed := SessionPassOfTab(w.tabOrder, w.incoming.layouts, PriorLayouts(s.session), w.next, tab);
    WrittenLayout(s, w, tab);
    if s.session.Some? && tab in s.session.value.layouts {
      var worktree := LastListing(w.worktreeOrder, s.session.value.tabs + w.incoming.tabs, tab);
      MergeKeepsNormal(ContextOf(s, w), worktree, tab, s.session.value.layouts[tab], Passed(s, w, tab));
      if Passed(s, w, tab).root.None? {
        RootlessMerge(ContextOf(s, w), worktree, tab, s.session.value.layouts[tab], Passed(s, w, tab));
      }
    }
  }

  lemma StoredIsNormal(s: State, w: Write, tab: TabId)
    requires ValidWrite(w) && tab in w.incoming.layouts
    requires Fits(w.incoming.layouts, PriorLayouts(s.session), w.next)
    ensures tab in Stored(s, w).layouts && Normal(Stored(s, w).layouts[tab])
  {
    hide Normalize, Normal, Stored, LayoutClash;
    var seed := StoredLayout(s, w, tab);
    SuppliedLater(w.incoming.layouts[tab], Preferred(s, tab), w.next, seed);
    NormalizeMakesNormal(w.incoming.layouts[tab], Preferred(s, tab), seed);
  }

  // ------------------------------------------------------------ A clash shows

  lemma DuplicateIsReplaced(ids: seq<LeafId>, out: seq<LeafId>, lo: nat, hi: nat)
    requires Renames(ids, ids, out, lo, hi) && DrawnBefore(ids, lo) && !Distinct(ids)
    ensures out != ids
  {
    var i, j :| 0 <= i < j < |ids| && ids[i] == ids[j];
    assert !Unique(ids, i);
    assert RenamesAt(ids, ids, out[i], i, lo, hi);
  }

  lemma DuplicatesChange(layout: Layout, next: nat)
    requires layout.root.Some? && !Distinct(LeafIds(layout.root.value)) && Supplied(layout, next)
    ensures Normalize(layout, Some(layout), next).snapshot.root != layout.root
  {
    hide Distinct, DrawnBefore, Renames, Normalize;
    NormalizeRenamesTree(layout, Some(layout), next);
    var n := Normalize(layout, Some(layout), next);
    DuplicateIsReplaced(LeafIds(layout.root.value), LeafIds(n.snapshot.root.value), next, n.next);
  }

  lemma ClashShows(s: State, w: Write, back: Write, tab: TabId)
    requires ValidWrite(w) && ValidWrite(back) && back.incoming == Stored(s, w) && tab in w.incoming.layouts
    requires SessionSupplied(w.incoming.layouts, PriorLayouts(s.session), w.next)
    requires SessionSupplied(back.incoming.layouts, back.incoming.layouts, back.next)
    requires LayoutClash(w.incoming.layouts[tab], Preferred(s, tab))
    ensures Stored(AfterWrite(s, w), back) != Stored(s, w)
  {
    hide Normalize, Normal, AfterWrite, Distinct, Supplied, LeafIds;
    var seed := StoredLayout(s, w, tab);
    SuppliedLater(w.incoming.layouts[tab], Preferred(s, tab), w.next, seed);
    ClashNeedsTree(w.incoming.layouts[tab], Preferred(s, tab));
    NormalizeIsDistinct(w.incoming.layouts[tab], Preferred(s, tab), seed);
    PriorIsStored(s, w, tab);
    var later := StoredLayout(AfterWrite(s, w), back, tab);
    SuppliedLater(back.incoming.layouts[tab], Some(back.incoming.layouts[tab]), back.next, later);
    DuplicatesChange(Stored(s, w).layouts[tab], later);
  }

  lemma ClashNeedsTree(layout: Layout, preferred: Option<Layout>)
    requires LayoutClash(layout, preferred)
    ensures ResolveRoot(layout, preferred).root.Some?
  {
  }

  lemma PriorIsStored(s: State, w: Write, tab: TabId)
    requires tab in Stored(s, w).layouts
    ensures Preferred(AfterWrite(s, w), tab) == Some(Stored(s, w).layouts[tab])
  {
    hide RemappedLeases, MergeSession, PassOf;
  }

  // -------------------------------------------------------------------- Leases

  lemma IdentityKeepsLegacyOut(leafMaps: map<TabId, map<LeafId, LeafId>>, tab: TabId, leaf: LeafId)
    requires !leaf.Stable? && forall t :: t in leafMaps ==> IsIdentity(leafMaps[t])
    ensures Lookup(leafMaps, tab, leaf).None?
  {
  }

  /** A lease that still names a legacy leaf took the name from the index of its tab. */
  lemma LegacyLeaseIsIndexed(order: seq<TabId>, layouts: map<TabId, Layout>, prior: map<TabId, Layout>, next: nat, lease: Lease)
    requires Enumerates(order, layouts)
    requires var p := NormalizeSession(order, layouts, prior, next);
             var leaf := RemapLease(lease, p.leafMaps, PtyIndexes(p.layouts)).leaf; leaf.Some? && !leaf.value.Stable?
    ensures var p := NormalizeSession(order, layouts, prior, next);
            var leaf := RemapLease(lease, p.leafMaps, PtyIndexes(p.layouts)).leaf;
            && NamesTab(lease) && lease.tab.value in layouts && lease.tab.value in p.layouts
            && ResolveRoot(layouts[lease.tab.value], PriorLayout(prior, lease.tab.value)).root.None?
            && p.layouts[lease.tab.value] == layouts[lease.tab.value]
            && Lookup(PtyIndexes(p.layouts), lease.tab.value, lease.pty) == leaf && TruthyLeaf(leaf)
  {
    hide NormalizeSession, PtyIndex;
    RemappedLeaseIsStableUnlessExposed(order, layouts, prior, next, lease);
    var seed := SessionPassOfTab(order, layouts, prior, next, lease.tab.value);
  }

  /** Whatever else is mapped, such a lease stays as it is. */
  lemma IndexedLeaseStays(lease: Lease, leafMaps: map<TabId, map<LeafId, LeafId>>, ptyIndex: map<TabId, map<PtyId, LeafId>>)
    requires lease.leaf.Some? && !lease.leaf.value.Stable? ==>
      && NamesTab(lease) && TruthyLeaf(lease.leaf)
      && Lookup(leafMaps, lease.tab.value, lease.leaf.value).None? && Lookup(ptyIndex, lease.tab.value, lease.pty) == lease.leaf
    ensures RemapLease(lease, leafMaps, ptyIndex) == lease
  {
  }

  lemma RootlessPass(layout: Layout, preferred: Option<Layout>, next: nat)
    requires ResolveRoot(layout, preferred).root.None?
    ensures var passed := Normalize(layout, preferred, next).snapshot; passed == layout && passed.root.None?
  {
  }

  lemma SameIndex(a: map<TabId, Layout>, b: map<TabId, Layout>, tab: TabId, pty: PtyId)
    requires tab in a && tab in b && a[tab] == b[tab]
    ensures Lookup(PtyIndexes(a), tab, pty) == Lookup(PtyIndexes(b), tab, pty)
  {
  }

  lemma LeaseComesBack(s: State, w: Write, back: Write, lease: Lease)
    requires ValidWrite(w) && ValidWrite(back) && back.incoming == Stored(s, w)
    requires PassOf(AfterWrite(s, w), back).layouts == Stored(s, w).layouts
    requires forall tab :: tab in PassOf(AfterWrite(s, w), back).leafMaps ==> IsIdentity(PassOf(AfterWrite(s, w), back).leafMaps[tab])
    ensures var p, q := PassOf(s, w), PassOf(AfterWrite(s, w), back);
            var once := RemapLease(lease, p.leafMaps, PtyIndexes(p.layouts));
            RemapLease(once, q.leafMaps, PtyIndexes(q.layouts)) == once
  {
    hide NormalizeSession, AfterWrite, IsIdentity, PtyIndexes, Normalize, Normal;
    var p, q := PassOf(s, w), PassOf(AfterWrite(s, w), back);
    var once := RemapLease(lease, p.leafMaps, PtyIndexes(p.layouts));
    if once.leaf.Some? && !once.leaf.value.Stable? {
      LegacyLeaseIsIndexed(w.tabOrder, w.incoming.layouts, PriorLayouts(s.session), w.next, lease);
      var tab := lease.tab.value;
      var seed := StoredLayout(s, w, tab);
      RootlessPass(w.incoming.layouts[tab], Preferred(s, tab), seed);
      IdentityKeepsLegacyOut(q.leafMaps, tab, once.leaf.value);
      SameIndex(p.layouts, q.layouts, tab, lease.pty);
    }
    IndexedLeaseStays(once, q.leafMaps, PtyIndexes(q.layouts));
  }

  // ---------------------------------------------------------------------- Tabs

  /** The tab is unbound, but the first of its id in the list is bound, to nothing that
      a dead lease matches: the merge binds the tab as well. */
  predicate Shadowed(s: State, worktree: WorktreeId, tabs: seq<Tab>, i: nat)
    requires i < |tabs|
  {
    var first := FindTab(tabs, tabs[i].id);
    && !Truthy(tabs[i].pty) && first.Some? && Truthy(first.value.pty)
    && IsRestorable(s.leases, TabBinding(Context(s.leases, s.connections, []), worktree, tabs[i].id, first.value.pty.value))
  }

  ghost predicate NoShadows(s: State) {
    s.session.Some? ==>
      forall worktree, i :: worktree in s.session.value.tabs && 0 <= i < |s.session.value.tabs[worktree]| ==>
        !Shadowed(s, worktree, s.session.value.tabs[worktree], i)
  }

  lemma TabComesBackIff(s: State, ctx: Context, worktree: WorktreeId, tabs: seq<Tab>)
    requires ctx.leases == s.leases && ctx.connections == s.connections
    ensures MergeTabList(ctx, worktree, tabs, tabs) == tabs <==> forall i :: 0 <= i < |tabs| ==> !Shadowed(s, worktree, tabs, i)
  {
    var merged := MergeTabList(ctx, worktree, tabs, tabs);
    forall i | 0 <= i < |tabs| ensures merged[i] == tabs[i] <==> !Shadowed(s, worktree, tabs, i) {
    }
    if merged != tabs {
      var i :| 0 <= i < |tabs| && merged[i] != tabs[i];
    }
  }

  lemma TabsComeBackIff(s: State, ctx: Context, session: Session)
    requires ctx.leases == s.leases && ctx.connections == s.connections && s.session == Some(session)
    ensures MergeTabs(ctx, session, session) == session.tabs <==> NoShadows(s)
  {
    hide MergeTabList, Shadowed;
    var merged := MergeTabs(ctx, session, session);
    forall worktree | worktree in session.tabs
      ensures merged[worktree] == session.tabs[worktree] <==>
              forall i :: 0 <= i < |session.tabs[worktree]| ==> !Shadowed(s, worktree, session.tabs[worktree], i)
    {
      TabComesBackIff(s, ctx, worktree, session.tabs[worktree]);
    }
  }

  /** Lists without repeated ids shadow nothing. */
  lemma DistinctTabsCastNoShadow(s: State, worktree: WorktreeId, tabs: seq<Tab>, i: nat)
    requires i < |tabs| && forall j :: 0 <= j < i ==> tabs[j].id != tabs[i].id
    ensures !Shadowed(s, worktree, tabs, i)
  {
    FirstOfItsId(tabs, i);
  }

  lemma {:induction false} FirstOfItsId(tabs: seq<Tab>, i: nat)
    requires i < |tabs| && forall j :: 0 <= j < i ==> tabs[j].id != tabs[i].id
    ensures FindTab(tabs, tabs[i].id) == Some(tabs[i])
  {
    if i > 0 {
      assert tabs[0].id != tabs[i].id;
      assert forall j :: 0 <= j < i - 1 ==> tabs[1..][j] == tabs[j + 1];
      FirstOfItsId(tabs[1..], i - 1);
    }
  }

  // --------------------------------------------------------------- Main result

  lemma LayoutsComeBack(ctx: Context, session: Session)
    ensures MergeLayouts(ctx, session, session) == session.layouts
  {
    hide MergeLayout, LastListing;
    forall tab | tab in session.layouts
      ensures MergeLayouts(ctx, session, session)[tab] == session.layouts[tab]
    {
      MergeWithItself(ctx, LastListing(ctx.worktreeOrder, session.tabs + session.tabs, tab), tab, session.layouts[tab]);
    }
  }

  lemma PassComesBack(s: State, w: Write, back: Write)
    requires ValidWrite(w) && ValidWrite(back) && back.incoming == Stored(s, w)
    requires Fits(w.incoming.layouts, PriorLayouts(s.session), w.next)
    ensures var q := PassOf(AfterWrite(s, w), back);
            q.layouts == Stored(s, w).layouts && forall tab :: tab in q.leafMaps ==> IsIdentity(q.leafMaps[tab])
  {
    hide Normal, Fits, MergeSession, RemappedLeases, NormalizeSession, IsIdentity;
    StoredLayouts(s, w);
    forall tab | tab in Stored(s, w).layouts
      ensures Normal(Stored(s, w).layouts[tab])
    {
      StoredIsNormal(s, w, tab);
    }
    NormalSessionIsFixed(back.tabOrder, Stored(s, w).layouts, back.next);
  }

  lemma LeasesComeBack(s: State, w: Write, back: Write)
    requires ValidWrite(w) && ValidWrite(back) && back.incoming == Stored(s, w)
    requires PassOf(AfterWrite(s, w), back).layouts == Stored(s, w).layouts
    requires forall tab :: tab in PassOf(AfterWrite(s, w), back).leafMaps ==> IsIdentity(PassOf(AfterWrite(s, w), back).leafMaps[tab])
    ensures RemappedLeases(AfterWrite(s, w), back) == AfterWrite(s, w).leases
  {
    hide PassOf, RemapLease, PtyIndexes, MergeSession, IsIdentity;
    var again := RemappedLeases(AfterWrite(s, w), back);
    forall i | 0 <= i < |again|
      ensures again[i] == AfterWrite(s, w).leases[i]
    {
      LeaseComesBack(s, w, back, s.leases[i]);
    }
  }

  /** Without a clash the leases and layouts come back, and the tabs that cast no shadow. */
  lemma NoClashComesBackIff(s: State, w: Write, back: Write)
    requires ValidWrite(w) && ValidWrite(back) && back.incoming == Stored(s, w)
    requires Fits(w.incoming.layouts, PriorLayouts(s.session), w.next)
    ensures AfterWrite(AfterWrite(s, w), back) == AfterWrite(s, w) <==> NoShadows(AfterWrite(s, w))
  {
    hide PassOf, LeasesAfter, MergeTabs, MergeLayouts, Fits, NoShadows, IsIdentity;
    var t := AfterWrite(s, w);
    PassComesBack(s, w, back);
    LeasesComeBack(s, w, back);
    LayoutsComeBack(ContextOf(t, back), Stored(s, w));
    TabsComeBackIff(t, ContextOf(t, back), Stored(s, w));
  }

  /** Writing the stored session back leaves the whole store as it is, leases included,
      exactly when no adopted id clashed in the first write, and no unbound tab of the
      session stands behind a bound one of its own id. */
  lemma WriteBackIsIdentityIff(s: State, w: Write, back: Write)
    requires ValidWrite(w) && ValidWrite(back) && back.incoming == AfterWrite(s, w).session.value
    requires SessionSupplied(w.incoming.layouts, PriorLayouts(s.session), w.next)
    requires SessionSupplied(back.incoming.layouts, back.incoming.layouts, back.next)
    ensures AfterWrite(AfterWrite(s, w), back) == AfterWrite(s, w) <==>
            NoTabClashes(w.incoming.layouts, PriorLayouts(s.session)) && NoShadows(AfterWrite(s, w))
  {
    hide AfterWrite, NoShadows, LayoutClash;
    if NoTabClashes(w.incoming.layouts, PriorLayouts(s.session)) {
      NoClashComesBackIff(s, w, back);
    } else {
      var tab :| tab in w.incoming.layouts && LayoutClash(w.incoming.layouts[tab], PriorLayout(PriorLayouts(s.session), tab));
      ClashShows(s, w, back, tab);
    }
  }
}
