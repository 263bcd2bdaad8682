/**
  What a session write does to everything in a layout but its bindings: the tree and
  the pointers are those of the pass, and each record keeps what the pass leaves in it
  and takes the rest from the prior record of its own name.
 */
module RecordRule {
  import opened Wrappers
  import opened PtyIds
  import opened PaneLayout
  import opened LayoutNormalizer
  import opened SessionNormalizer
  import opened PtyBindings
  import opened WriteRule

  /** Some binding of the tab that the write does not carry comes back. */
  ghost predicate SomeReturns(s: State, w: Write, tab: TabId) {
    exists leaf, pty :: Returns(s, w, tab, leaf, pty) && !IncomingAt(s, w, tab, leaf)
  }

  lemma PreservedAt(prior: Option<map<LeafId, string>>, incoming: Option<map<LeafId, string>>, live: set<LeafId>, leaf: LeafId, text: string)
    ensures BoundAt(Entries(PreserveMissing(prior, incoming, live)), leaf, text) <==>
            if leaf in Entries(incoming) then BoundAt(Entries(incoming), leaf, text) else leaf in live && BoundAt(Entries(prior), leaf, text)
  {
    var missing := map l | l in Entries(prior) && l in live && l !in Entries(incoming) :: Entries(prior)[l];
    var next := missing + Entries(incoming);
    assert leaf in Entries(incoming) || leaf in missing <==> leaf in next;
  }

  /** The record once the write has landed, when `returned` says that a binding came back. */
  ghost predicate RecordMerged(passed: Option<map<LeafId, string>>, prior: Option<map<LeafId, string>>, merged: Option<map<LeafId, string>>,
                               live: set<LeafId>, returned: bool, leaf: LeafId, text: string)
  {
    BoundAt(Entries(merged), leaf, text) <==>
    if leaf in Entries(passed) then BoundAt(Entries(passed), leaf, text)
    else returned && leaf in live && BoundAt(Entries(prior), leaf, text)
  }

  /** No empty record takes the place of a missing one. */
  predicate NotEmptied<V(==)>(passed: Option<map<LeafId, V>>, merged: Option<map<LeafId, V>>) {
    Entries(merged) == map[] ==> merged == passed
  }

  lemma MergedRecords(ctx: Context, worktree: Option<WorktreeId>, tab: TabId, prior: Layout, layout: Layout, leaf: LeafId, text: string)
    ensures var merged := MergeLayout(ctx, worktree, tab, prior, layout);
            var live, returned := LiveLeafIds(layout.root), RestorableBindings(ctx, worktree, tab, prior, layout) != map[];
            && merged.root == layout.root && merged.active == layout.active && merged.expanded == layout.expanded
            && RecordMerged(layout.buffers, prior.buffers, merged.buffers, live, returned, leaf, text)
            && RecordMerged(layout.scrollbackRefs, prior.scrollbackRefs, merged.scrollbackRefs, live, returned, leaf, text)
            && RecordMerged(layout.titles, prior.titles, merged.titles, live, returned, leaf, text)
  {
    hide PreserveMissing, Restores, LiveLeafIds;
    var live := LiveLeafIds(layout.root);
    PreservedAt(prior.buffers, layout.buffers, live, leaf, text);
    PreservedAt(prior.scrollbackRefs, layout.scrollbackRefs, live, leaf, text);
    PreservedAt(prior.titles, layout.titles, live, leaf, text);
    if prior.ptys.None? {
      NothingRestored(ctx, worktree, tab, prior, layout);
    }
  }

  lemma NothingRestored(ctx: Context, worktree: Option<WorktreeId>, tab: TabId, prior: Layout, layout: Layout)
    requires prior.ptys.None?
    ensures RestorableBindings(ctx, worktree, tab, prior, layout) == map[]
  {
  }

  /** The prior layout of the tab. */
  function PriorOf(s: State, tab: TabId): Layout {
    if s.session.Some? && tab in s.session.value.layouts then s.session.value.layouts[tab] else EMPTY_LAYOUT
  }

  lemma RestoredIsReturned(s: State, w: Write, tab: TabId, leaf: LeafId)
    requires tab in w.incoming.layouts && s.session.Some? && tab in s.session.value.layouts
    requires Entries(Passed(s, w, tab).ptys) != map[] <==> IncomingAnywhere(s, w, tab)
    requires leaf in Entries(Passed(s, w, tab).ptys) <==> IncomingAt(s, w, tab, leaf)
    ensures var prior := PriorOf(s, tab);
            var worktree := LastListing(w.worktreeOrder, s.session.value.tabs + w.incoming.tabs, tab);
            leaf in RestorableBindings(ContextOf(s, w), worktree, tab, prior, Passed(s, w, tab)) <==>
            leaf in Entries(prior.ptys) && Returns(s, w, tab, leaf, Entries(prior.ptys)[leaf]) && !IncomingAt(s, w, tab, leaf)
  {
    hide IncomingAt, IncomingAnywhere, Passed, LiveLeafIds, LastListing, IsRestorable, HasRestorableLease;
  }

  lemma RestorableIffReturns(s: State, w: Write, tab: TabId)
    requires ValidWrite(w) && tab in w.incoming.layouts && s.session.Some? && tab in s.session.value.layouts
    ensures var worktree := LastListing(w.worktreeOrder, s.session.value.tabs + w.incoming.tabs, tab);
            RestorableBindings(ContextOf(s, w), worktree, tab, PriorOf(s, tab), Passed(s, w, tab)) != map[] <==> SomeReturns(s, w, tab)
  {
    hide IncomingAt, IncomingAnywhere, Passed, RestorableBindings, Returns, LastListing;
    var worktree := LastListing(w.worktreeOrder, s.session.value.tabs + w.incoming.tabs, tab);
    var restorable := RestorableBindings(ContextOf(s, w), worktree, tab, PriorOf(s, tab), Passed(s, w, tab));
    forall leaf
      ensures leaf in restorable <==>
              leaf in Entries(PriorOf(s, tab).ptys) && Returns(s, w, tab, leaf, Entries(PriorOf(s, tab).ptys)[leaf]) && !IncomingAt(s, w, tab, leaf)
    {
      PassedIsIncoming(s, w, tab, leaf);
      RestoredIsReturned(s, w, tab, leaf);
    }
    if restorable != map[] {
      var leaf :| leaf in restorable;
    }
    if SomeReturns(s, w, tab) {
      var leaf, pty :| Returns(s, w, tab, leaf, pty) && !IncomingAt(s, w, tab, leaf);
      ReturnedIsPrior(s, w, tab, leaf, pty);
      assert leaf in restorable;
    }
  }

  lemma ReturnedIsPrior(s: State, w: Write, tab: TabId, leaf: LeafId, pty: PtyId)
    requires Returns(s, w, tab, leaf, pty)
    ensures BoundAt(Entries(PriorOf(s, tab).ptys), leaf, pty)
  {
    hide Passed, PassesTest;
  }

  /** Every session write, every tab it lists, every leaf: in the buffers, the scrollback
      references and the titles alike, what the pass leaves stays; where it leaves
      nothing, the value of the prior record of the same name comes back exactly when
      some binding of the tab does and the leaf is in the tree. Tree and pointers are
      the pass's own. */
  lemma RecordWriteRule(s: State, w: Write, tab: TabId, leaf: LeafId, text: string)
    requires ValidWrite(w) && tab in w.incoming.layouts
    ensures tab in AfterWrite(s, w).session.value.layouts
    ensures var after, passed, prior := AfterWrite(s, w).session.value.layouts[tab], Passed(s, w, tab), PriorOf(s, tab);
            var live, returned := LiveLeafIds(passed.root), SomeReturns(s, w, tab);
            && after.root == passed.root && after.active == passed.active && after.expanded == passed.expanded
            && RecordMerged(passed.buffers, prior.buffers, after.buffers, live, returned, leaf, text)
            && RecordMerged(passed.scrollbackRefs, prior.scrollbackRefs, after.scrollbackRefs, live, returned, leaf, text)
            && RecordMerged(passed.titles, prior.titles, after.titles, live, returned, leaf, text)
  {
    hide AfterWrite, Passed, SomeReturns, RestorableBindings, MergeLayout, LiveLeafIds, LastListing;
    PassedRecords(s, w, tab);
    WrittenLayout(s, w, tab);
    if s.session.Some? && tab in s.session.value.layouts {
      var worktree := LastListing(w.worktreeOrder, s.session.value.tabs + w.incoming.tabs, tab);
      MergedRecords(ContextOf(s, w), worktree, tab, PriorOf(s, tab), Passed(s, w, tab), leaf, text);
      RestorableIffReturns(s, w, tab);
    } else {
      NothingPriorReturns(s, w, tab);
    }
  }

  lemma MergeEmptiesNothing(ctx: Context, worktree: Option<WorktreeId>, tab: TabId, prior: Layout, layout: Layout)
    ensures var merged := MergeLayout(ctx, worktree, tab, prior, layout);
            NotEmptied(layout.buffers, merged.buffers) && NotEmptied(layout.scrollbackRefs, merged.scrollbackRefs) &&
            NotEmptied(layout.titles, merged.titles) && NotEmptied(layout.ptys, merged.ptys)
  {
    hide RestorableBindings, LiveLeafIds;
  }

  /** A record that holds nothing after the write is as the pass leaves it, missing or empty. */
  lemma NoRecordIsEmptied(s: State, w: Write, tab: TabId)
    requires ValidWrite(w) && tab in w.incoming.layouts
    ensures tab in AfterWrite(s, w).session.value.layouts
    ensures var after, passed := AfterWrite(s, w).session.value.layouts[tab], Passed(s, w, tab);
            NotEmptied(passed.buffers, after.buffers) && NotEmptied(passed.scrollbackRefs, after.scrollbackRefs) &&
            NotEmptied(passed.titles, after.titles) && NotEmptied(passed.ptys, after.ptys)
  {
    hide AfterWrite, Passed, MergeLayout, LastListing;
    PassedRecords(s, w, tab);
    WrittenLayout(s, w, tab);
    if s.session.Some? && tab in s.session.value.layouts {
      var worktree := LastListing(w.worktreeOrder, s.session.value.tabs + w.incoming.tabs, tab);
      MergeEmptiesNothing(ContextOf(s, w), worktree, tab, PriorOf(s, tab), Passed(s, w, tab));
    }
  }

  lemma NothingPriorReturns(s: State, w: Write, tab: TabId)
    requires s.session.None? || tab !in s.session.value.layouts
    ensures !SomeReturns(s, w, tab)
  {
  }

  /** A write stores the worktrees and tabs that it lists, as it lists them, but for what a
      tab is bound to; and the layouts of the tabs that it has a layout for. */
  lemma WriteKeepsLists(s: State, w: Write)
    requires ValidWrite(w)
    ensures var after := AfterWrite(s, w).session.value;
            && after.tabs.Keys == w.incoming.tabs.Keys && after.layouts.Keys == w.incoming.layouts.Keys
            && forall worktree :: worktree in after.tabs ==> SameTabs(after.tabs[worktree], w.incoming.tabs[worktree])
    ensures AfterWrite(s, w).connections == s.connections
  {
    hide MergeTabs, MergeLayouts, NormalizeSession, LeasesAfter, SameTabs;
    SessionPassByTab(w.tabOrder, w.incoming.layouts, PriorLayouts(s.session), w.next);
    if s.session.Some? {
      var passed := Session(w.incoming.tabs, PassOf(s, w).layouts);
      MergeKeepsLists(ContextOf(s, w), s.session.value, passed);
    } else {
      forall worktree | worktree in w.incoming.tabs
        ensures SameTabs(w.incoming.tabs[worktree], w.incoming.tabs[worktree])
      {
        TabsAreSame(w.incoming.tabs[worktree]);
      }
    }
  }

  lemma MergeKeepsLists(ctx: Context, prior: Session, next: Session)
    ensures MergeTabs(ctx, prior, next).Keys == next.tabs.Keys && MergeLayouts(ctx, prior, next).Keys == next.layouts.Keys
    ensures forall worktree :: worktree in next.tabs ==> SameTabs(MergeTabs(ctx, prior, next)[worktree], next.tabs[worktree])
  {
    hide MergeLayout, MergeTab, LastListing, SameTabs;
    forall worktree | worktree in next.tabs
      ensures SameTabs(MergeTabs(ctx, prior, next)[worktree], next.tabs[worktree])
    {
      TabsAreSame(next.tabs[worktree]);
      if worktree in prior.tabs {
        MergedTabsAreSame(ctx, worktree, prior.tabs[worktree], next.tabs[worktree]);
      }
    }
  }

  lemma TabsAreSame(tabs: seq<Tab>)
    ensures SameTabs(tabs, tabs)
  {
  }

  predicate SameTabs(a: seq<Tab>, b: seq<Tab>) {
    |a| == |b| && forall i :: 0 <= i < |a| ==> a[i].id == b[i].id && (Truthy(b[i].pty) ==> a[i].pty == b[i].pty)
  }

  lemma MergedTabsAreSame(ctx: Context, worktree: WorktreeId, prior: seq<Tab>, tabs: seq<Tab>)
    ensures SameTabs(MergeTabList(ctx, worktree, prior, tabs), tabs)
  {
  }

  /** What the pass leaves in the record: the values of uniquely named leaves, each at the
      leaf that its own became. */
  lemma PassedRecordRule(s: State, w: Write, tab: TabId, leaf: LeafId)
    requires ValidWrite(w) && tab in w.incoming.layouts
    ensures var ids, out := InputIds(Incoming(w, tab), Preferred(s, tab)), LayoutLeafIds(Passed(s, w, tab).root);
            var before, after := w.incoming.layouts[tab], Passed(s, w, tab);
            && ArrivedAt(Entries(before.buffers), Entries(after.buffers), ids, out, leaf)
            && ArrivedAt(Entries(before.scrollbackRefs), Entries(after.scrollbackRefs), ids, out, leaf)
            && ArrivedAt(Entries(before.titles), Entries(after.titles), ids, out, leaf)
  {
    hide Passed, Arrives, InputIds;
    PassedRecords(s, w, tab);
  }

  ghost predicate ArrivedAt(before: map<LeafId, string>, after: map<LeafId, string>, ids: seq<LeafId>, out: seq<LeafId>, leaf: LeafId) {
    && (leaf in after ==> Arrives(before, ids, out, leaf, after[leaf]))
    && (leaf !in after ==> forall text :: !Arrives(before, ids, out, leaf, text))
  }
}
