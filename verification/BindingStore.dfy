/** The Store methods that write bindings and leases, proved to be those operations. */
module BindingStore {
  import opened Wrappers
  import opened PtyIds
  import opened PaneLayout
  import opened LayoutNormalizer
  import opened SessionNormalizer
  import opened PtyBindings
  import opened WriteRule
  import opened BindingRuns
  import Migration = IdentityMigration
  import MigrationStore

  method IndexSession(layouts: map<TabId, Layout>) returns (index: map<TabId, map<PtyId, LeafId>>)
    ensures index == PtyIndexes(layouts)
  {
    index := map[];
    var todo := layouts.Keys;
    while todo != {}
      invariant todo <= layouts.Keys && index.Keys == layouts.Keys - todo
      invariant forall tab :: tab in index ==> index[tab] == PtyIndex(Entries(layouts[tab].ptys))
      decreases |todo|
    {
      var tab :| tab in todo;
      todo := todo - {tab};
      var leafIdByPtyId := IndexPtys(Entries(layouts[tab].ptys));
      index := index[tab := leafIdByPtyId];
    }
  }

  method MergeTabsOf(ctx: Context, worktreeId: WorktreeId, priorList: seq<Tab>, tabs: seq<Tab>) returns (list: seq<Tab>)
    ensures list == MergeTabList(ctx, worktreeId, priorList, tabs)
  {
    list := tabs;
    ghost var merged := MergeTabList(ctx, worktreeId, priorList, tabs);
    for i := 0 to |list|
      invariant |list| == |tabs|
      invariant forall k :: 0 <= k < i ==> list[k] == merged[k]
      invariant forall k :: i <= k < |list| ==> list[k] == tabs[k]
    {
      var tab := list[i];
      assert merged[i] == MergeTab(ctx, worktreeId, priorList, tab);
      if Truthy(tab.pty) {
        continue;
      }
      var priorTab := FindTab(priorList, tab.id);
      if priorTab.Some? && Truthy(priorTab.value.pty) &&
         IsRestorable(ctx.leases, TabBinding(ctx, worktreeId, tab.id, priorTab.value.pty.value)) {
        list := list[i := tab.(pty := priorTab.value.pty)];
      }
    }
  }

  method MergeTabsLoop(ctx: Context, prior: Session, next: Session) returns (tabs: map<WorktreeId, seq<Tab>>)
    ensures tabs == MergeTabs(ctx, prior, next)
  {
    hide MergeTabList;
    tabs := next.tabs;
    var todo := next.tabs.Keys;
    while todo != {}
      invariant todo <= next.tabs.Keys && tabs.Keys == next.tabs.Keys
      invariant forall w :: w in tabs ==> tabs[w] == if w in todo then next.tabs[w] else MergeTabs(ctx, prior, next)[w]
      decreases |todo|
    {
      var worktreeId :| worktreeId in todo;
      todo := todo - {worktreeId};
      if worktreeId !in prior.tabs {
        continue;
      }
      var list := MergeTabsOf(ctx, worktreeId, prior.tabs[worktreeId], next.tabs[worktreeId]);
      tabs := tabs[worktreeId := list];
    }
  }

  method MergeLayoutOf(ctx: Context, worktreeId: Option<WorktreeId>, tabId: TabId, priorLayout: Layout, next: Layout) returns (layout: Layout)
    ensures layout == MergeLayout(ctx, worktreeId, tabId, priorLayout, next)
  {
    hide Restores, PreserveMissing;
    layout := next;
    if priorLayout.ptys.None? {
      return;
    }
    var restorable := RestorableBindings(ctx, worktreeId, tabId, priorLayout, layout);
    if restorable != map[] {
      var live := LiveLeafIds(layout.root);
      layout := layout.(ptys := Some(restorable + Entries(layout.ptys)));
      layout := layout.(buffers := PreserveMissing(priorLayout.buffers, layout.buffers, live));
      layout := layout.(scrollbackRefs := PreserveMissing(priorLayout.scrollbackRefs, layout.scrollbackRefs, live));
      layout := layout.(titles := PreserveMissing(priorLayout.titles, layout.titles, live));
    }
  }

  method MergeLayoutsLoop(ctx: Context, prior: Session, next: Session) returns (layouts: map<TabId, Layout>)
    ensures layouts == MergeLayouts(ctx, prior, next)
  {
    hide MergeLayout, LastListing;
    layouts := next.layouts;
    var todo := next.layouts.Keys;
    while todo != {}
      invariant todo <= next.layouts.Keys && layouts.Keys == next.layouts.Keys
      invariant forall t :: t in layouts ==> layouts[t] == if t in todo then next.layouts[t] else MergeLayouts(ctx, prior, next)[t]
      decreases |todo|
    {
      var tabId :| tabId in todo;
      todo := todo - {tabId};
      if tabId !in prior.layouts {
        continue;
      }
      var worktreeId := LastListing(ctx.worktreeOrder, prior.tabs + next.tabs, tabId);
      var layout := MergeLayoutOf(ctx, worktreeId, tabId, prior.layouts[tabId], next.layouts[tabId]);
      layouts := layouts[tabId := layout];
    }
  }

  method ScrubTabsOf(leases: seq<Lease>, target: string, worktreeId: WorktreeId, tabs: seq<Tab>) returns (list: seq<Tab>)
    ensures list == ScrubTabList(leases, target, worktreeId, tabs)
  {
    list := tabs;
    ghost var scrubbed := ScrubTabList(leases, target, worktreeId, tabs);
    for i := 0 to |list|
      invariant |list| == |tabs|
      invariant forall k :: 0 <= k < i ==> list[k] == scrubbed[k]
      invariant forall k :: i <= k < |list| ==> list[k] == tabs[k]
    {
      if TabReferenced(leases, target, worktreeId, list[i]) {
        list := list[i := list[i].(pty := None)];
      }
    }
  }

  method ScrubTabsLoop(leases: seq<Lease>, target: string, tabs: map<WorktreeId, seq<Tab>>) returns (scrubbed: map<WorktreeId, seq<Tab>>)
    ensures scrubbed == map w | w in tabs :: ScrubTabList(leases, target, w, tabs[w])
  {
    hide ScrubTabList;
    scrubbed := tabs;
    var todo := tabs.Keys;
    while todo != {}
      invariant todo <= tabs.Keys && scrubbed.Keys == tabs.Keys
      invariant forall w :: w in tabs ==> scrubbed[w] == if w in todo then tabs[w] else ScrubTabList(leases, target, w, tabs[w])
      decreases |todo|
    {
      var worktreeId :| worktreeId in todo;
      todo := todo - {worktreeId};
      var list := ScrubTabsOf(leases, target, worktreeId, tabs[worktreeId]);
      scrubbed := scrubbed[worktreeId := list];
    }
  }

  datatype Persisted = Persisted(session: Option<Session>, leases: seq<Lease>)

  /** The part of the Store that holds the session and the leases. */
  class Store {
    var workspaceSession: Option<Session>
    var sshRemotePtyLeases: seq<Lease>
    var connections: map<WorktreeId, string>
    var disk: Persisted

    constructor (connections: map<WorktreeId, string>)
      ensures View() == State(None, [], connections)
    {
      workspaceSession, sshRemotePtyLeases, this.connections := None, [], connections;
      disk := Persisted(None, []);
    }

    function View(): State
      reads this
    {
      State(workspaceSession, sshRemotePtyLeases, connections)
    }

    method FlushOrThrow(diskWorks: bool) returns (thrown: bool)
      modifies this`disk
      ensures thrown == !diskWorks
      ensures disk == if diskWorks then Persisted(workspaceSession, sshRemotePtyLeases) else old(disk)
    {
      if diskWorks {
        disk := Persisted(workspaceSession, sshRemotePtyLeases);
      }
      thrown := !diskWorks;
    }

    method UpdateConnections(connections: map<WorktreeId, string>)
      modifies this`connections
      ensures View() == After(old(View()), SetConnections(connections))
    {
      this.connections := connections;
    }

    /** A worktree or folder goes, with its tabs and their layouts. */
    method RemoveWorkspaceOwner(owner: WorktreeId)
      modifies this`workspaceSession
      ensures View() == After(old(View()), RemoveOwner(owner))
    {
      if workspaceSession.None? {
        return;
      }
      var session := workspaceSession.value;
      var removedTerminalTabs := TabsOf(session, owner);
      var layouts := session.layouts;
      for i := 0 to |removedTerminalTabs|
        invariant layouts == session.layouts - set tab | tab in removedTerminalTabs[..i] :: tab.id
      {
        assert removedTerminalTabs[..i + 1] == removedTerminalTabs[..i] + [removedTerminalTabs[i]];
        layouts := layouts - {removedTerminalTabs[i].id};
      }
      assert removedTerminalTabs[..|removedTerminalTabs|] == removedTerminalTabs;
      workspaceSession := Some(Session(session.tabs - {owner}, layouts));
    }

    /** The tabs move under the worktree's new id. */
    method RekeyWorktree(from: WorktreeId, to: WorktreeId)
      modifies this`workspaceSession
      ensures View() == After(old(View()), Rekey(from, to))
    {
      if from == to || workspaceSession.None? {
        return;
      }
      KeysDiffer(from, to);
      var byId, _ := MigrationStore.MoveRecord(workspaceSession.value.tabs, from, to, Migration.Same);
      var tabs, _ := MigrationStore.MoveRecord(byId, WorkspaceKey(from), WorkspaceKey(to), Migration.Same);
      workspaceSession := Some(workspaceSession.value.(tabs := tabs));
    }

    /** `normalized` is the outcome of the normalising pass over the incoming layouts. */
    method SetNormalizedSession(w: Write, normalized: SessionPass)
      modifies this`workspaceSession, this`sshRemotePtyLeases
      ensures View() == AfterPass(old(View()), w, normalized)
    {
      hide MergeTabs, MergeLayouts, RemapLeases, PtyIndexes;
      var prior := workspaceSession;
      var session := Session(w.incoming.tabs, normalized.layouts);
      var index := IndexSession(normalized.layouts);
      sshRemotePtyLeases := RemapLeases(sshRemotePtyLeases, normalized.leafMaps, index);
      if prior.Some? {
        var ctx := Context(sshRemotePtyLeases, connections, w.worktreeOrder);
        var tabs := MergeTabsLoop(ctx, prior.value, session);
        var layouts := MergeLayoutsLoop(ctx, prior.value, session);
        session := Session(tabs, layouts);
      }
      workspaceSession := Some(session);
    }

    /** The whole write: the session and leases are those of an outcome of the pass, and
        without a clash, when there is only one, those of the write operation. */
    method SetLocalWorkspaceSession(w: Write) returns (normalized: SessionPass)
      requires ValidWrite(w)
      modifies this`workspaceSession, this`sshRemotePtyLeases
      ensures SessionPasses(w.tabOrder, w.incoming.layouts, PriorLayouts(old(workspaceSession)), w.next, normalized)
      ensures View() == AfterPass(old(View()), w, normalized)
      ensures Fits(w.incoming.layouts, PriorLayouts(old(workspaceSession)), w.next) ==> View() == After(old(View()), SetSession(w))
    {
      hide SessionPasses, AfterPass, Fits;
      normalized := NormalizeSessionLayouts(w.tabOrder, w.incoming.layouts, PriorLayouts(workspaceSession), w.next);
      if Fits(w.incoming.layouts, PriorLayouts(workspaceSession), w.next) {
        SessionPassIsDetermined(w.tabOrder, w.incoming.layouts, PriorLayouts(workspaceSession), w.next, normalized);
      }
      SetNormalizedSession(w, normalized);
    }

    /** Either the session is as it was and the call throws, or the binding is in
        memory and the same session is on disk. */
    method PersistPtyBinding(args: SpawnArgs, diskWorks: bool) returns (thrown: bool)
      modifies this`workspaceSession, this`disk
      ensures View() == After(old(View()), Spawn(args, !thrown))
      ensures thrown <==> !diskWorks && old(workspaceSession).Some?
      ensures thrown ==> workspaceSession == old(workspaceSession) && disk == old(disk)
      ensures !thrown && old(workspaceSession).Some? ==>
                disk.session == workspaceSession && workspaceSession.Some? &&
                TabBound(workspaceSession.value, args.worktree, args.tab, args.pty) &&
                (args.leaf.Stable? ==> Bound(workspaceSession.value, args))
    {
      thrown := false;
      if workspaceSession.None? {
        return;
      }
      var sessionBeforeBinding := workspaceSession;
      var session := workspaceSession.value;
      session := session.(tabs := BindTabs(session.tabs, args));
      if !args.leaf.Stable? {
        workspaceSession := Some(session);
        thrown := FlushOrThrow(diskWorks);
        if thrown {
          workspaceSession := sessionBeforeBinding;
        }
        BindTabFinds(if args.worktree in sessionBeforeBinding.value.tabs then sessionBeforeBinding.value.tabs[args.worktree] else [],
                     args.tab, args.pty);
        return;
      }
      session := session.(layouts := BindLayouts(session.layouts, args));
      workspaceSession := Some(session);
      thrown := FlushOrThrow(diskWorks);
      if thrown {
        workspaceSession := sessionBeforeBinding;
      }
      BindBinds(sessionBeforeBinding.value, args);
    }

    method ClearBindingsForLeases(target: string, leases: seq<Lease>, order: seq<WorktreeId>) returns (changed: bool)
      modifies this`workspaceSession
      ensures workspaceSession == ScrubFor(old(View()), leases, target, order)
      ensures changed <==> workspaceSession != old(workspaceSession)
    {
      changed := false;
      if leases == [] || workspaceSession.None? {
        return;
      }
      var session := workspaceSession.value;
      var tabs := ScrubTabsLoop(leases, target, session.tabs);
      var layouts := map t | t in session.layouts ::
        ScrubLayout(leases, target, FirstListing(order, session.tabs, t), t, session.layouts[t]);
      workspaceSession := Some(Session(tabs, layouts));
      changed := Session(tabs, layouts) != session;
    }

    method UpsertSshRemotePtyLease(lease: Lease, diskWorks: bool)
      modifies this`sshRemotePtyLeases, this`disk
      ensures View() == After(old(View()), Upsert(lease))
      ensures disk == if diskWorks && ToRelay(lease.target, lease.pty).Some? then Persisted(workspaceSession, sshRemotePtyLeases) else old(disk)
    {
      var relay := ToRelay(lease.target, lease.pty);
      if relay.None? {
        return;
      }
      sshRemotePtyLeases := UpsertLease(sshRemotePtyLeases, lease);
      var _ := FlushOrThrow(diskWorks);
    }

    method MarkSshRemotePtyLeases(target: string, state: LeaseState, order: seq<WorktreeId>, diskWorks: bool)
      modifies this`workspaceSession, this`sshRemotePtyLeases, this`disk
      ensures View() == After(old(View()), MarkAll(target, state, order))
      ensures disk == if diskWorks && View() != old(View()) then Persisted(workspaceSession, sshRemotePtyLeases) else old(disk)
    {
      hide Scrub, MarkLeases, OfTarget;
      var marked, leasesToClear, changed := MarkLeasesLoop(sshRemotePtyLeases, target, state);
      sshRemotePtyLeases := marked;
      var bindingsChanged := false;
      if IsDead(state) {
        if leasesToClear == [] && workspaceSession.Some? {
          ScrubNothing(workspaceSession.value, target, order);
        }
        bindingsChanged := ClearBindingsForLeases(target, leasesToClear, order);
      }
      if changed || bindingsChanged {
        var _ := FlushOrThrow(diskWorks);
      }
    }

    method MarkSshRemotePtyLease(target: string, pty: PtyId, state: LeaseState, order: seq<WorktreeId>, diskWorks: bool)
      modifies this`workspaceSession, this`sshRemotePtyLeases, this`disk
      ensures View() == After(old(View()), MarkOne(target, pty, state, order))
      ensures disk == if diskWorks && View() != old(View()) then Persisted(workspaceSession, sshRemotePtyLeases) else old(disk)
    {
      hide Scrub, FindLease;
      var relay := ToRelay(target, pty);
      if relay.None? {
        return;
      }
      var at := FindLease(sshRemotePtyLeases, target, relay.value);
      if at.None? {
        return;
      }
      var lease := sshRemotePtyLeases[at.value];
      if lease.state == state {
        assert sshRemotePtyLeases[at.value := lease] == sshRemotePtyLeases;
        if IsDead(state) {
          var changed := ClearBindingsForLeases(target, [lease], order);
          if changed {
            var _ := FlushOrThrow(diskWorks);
          }
        }
        return;
      }
      lease := lease.(state := state);
      sshRemotePtyLeases := sshRemotePtyLeases[at.value := lease];
      assert sshRemotePtyLeases[at.value] != old(sshRemotePtyLeases)[at.value];
      if IsDead(state) {
        var _ := ClearBindingsForLeases(target, [lease], order);
      }
      var _ := FlushOrThrow(diskWorks);
    }

    method RemoveSshRemotePtyLeases(target: string, only: Option<PtyId>, order: seq<WorktreeId>, diskWorks: bool)
      modifies this`workspaceSession, this`sshRemotePtyLeases, this`disk
      ensures View() == After(old(View()), Remove(target, only, order))
      ensures disk == if diskWorks && View() != old(View()) then Persisted(workspaceSession, sshRemotePtyLeases) else old(disk)
    {
      hide Scrub, WithoutLeases, Removed;
      var relay := None;
      if only.Some? {
        relay := ToRelay(target, only.value);
        if relay.None? {
          return;
        }
      }
      var before := |sshRemotePtyLeases|;
      SameLengthRemovesNothing(sshRemotePtyLeases, target, relay);
      var _ := ClearBindingsForLeases(target, Removed(sshRemotePtyLeases, target, relay), order);
      sshRemotePtyLeases := WithoutLeases(sshRemotePtyLeases, target, relay);
      if |sshRemotePtyLeases| != before {
        var _ := FlushOrThrow(diskWorks);
      }
    }
  }

  method MarkLeasesLoop(leases: seq<Lease>, target: string, state: LeaseState)
    returns (marked: seq<Lease>, leasesToClear: seq<Lease>, changed: bool)
    ensures marked == MarkLeases(leases, target, state)
    ensures leasesToClear == if IsDead(state) then OfTarget(marked, target) else []
    ensures changed <==> marked != leases
  {
    marked, leasesToClear, changed := leases, [], false;
    ghost var spec := MarkLeases(leases, target, state);
    for i := 0 to |leases|
      invariant |marked| == |leases|
      invariant forall k :: 0 <= k < i ==> marked[k] == spec[k]
      invariant forall k :: i <= k < |leases| ==> marked[k] == leases[k]
      invariant leasesToClear == if IsDead(state) then OfTargetUpTo(spec, i, target) else []
      invariant changed <==> marked != leases
    {
      var lease := marked[i];
      if lease.target == target && !(state.Detached? && !lease.state.Attached?) {
        if lease.state != state {
          lease := lease.(state := state);
          marked := marked[i := lease];
          changed := true;
        }
        if IsDead(state) {
          leasesToClear := leasesToClear + [lease];
        }
      }
      assert lease == spec[i];
    }
  }

  /** Scrubbing for no lease changes nothing. */
  lemma ScrubNothing(session: Session, target: string, order: seq<WorktreeId>)
    ensures Scrub(session, [], target, order) == session
  {
    forall w | w in session.tabs ensures ScrubTabList([], target, w, session.tabs[w]) == session.tabs[w] {
    }
    forall t | t in session.layouts
      ensures ScrubLayout([], target, FirstListing(order, session.tabs, t), t, session.layouts[t]) == session.layouts[t]
    {
      var layout := session.layouts[t];
      assert layout.ptys.Some? ==> ScrubLayout([], target, FirstListing(order, session.tabs, t), t, layout).ptys.value == layout.ptys.value;
    }
  }
}
