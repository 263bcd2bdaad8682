/**
  Which PTY bindings survive: the merge of a renderer snapshot into the persisted
  session, the crash-safe binding written at spawn, and the scrubbing that follows
  the death of SSH leases.
 */
module PtyBindings {
  import opened Wrappers
  import opened PtyIds
  import opened PaneLayout
  import opened LayoutNormalizer
  import opened SessionNormalizer

  type WorktreeId = string

  datatype Tab = Tab(id: TabId, pty: Option<PtyId>)

  datatype Session = Session(tabs: map<WorktreeId, seq<Tab>>, layouts: map<TabId, Layout>)

  /** A binding as the lease tests see it; a missing part is not compared. */
  datatype Binding = Binding(
    pty: PtyId,
    target: Option<string>,
    worktree: Option<WorktreeId>,
    tab: Option<TabId>,
    leaf: Option<LeafId>)

  predicate IsDead(state: LeaseState) {
    state.Terminated? || state.Expired?
  }

  // ------------------------------------------------------------- Lease tests

  /** A context the lease lacks does not match a binding that has it. */
  predicate Matches(lease: Lease, b: Binding) {
    && lease.pty == ToRelayForComparison(lease.target, b.pty)
    && (b.target.None? || b.target == Some(lease.target))
    && (b.worktree.None? || lease.worktree == b.worktree)
    && (b.tab.None? || lease.tab == b.tab)
    && (b.leaf.None? || lease.leaf == b.leaf)
  }

  /** The scrubbing test: a context the lease lacks matches anything. */
  predicate MayReference(lease: Lease, b: Binding)
    requires b.target.Some?
  {
    && lease.target == b.target.value
    && lease.pty == ToRelayForComparison(b.target.value, b.pty)
    && (b.worktree.None? || lease.worktree.None? || lease.worktree == b.worktree)
    && (b.tab.None? || lease.tab.None? || lease.tab == b.tab)
    && (b.leaf.None? || lease.leaf.None? || lease.leaf == b.leaf)
  }

  predicate IsRestorable(leases: seq<Lease>, b: Binding) {
    forall i :: 0 <= i < |leases| && Matches(leases[i], b) ==> !IsDead(leases[i].state)
  }

  predicate HasRestorableLease(leases: seq<Lease>, b: Binding) {
    exists i :: 0 <= i < |leases| && Matches(leases[i], b) && !IsDead(leases[i].state)
  }

  /** Nothing that strictly matches a lease of the target is missed by scrubbing. */
  lemma MatchImpliesMayReference(lease: Lease, b: Binding)
    requires Matches(lease, b)
    ensures MayReference(lease, b.(target := Some(lease.target)))
  {
  }

  /** One lease for each target and relay id. */
  ghost predicate LeasesUnique(leases: seq<Lease>) {
    forall i, j :: 0 <= i < j < |leases| ==> leases[i].target != leases[j].target || leases[i].pty != leases[j].pty
  }

  /** "Some matching lease is alive" rules out a dead one exactly when the target
      is known: relay ids of two targets may coincide. */
  lemma LiveLeaseExcludesDeadIffTargetKnown(b: Binding)
    ensures (forall leases: seq<Lease> :: LeasesUnique(leases) && HasRestorableLease(leases, b) ==> IsRestorable(leases, b))
            <==> b.target.Some?
  {
    if b.target.Some? {
      forall leases: seq<Lease> | LeasesUnique(leases) && HasRestorableLease(leases, b) ensures IsRestorable(leases, b) {
        var k :| 0 <= k < |leases| && Matches(leases[k], b) && !IsDead(leases[k].state);
        forall i | 0 <= i < |leases| && Matches(leases[i], b) ensures !IsDead(leases[i].state) {
          assert leases[i].target == leases[k].target && leases[i].pty == leases[k].pty;
        }
      }
    } else {
      var connection := if b.pty.App? then b.pty.connection else "";
      var t1, t2 := connection + "1", connection + "2";
      assert t1[|t1| - 1] != t2[|t2| - 1];
      assert |t1| != |connection| && |t2| != |connection|;
      var leases := [Lease(t1, b.pty, b.worktree, b.tab, b.leaf, Attached), Lease(t2, b.pty, b.worktree, b.tab, b.leaf, Expired)];
      assert Matches(leases[0], b) && Matches(leases[1], b);
      assert LeasesUnique(leases) && HasRestorableLease(leases, b) && !IsRestorable(leases, b);
    }
  }

  // ---------------------------------------------------------- Session lookups

  function FindTab(tabs: seq<Tab>, id: TabId): Option<Tab> {
    if tabs == [] then None
    else if tabs[0].id == id then Some(tabs[0])
    else FindTab(tabs[1..], id)
  }

  predicate Lists(tabs: map<WorktreeId, seq<Tab>>, worktree: WorktreeId, tab: TabId) {
    worktree in tabs && FindTab(tabs[worktree], tab).Some?
  }

  /** The first worktree, in key order, that lists the tab. */
  function FirstListing(order: seq<WorktreeId>, tabs: map<WorktreeId, seq<Tab>>, tab: TabId): Option<WorktreeId> {
    if order == [] then None
    else if Lists(tabs, order[0], tab) then Some(order[0])
    else FirstListing(order[1..], tabs, tab)
  }

  /** The last one: a later entry of the program's map overwrites an earlier one. */
  function LastListing(order: seq<WorktreeId>, tabs: map<WorktreeId, seq<Tab>>, tab: TabId): Option<WorktreeId> {
    if order == [] then None
    else if Lists(tabs, order[|order| - 1], tab) then Some(order[|order| - 1])
    else LastListing(order[..|order| - 1], tabs, tab)
  }

  // ------------------------------------------------- Merging in prior bindings

  /** What the merge consults: the leases, the SSH connection of each worktree, and
      the order in which worktrees are enumerated. */
  datatype Context = Context(
    leases: seq<Lease>,
    connections: map<WorktreeId, string>,
    worktreeOrder: seq<WorktreeId>)
  {
    function Connection(worktree: WorktreeId): Option<string> {
      if worktree in connections then Some(connections[worktree]) else None
    }
  }

  function TabBinding(ctx: Context, worktree: WorktreeId, tab: TabId, pty: PtyId): Binding {
    Binding(pty, ctx.Connection(worktree), Some(worktree), Some(tab), None)
  }

  function MergeTab(ctx: Context, worktree: WorktreeId, priorList: seq<Tab>, tab: Tab): Tab {
    if Truthy(tab.pty) then tab
    else
      var prior := FindTab(priorList, tab.id);
      if prior.Some? && Truthy(prior.value.pty) &&
         IsRestorable(ctx.leases, TabBinding(ctx, worktree, tab.id, prior.value.pty.value))
      then tab.(pty := prior.value.pty)
      else tab
  }

  function MergeTabList(ctx: Context, worktree: WorktreeId, priorList: seq<Tab>, tabs: seq<Tab>): (r: seq<Tab>)
    ensures |r| == |tabs| && forall i :: 0 <= i < |r| ==> r[i] == MergeTab(ctx, worktree, priorList, tabs[i])
  {
    seq(|tabs|, i requires 0 <= i < |tabs| => MergeTab(ctx, worktree, priorList, tabs[i]))
  }

  function MergeTabs(ctx: Context, prior: Session, next: Session): map<WorktreeId, seq<Tab>> {
    map w | w in next.tabs ::
      if w in prior.tabs then MergeTabList(ctx, w, prior.tabs[w], next.tabs[w]) else next.tabs[w]
  }

  function LiveLeafIds(root: Option<Node>): set<LeafId> {
    set id | id in LayoutLeafIds(root) && id.Stable?
  }

  function LeafBinding(ctx: Context, worktree: Option<WorktreeId>, tab: TabId, leaf: LeafId, pty: PtyId): Binding {
    Binding(pty, if worktree.Some? then ctx.Connection(worktree.value) else None, worktree, Some(tab), Some(leaf))
  }

  /** An empty incoming map may be a stale snapshot, so every restorable binding
      comes back; a partial one is intended, unless a live lease says otherwise. */
  predicate Restores(ctx: Context, worktree: Option<WorktreeId>, tab: TabId, prior: Layout, layout: Layout, leaf: LeafId) {
    var incoming := Entries(layout.ptys);
    && leaf in Entries(prior.ptys) && leaf in LiveLeafIds(layout.root) && leaf !in incoming
    && var b := LeafBinding(ctx, worktree, tab, leaf, Entries(prior.ptys)[leaf]);
       if incoming != map[] then HasRestorableLease(ctx.leases, b) else IsRestorable(ctx.leases, b)
  }

  function RestorableBindings(ctx: Context, worktree: Option<WorktreeId>, tab: TabId, prior: Layout, layout: Layout): map<LeafId, PtyId> {
    map leaf | leaf in Entries(prior.ptys) && Restores(ctx, worktree, tab, prior, layout, leaf) :: Entries(prior.ptys)[leaf]
  }

  function PreserveMissing(prior: Option<map<LeafId, string>>, incoming: Option<map<LeafId, string>>, live: set<LeafId>): Option<map<LeafId, string>> {
    var next := (map leaf | leaf in Entries(prior) && leaf in live && leaf !in Entries(incoming) :: Entries(prior)[leaf]) + Entries(incoming);
    if next == map[] then incoming else Some(next)
  }

  function MergeLayout(ctx: Context, worktree: Option<WorktreeId>, tab: TabId, prior: Layout, layout: Layout): Layout {
    if prior.ptys.None? then layout
    else
      var restorable := RestorableBindings(ctx, worktree, tab, prior, layout);
      if restorable == map[] then layout
      else
        var live := LiveLeafIds(layout.root);
        layout.(
          ptys := Some(restorable + Entries(layout.ptys)),
          buffers := PreserveMissing(prior.buffers, layout.buffers, live),
          scrollbackRefs := PreserveMissing(prior.scrollbackRefs, layout.scrollbackRefs, live),
          titles := PreserveMissing(prior.titles, layout.titles, live))
  }

  function MergeLayouts(ctx: Context, prior: Session, next: Session): map<TabId, Layout> {
    map t | t in next.layouts ::
      if t in prior.layouts
      then MergeLayout(ctx, LastListing(ctx.worktreeOrder, prior.tabs + next.tabs, t), t, prior.layouts[t], next.layouts[t])
      else next.layouts[t]
  }

  function MergeSession(ctx: Context, prior: Session, next: Session): Session {
    Session(MergeTabs(ctx, prior, next), MergeLayouts(ctx, prior, next))
  }

  /** The exact merge of one tab's bindings: what is incoming stays and wins; what
      comes back is a prior binding of a live leaf that is unbound, and passes the
      test of its branch. */
  lemma MergeRule(ctx: Context, worktree: Option<WorktreeId>, tab: TabId, prior: Layout, layout: Layout, leaf: LeafId, pty: PtyId)
    requires prior.ptys.Some?
    ensures var incoming := Entries(layout.ptys);
            BoundAt(Entries(MergeLayout(ctx, worktree, tab, prior, layout).ptys), leaf, pty) <==>
            if leaf in incoming then incoming[leaf] == pty
            else BoundAt(prior.ptys.value, leaf, pty) && Restores(ctx, worktree, tab, prior, layout, leaf)
  {
    var restorable := RestorableBindings(ctx, worktree, tab, prior, layout);
    assert leaf in restorable <==> Restores(ctx, worktree, tab, prior, layout, leaf);
  }

  /** A binding that comes back is not one of a dead lease. */
  lemma RestoredBindingHasNoDeadLease(ctx: Context, worktree: Option<WorktreeId>, tab: TabId, prior: Layout, layout: Layout, leaf: LeafId)
    requires LeasesUnique(ctx.leases) && Restores(ctx, worktree, tab, prior, layout, leaf)
    requires Entries(layout.ptys) == map[] || (worktree.Some? && worktree.value in ctx.connections)
    ensures IsRestorable(ctx.leases, LeafBinding(ctx, worktree, tab, leaf, Entries(prior.ptys)[leaf]))
  {
    LiveLeaseExcludesDeadIffTargetKnown(LeafBinding(ctx, worktree, tab, leaf, Entries(prior.ptys)[leaf]));
  }

  // -------------------------------------------------------- The session write

  /** A session write as the renderer sends it, with the enumeration orders that
      apply and the supply of fresh ids. */
  datatype Write = Write(incoming: Session, tabOrder: seq<TabId>, worktreeOrder: seq<WorktreeId>, next: nat)

  datatype State = State(session: Option<Session>, leases: seq<Lease>, connections: map<WorktreeId, string>)

  function PriorLayouts(session: Option<Session>): map<TabId, Layout> {
    if session.None? then map[] else session.value.layouts
  }

  ghost function PassOf(s: State, w: Write): SessionPass {
    NormalizeSession(w.tabOrder, w.incoming.layouts, PriorLayouts(s.session), w.next)
  }

  ghost function LeasesAfter(s: State, pass: SessionPass): seq<Lease> {
    RemapLeases(s.leases, pass.leafMaps, PtyIndexes(pass.layouts))
  }

  ghost function RemappedLeases(s: State, w: Write): seq<Lease> {
    LeasesAfter(s, PassOf(s, w))
  }

  ghost function ContextOf(s: State, w: Write): Context {
    Context(RemappedLeases(s, w), s.connections, w.worktreeOrder)
  }

  /** `setLocalWorkspaceSession`, given the outcome of the normalising pass. */
  ghost function AfterPass(s: State, w: Write, pass: SessionPass): State {
    var normalized := Session(w.incoming.tabs, pass.layouts);
    var ctx := Context(LeasesAfter(s, pass), s.connections, w.worktreeOrder);
    s.(leases := ctx.leases,
       session := Some(if s.session.None? then normalized else MergeSession(ctx, s.session.value, normalized)))
  }

  ghost function AfterWrite(s: State, w: Write): State {
    AfterPass(s, w, PassOf(s, w))
  }

  ghost predicate ValidWrite(w: Write) {
    Enumerates(w.tabOrder, w.incoming.layouts)
  }

  // ------------------------------------------------------------ The spawn write

  datatype SpawnArgs = SpawnArgs(worktree: WorktreeId, tab: TabId, leaf: LeafId, pty: PtyId)

  function BindTab(tabs: seq<Tab>, tab: TabId, pty: PtyId): seq<Tab> {
    if tabs == [] then [Tab(tab, Some(pty))]
    else if tabs[0].id == tab then [tabs[0].(pty := Some(pty))] + tabs[1..]
    else [tabs[0]] + BindTab(tabs[1..], tab, pty)
  }

  function BindTabs(tabs: map<WorktreeId, seq<Tab>>, args: SpawnArgs): map<WorktreeId, seq<Tab>> {
    tabs[args.worktree := BindTab(if args.worktree in tabs then tabs[args.worktree] else [], args.tab, args.pty)]
  }

  function BindLeaf(layout: Layout, leaf: LeafId, pty: PtyId): Layout {
    var rooted :=
      if layout.root.None? then layout.(root := Some(Leaf(leaf)), active := Some(leaf), expanded := None)
      else if !ContainsLeafId(layout.root.value, leaf) then
        var root := Split(Vertical, None, layout.root.value, Leaf(leaf));
        layout.(root := Some(root), active := Some(leaf),
                expanded := if TruthyLeaf(layout.expanded) && !ContainsLeafId(root, layout.expanded.value) then None
                            else layout.expanded)
      else layout;
    rooted.(ptys := Some(Entries(layout.ptys)[leaf := pty]))
  }

  function BindLayouts(layouts: map<TabId, Layout>, args: SpawnArgs): map<TabId, Layout> {
    if !args.leaf.Stable? then layouts
    else if args.tab in layouts then layouts[args.tab := BindLeaf(layouts[args.tab], args.leaf, args.pty)]
    else layouts[args.tab := Layout(Some(Leaf(args.leaf)), Some(args.leaf), None, Some(map[args.leaf := args.pty]), None, None, None)]
  }

  /** The session `persistPtyBinding` flushes. */
  function Bind(session: Session, args: SpawnArgs): Session {
    Session(BindTabs(session.tabs, args), BindLayouts(session.layouts, args))
  }

  // --------------------------------------------------------- Binding survival

  predicate TabBound(session: Session, worktree: WorktreeId, tab: TabId, pty: PtyId) {
    worktree in session.tabs &&
    FindTab(session.tabs[worktree], tab).Some? && FindTab(session.tabs[worktree], tab).value.pty == Some(pty)
  }

  predicate LeafBound(session: Session, tab: TabId, leaf: LeafId, pty: PtyId) {
    tab in session.layouts && BoundAt(Entries(session.layouts[tab].ptys), leaf, pty)
  }

  predicate Bound(session: Session, args: SpawnArgs) {
    TabBound(session, args.worktree, args.tab, args.pty) && LeafBound(session, args.tab, args.leaf, args.pty)
  }

  lemma {:induction false} BindTabFinds(tabs: seq<Tab>, tab: TabId, pty: PtyId)
    ensures FindTab(BindTab(tabs, tab, pty), tab) == Some(Tab(tab, Some(pty)))
    ensures forall other :: other != tab ==> FindTab(BindTab(tabs, tab, pty), other) == FindTab(tabs, other)
  {
    if tabs != [] && tabs[0].id != tab {
      BindTabFinds(tabs[1..], tab, pty);
      assert BindTab(tabs, tab, pty)[1..] == BindTab(tabs[1..], tab, pty);
    } else if tabs != [] {
      assert BindTab(tabs, tab, pty)[1..] == tabs[1..];
    }
  }

  /** The spawn write binds the tab and the leaf, puts the leaf in the tree, and
      leaves every other tab and leaf as it was. */
  lemma BindBinds(session: Session, args: SpawnArgs)
    requires args.leaf.Stable?
    ensures var after := Bind(session, args);
            Bound(after, args) &&
            after.layouts[args.tab].root.Some? && args.leaf in LeafIds(after.layouts[args.tab].root.value) &&
            (forall w, t, p :: w != args.worktree || t != args.tab ==>
               (TabBound(after, w, t, p) <==> TabBound(session, w, t, p))) &&
            (forall t, l, p :: t != args.tab || l != args.leaf ==>
               (LeafBound(after, t, l, p) <==> LeafBound(session, t, l, p)))
  {
    BindTabFinds(if args.worktree in session.tabs then session.tabs[args.worktree] else [], args.tab, args.pty);
    if args.tab in session.layouts && session.layouts[args.tab].root.Some? {
      ContainsLeafIdIsMembership(session.layouts[args.tab].root.value, args.leaf);
    }
  }

  function LayoutOf(session: Session, tab: TabId): Layout {
    if tab in session.layouts then session.layouts[tab] else EMPTY_LAYOUT
  }

  /** The tree stays if it has the leaf; otherwise the leaf is split off it, at its end,
      and becomes the active one. An expanded leaf is kept if the tree has it. The other
      records, layouts and worktrees stay. */
  lemma BindGrowsTree(session: Session, args: SpawnArgs)
    requires args.leaf.Stable?
    ensures var before, after := LayoutOf(session, args.tab), LayoutOf(Bind(session, args), args.tab);
            var ids := LayoutLeafIds(before.root);
            && after.root == (if before.root.None? then Some(Leaf(args.leaf)) else if args.leaf in ids then before.root
                              else Some(Split(Vertical, None, before.root.value, Leaf(args.leaf))))
            && LayoutLeafIds(after.root) == (if args.leaf in ids then ids else ids + [args.leaf])
            && after.active == (if args.leaf in ids then before.active else Some(args.leaf))
            && after.expanded == (if before.root.None? then None else if args.leaf in ids then before.expanded
                                  else if TruthyLeaf(before.expanded) && before.expanded.value !in ids + [args.leaf] then None
                                  else before.expanded)
            && after.buffers == before.buffers && after.scrollbackRefs == before.scrollbackRefs && after.titles == before.titles
    ensures Bind(session, args).layouts == session.layouts[args.tab := LayoutOf(Bind(session, args), args.tab)]
    ensures forall w :: w != args.worktree ==>
              (w in Bind(session, args).tabs <==> w in session.tabs) && (w in session.tabs ==> Bind(session, args).tabs[w] == session.tabs[w])
  {
    var before := LayoutOf(session, args.tab);
    if before.root.Some? {
      ContainsLeafIdIsMembership(before.root.value, args.leaf);
      if before.expanded.Some? {
        ContainsLeafIdIsMembership(Split(Vertical, None, before.root.value, Leaf(args.leaf)), before.expanded.value);
      }
    }
  }

  /** A legacy leaf is not bound: only the tab is. */
  lemma LegacyLeafIsNotBound(session: Session, args: SpawnArgs)
    requires !args.leaf.Stable?
    ensures Bind(session, args).layouts == session.layouts
    ensures TabBound(Bind(session, args), args.worktree, args.tab, args.pty)
  {
    BindTabFinds(if args.worktree in session.tabs then session.tabs[args.worktree] else [], args.tab, args.pty);
  }

  predicate HasTab(tabs: seq<Tab>, id: TabId) {
    exists i :: 0 <= i < |tabs| && tabs[i].id == id
  }

  /** The tab is bound where it stands, or appended. */
  lemma {:induction false} BindTabKeepsOrder(tabs: seq<Tab>, tab: TabId, pty: PtyId)
    ensures var after := BindTab(tabs, tab, pty);
            && |after| == (if HasTab(tabs, tab) then |tabs| else |tabs| + 1)
            && (forall i :: 0 <= i < |tabs| ==> after[i].id == tabs[i].id && (tabs[i].id != tab ==> after[i] == tabs[i]))
            && (!HasTab(tabs, tab) ==> after[|tabs|] == Tab(tab, Some(pty)))
  {
    if tabs != [] && tabs[0].id != tab {
      BindTabKeepsOrder(tabs[1..], tab, pty);
      assert HasTab(tabs, tab) <==> HasTab(tabs[1..], tab) by {
        if i :| 0 <= i < |tabs| && tabs[i].id == tab {
          assert tabs[1..][i - 1].id == tab;
        }
        if i :| 0 <= i < |tabs[1..]| && tabs[1..][i].id == tab {
          assert tabs[i + 1].id == tab;
        }
      }
    } else if tabs != [] {
      assert tabs[0].id == tab;
    }
  }

  lemma {:induction false} FindMergedTab(ctx: Context, worktree: WorktreeId, priorList: seq<Tab>, tabs: seq<Tab>, id: TabId)
    ensures var merged := MergeTabList(ctx, worktree, priorList, tabs);
            FindTab(merged, id) ==
            if FindTab(tabs, id).None? then None else Some(MergeTab(ctx, worktree, priorList, FindTab(tabs, id).value))
  {
    var merged := MergeTabList(ctx, worktree, priorList, tabs);
    if tabs != [] && tabs[0].id != id {
      FindMergedTab(ctx, worktree, priorList, tabs[1..], id);
      assert merged[1..] == MergeTabList(ctx, worktree, priorList, tabs[1..]);
    }
  }

  lemma {:induction false} FoundTabHasId(tabs: seq<Tab>, id: TabId)
    ensures FindTab(tabs, id).Some? ==> FindTab(tabs, id).value.id == id && FindTab(tabs, id).value in tabs
  {
    if tabs != [] && tabs[0].id != id {
      FoundTabHasId(tabs[1..], id);
    }
  }

  // ------------------------------------------------------ Scrubbing dead leases

  function ScrubBinding(target: string, worktree: Option<WorktreeId>, tab: TabId, leaf: Option<LeafId>, pty: PtyId): Binding {
    Binding(pty, Some(target), worktree, Some(tab), leaf)
  }

  predicate Referenced(leases: seq<Lease>, b: Binding)
    requires b.target.Some?
  {
    exists i :: 0 <= i < |leases| && MayReference(leases[i], b)
  }

  predicate TabReferenced(leases: seq<Lease>, target: string, worktree: WorktreeId, tab: Tab) {
    Truthy(tab.pty) && Referenced(leases, ScrubBinding(target, Some(worktree), tab.id, None, tab.pty.value))
  }

  function ScrubTabList(leases: seq<Lease>, target: string, worktree: WorktreeId, tabs: seq<Tab>): (r: seq<Tab>)
    ensures |r| == |tabs| && forall i :: 0 <= i < |r| ==>
      r[i] == if TabReferenced(leases, target, worktree, tabs[i]) then tabs[i].(pty := None) else tabs[i]
  {
    seq(|tabs|, i requires 0 <= i < |tabs| =>
      if TabReferenced(leases, target, worktree, tabs[i]) then tabs[i].(pty := None) else tabs[i])
  }

  predicate LeafReferenced(leases: seq<Lease>, target: string, worktree: Option<WorktreeId>, tab: TabId, leaf: LeafId, pty: PtyId) {
    Referenced(leases, ScrubBinding(target, worktree, tab, Some(leaf), pty))
  }

  function ScrubLayout(leases: seq<Lease>, target: string, worktree: Option<WorktreeId>, tab: TabId, layout: Layout): Layout {
    if layout.ptys.None? then layout
    else layout.(ptys := Some(map leaf | leaf in layout.ptys.value &&
      !LeafReferenced(leases, target, worktree, tab, leaf, layout.ptys.value[leaf]) :: layout.ptys.value[leaf]))
  }

  /** `clearSshRemotePtyBindingsForLeases`. */
  function Scrub(session: Session, leases: seq<Lease>, target: string, order: seq<WorktreeId>): Session {
    var tabs := map w | w in session.tabs :: ScrubTabList(leases, target, w, session.tabs[w]);
    Session(tabs,
      map t | t in session.layouts :: ScrubLayout(leases, target, FirstListing(order, session.tabs, t), t, session.layouts[t]))
  }

  function OfTargetUpTo(leases: seq<Lease>, n: nat, target: string): seq<Lease>
    requires n <= |leases|
  {
    if n == 0 then []
    else OfTargetUpTo(leases, n - 1, target) + (if leases[n - 1].target == target then [leases[n - 1]] else [])
  }

  function OfTarget(leases: seq<Lease>, target: string): seq<Lease> {
    OfTargetUpTo(leases, |leases|, target)
  }

  lemma {:induction false} OfTargetMembers(leases: seq<Lease>, n: nat, target: string)
    requires n <= |leases|
    ensures forall lease :: lease in OfTargetUpTo(leases, n, target) <==> lease in leases[..n] && lease.target == target
  {
    if n > 0 {
      OfTargetMembers(leases, n - 1, target);
      assert leases[..n] == leases[..n - 1] + [leases[n - 1]];
    }
  }

  function MarkLease(lease: Lease, target: string, state: LeaseState): Lease {
    if lease.target != target || (state.Detached? && !lease.state.Attached?) then lease
    else lease.(state := state)
  }

  function MarkLeases(leases: seq<Lease>, target: string, state: LeaseState): (r: seq<Lease>)
    ensures |r| == |leases| && forall i :: 0 <= i < |r| ==> r[i] == MarkLease(leases[i], target, state)
  {
    seq(|leases|, i requires 0 <= i < |leases| => MarkLease(leases[i], target, state))
  }

  /** `markSshRemotePtyLeases`. */
  function AfterMark(s: State, target: string, state: LeaseState, order: seq<WorktreeId>): State {
    var marked := MarkLeases(s.leases, target, state);
    s.(leases := marked,
       session := if IsDead(state) && s.session.Some? then Some(Scrub(s.session.value, OfTarget(marked, target), target, order))
                  else s.session)
  }

  predicate CarriesTab(session: Session, worktree: WorktreeId, tab: TabId, pty: PtyId) {
    worktree in session.tabs && Tab(tab, Some(pty)) in session.tabs[worktree]
  }

  /** After the target's leases are marked dead, no binding may reference one of
      them, and every other binding is where it was. */
  lemma MarkedDeadIsScrubbed(s: State, target: string, state: LeaseState, order: seq<WorktreeId>)
    requires IsDead(state) && s.session.Some?
    ensures var before, after := s.session.value, AfterMark(s, target, state, order).session.value;
            var leases := AfterMark(s, target, state, order).leases;
            (forall w, t, p :: Truthy(Some(p)) ==>
               (CarriesTab(after, w, t, p) <==>
                CarriesTab(before, w, t, p) && !Referenced(leases, ScrubBinding(target, Some(w), t, None, p)))) &&
            (forall t, l, p ::
               LeafBound(after, t, l, p) <==>
               LeafBound(before, t, l, p) && !Referenced(leases, ScrubBinding(target, FirstListing(order, before.tabs, t), t, Some(l), p)))
  {
    var marked := MarkLeases(s.leases, target, state);
    forall b: Binding | b.target == Some(target)
      ensures Referenced(OfTarget(marked, target), b) <==> Referenced(marked, b)
    {
      ReferencedOfTarget(marked, target, b);
    }
    var before, after := s.session.value, AfterMark(s, target, state, order).session.value;
    forall w, t, p | Truthy(Some(p))
      ensures CarriesTab(after, w, t, p) <==>
              CarriesTab(before, w, t, p) && !Referenced(marked, ScrubBinding(target, Some(w), t, None, p))
    {
      if w in before.tabs {
        ScrubbedTab(OfTarget(marked, target), target, w, before.tabs[w], Tab(t, Some(p)));
      }
    }
  }

  lemma ReferencedOfTarget(leases: seq<Lease>, target: string, b: Binding)
    requires b.target == Some(target)
    ensures Referenced(OfTarget(leases, target), b) <==> Referenced(leases, b)
  {
    var own := OfTarget(leases, target);
    OfTargetMembers(leases, |leases|, target);
    assert leases[..|leases|] == leases;
    if i :| 0 <= i < |own| && MayReference(own[i], b) {
      assert own[i] in leases;
    }
    if i :| 0 <= i < |leases| && MayReference(leases[i], b) {
      assert leases[i] in own;
    }
  }

  lemma ScrubbedTab(leases: seq<Lease>, target: string, worktree: WorktreeId, tabs: seq<Tab>, tab: Tab)
    requires Truthy(tab.pty)
    ensures tab in ScrubTabList(leases, target, worktree, tabs) <==> tab in tabs && !TabReferenced(leases, target, worktree, tab)
  {
    var r := ScrubTabList(leases, target, worktree, tabs);
    if tab in tabs && !TabReferenced(leases, target, worktree, tab) {
      var i :| 0 <= i < |tabs| && tabs[i] == tab;
      assert r[i] == tab;
    }
  }

  // ------------------------------------------------------- Dead stays dead

  predicate CarriesAnyLeaf(session: Session, tab: TabId, pty: PtyId) {
    tab in session.layouts && pty in Entries(session.layouts[tab].ptys).Values
  }

  /** A write brings no binding of its own: what a tab carries afterwards, the
      incoming session or the prior one carried there. */
  lemma WriteInventsNoTabBinding(s: State, w: Write, worktree: WorktreeId, tab: TabId, pty: PtyId)
    requires CarriesTab(AfterWrite(s, w).session.value, worktree, tab, pty)
    ensures CarriesTab(w.incoming, worktree, tab, pty) || (s.session.Some? && CarriesTab(s.session.value, worktree, tab, pty))
  {
    hide PassOf, LeasesAfter, MergeLayouts, MergeTabList, FindTab, IsRestorable;
    if s.session.Some? && worktree in s.session.value.tabs {
      var priorList := s.session.value.tabs[worktree];
      var list := w.incoming.tabs[worktree];
      var merged := MergeTabList(ContextOf(s, w), worktree, priorList, list);
      var i :| 0 <= i < |merged| && merged[i] == Tab(tab, Some(pty));
      FoundTabHasId(priorList, list[i].id);
    }
  }

  lemma WriteInventsNoLeafBinding(s: State, w: Write, tab: TabId, leaf: LeafId, pty: PtyId)
    requires ValidWrite(w) && LeafBound(AfterWrite(s, w).session.value, tab, leaf, pty)
    ensures CarriesAnyLeaf(w.incoming, tab, pty) || (s.session.Some? && LeafBound(s.session.value, tab, leaf, pty))
  {
    var pass := PassOf(s, w);
    var prior := PriorLayouts(s.session);
    SessionPassByTab(w.tabOrder, w.incoming.layouts, prior, w.next);
    var seed := SessionPassOfTab(w.tabOrder, w.incoming.layouts, prior, w.next, tab);
    var layout := pass.layouts[tab];
    if BoundAt(Entries(layout.ptys), leaf, pty) {
      NormalizeCarries(w.incoming.layouts[tab], PriorLayout(prior, tab), seed, leaf, pty);
    } else {
      var worktree := LastListing(w.worktreeOrder, s.session.value.tabs + w.incoming.tabs, tab);
      if tab in prior && prior[tab].ptys.Some? {
        MergeRule(ContextOf(s, w), worktree, tab, prior[tab], layout, leaf, pty);
      }
    }
  }

  lemma RemappedValuesAreCarried(source: map<LeafId, PtyId>, leafMap: map<LeafId, LeafId>, duplicated: set<LeafId>, leaf: LeafId)
    requires leaf in RemapEntries(source, leafMap, duplicated)
    ensures RemapEntries(source, leafMap, duplicated)[leaf] in source.Values
  {
    RemapEntriesOnlyCarried(source, leafMap, duplicated, leaf);
  }

  lemma NormalizeCarries(layout: Layout, preferred: Option<Layout>, next: nat, leaf: LeafId, pty: PtyId)
    requires BoundAt(Entries(Normalize(layout, preferred, next).snapshot.ptys), leaf, pty)
    ensures pty in Entries(layout.ptys).Values
  {
    var input := ResolveRoot(layout, preferred);
    if input.root.Some? {
      RootedPassFields(layout, input, PreferredLeafIds(preferred), layout.root.None?, next);
      var leafMap := Normalize(layout, preferred, next).leafMap;
      var duplicated := DuplicatedIds(LeafIds(input.root.value));
      assert BoundAt(Entries(RemapLeafRecord(input.ptys, leafMap, duplicated)), leaf, pty);
      assert input.ptys == layout.ptys;
      RemappedValuesAreCarried(Entries(layout.ptys), leafMap, duplicated, leaf);
    } else {
      assert Entries(layout.ptys)[leaf] in Entries(layout.ptys).Values;
    }
  }
}
