/**
  What the leases of the store mean and what becomes of them, told on their fields:
  which binding a lease is for, the state each mark leaves, how a dead lease stays
  dead, and which leaf a lease follows through the normaliser.
 */
module LeaseRules {
  import opened Wrappers
  import opened PtyIds
  import opened PaneLayout
  import opened LayoutNormalizer
  import opened SessionNormalizer
  import opened PtyBindings
  import opened WriteRule
  import opened BindingRuns

  // -------------------------------------------------------- Which binding it is for

  /** The PTY is the lease's: its relay id wrapped with the lease's target, or the relay
      id itself when that is not wrapped with that target again. */
  predicate IsPtyOf(lease: Lease, pty: PtyId) {
    pty == App(lease.target, lease.pty) || (pty == lease.pty && !(pty.App? && pty.connection == lease.target))
  }

  /** What the target's relay knows as `relay`: that id, or that id wrapped with the target. */
  predicate Denotes(target: string, pty: PtyId, relay: PtyId) {
    pty == App(target, relay) || (pty.Raw? && pty == relay)
  }

  /** The lease's own contexts, for one of the PTYs that are its. */
  function OwnBinding(lease: Lease, pty: PtyId): Binding {
    Binding(pty, Some(lease.target), lease.worktree, lease.tab, lease.leaf)
  }

  /** `full` is `part` with some missing parts filled in. */
  predicate Completes<T(==)>(part: Option<T>, full: Option<T>) {
    part.None? || full == part
  }

  predicate CompletesBinding(b: Binding, full: Binding) {
    && full.pty == b.pty && Completes(b.target, full.target) && Completes(b.worktree, full.worktree)
    && Completes(b.tab, full.tab) && Completes(b.leaf, full.leaf)
  }

  predicate CompletesLease(lease: Lease, full: Lease) {
    && full.target == lease.target && full.pty == lease.pty && full.state == lease.state
    && Completes(lease.worktree, full.worktree) && Completes(lease.tab, full.tab) && Completes(lease.leaf, full.leaf)
  }

  /** A lease matches exactly the bindings that its own one completes. */
  lemma MatchesIffOwn(lease: Lease, b: Binding)
    ensures Matches(lease, b) <==> IsPtyOf(lease, b.pty) && CompletesBinding(b, OwnBinding(lease, b.pty))
  {
  }

  /** It may reference exactly those that it, or it with some missing context filled in,
      would match. */
  lemma MayReferenceIffCompletable(lease: Lease, b: Binding)
    requires b.target.Some?
    ensures MayReference(lease, b) <==> exists full :: CompletesLease(lease, full) && Matches(full, b)
  {
    if MayReference(lease, b) {
      var full := lease.(worktree := OrElse(lease.worktree, b.worktree), tab := OrElse(lease.tab, b.tab), leaf := OrElse(lease.leaf, b.leaf));
      assert CompletesLease(lease, full) && Matches(full, b);
    }
  }

  predicate Alive(lease: Lease) {
    lease.state == Attached || lease.state == Detached
  }

  /** The two tests of a prior binding. */
  lemma RestorableIff(leases: seq<Lease>, b: Binding)
    ensures IsRestorable(leases, b) <==> forall lease :: lease in leases && Matches(lease, b) ==> Alive(lease)
    ensures HasRestorableLease(leases, b) <==> exists lease :: lease in leases && Matches(lease, b) && Alive(lease)
  {
    assert forall i :: 0 <= i < |leases| ==> leases[i] in leases;
  }

  // ------------------------------------------------------------ Which worktree it is

  predicate ListsAt(order: seq<WorktreeId>, tabs: map<WorktreeId, seq<Tab>>, tab: TabId, i: nat) {
    i < |order| && order[i] in tabs && exists t :: t in tabs[order[i]] && t.id == tab
  }

  lemma {:induction false} ListedTab(list: seq<Tab>, tab: TabId)
    ensures FindTab(list, tab).Some? <==> exists t :: t in list && t.id == tab
  {
    if list != [] && list[0].id != tab {
      ListedTab(list[1..], tab);
      assert forall t :: t in list <==> t == list[0] || t in list[1..];
    }
  }

  lemma ListsAtIff(order: seq<WorktreeId>, tabs: map<WorktreeId, seq<Tab>>, tab: TabId, i: nat)
    requires i < |order|
    ensures Lists(tabs, order[i], tab) <==> ListsAt(order, tabs, tab, i)
  {
    if order[i] in tabs {
      ListedTab(tabs[order[i]], tab);
    }
  }

  /** The scrub takes the first worktree that lists the tab. */
  lemma {:induction false} FirstListingIsFirst(order: seq<WorktreeId>, tabs: map<WorktreeId, seq<Tab>>, tab: TabId, i: nat)
    requires ListsAt(order, tabs, tab, i) && forall j :: 0 <= j < i ==> !ListsAt(order, tabs, tab, j)
    ensures FirstListing(order, tabs, tab) == Some(order[i])
  {
    ListsAtIff(order, tabs, tab, 0);
    if i > 0 {
      forall j | 0 <= j < i ensures ListsAt(order[1..], tabs, tab, j) <==> ListsAt(order, tabs, tab, j + 1) {
      }
      assert ListsAt(order[1..], tabs, tab, i - 1);
      FirstListingIsFirst(order[1..], tabs, tab, i - 1);
    }
  }

  /** The merge takes the last one. */
  lemma {:induction false} LastListingIsLast(order: seq<WorktreeId>, tabs: map<WorktreeId, seq<Tab>>, tab: TabId, i: nat)
    requires ListsAt(order, tabs, tab, i) && forall j :: i < j < |order| ==> !ListsAt(order, tabs, tab, j)
    ensures LastListing(order, tabs, tab) == Some(order[i])
  {
    var last := |order| - 1;
    ListsAtIff(order, tabs, tab, last);
    if i < last {
      forall j | 0 <= j < last ensures ListsAt(order[..last], tabs, tab, j) <==> ListsAt(order, tabs, tab, j) {
      }
      LastListingIsLast(order[..last], tabs, tab, i);
    }
  }

  /** Both find none when there is none. */
  lemma {:induction false} NoListing(order: seq<WorktreeId>, tabs: map<WorktreeId, seq<Tab>>, tab: TabId)
    requires forall i :: 0 <= i < |order| ==> !ListsAt(order, tabs, tab, i)
    ensures FirstListing(order, tabs, tab).None? && LastListing(order, tabs, tab).None?
  {
    if order != [] {
      var last := |order| - 1;
      ListsAtIff(order, tabs, tab, 0);
      ListsAtIff(order, tabs, tab, last);
      forall j | 0 <= j < last
        ensures !ListsAt(order[1..], tabs, tab, j) && !ListsAt(order[..last], tabs, tab, j)
      {
        assert !ListsAt(order, tabs, tab, j) && !ListsAt(order, tabs, tab, j + 1);
      }
      NoListing(order[1..], tabs, tab);
      NoListing(order[..last], tabs, tab);
    }
  }

  /** The contexts that a write tests a prior binding with. */
  function TestedAs(s: State, worktree: Option<WorktreeId>, tab: TabId, leaf: Option<LeafId>, pty: PtyId): Binding {
    Binding(pty, if worktree.Some? && worktree.value in s.connections then Some(s.connections[worktree.value]) else None,
            worktree, Some(tab), leaf)
  }

  /** A stale write keeps the tab's binding exactly when every lease of the store, after
      the remap, that matches it is attached or detached. */
  lemma StaleTabSurvivesIff(s: State, w: Write, args: SpawnArgs)
    requires s.session.Some? && Bound(s.session.value, args) && Truthy(Some(args.pty)) && StaleWrite(s, w, args)
    ensures TabBound(AfterWrite(s, w).session.value, args.worktree, args.tab, args.pty) <==>
            forall lease :: lease in AfterWrite(s, w).leases && Matches(lease, TestedAs(s, Some(args.worktree), args.tab, None, args.pty)) ==> Alive(lease)
  {
    hide MergeSession, PassOf, LeasesAfter, StaleWrite, TabBound, IsRestorable, Matches;
    StaleWriteKeepsTab(s, w, args);
    RestorableIff(AfterWrite(s, w).leases, TestedAs(s, Some(args.worktree), args.tab, None, args.pty));
  }

  /** ... and the leaf's binding likewise, its worktree being the last one that lists the
      tab before or in the write. */
  lemma StaleLeafSurvivesIff(s: State, w: Write, args: SpawnArgs)
    requires s.session.Some? && Bound(s.session.value, args) && ValidWrite(w) && args.leaf.Stable? && StaleWrite(s, w, args)
    ensures var worktree := LastListing(w.worktreeOrder, s.session.value.tabs + w.incoming.tabs, args.tab);
            LeafBound(AfterWrite(s, w).session.value, args.tab, args.leaf, args.pty) <==>
            forall lease :: lease in AfterWrite(s, w).leases && Matches(lease, TestedAs(s, worktree, args.tab, Some(args.leaf), args.pty)) ==> Alive(lease)
  {
    hide MergeSession, PassOf, LeasesAfter, StaleWrite, LeafBound, IsRestorable, Matches, LastListing;
    StaleWriteKeepsLeaf(s, w, args);
    var worktree := LastListing(w.worktreeOrder, s.session.value.tabs + w.incoming.tabs, args.tab);
    RestorableIff(AfterWrite(s, w).leases, TestedAs(s, worktree, args.tab, Some(args.leaf), args.pty));
  }

  // ------------------------------------------------------------------ What scrubs do

  /** One of the leases of the target may reference the binding. */
  ghost predicate Blames(leases: seq<Lease>, target: string, worktree: Option<WorktreeId>, tab: TabId, leaf: Option<LeafId>, pty: PtyId) {
    exists lease :: lease in leases && MayReference(lease, Binding(pty, Some(target), worktree, Some(tab), leaf))
  }

  lemma ReferencedIffBlames(leases: seq<Lease>, target: string, worktree: Option<WorktreeId>, tab: TabId, leaf: Option<LeafId>, pty: PtyId)
    ensures Referenced(leases, ScrubBinding(target, worktree, tab, leaf, pty)) <==> Blames(leases, target, worktree, tab, leaf, pty)
  {
    assert forall i :: 0 <= i < |leases| ==> leases[i] in leases;
  }

  /** A scrub unbinds exactly the tabs that one of its leases may reference, and touches
      nothing else of any tab. */
  lemma ScrubbedTabs(session: Session, leases: seq<Lease>, target: string, order: seq<WorktreeId>, worktree: WorktreeId, i: nat)
    requires worktree in session.tabs && i < |session.tabs[worktree]|
    ensures var after, tab := Scrub(session, leases, target, order).tabs, session.tabs[worktree][i];
            && after.Keys == session.tabs.Keys && |after[worktree]| == |session.tabs[worktree]|
            && after[worktree][i] ==
               if tab.pty.Some? && tab.pty.value != Raw("") && Blames(leases, target, Some(worktree), tab.id, None, tab.pty.value)
               then tab.(pty := None) else tab
  {
    hide Blames, Referenced;
    if session.tabs[worktree][i].pty.Some? {
      ReferencedIffBlames(leases, target, Some(worktree), session.tabs[worktree][i].id, None, session.tabs[worktree][i].pty.value);
    }
  }

  /** It drops exactly the leaves' bindings that one may reference, the worktree being the
      first that lists the tab, and touches nothing else of any layout. */
  lemma ScrubbedLayouts(session: Session, leases: seq<Lease>, target: string, order: seq<WorktreeId>, tab: TabId)
    requires tab in session.layouts
    ensures var after, before := Scrub(session, leases, target, order).layouts, session.layouts[tab];
            && after.Keys == session.layouts.Keys && after[tab] == before.(ptys := after[tab].ptys)
            && (after[tab].ptys.Some? <==> before.ptys.Some?)
            && forall leaf, pty :: BoundAt(Entries(after[tab].ptys), leaf, pty) <==>
                 BoundAt(Entries(before.ptys), leaf, pty) && !Blames(leases, target, FirstListing(order, session.tabs, tab), tab, Some(leaf), pty)
  {
    hide Blames, Referenced, FirstListing, ScrubTabList;
    forall leaf, pty
      ensures LeafReferenced(leases, target, FirstListing(order, session.tabs, tab), tab, leaf, pty) <==>
              Blames(leases, target, FirstListing(order, session.tabs, tab), tab, Some(leaf), pty)
    {
      ReferencedIffBlames(leases, target, FirstListing(order, session.tabs, tab), tab, Some(leaf), pty);
    }
  }

  // ------------------------------------------------------------------ What marks do

  /** Marking a target's leases detached detaches exactly those that are attached; any
      other mark reaches all of them. Leases of other targets stay. */
  lemma MarkAllSettles(s: State, target: string, state: LeaseState, order: seq<WorktreeId>, i: nat)
    requires i < |s.leases|
    ensures var after, lease := After(s, MarkAll(target, state, order)).leases, s.leases[i];
            && |after| == |s.leases|
            && (lease.target != target ==> after[i] == lease)
            && (lease.target == target && state == Detached ==>
                  after[i] == if lease.state == Attached then lease.(state := Detached) else lease)
            && (lease.target == target && state != Detached ==> after[i] == lease.(state := state))
  {
  }

  /** Marking one lease reaches the one of that target and relay id, and no other. */
  lemma MarkOneSettles(s: State, target: string, pty: PtyId, state: LeaseState, order: seq<WorktreeId>, i: nat)
    requires i < |s.leases| && LeasesUnique(s.leases)
    ensures var after, lease := After(s, MarkOne(target, pty, state, order)).leases, s.leases[i];
            && |after| == |s.leases|
            && after[i] == if lease.target == target && Denotes(target, pty, lease.pty) then lease.(state := state) else lease
  {
  }

  /** A removal takes away, with no PTY, all the leases of the target, or else the one of
      that relay id. */
  predicate Goes(lease: Lease, target: string, pty: Option<PtyId>) {
    lease.target == target && (pty.None? || Denotes(target, pty.value, lease.pty))
  }

  lemma NamesIffGoes(lease: Lease, target: string, pty: Option<PtyId>)
    requires pty.None? || RelayOf(target, pty).Some?
    ensures Names(lease, target, RelayOf(target, pty)) <==> Goes(lease, target, pty)
  {
  }

  /** They go and no others. An id wrapped with another target changes nothing. */
  lemma RemoveSettles(s: State, target: string, pty: Option<PtyId>, order: seq<WorktreeId>, lease: Lease)
    ensures multiset(After(s, Remove(target, pty, order)).leases)[lease] == if Goes(lease, target, pty) then 0 else multiset(s.leases)[lease]
    ensures pty.Some? && pty.value.App? && pty.value.connection != target ==> After(s, Remove(target, pty, order)) == s
  {
    hide Names, WithoutLeases, Removed, ScrubFor;
    if pty.None? || RelayOf(target, pty).Some? {
      WithoutLeasesCounts(s.leases, target, RelayOf(target, pty), lease);
      NamesIffGoes(lease, target, pty);
    }
  }

  /** What the leases that go may reference is scrubbed. */
  lemma RemoveScrubs(s: State, target: string, pty: Option<PtyId>, order: seq<WorktreeId>) returns (gone: seq<Lease>)
    ensures forall lease :: lease in gone <==> lease in s.leases && Goes(lease, target, pty)
    ensures After(s, Remove(target, pty, order)).session ==
            if gone == [] || s.session.None? then s.session else Some(Scrub(s.session.value, gone, target, order))
  {
    hide Names, WithoutLeases, Scrub, Goes;
    gone := [];
    if pty.None? || RelayOf(target, pty).Some? {
      gone := Removed(s.leases, target, RelayOf(target, pty));
      forall lease
        ensures lease in gone <==> lease in s.leases && Goes(lease, target, pty)
      {
        NamesIffGoes(lease, target, pty);
      }
    } else {
      forall lease
        ensures !Goes(lease, target, pty)
      {
        NothingGoes(lease, target, pty);
      }
    }
  }

  lemma NothingGoes(lease: Lease, target: string, pty: Option<PtyId>)
    requires pty.Some? && RelayOf(target, pty).None?
    ensures !Goes(lease, target, pty)
  {
  }

  lemma {:induction false} WithoutLeasesCounts(leases: seq<Lease>, target: string, relay: Option<PtyId>, lease: Lease)
    ensures multiset(WithoutLeases(leases, target, relay))[lease] == if Names(lease, target, relay) then 0 else multiset(leases)[lease]
  {
    if leases != [] {
      WithoutLeasesCounts(leases[1..], target, relay, lease);
      assert leases == [leases[0]] + leases[1..];
    }
  }

  /** No mark but the two that end a lease touches the session, and they touch only tabs'
      and leaves' bindings. */
  lemma LiveMarksKeepSession(s: State, target: string, pty: PtyId, state: LeaseState, order: seq<WorktreeId>)
    requires state == Attached || state == Detached
    ensures After(s, MarkAll(target, state, order)).session == s.session
    ensures After(s, MarkOne(target, pty, state, order)).session == s.session
  {
  }

  // ------------------------------------------------------------ Dead leases stay dead

  ghost predicate InState(leases: seq<Lease>, target: string, relay: PtyId, state: LeaseState) {
    forall i :: 0 <= i < |leases| && leases[i].target == target && leases[i].pty == relay ==> leases[i].state == state
  }

  ghost predicate Present(leases: seq<Lease>, target: string, relay: PtyId) {
    exists i :: 0 <= i < |leases| && leases[i].target == target && leases[i].pty == relay
  }

  /** The operation names the lease and gives it another state. */
  predicate Renews(op: Operation, target: string, relay: PtyId, state: LeaseState) {
    match op
    case Upsert(lease) => lease.target == target && Denotes(target, lease.pty, relay) && lease.state != state
    case MarkAll(t, st, _) => t == target && st != state && st != Detached
    case MarkOne(t, pty, st, _) => t == target && Denotes(t, pty, relay) && st != state
    case _ => false
  }

  lemma UpsertedAt(leases: seq<Lease>, lease: Lease, i: nat)
    requires i < |UpsertLease(leases, lease)|
    ensures var stored := UpsertLease(leases, lease)[i];
            if Denotes(lease.target, lease.pty, stored.pty) && stored.target == lease.target
            then stored.state == lease.state || (i < |leases| && stored == leases[i])
            else i < |leases| && stored == leases[i]
  {
  }

  lemma UpsertKeepsState(leases: seq<Lease>, lease: Lease, target: string, relay: PtyId, state: LeaseState)
    requires InState(leases, target, relay, state)
    requires lease.target == target && Denotes(target, lease.pty, relay) ==> lease.state == state
    ensures InState(UpsertLease(leases, lease), target, relay, state)
  {
    hide UpsertLease, ToRelay;
    forall i | 0 <= i < |UpsertLease(leases, lease)|
      ensures var stored := UpsertLease(leases, lease)[i]; stored.target == target && stored.pty == relay ==> stored.state == state
    {
      UpsertedAt(leases, lease, i);
    }
  }

  lemma UpsertRenews(leases: seq<Lease>, lease: Lease, relay: PtyId, state: LeaseState)
    requires Denotes(lease.target, lease.pty, relay) && lease.state != state
    ensures !InState(UpsertLease(leases, lease), lease.target, relay, state)
  {
    var after := UpsertLease(leases, lease);
    var at := FindLease(leases, lease.target, relay);
    var i := if at.None? then |leases| else at.value;
    assert after[i].target == lease.target && after[i].pty == relay && after[i].state == lease.state;
  }

  lemma WithoutLeasesKeepsState(leases: seq<Lease>, target: string, pty: Option<PtyId>, t: string, relay: PtyId, state: LeaseState)
    requires InState(leases, t, relay, state)
    ensures InState(WithoutLeases(leases, target, pty), t, relay, state)
  {
    var kept := WithoutLeases(leases, target, pty);
    assert forall i :: 0 <= i < |kept| ==> kept[i] in leases;
  }

  /** An operation leaves a dead lease dead, in its state, or removes it, unless it names
      it and gives it another state. */
  lemma OperationKeepsDead(s: State, op: Operation, target: string, relay: PtyId, state: LeaseState)
    requires state == Terminated || state == Expired
    requires InState(s.leases, target, relay, state) && !Renews(op, target, relay, state)
    ensures InState(After(s, op).leases, target, relay, state)
  {
    hide UpsertLease, WithoutLeases, Scrub, MergeSession, Bind, ScrubFor, FindLease;
    match op
    case Upsert(lease) => UpsertKeepsState(s.leases, lease, target, relay, state);
    case Remove(t, only, _) => WithoutLeasesKeepsState(s.leases, t, RelayOf(t, only), target, relay, state);
    case _ =>
  }

  /** ... and in that case does not, if the lease is there or the operation brings it. */
  lemma RenewingRenews(s: State, op: Operation, target: string, relay: PtyId, state: LeaseState)
    requires Renews(op, target, relay, state) && (op.Upsert? || Present(s.leases, target, relay))
    ensures !InState(After(s, op).leases, target, relay, state)
  {
    match op
    case Upsert(lease) => UpsertRenews(s.leases, lease, relay, state);
    case MarkAll(_, st, order) =>
      var i :| 0 <= i < |s.leases| && s.leases[i].target == target && s.leases[i].pty == relay;
      MarkAllSettles(s, target, st, order, i);
    case MarkOne(_, pty, st, _) =>
      var at := Addressed(s.leases, target, pty).value;
      assert After(s, op).leases[at].state == st;
  }

  /** Over every run, then: a lease that is terminated or expired stays so or is removed,
      until an operation names it and gives it another state. A relay's detaching does
      not. */
  lemma {:induction false} DeadLeaseStaysDead(s: State, ops: seq<Operation>, target: string, relay: PtyId, state: LeaseState)
    requires state == Terminated || state == Expired
    requires InState(s.leases, target, relay, state) && forall k :: 0 <= k < |ops| ==> !Renews(ops[k], target, relay, state)
    ensures InState(AfterAll(s, ops).leases, target, relay, state)
    decreases |ops|
  {
    hide After, Renews, InState;
    if ops != [] {
      OperationKeepsDead(s, ops[0], target, relay, state);
      DeadLeaseStaysDead(After(s, ops[0]), ops[1..], target, relay, state);
    }
  }

  /** A lease that an upsert finds keeps every context that the upsert leaves out, and
      takes every one that it gives, but for a legacy leaf id. */
  lemma UpsertKeepsContexts(s: State, lease: Lease, i: nat)
    requires i < |s.leases| && LeasesUnique(s.leases)
    requires s.leases[i].target == lease.target && Denotes(lease.target, lease.pty, s.leases[i].pty)
    ensures var after, before := After(s, Upsert(lease)).leases, s.leases[i];
            && |after| == |s.leases| && after[i].target == before.target && after[i].pty == before.pty && after[i].state == lease.state
            && after[i].worktree == (if lease.worktree.Some? then lease.worktree else before.worktree)
            && after[i].tab == (if lease.tab.Some? then lease.tab else before.tab)
            && after[i].leaf == (if lease.leaf.Some? && lease.leaf.value.Stable? then lease.leaf else before.leaf)
  {
  }

  /** A lease that it does not find is appended, its PTY made local to the target. */
  lemma UpsertAppends(s: State, lease: Lease, relay: PtyId)
    requires Denotes(lease.target, lease.pty, relay) && !Present(s.leases, lease.target, relay)
    ensures After(s, Upsert(lease)).leases ==
            s.leases + [Lease(lease.target, relay, lease.worktree, lease.tab,
                              if lease.leaf.Some? && lease.leaf.value.Stable? then lease.leaf else None, lease.state)]
  {
  }

  // ---------------------------------------------------------- Through the normaliser

  /** The lease's leaf is the one of that name at `i`, which has a name of its own. */
  predicate StandsAt(ids: seq<LeafId>, leaf: LeafId, i: nat) {
    i < |ids| && ids[i] == leaf && Unique(ids, i)
  }

  /** The id of a uniquely named leaf is mapped to the leaf at its position, and no other id is mapped. */
  lemma MappedByPosition(layout: Layout, preferred: Option<Layout>, next: nat, leaf: LeafId)
    ensures var n := Normalize(layout, preferred, next);
            var ids, out := InputIds(layout, preferred), LayoutLeafIds(n.snapshot.root);
            && |out| == |ids|
            && (forall i: nat :: StandsAt(ids, leaf, i) ==> leaf in n.leafMap && n.leafMap[leaf] == out[i] && out[i].Stable?)
            && ((forall i: nat :: !StandsAt(ids, leaf, i)) ==> leaf !in n.leafMap)
  {
    var input := ResolveRoot(layout, preferred);
    if input.root.Some? {
      RootedPass(layout, input, PreferredLeafIds(preferred), layout.root.None?, next);
      NormalizeRenamesTree(layout, preferred, next);
      var n := Normalize(layout, preferred, next);
      MapFollows(InputIds(layout, preferred), LayoutLeafIds(n.snapshot.root), n.leafMap, leaf);
    }
  }

  lemma MapFollows(ids: seq<LeafId>, out: seq<LeafId>, leafMap: map<LeafId, LeafId>, leaf: LeafId)
    requires FollowsMap(ids, out, leafMap)
    ensures forall i: nat :: StandsAt(ids, leaf, i) ==> leaf in leafMap && leafMap[leaf] == out[i]
    ensures (forall i: nat :: !StandsAt(ids, leaf, i)) ==> leaf !in leafMap
  {
    forall i: nat | StandsAt(ids, leaf, i)
      ensures leaf in leafMap && leafMap[leaf] == out[i]
    {
      assert FollowsAt(ids, out[i], leafMap, i);
    }
    if leaf in leafMap {
      var i := CarriedIsUnique(ids, out, leafMap, leaf);
      assert StandsAt(ids, leaf, i);
    }
  }

  lemma PassedMap(s: State, w: Write, tab: TabId, leaf: LeafId)
    requires ValidWrite(w) && tab in w.incoming.layouts
    ensures tab in PassOf(s, w).leafMaps && tab in PassOf(s, w).layouts
    ensures var ids, out := InputIds(Incoming(w, tab), Preferred(s, tab)), LayoutLeafIds(Passed(s, w, tab).root);
            var mapped := Lookup(PassOf(s, w).leafMaps, tab, leaf);
            && |out| == |ids|
            && (forall i: nat :: StandsAt(ids, leaf, i) ==> mapped == Some(out[i]) && out[i].Stable?)
            && ((forall i: nat :: !StandsAt(ids, leaf, i)) ==> mapped.None?)
  {
    hide StandsAt, Normalize, NormalizeSession, InputIds;
    var seed := SessionPassOfTab(w.tabOrder, w.incoming.layouts, PriorLayouts(s.session), w.next, tab);
    MappedByPosition(w.incoming.layouts[tab], Preferred(s, tab), seed, leaf);
  }

  lemma UnlistedMap(s: State, w: Write, tab: TabId, leaf: LeafId, pty: PtyId)
    requires ValidWrite(w) && tab !in w.incoming.layouts
    ensures Lookup(PassOf(s, w).leafMaps, tab, leaf).None? && Lookup(PtyIndexes(PassOf(s, w).layouts), tab, pty).None?
  {
    SessionPassByTab(w.tabOrder, w.incoming.layouts, PriorLayouts(s.session), w.next);
  }

  /** Every write, every lease: nothing but its leaf id changes, and that only when it is a
      legacy one. Then it becomes, if the id is the one name of a leaf of the lease's
      tab, the leaf in that place; otherwise the one leaf that the lease's PTY is bound
      to in the tab; otherwise none. */
  lemma LeaseFollowsLeaf(s: State, w: Write, i: nat)
    requires ValidWrite(w) && i < |s.leases|
    ensures |AfterWrite(s, w).leases| == |s.leases|
    ensures var before, after := s.leases[i], AfterWrite(s, w).leases[i];
            && after == before.(leaf := after.leaf)
            && (before.leaf.None? || before.leaf.value.Stable? ==> after.leaf == before.leaf)
    ensures var before, after := s.leases[i], AfterWrite(s, w).leases[i];
            before.leaf.Some? && !before.leaf.value.Stable? && !(before.tab.Some? && before.tab.value != "" && before.tab.value in w.incoming.layouts) ==> after.leaf.None?
    ensures var before, after := s.leases[i], AfterWrite(s, w).leases[i];
            before.leaf.Some? && !before.leaf.value.Stable? && before.tab.Some? && before.tab.value != "" && before.tab.value in w.incoming.layouts ==>
              var tab := before.tab.value;
              var ids, out := InputIds(Incoming(w, tab), Preferred(s, tab)), LayoutLeafIds(Passed(s, w, tab).root);
              var bindings := Entries(Passed(s, w, tab).ptys);
              && |out| == |ids|
              && (forall k: nat :: StandsAt(ids, before.leaf.value, k) ==> after.leaf == Some(out[k]))
              && ((forall k: nat :: !StandsAt(ids, before.leaf.value, k)) ==>
                    && (forall l :: BoundOnlyAt(bindings, l, before.pty) && l != Legacy("") ==> after.leaf == Some(l))
                    && ((forall l :: !BoundOnlyAt(bindings, l, before.pty)) ==> after.leaf.None?))
  {
    hide StandsAt, NormalizeSession, InputIds, MergeSession, BoundOnlyAt, PtyIndex;
    var lease := s.leases[i];
    if lease.leaf.Some? && !lease.leaf.value.Stable? && NamesTab(lease) {
      var tab := lease.tab.value;
      if tab in w.incoming.layouts {
        PassedMap(s, w, tab, lease.leaf.value);
        IndexedLeaf(Entries(Passed(s, w, tab).ptys), lease.pty);
      } else {
        UnlistedMap(s, w, tab, lease.leaf.value, lease.pty);
      }
    }
  }

  lemma IndexedLeaf(bindings: map<LeafId, PtyId>, pty: PtyId)
    ensures forall l :: BoundOnlyAt(bindings, l, pty) ==> pty in PtyIndex(bindings) && PtyIndex(bindings)[pty] == l
    ensures (forall l :: !BoundOnlyAt(bindings, l, pty)) ==> pty !in PtyIndex(bindings)
  {
    forall l | BoundOnlyAt(bindings, l, pty)
      ensures pty in PtyIndex(bindings) && PtyIndex(bindings)[pty] == l
    {
      PtyIndexIsExact(bindings, pty, l);
    }
    if pty in PtyIndex(bindings) {
      PtyIndexIsExact(bindings, pty, PtyIndex(bindings)[pty]);
    }
  }

  /** The key of an acknowledgement moves just when its leaf part is the one, legacy, name
      of a leaf of its tab, and then to the leaf in that place. */
  lemma PaneKeyFollowsLeaf(s: State, w: Write, key: PaneKey)
    requires ValidWrite(w)
    ensures key.Unsplit? || key.tab == "" || key.leaf.Stable? || key.leaf == Legacy("") || key.tab !in w.incoming.layouts ==>
              RemapPaneKey(key, PassOf(s, w).leafMaps) == key
    ensures key.Pane? && key.tab != "" && !key.leaf.Stable? && key.leaf != Legacy("") && key.tab in w.incoming.layouts ==>
              var ids, out := InputIds(Incoming(w, key.tab), Preferred(s, key.tab)), LayoutLeafIds(Passed(s, w, key.tab).root);
              && |out| == |ids|
              && (forall i: nat :: StandsAt(ids, key.leaf, i) ==> RemapPaneKey(key, PassOf(s, w).leafMaps) == Pane(key.tab, out[i]))
              && ((forall i: nat :: !StandsAt(ids, key.leaf, i)) ==> RemapPaneKey(key, PassOf(s, w).leafMaps) == key)
  {
    hide StandsAt, NormalizeSession, InputIds;
    if key.Pane? && key.tab != "" {
      if key.tab in w.incoming.layouts {
        PassedMap(s, w, key.tab, key.leaf);
      } else {
        UnlistedMap(s, w, key.tab, key.leaf, Raw(""));
      }
    }
  }
}
