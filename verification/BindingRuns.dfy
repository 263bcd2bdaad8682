/**
  The operations that write bindings and leases, and what every sequence of them
  keeps: one lease for each target and relay id, a binding none of them displaces,
  and the absence of one that went with its lease.
 */
module BindingRuns {
  import opened Wrappers
  import opened PtyIds
  import opened PaneLayout
  import opened LayoutNormalizer
  import opened SessionNormalizer
  import opened PtyBindings
  import opened WriteRule
  import Migration = IdentityMigration

  // ------------------------------------------------------- Lease operations

  function FindLease(leases: seq<Lease>, target: string, pty: PtyId): (r: Option<nat>)
    ensures r.Some? ==> r.value < |leases| && leases[r.value].target == target && leases[r.value].pty == pty
    ensures r.None? ==> forall i :: 0 <= i < |leases| ==> leases[i].target != target || leases[i].pty != pty
  {
    if leases == [] then None
    else if leases[0].target == target && leases[0].pty == pty then Some(0)
    else
      var rest := FindLease(leases[1..], target, pty);
      if rest.None? then None else Some(rest.value + 1)
  }

  function OrElse<T>(a: Option<T>, b: Option<T>): Option<T> {
    if a.Some? then a else b
  }

  /** A field the caller leaves out keeps the value of the existing lease. */
  function UpsertLease(leases: seq<Lease>, lease: Lease): seq<Lease> {
    var relay := ToRelay(lease.target, lease.pty);
    if relay.None? then leases
    else
      var leaf := if lease.leaf.Some? && !lease.leaf.value.Stable? then None else lease.leaf;
      var stored := lease.(leaf := leaf, pty := relay.value);
      var at := FindLease(leases, lease.target, relay.value);
      if at.None? then leases + [stored]
      else
        var existing := leases[at.value];
        leases[at.value := stored.(worktree := OrElse(stored.worktree, existing.worktree),
                                   tab := OrElse(stored.tab, existing.tab),
                                   leaf := OrElse(stored.leaf, existing.leaf))]
  }

  /** After an upsert there is the one lease of its target and relay id, in the given
      state and with no legacy leaf id unless it already had one; the leases of other
      ids are what they were. A foreign id changes nothing. */
  lemma UpsertSettlesLease(leases: seq<Lease>, lease: Lease)
    requires LeasesUnique(leases)
    ensures var after := UpsertLease(leases, lease);
            var relay := ToRelay(lease.target, lease.pty);
            if relay.None? then after == leases
            else
              && (exists stored: Lease :: stored in after && stored.target == lease.target && stored.pty == relay.value)
              && (forall stored: Lease :: stored in after && stored.target == lease.target && stored.pty == relay.value ==>
                    stored.state == lease.state && (stored.leaf.Some? && !stored.leaf.value.Stable? ==>
                      exists before: Lease :: before in leases && before.pty == relay.value && before.leaf == stored.leaf))
              && (forall other: Lease :: other.target != lease.target || other.pty != relay.value ==> (other in after <==> other in leases))
  {
    var after := UpsertLease(leases, lease);
    var relay := ToRelay(lease.target, lease.pty);
    if relay.Some? {
      var at := FindLease(leases, lease.target, relay.value);
      if at.Some? {
        assert after[at.value] in after && leases[at.value] in leases;
        forall other: Lease | other.target != lease.target || other.pty != relay.value
          ensures other in after <==> other in leases
        {
          if other in leases {
            var i :| 0 <= i < |leases| && leases[i] == other;
            assert after[i] == other;
          }
        }
      } else {
        assert after[|leases|] in after;
      }
    }
  }

  predicate Names(lease: Lease, target: string, pty: Option<PtyId>) {
    lease.target == target && (pty.None? || lease.pty == pty.value)
  }

  function WithoutLeases(leases: seq<Lease>, target: string, pty: Option<PtyId>): (r: seq<Lease>)
    ensures forall lease :: lease in r <==> lease in leases && !Names(lease, target, pty)
  {
    if leases == [] then []
    else
      var rest := WithoutLeases(leases[1..], target, pty);
      if Names(leases[0], target, pty) then rest else [leases[0]] + rest
  }

  function Removed(leases: seq<Lease>, target: string, pty: Option<PtyId>): (r: seq<Lease>)
    ensures forall lease :: lease in r <==> lease in leases && Names(lease, target, pty)
  {
    if leases == [] then []
    else
      var rest := Removed(leases[1..], target, pty);
      if Names(leases[0], target, pty) then [leases[0]] + rest else rest
  }

  lemma {:induction false} RemovalSplits(leases: seq<Lease>, target: string, pty: Option<PtyId>)
    ensures |WithoutLeases(leases, target, pty)| + |Removed(leases, target, pty)| == |leases|
  {
    if leases != [] {
      RemovalSplits(leases[1..], target, pty);
    }
  }

  lemma {:induction false} RemovingNothing(leases: seq<Lease>, target: string, pty: Option<PtyId>)
    requires Removed(leases, target, pty) == []
    ensures WithoutLeases(leases, target, pty) == leases
  {
    if leases != [] {
      assert !Names(leases[0], target, pty);
      RemovingNothing(leases[1..], target, pty);
    }
  }

  lemma SameLengthRemovesNothing(leases: seq<Lease>, target: string, pty: Option<PtyId>)
    ensures var kept := WithoutLeases(leases, target, pty);
            |kept| <= |leases| && (|kept| == |leases| <==> kept == leases) && (kept == leases <==> Removed(leases, target, pty) == [])
  {
    hide WithoutLeases, Removed;
    RemovalSplits(leases, target, pty);
    if Removed(leases, target, pty) == [] {
      RemovingNothing(leases, target, pty);
    }
  }

  /** `clearSshRemotePtyBindingsForLeases` returns at once when there is no lease. */
  function ScrubFor(s: State, leases: seq<Lease>, target: string, order: seq<WorktreeId>): Option<Session> {
    if leases == [] || s.session.None? then s.session else Some(Scrub(s.session.value, leases, target, order))
  }

  /** Where the lease that the target and PTY address stands. */
  function Addressed(leases: seq<Lease>, target: string, pty: PtyId): (r: Option<nat>)
    ensures r.Some? ==> r.value < |leases| && leases[r.value].target == target
  {
    var relay := ToRelay(target, pty);
    if relay.None? then None else FindLease(leases, target, relay.value)
  }

  /** `markSshRemotePtyLease`. */
  function AfterMarkOne(s: State, target: string, pty: PtyId, state: LeaseState, order: seq<WorktreeId>): State {
    var at := Addressed(s.leases, target, pty);
    if at.None? then s
    else
      var marked := s.leases[at.value].(state := state);
      s.(leases := s.leases[at.value := marked],
         session := if IsDead(state) then ScrubFor(s, [marked], target, order) else s.session)
  }

  /** `removeSshRemotePtyLease` and, with no PTY, `removeSshRemotePtyLeases`. */
  function AfterRemove(s: State, target: string, pty: Option<PtyId>, order: seq<WorktreeId>): State {
    var relay := RelayOf(target, pty);
    if pty.Some? && relay.None? then s
    else s.(leases := WithoutLeases(s.leases, target, relay), session := ScrubFor(s, Removed(s.leases, target, relay), target, order))
  }

  function RelayOf(target: string, pty: Option<PtyId>): Option<PtyId> {
    if pty.None? then None else ToRelay(target, pty.value)
  }

  // ------------------------------------------------------ Worktrees come and go

  function WorkspaceKey(worktree: WorktreeId): WorktreeId {
    "worktree:" + worktree
  }

  function TabsOf(session: Session, owner: WorktreeId): seq<Tab> {
    if owner in session.tabs then session.tabs[owner] else []
  }

  /** `removeWorkspaceSessionOwner`: the owner's tabs go, and with each the layout of its id. */
  function WithoutOwner(session: Session, owner: WorktreeId): Session {
    Session(session.tabs - {owner}, session.layouts - set tab | tab in TabsOf(session, owner) :: tab.id)
  }

  function Moved(tabs: map<WorktreeId, seq<Tab>>, from: WorktreeId, to: WorktreeId): map<WorktreeId, seq<Tab>> {
    Migration.MoveKey(tabs, from, to, Migration.Same)
  }

  /** What `migrateWorktreeIdentity` does to the tabs: they move under the new id, and
      from the old workspace key to the new one. */
  function Rekeyed(session: Session, from: WorktreeId, to: WorktreeId): Session {
    if from == to then session
    else session.(tabs := Moved(Moved(session.tabs, from, to), WorkspaceKey(from), WorkspaceKey(to)))
  }

  /** Whose tabs stand under `worktree` after the move. */
  function MovedFrom(tabs: map<WorktreeId, seq<Tab>>, from: WorktreeId, to: WorktreeId, worktree: WorktreeId): Option<WorktreeId> {
    if from !in tabs then Some(worktree)
    else if worktree == from then None
    else if worktree == to then Some(from)
    else Some(worktree)
  }

  /** ... and after the re-keying. */
  function RekeyedFrom(session: Session, from: WorktreeId, to: WorktreeId, worktree: WorktreeId): Option<WorktreeId> {
    if from == to then Some(worktree)
    else
      var between := MovedFrom(Moved(session.tabs, from, to), WorkspaceKey(from), WorkspaceKey(to), worktree);
      if between.None? then None else MovedFrom(session.tabs, from, to, between.value)
  }

  // ---------------------------------------------------------- Operation runs

  datatype Operation =
    | SetSession(w: Write)
    | Spawn(args: SpawnArgs, flushed: bool)
    | Upsert(lease: Lease)
    | MarkAll(target: string, state: LeaseState, order: seq<WorktreeId>)
    | MarkOne(target: string, pty: PtyId, state: LeaseState, order: seq<WorktreeId>)
    | Remove(target: string, only: Option<PtyId>, order: seq<WorktreeId>)
    | SetConnections(connections: map<WorktreeId, string>)   // the repositories change
    | RemoveOwner(owner: WorktreeId)
    | Rekey(from: WorktreeId, to: WorktreeId)

  ghost function After(s: State, op: Operation): State {
    match op
    case SetSession(w) => AfterWrite(s, w)
    case Spawn(args, flushed) =>
      if flushed && s.session.Some? then s.(session := Some(Bind(s.session.value, args))) else s
    case Upsert(lease) => s.(leases := UpsertLease(s.leases, lease))
    case MarkAll(target, state, order) => AfterMark(s, target, state, order)
    case MarkOne(target, pty, state, order) => AfterMarkOne(s, target, pty, state, order)
    case Remove(target, only, order) => AfterRemove(s, target, only, order)
    case SetConnections(connections) => s.(connections := connections)
    case RemoveOwner(owner) => if s.session.None? then s else s.(session := Some(WithoutOwner(s.session.value, owner)))
    case Rekey(from, to) => if s.session.None? then s else s.(session := Some(Rekeyed(s.session.value, from, to)))
  }

  ghost function AfterAll(s: State, ops: seq<Operation>): State
    decreases |ops|
  {
    if ops == [] then s else AfterAll(After(s, ops[0]), ops[1..])
  }

  lemma UniqueCons(first: Lease, rest: seq<Lease>)
    requires LeasesUnique(rest)
    requires forall lease :: lease in rest ==> lease.target != first.target || lease.pty != first.pty
    ensures LeasesUnique([first] + rest)
  {
  }

  lemma {:induction false} WithoutLeasesKeepsUnique(leases: seq<Lease>, target: string, pty: Option<PtyId>)
    requires LeasesUnique(leases)
    ensures LeasesUnique(WithoutLeases(leases, target, pty))
  {
    if leases != [] {
      var rest := WithoutLeases(leases[1..], target, pty);
      WithoutLeasesKeepsUnique(leases[1..], target, pty);
      forall lease | lease in rest
        ensures lease.target != leases[0].target || lease.pty != leases[0].pty
      {
        var i :| 0 <= i < |leases[1..]| && leases[1..][i] == lease;
        assert leases[i + 1] == lease;
      }
      UniqueCons(leases[0], rest);
    }
  }

  /** Same targets and relay ids, position by position. */
  ghost predicate SameKeys(a: seq<Lease>, b: seq<Lease>) {
    |a| == |b| && forall i :: 0 <= i < |a| ==> a[i].target == b[i].target && a[i].pty == b[i].pty
  }

  lemma SameKeysKeepUnique(a: seq<Lease>, b: seq<Lease>)
    requires LeasesUnique(a) && SameKeys(a, b)
    ensures LeasesUnique(b)
  {
  }

  lemma UpsertKeepsUnique(leases: seq<Lease>, lease: Lease)
    requires LeasesUnique(leases)
    ensures LeasesUnique(UpsertLease(leases, lease))
  {
    var relay := ToRelay(lease.target, lease.pty);
    if relay.Some? && FindLease(leases, lease.target, relay.value).Some? {
      SameKeysKeepUnique(leases, UpsertLease(leases, lease));
    }
  }

  lemma OperationKeepsLeasesUnique(s: State, op: Operation)
    requires LeasesUnique(s.leases)
    ensures LeasesUnique(After(s, op).leases)
  {
    hide LeasesUnique, UpsertLease, WithoutLeases, Scrub;
    match op
    case SetSession(w) => SameKeysKeepUnique(s.leases, RemappedLeases(s, w));
    case Spawn(_, _) =>
    case Upsert(lease) => UpsertKeepsUnique(s.leases, lease);
    case MarkAll(target, state, _) => SameKeysKeepUnique(s.leases, MarkLeases(s.leases, target, state));
    case MarkOne(_, _, _, _) => SameKeysKeepUnique(s.leases, After(s, op).leases);
    case Remove(target, only, _) => WithoutLeasesKeepsUnique(s.leases, target, RelayOf(target, only));
    case SetConnections(_) =>
    case RemoveOwner(_) =>
    case Rekey(_, _) =>
  }

  /** Whatever the program does, no two leases share a target and relay id. */
  lemma {:induction false} LeasesStayUnique(s: State, ops: seq<Operation>)
    requires LeasesUnique(s.leases)
    ensures LeasesUnique(AfterAll(s, ops).leases)
    decreases |ops|
  {
    if ops != [] {
      OperationKeepsLeasesUnique(s, ops[0]);
      LeasesStayUnique(After(s, ops[0]), ops[1..]);
    }
  }

  lemma OperationKeepsSettled(s: State, op: Operation)
    requires LeasesSettled(s.leases)
    ensures LeasesSettled(After(s, op).leases)
  {
    hide Scrub;
    match op
    case SetSession(w) => SettledLeasesStay(s, w);
    case Remove(target, only, _) => WithoutLeasesKeepsSettled(s.leases, target, RelayOf(target, only));
    case _ =>
  }

  lemma WithoutLeasesKeepsSettled(leases: seq<Lease>, target: string, pty: Option<PtyId>)
    requires LeasesSettled(leases)
    ensures LeasesSettled(WithoutLeases(leases, target, pty))
  {
    var kept := WithoutLeases(leases, target, pty);
    assert forall i :: 0 <= i < |kept| ==> kept[i] in leases;
  }

  /** Leases without legacy leaf ids stay so: every later write tests bindings against
      the leases as the store has them. */
  lemma {:induction false} LeasesStaySettled(s: State, ops: seq<Operation>, w: Write)
    requires LeasesSettled(s.leases)
    ensures LeasesSettled(AfterAll(s, ops).leases) && TestedLeases(AfterAll(s, ops), w) == AfterAll(s, ops).leases
    decreases |ops|
  {
    if ops != [] {
      OperationKeepsSettled(s, ops[0]);
      LeasesStaySettled(After(s, ops[0]), ops[1..], w);
    }
  }

  /** So, whatever has happened since the leases were first unique, a leaf's binding that
      a write with a known target brings back is matched by no dead lease. */
  lemma ReachableWritesRestoreNoDeadBinding(start: State, ops: seq<Operation>, w: Write, tab: TabId, leaf: LeafId, pty: PtyId)
    requires LeasesUnique(start.leases) && ValidWrite(w)
    requires var s := AfterAll(start, ops);
             && s.session.Some? && LeafBound(AfterWrite(s, w).session.value, tab, leaf, pty) && !IncomingAt(s, w, tab, leaf)
             && (IncomingAnywhere(s, w, tab) ==> Tested(s, w, tab, leaf, pty).target.Some?)
    ensures var s := AfterAll(start, ops); IsRestorable(AfterWrite(s, w).leases, Tested(s, w, tab, leaf, pty))
  {
    hide LeasesUnique, LeafBound, IncomingAt, IncomingAnywhere, IsRestorable, Tested, MergeSession;
    var s := AfterAll(start, ops);
    LeasesStayUnique(start, ops);
    SameKeysKeepUnique(s.leases, RemappedLeases(s, w));
    ReturnedBindingHasNoDeadLease(s, w, tab, leaf, pty);
  }

  // ------------------------------------ Live bindings, through all operations

  /** Scrubbing for these leases removes the tab's binding or the leaf's. */
  ghost predicate Scrubs(session: Session, leases: seq<Lease>, target: string, order: seq<WorktreeId>, args: SpawnArgs) {
    || Referenced(leases, ScrubBinding(target, Some(args.worktree), args.tab, None, args.pty))
    || LeafReferenced(leases, target, FirstListing(order, session.tabs, args.tab), args.tab, args.leaf, args.pty)
  }

  /** The operation takes the binding away. */
  ghost predicate Displaces(s: State, op: Operation, args: SpawnArgs)
    requires s.session.Some?
  {
    match op
    case SetSession(w) =>
      !TabKept(s, w, args.worktree, args.tab, args.pty) || !LeafKept(s, w, args.tab, args.leaf, args.pty)
    case Spawn(other, flushed) =>
      flushed && other.tab == args.tab && other.pty != args.pty &&
      (other.worktree == args.worktree || other.leaf == args.leaf)
    case Upsert(_) => false
    case MarkAll(target, state, order) =>
      IsDead(state) && Scrubs(s.session.value, OfTarget(MarkLeases(s.leases, target, state), target), target, order, args)
    case MarkOne(target, pty, state, order) =>
      var at := Addressed(s.leases, target, pty);
      IsDead(state) && at.Some? && Scrubs(s.session.value, [s.leases[at.value].(state := state)], target, order, args)
    case Remove(target, only, order) =>
      (only.None? || RelayOf(target, only).Some?) &&
      Scrubs(s.session.value, Removed(s.leases, target, RelayOf(target, only)), target, order, args)
    case SetConnections(_) => false
    case RemoveOwner(owner) => exists tab :: tab in TabsOf(s.session.value, owner) && tab.id == args.tab
    case Rekey(from, to) =>
      var source := RekeyedFrom(s.session.value, from, to, args.worktree);
      source.None? || !TabBound(s.session.value, source.value, args.tab, args.pty)
  }

  /** A session write draws no id already in use, and does not itself bind the leaf
      twice over. */
  ghost predicate Sound(s: State, op: Operation, args: SpawnArgs) {
    op.SetSession? ==> ValidWrite(op.w) && Known(args.leaf, op.w.next) && Uncontested(s, op.w, args.tab, args.leaf)
  }

  lemma {:induction false} FindScrubbedTab(leases: seq<Lease>, target: string, worktree: WorktreeId, tabs: seq<Tab>, id: TabId)
    ensures var scrubbed := ScrubTabList(leases, target, worktree, tabs);
            FindTab(scrubbed, id) ==
            if FindTab(tabs, id).None? then None
            else
              var tab := FindTab(tabs, id).value;
              Some(if TabReferenced(leases, target, worktree, tab) then tab.(pty := None) else tab)
  {
    var scrubbed := ScrubTabList(leases, target, worktree, tabs);
    if tabs != [] && tabs[0].id != id {
      FindScrubbedTab(leases, target, worktree, tabs[1..], id);
      assert scrubbed[1..] == ScrubTabList(leases, target, worktree, tabs[1..]);
    }
  }

  lemma ScrubKeepsBoundIff(session: Session, leases: seq<Lease>, target: string, order: seq<WorktreeId>, args: SpawnArgs)
    requires Bound(session, args) && Truthy(Some(args.pty))
    ensures Bound(Scrub(session, leases, target, order), args) <==> !Scrubs(session, leases, target, order, args)
  {
    FindScrubbedTab(leases, target, args.worktree, session.tabs[args.worktree], args.tab);
    FoundTabHasId(session.tabs[args.worktree], args.tab);
  }

  lemma ScrubForKeepsBoundIff(s: State, leases: seq<Lease>, target: string, order: seq<WorktreeId>, args: SpawnArgs)
    requires s.session.Some? && Bound(s.session.value, args) && Truthy(Some(args.pty))
    ensures var after := ScrubFor(s, leases, target, order);
            after.Some? && (Bound(after.value, args) <==> !Scrubs(s.session.value, leases, target, order, args))
  {
    if leases != [] {
      ScrubKeepsBoundIff(s.session.value, leases, target, order, args);
    }
  }

  lemma SpawnKeepsBoundIff(session: Session, other: SpawnArgs, args: SpawnArgs)
    requires Bound(session, args) && args.leaf.Stable?
    ensures Bound(Bind(session, other), args) <==>
            !(other.tab == args.tab && other.pty != args.pty && (other.worktree == args.worktree || other.leaf == args.leaf))
  {
    BindTabFinds(if other.worktree in session.tabs then session.tabs[other.worktree] else [], other.tab, other.pty);
  }

  lemma RemovalKeepsBoundIff(session: Session, owner: WorktreeId, args: SpawnArgs)
    requires Bound(session, args)
    ensures Bound(WithoutOwner(session, owner), args) <==> !exists tab :: tab in TabsOf(session, owner) && tab.id == args.tab
  {
    FoundTabHasId(session.tabs[args.worktree], args.tab);
  }

  lemma MoveKeepsBoundIff(session: Session, from: WorktreeId, to: WorktreeId, worktree: WorktreeId, tab: TabId, pty: PtyId)
    requires from != to
    ensures var source := MovedFrom(session.tabs, from, to, worktree);
            TabBound(session.(tabs := Moved(session.tabs, from, to)), worktree, tab, pty) <==>
            source.Some? && TabBound(session, source.value, tab, pty)
  {
  }

  lemma RekeyKeepsBoundIff(session: Session, from: WorktreeId, to: WorktreeId, args: SpawnArgs)
    requires Bound(session, args)
    ensures var source := RekeyedFrom(session, from, to, args.worktree);
            Bound(Rekeyed(session, from, to), args) <==> source.Some? && TabBound(session, source.value, args.tab, args.pty)
  {
    hide TabBound, Moved, MovedFrom;
    if from != to {
      var between := session.(tabs := Moved(session.tabs, from, to));
      KeysDiffer(from, to);
      MoveKeepsBoundIff(between, WorkspaceKey(from), WorkspaceKey(to), args.worktree, args.tab, args.pty);
      var source := MovedFrom(between.tabs, WorkspaceKey(from), WorkspaceKey(to), args.worktree);
      if source.Some? {
        MoveKeepsBoundIff(session, from, to, source.value, args.tab, args.pty);
      }
    }
  }

  lemma KeysDiffer(from: WorktreeId, to: WorktreeId)
    requires from != to
    ensures WorkspaceKey(from) != WorkspaceKey(to)
  {
    var prefix := "worktree:";
    assert WorkspaceKey(from)[|prefix|..] == from && WorkspaceKey(to)[|prefix|..] == to;
  }

  /** A binding follows its worktree to the new id. */
  lemma RekeyedBindingFollows(session: Session, from: WorktreeId, to: WorktreeId, args: SpawnArgs)
    requires Bound(session, args) && args.worktree == from && to != WorkspaceKey(from)
    ensures Bound(Rekeyed(session, from, to), args.(worktree := to))
  {
    assert |WorkspaceKey(to)| > |to|;
  }

  /** Each operation keeps a binding exactly when it does not displace it. */
  lemma OperationKeepsBoundIff(s: State, op: Operation, args: SpawnArgs)
    requires s.session.Some? && Bound(s.session.value, args) && Truthy(Some(args.pty)) && args.leaf.Stable?
    requires Sound(s, op, args)
    ensures After(s, op).session.Some? && (Bound(After(s, op).session.value, args) <==> !Displaces(s, op, args))
  {
    hide Scrubs, Scrub, ScrubFor, TabBound, LeafBound, TabKept, LeafKept, Uncontested, Bind, Rekeyed, RekeyedFrom, WithoutOwner, MarkLeases,
         Removed, WithoutLeases;
    match op
    case SetSession(w) =>
      TabWriteRule(s, w, args.worktree, args.tab, args.pty);
      KnownLeafWriteRule(s, w, args.tab, args.leaf, args.pty);
    case Spawn(other, _) => SpawnKeepsBoundIff(s.session.value, other, args);
    case Upsert(_) =>
    case MarkAll(target, state, order) =>
      ScrubKeepsBoundIff(s.session.value, OfTarget(MarkLeases(s.leases, target, state), target), target, order, args);
    case MarkOne(target, pty, state, order) =>
      var at := Addressed(s.leases, target, pty);
      if at.Some? {
        ScrubForKeepsBoundIff(s, [s.leases[at.value].(state := state)], target, order, args);
      }
    case Remove(target, only, order) =>
      ScrubForKeepsBoundIff(s, Removed(s.leases, target, RelayOf(target, only)), target, order, args);
    case SetConnections(_) =>
    case RemoveOwner(owner) => RemovalKeepsBoundIff(s.session.value, owner, args);
    case Rekey(from, to) => RekeyKeepsBoundIff(s.session.value, from, to, args);
  }

  /** No operation of the run displaces the binding when its turn comes. */
  ghost predicate Undisturbed(s: State, ops: seq<Operation>, args: SpawnArgs)
    decreases |ops|
  {
    ops == [] ||
    (s.session.Some? && Sound(s, ops[0], args) && !Displaces(s, ops[0], args) && Undisturbed(After(s, ops[0]), ops[1..], args))
  }

  /** A binding outlives every run of operations, session writes stale, partial or
      complete among them, none of which displaces it. */
  lemma {:induction false} UndisturbedBindingStays(s: State, ops: seq<Operation>, args: SpawnArgs)
    requires s.session.Some? && Bound(s.session.value, args) && Truthy(Some(args.pty)) && args.leaf.Stable?
    requires Undisturbed(s, ops, args)
    ensures var after := AfterAll(s, ops).session; after.Some? && Bound(after.value, args)
    decreases |ops|
  {
    if ops != [] {
      OperationKeepsBoundIff(s, ops[0], args);
      UndisturbedBindingStays(After(s, ops[0]), ops[1..], args);
    }
  }

  // ------------------------------------- Dead bindings, through all operations

  /** The operation itself brings the PTY to the tab, or another worktree's tabs to this one. */
  ghost predicate Brings(op: Operation, worktree: WorktreeId, tab: TabId, pty: PtyId) {
    match op
    case SetSession(w) => !ValidWrite(w) || CarriesTab(w.incoming, worktree, tab, pty) || CarriesAnyLeaf(w.incoming, tab, pty)
    case Spawn(args, _) => args.tab == tab && args.pty == pty
    case Rekey(_, to) => worktree in {to, WorkspaceKey(to)}
    case _ => false
  }

  ghost predicate Absent(session: Option<Session>, worktree: WorktreeId, tab: TabId, leaf: LeafId, pty: PtyId) {
    session.Some? ==> !CarriesTab(session.value, worktree, tab, pty) && !LeafBound(session.value, tab, leaf, pty)
  }

  lemma {:induction false} BoundTabMembers(tabs: seq<Tab>, tab: TabId, pty: PtyId, other: Tab)
    ensures other in BindTab(tabs, tab, pty) ==> other in tabs || (other.id == tab && other.pty == Some(pty))
  {
    if tabs != [] && tabs[0].id != tab {
      BoundTabMembers(tabs[1..], tab, pty, other);
    }
  }

  lemma ScrubOnlyRemoves(session: Session, leases: seq<Lease>, target: string, order: seq<WorktreeId>,
                         worktree: WorktreeId, tab: TabId, leaf: LeafId, pty: PtyId)
    requires Absent(Some(session), worktree, tab, leaf, pty)
    ensures Absent(Some(Scrub(session, leases, target, order)), worktree, tab, leaf, pty)
  {
  }

  lemma ScrubForOnlyRemoves(s: State, leases: seq<Lease>, target: string, order: seq<WorktreeId>,
                            worktree: WorktreeId, tab: TabId, leaf: LeafId, pty: PtyId)
    requires Absent(s.session, worktree, tab, leaf, pty)
    ensures Absent(ScrubFor(s, leases, target, order), worktree, tab, leaf, pty)
  {
    hide Scrub, Absent;
    if leases != [] && s.session.Some? {
      ScrubOnlyRemoves(s.session.value, leases, target, order, worktree, tab, leaf, pty);
    }
  }

  lemma WriteKeepsAbsent(s: State, w: Write, worktree: WorktreeId, tab: TabId, leaf: LeafId, pty: PtyId)
    requires Absent(s.session, worktree, tab, leaf, pty) && !Brings(SetSession(w), worktree, tab, pty)
    ensures Absent(AfterWrite(s, w).session, worktree, tab, leaf, pty)
  {
    hide CarriesTab, LeafBound, CarriesAnyLeaf, MergeSession, PassOf, RemappedLeases;
    var after := AfterWrite(s, w).session.value;
    if CarriesTab(after, worktree, tab, pty) {
      WriteInventsNoTabBinding(s, w, worktree, tab, pty);
    }
    if LeafBound(after, tab, leaf, pty) {
      WriteInventsNoLeafBinding(s, w, tab, leaf, pty);
    }
  }

  lemma SpawnKeepsAbsent(session: Session, args: SpawnArgs, worktree: WorktreeId, tab: TabId, leaf: LeafId, pty: PtyId)
    requires Absent(Some(session), worktree, tab, leaf, pty) && (args.tab != tab || args.pty != pty)
    ensures Absent(Some(Bind(session, args)), worktree, tab, leaf, pty)
  {
    BoundTabMembers(TabsOf(session, args.worktree), args.tab, args.pty, Tab(tab, Some(pty)));
  }

  lemma RekeyKeepsAbsent(session: Session, from: WorktreeId, to: WorktreeId, worktree: WorktreeId, tab: TabId, leaf: LeafId, pty: PtyId)
    requires Absent(Some(session), worktree, tab, leaf, pty) && worktree !in {to, WorkspaceKey(to)}
    ensures Absent(Some(Rekeyed(session, from, to)), worktree, tab, leaf, pty)
  {
  }

  lemma OperationKeepsAbsent(s: State, op: Operation, worktree: WorktreeId, tab: TabId, leaf: LeafId, pty: PtyId)
    requires Absent(s.session, worktree, tab, leaf, pty) && !Brings(op, worktree, tab, pty)
    ensures Absent(After(s, op).session, worktree, tab, leaf, pty)
  {
    hide CarriesTab, LeafBound, CarriesAnyLeaf, AfterWrite, Bind, Scrub, ScrubFor, Rekeyed, MarkLeases, WithoutLeases, Removed;
    match op
    case SetSession(w) => WriteKeepsAbsent(s, w, worktree, tab, leaf, pty);
    case Spawn(args, _) =>
      if s.session.Some? {
        SpawnKeepsAbsent(s.session.value, args, worktree, tab, leaf, pty);
      }
    case Upsert(_) =>
    case MarkAll(target, state, order) =>
      if s.session.Some? {
        ScrubOnlyRemoves(s.session.value, OfTarget(MarkLeases(s.leases, target, state), target), target, order, worktree, tab, leaf, pty);
      }
    case MarkOne(target, p, state, order) =>
      var at := Addressed(s.leases, target, p);
      if at.Some? {
        ScrubForOnlyRemoves(s, [s.leases[at.value].(state := state)], target, order, worktree, tab, leaf, pty);
      }
    case Remove(target, only, order) =>
      ScrubForOnlyRemoves(s, Removed(s.leases, target, RelayOf(target, only)), target, order, worktree, tab, leaf, pty);
    case SetConnections(_) =>
    case RemoveOwner(owner) => RemovalKeepsAbsent(s.session, owner, worktree, tab, leaf, pty);
    case Rekey(from, to) =>
      if s.session.Some? {
        RekeyKeepsAbsent(s.session.value, from, to, worktree, tab, leaf, pty);
      }
  }

  lemma RemovalKeepsAbsent(session: Option<Session>, owner: WorktreeId, worktree: WorktreeId, tab: TabId, leaf: LeafId, pty: PtyId)
    requires Absent(session, worktree, tab, leaf, pty)
    ensures session.Some? ==> Absent(Some(WithoutOwner(session.value, owner)), worktree, tab, leaf, pty)
  {
  }

  lemma {:induction false} OperationsKeepAbsent(s: State, ops: seq<Operation>, worktree: WorktreeId, tab: TabId, leaf: LeafId, pty: PtyId)
    requires Absent(s.session, worktree, tab, leaf, pty)
    requires forall k :: 0 <= k < |ops| ==> !Brings(ops[k], worktree, tab, pty)
    ensures Absent(AfterAll(s, ops).session, worktree, tab, leaf, pty)
    decreases |ops|
  {
    if ops != [] {
      OperationKeepsAbsent(s, ops[0], worktree, tab, leaf, pty);
      OperationsKeepAbsent(After(s, ops[0]), ops[1..], worktree, tab, leaf, pty);
    }
  }

  /** The operation ends the lease: marks it dead or removes it. */
  ghost predicate Ends(s: State, op: Operation, lease: Lease) {
    match op
    case MarkAll(target, state, _) => IsDead(state) && lease.target == target
    case MarkOne(target, pty, state, _) =>
      var at := Addressed(s.leases, target, pty); IsDead(state) && at.Some? && s.leases[at.value] == lease
    case Remove(target, only, _) => (only.None? || RelayOf(target, only).Some?) && Names(lease, target, RelayOf(target, only))
    case _ => false
  }

  /** The bindings of the tab and of the leaf to the PTY may both reference the lease. */
  ghost predicate MayHold(session: Session, lease: Lease, order: seq<WorktreeId>, worktree: WorktreeId, tab: TabId, leaf: LeafId, pty: PtyId) {
    && MayReference(lease, ScrubBinding(lease.target, Some(worktree), tab, None, pty))
    && MayReference(lease, ScrubBinding(lease.target, FirstListing(order, session.tabs, tab), tab, Some(leaf), pty))
  }

  lemma ScrubRemoves(session: Session, leases: seq<Lease>, lease: Lease, order: seq<WorktreeId>,
                     worktree: WorktreeId, tab: TabId, leaf: LeafId, pty: PtyId)
    requires lease in leases && Truthy(Some(pty)) && MayHold(session, lease, order, worktree, tab, leaf, pty)
    ensures Absent(Some(Scrub(session, leases, lease.target, order)), worktree, tab, leaf, pty)
  {
    var i :| 0 <= i < |leases| && leases[i] == lease;
    if worktree in session.tabs {
      ScrubbedTab(leases, lease.target, worktree, session.tabs[worktree], Tab(tab, Some(pty)));
    }
  }

  lemma MarkedIsMarked(leases: seq<Lease>, lease: Lease, state: LeaseState)
    requires lease in leases && IsDead(state)
    ensures lease.(state := state) in OfTarget(MarkLeases(leases, lease.target, state), lease.target)
  {
    var marked := MarkLeases(leases, lease.target, state);
    var i :| 0 <= i < |leases| && leases[i] == lease;
    OfTargetMembers(marked, |marked|, lease.target);
    assert marked[..|marked|] == marked && marked[i] == lease.(state := state);
  }

  lemma EndingRemoves(s: State, op: Operation, lease: Lease, worktree: WorktreeId, tab: TabId, leaf: LeafId, pty: PtyId)
    requires s.session.Some? && lease in s.leases && Ends(s, op, lease) && Truthy(Some(pty))
    requires MayHold(s.session.value, lease, op.order, worktree, tab, leaf, pty)
    ensures Absent(After(s, op).session, worktree, tab, leaf, pty)
  {
    hide Absent, Scrub, MayReference, MarkLeases, OfTarget, Removed, WithoutLeases, FirstListing;
    match op
    case MarkAll(_, state, order) =>
      MarkedIsMarked(s.leases, lease, state);
      MayHoldMarked(s.session.value, lease, state, order, worktree, tab, leaf, pty);
      ScrubRemoves(s.session.value, OfTarget(MarkLeases(s.leases, lease.target, state), lease.target), lease.(state := state), order,
                   worktree, tab, leaf, pty);
    case MarkOne(_, _, state, order) =>
      MayHoldMarked(s.session.value, lease, state, order, worktree, tab, leaf, pty);
      ScrubRemoves(s.session.value, [lease.(state := state)], lease.(state := state), order, worktree, tab, leaf, pty);
    case Remove(target, only, order) =>
      ScrubRemoves(s.session.value, Removed(s.leases, target, RelayOf(target, only)), lease, order, worktree, tab, leaf, pty);
  }

  lemma MayHoldMarked(session: Session, lease: Lease, state: LeaseState, order: seq<WorktreeId>,
                      worktree: WorktreeId, tab: TabId, leaf: LeafId, pty: PtyId)
    requires MayHold(session, lease, order, worktree, tab, leaf, pty)
    ensures MayHold(session, lease.(state := state), order, worktree, tab, leaf, pty)
  {
  }

  /** Once a lease is marked dead, with its target's others or alone, or removed, the
      bindings that may reference it are gone, and no sequence of operations brings one
      back unless it carries the PTY to that tab itself. */
  lemma DeadBindingStaysGone(s: State, op: Operation, lease: Lease, ops: seq<Operation>,
                             worktree: WorktreeId, tab: TabId, leaf: LeafId, pty: PtyId)
    requires s.session.Some? && lease in s.leases && Ends(s, op, lease) && Truthy(Some(pty))
    requires MayHold(s.session.value, lease, op.order, worktree, tab, leaf, pty)
    requires forall k :: 0 <= k < |ops| ==> !Brings(ops[k], worktree, tab, pty)
    ensures Absent(AfterAll(After(s, op), ops).session, worktree, tab, leaf, pty)
  {
    hide Absent, After, AfterAll, Brings, MayHold;
    EndingRemoves(s, op, lease, worktree, tab, leaf, pty);
    OperationsKeepAbsent(After(s, op), ops, worktree, tab, leaf, pty);
  }
}
