/**
  Taking wakefulness and letting it go: every refresh decides on the statuses as they
  are, holds what it wants held, and once nothing is wanted nothing is held.
 */
module AwakeRelease {
  import opened Wrappers
  import opened AwakeMachine
  import opened AwakeProofs
  import opened StaleTimer

  // --------------------------------------------------------------- The decision

  /** Some agent is working, observed, and was heard of at a known time no more than two
      hours ago. */
  ghost predicate SomeEligible(statuses: seq<Status>, now: int) {
    exists i :: 0 <= i < |statuses| && IsEligible(statuses[i], now)
  }

  predicate IsEligible(status: Status, now: int) {
    status.working && status.observed && status.receivedAt.At? && now - status.receivedAt.ms <= 7_200_000
  }

  lemma ShouldBlockIff(s: State)
    ensures ShouldBlock(s) <==> s.enabled && SomeEligible(s.statuses, s.now)
  {
    EligibleCountPositive(s.statuses, s.now);
    assert forall i :: 0 <= i < |s.statuses| ==> (WakeEligible(s.statuses[i], s.now) <==> IsEligible(s.statuses[i], s.now));
  }

  /** Every event that can change the decision takes it anew. */
  lemma EventsDecide(s: State, e: Event, o: Oracle)
    ensures e.SetStatuses? ==> (Step(s, e, o).wanted <==> s.enabled && SomeEligible(e.list, s.now))
    ensures e.SetEnabled? && e.value != s.enabled ==> (Step(s, e, o).wanted <==> e.value && SomeEligible(s.statuses, s.now))
    ensures e.StaleFires? || e.Resume? || e.RetryFires? ==> (Step(s, e, o).wanted <==> s.enabled && SomeEligible(s.statuses, s.now))
    ensures e.Dispose? ==> !Step(s, e, o).wanted
  {
    hide EligibleCount, SomeEligible;
    ShouldBlockIff(s);
    if e.SetStatuses? {
      ShouldBlockIff(s.(statuses := e.list));
    }
    if e.SetEnabled? {
      ShouldBlockIff(s.(enabled := e.value));
    }
    if e.StaleFires? {
      ShouldBlockIff(s.(staleTimer := None));
    }
    if e.RetryFires? {
      ShouldBlockIff(Put(s, e.p, Get(s, e.p).(retryTimer := false)));
    }
  }

  /** ... and sets the timer for the earliest moment it may lapse at. */
  lemma EventsSetTimer(s: State, e: Event, o: Oracle)
    requires e.SetStatuses? || (e.SetEnabled? && e.value != s.enabled) || e.StaleFires? || e.Resume? || e.RetryFires?
    ensures var t := Step(s, e, o);
            && (t.staleTimer.None? <==> forall i :: 0 <= i < |t.statuses| ==> !ExpiresAfter(t.statuses[i], t.now))
            && (t.staleTimer.Some? ==>
                  (exists i :: 0 <= i < |t.statuses| && ExpiresAfter(t.statuses[i], t.now) && Expiry(t.statuses[i]) == t.staleTimer.value) &&
                  (forall i :: 0 <= i < |t.statuses| && ExpiresAfter(t.statuses[i], t.now) ==> t.staleTimer.value <= Expiry(t.statuses[i])))
  {
    hide EligibleCount, StaleDue, Refresh, ExpiresAfter;
    StaleDueIsEarliest(Step(s, e, o).statuses, Step(s, e, o).now);
  }

  // ----------------------------------------------------------------- Letting go

  /** Nothing is held, nothing is waited for, and every child that still runs has been
      asked to die. */
  predicate LetGo(a: Assertion) {
    a.child.None? && a.listening == {} && !a.retryTimer && a.retryNotBefore.None? && a.running <= a.asked
  }

  predicate Released(s: State) {
    !s.wanted ==> LetGo(s.mac) && LetGo(s.linux)
  }

  lemma StopLetsGo(a: Assertion, now: int)
    requires OneChild(a)
    ensures LetGo(Stopped(a, now))
  {
  }

  lemma RefreshReleases(s: State, o: Oracle)
    requires Inv(s)
    ensures Released(Refresh(s, o))
  {
    hide LetGo, OneChild, ChildIds, ReportedOnce, LogSound, Stopped, StopBlocker, EligibleCount, StaleDue, StartAssertion, StartBlocker;
    if !ShouldBlock(s) {
      StopLetsGo(s.mac, s.now);
      StopLetsGo(s.linux, s.now);
    }
  }

  lemma ReportReleases(s: State, p: Platform, child: Option<nat>, missing: bool, o: Oracle)
    requires Inv(s) && ReportDue(Get(s, p), child) && s.wanted
    ensures Released(ReportFailure(s, p, child, missing, o))
  {
    hide Released, AssertionInv, BlockerInv, ReportDue, Refresh;
    if missing && p.Linux? {
      WantedIsReleased(ReportFailure(s, p, child, missing, o));
    } else {
      FailureKeepsInv(p, Get(s, p), s.now, child, missing);
      PutKeepsInv(s, p, Failed(p, Get(s, p), s.now, child, missing));
      RefreshReleases(Put(s, p, Failed(p, Get(s, p), s.now, child, missing)), o);
    }
  }

  lemma WantedIsReleased(s: State)
    requires s.wanted
    ensures Released(s)
  {
  }

  lemma ChildEventReleases(s: State, p: Platform, c: nat, missing: bool, o: Oracle)
    requires Inv(s) && Released(s) && CanHappen(s, ChildEvent(p, c, missing))
    ensures Released(Step(s, ChildEvent(p, c, missing), o))
  {
    hide AssertionInv, BlockerInv, ReportFailure, ReportDue;
    assert s.wanted;
    ChildGoneKeepsInv(Get(s, p), s.now, c);
    PutKeepsInv(s, p, ChildGone(Get(s, p), c));
    ReportReleases(Put(s, p, ChildGone(Get(s, p), c)), p, Some(c), missing, o);
  }

  lemma DisposeReleases(s: State, o: Oracle)
    requires Inv(s)
    ensures Released(Disposed(s, o))
  {
    hide LetGo, OneChild, ChildIds, ReportedOnce, LogSound, Stopped, StopBlocker;
    StopLetsGo(s.mac, s.now);
    StopLetsGo(s.linux, s.now);
  }

  lemma StepKeepsReleased(s: State, e: Event, o: Oracle)
    requires Inv(s) && Released(s) && CanHappen(s, e)
    ensures Released(Step(s, e, o))
  {
    hide AssertionInv, Refresh, ReportFailure;
    match e
    case SetEnabled(value) => if s.enabled != value { RefreshReleases(s.(enabled := value), o); }
    case SetStatuses(list) => RefreshReleases(s.(statuses := list), o);
    case Dispose => DisposeReleases(s, o);
    case StaleFires => RefreshReleases(s.(staleTimer := None), o);
    case Resume => RefreshReleases(s, o);
    case RetryFires(p) =>
      RetryClearedKeepsInv(s, p);
      RefreshReleases(Put(s, p, Get(s, p).(retryTimer := false)), o);
    case ChildEvent(p, c, missing) => ChildEventReleases(s, p, c, missing, o);
    case SilentExit(p, c) =>
    case BlockerLost =>
    case Tick(ms) =>
  }

  lemma {:induction false} RunKeepsReleased(s: State, run: seq<Event>, o: Oracle)
    requires Inv(s) && Awake(s) && Released(s) && Legal(s, run, o)
    ensures Released(Run(s, run, o))
    decreases |run|
  {
    hide Inv, Awake, Released, Step;
    if run != [] {
      StepKeepsInv(s, run[0], o);
      StepKeepsReleased(s, run[0], o);
      RunKeepsReleased(Step(s, run[0], o), run[1..], o);
    }
  }

  /** Whenever the last refresh found nothing to stay awake for, no child is held or
      listened to, no retry is set, and every child still running has been asked to die. */
  lemma ReleasedWhenUnwanted(s: State, p: Platform)
    requires Reachable(s) && !s.wanted
    ensures var a := Get(s, p);
            a.child.None? && a.listening == {} && !a.retryTimer && a.retryNotBefore.None? && a.running <= a.asked
  {
    hide Inv, Awake, Legal, Run;
    var onMac, onLinux, subscribed, now, run, o :|
      Legal(Initial(onMac, onLinux, subscribed, now), run, o) && Run(Initial(onMac, onLinux, subscribed, now), run, o) == s;
    InitialInv(onMac, onLinux, subscribed, now);
    RunKeepsReleased(Initial(onMac, onLinux, subscribed, now), run, o);
  }

  lemma InitialInv(onMac: bool, onLinux: bool, subscribed: bool, now: int)
    ensures var s := Initial(onMac, onLinux, subscribed, now); Inv(s) && Awake(s) && Released(s)
  {
  }

  // ------------------------------------------------------ When the platform answers

  ghost predicate AllWork(o: Oracle) {
    forall n :: o(n) == Works
  }

  lemma StoppedBlockerIsGone(b: Blocker, o: Oracle)
    requires BlockerInv(b) && AllWork(o)
    ensures StopBlocker(b, o).id.None? && StopBlocker(b, o).started == {}
  {
  }

  /** A refresh that is disabled, or finds no status eligible, leaves no blocker, when the
      platform does what it is asked. */
  lemma RefreshDropsBlocker(s: State, o: Oracle)
    requires Reachable(s) && AllWork(o) && !(s.enabled && SomeEligible(s.statuses, s.now))
    ensures Refresh(s, o).blocker.id.None? && Refresh(s, o).blocker.started == {}
  {
    hide SomeEligible, AllWork, Reachable, Stopped, StopBlocker, EligibleCount, StaleDue, AssertionInv, BlockerInv;
    ReachableInv(s);
    ShouldBlockIff(s);
    StoppedBlockerIsGone(s.blocker, o);
  }

  lemma StartedBlockerIsHeld(b: Blocker, o: Oracle)
    requires BlockerInv(b) && AllWork(o)
    ensures var c := StartBlocker(b, o); c.id.Some? && c.started == {c.id.value}
  {
  }

  lemma StartHoldsChild(s: State, p: Platform, o: Oracle)
    requires ShouldBlock(s) && s.wanted && AllWork(o)
    ensures var t := StartAssertion(s, p, o);
            && t.blocker.id == s.blocker.id && t.blocker.started == s.blocker.started
            && (p.MacOS? ==> t.linux == s.linux) && (p.Linux? ==> t.mac == s.mac)
            && (Get(t, p).child.Some? <==> Get(s, p).child.Some? || WouldSpawn(Get(s, p), s.now))
  {
    hide Refresh, ReportFailure, EligibleCount;
  }

  /** One that finds some status eligible holds a blocker, the one recorded, and on each
      platform a child, unless the tool is missing or a retry is still to wait for. */
  lemma RefreshHolds(s: State, p: Platform, o: Oracle)
    requires Reachable(s) && AllWork(o) && s.enabled && SomeEligible(s.statuses, s.now)
    ensures Refresh(s, o).blocker.id.Some? && Refresh(s, o).blocker.started == {Refresh(s, o).blocker.id.value}
    ensures var a := Get(s, p);
            a.active && !a.unavailable && (a.retryNotBefore.Some? ==> a.retryNotBefore.value <= s.now) ==> Get(Refresh(s, o), p).child.Some?
  {
    hide SomeEligible, AllWork, Reachable, StartAssertion, StartBlocker, EligibleCount, StaleDue, AssertionInv, BlockerInv;
    ReachableInv(s);
    ShouldBlockIff(s);
    StartedBlockerIsHeld(s.blocker, o);
    var s2 := s.(staleTimer := StaleDue(s.statuses, s.now), wanted := true, blocker := StartBlocker(s.blocker, o));
    StartHoldsChild(s2, MacOS, o);
    StartHoldsChild(StartAssertion(s2, MacOS, o), Linux, o);
  }

  /** So a refresh after a time in which nothing was wanted holds a child at once. */
  lemma RefreshHoldsAtOnce(s: State, p: Platform, o: Oracle)
    requires Reachable(s) && !s.wanted && AllWork(o) && s.enabled && SomeEligible(s.statuses, s.now)
    ensures Get(s, p).active && !Get(s, p).unavailable ==> Get(Refresh(s, o), p).child.Some?
  {
    hide SomeEligible, AllWork, Reachable, Refresh;
    ReleasedWhenUnwanted(s, p);
    RefreshHolds(s, p, o);
  }

  /** So does disposing of the service. */
  lemma DisposeDropsBlocker(s: State, o: Oracle)
    requires Reachable(s) && AllWork(o)
    ensures Step(s, Dispose, o).blocker.id.None? && Step(s, Dispose, o).blocker.started == {}
  {
    hide AllWork, Reachable, Stopped, StopBlocker, AssertionInv, BlockerInv;
    ReachableInv(s);
    StoppedBlockerIsGone(s.blocker, o);
  }

  // ---------------------------------------------------- When the platform fails

  ghost predicate AllThrow(o: Oracle) {
    forall n :: o(n) == Throws
  }

  /** A platform that only throws is told nothing and tells nothing: whatever blocker was
      recorded or started stays so, whether wakefulness is wanted or not. */
  lemma ThrowingKeepsBlocker(s: State, o: Oracle)
    requires AllThrow(o)
    ensures Refresh(s, o).blocker.id == s.blocker.id && Refresh(s, o).blocker.started == s.blocker.started
    decreases SpawnsLeft(s), 1
  {
    hide EligibleCount, StaleDue, AllThrow;
    ThrowingCallsKeepBlocker(s.blocker, o);
    if ShouldBlock(s) {
      var s2 := s.(staleTimer := StaleDue(s.statuses, s.now), wanted := true, blocker := StartBlocker(s.blocker, o));
      ThrowingStartKeepsBlocker(s2, MacOS, o);
      ThrowingStartKeepsBlocker(StartAssertion(s2, MacOS, o), Linux, o);
    }
  }

  lemma ThrowingCallsKeepBlocker(b: Blocker, o: Oracle)
    requires AllThrow(o)
    ensures StartBlocker(b, o).id == b.id && StartBlocker(b, o).started == b.started
    ensures StopBlocker(b, o).id == b.id && StopBlocker(b, o).started == b.started
  {
  }

  lemma ThrowingStartKeepsBlocker(s: State, p: Platform, o: Oracle)
    requires AllThrow(o) && ShouldBlock(s) && s.wanted
    ensures StartAssertion(s, p, o).blocker.id == s.blocker.id && StartAssertion(s, p, o).blocker.started == s.blocker.started
    decreases SpawnsLeft(s), 0
  {
    hide EligibleCount, StaleDue, Refresh, ReportFailure, SpawnsLeft, Failed, SameInputs, TimerSet;
    if WouldSpawn(Get(s, p), s.now) {
      assert o(s.blocker.calls) == Throws;
      FailedSpawnIsSpent(s, p, false);
      ThrowingReportKeepsBlocker(Put(Called(s), p, SpawnFailed(Get(s, p), s.now)), p, o);
    }
  }

  lemma ThrowingReportKeepsBlocker(s: State, p: Platform, o: Oracle)
    requires AllThrow(o)
    ensures ReportFailure(s, p, None, false, o).blocker.id == s.blocker.id
    ensures ReportFailure(s, p, None, false, o).blocker.started == s.blocker.started
    decreases SpawnsLeft(Put(s, p, Failed(p, Get(s, p), s.now, None, false))), 2
  {
    hide Failed, Refresh, SpawnsLeft, SameInputs, TimerSet, EligibleCount, AllThrow;
    ThrowingKeepsBlocker(Put(s, p, Failed(p, Get(s, p), s.now, None, false)), o);
  }

  /** The Linux tool is given up when it is found missing, ... */
  lemma MissingToolIsGivenUp(s: State, c: nat, o: Oracle)
    requires Inv(s) && CanHappen(s, ChildEvent(Linux, c, true))
    ensures Step(s, ChildEvent(Linux, c, true), o).linux.unavailable
  {
    hide LogSound, ReportedOnce;
  }

  lemma MissingSpawnGivesUp(s: State, o: Oracle)
    requires ShouldBlock(s) && s.wanted && WouldSpawn(s.linux, s.now) && o(s.blocker.calls).ThrowsMissing?
    ensures StartAssertion(s, Linux, o).linux.unavailable
  {
    hide EligibleCount, Refresh, SpawnsLeft, SameInputs, TimerSet;
    assert StartAssertion(s, Linux, o) == TrySpawn(s, Linux, o);
    var b := Put(Called(s), Linux, SpawnFailed(s.linux, s.now));
    assert TrySpawn(s, Linux, o) == ReportFailure(b, Linux, None, true, o);
    assert ReportFailure(b, Linux, None, true, o) == Put(b, Linux, Failed(Linux, b.linux, b.now, None, true));
  }

  /** No call of the platform finds the tool missing. */
  ghost predicate NeverMissing(o: Oracle) {
    forall n :: o(n) != ThrowsMissing
  }

  /** Each assertion is for the platform it was for, and a tool is given up only when one
      may be missing. */
  predicate SameTool(a: Assertion, b: Assertion, missing: bool) {
    b.active == a.active && (!missing ==> b.unavailable == a.unavailable)
  }

  predicate SameTools(s: State, t: State, missing: bool) {
    SameTool(s.mac, t.mac, missing) && SameTool(s.linux, t.linux, missing)
  }

  lemma AssertionStepsKeepTool(a: Assertion, p: Platform, now: int, child: Option<nat>, missing: bool, c: nat)
    ensures SameTool(a, Stopped(a, now), false) && SameTool(a, Spawned(a, now), false) && SameTool(a, SpawnFailed(a, now), false)
    ensures SameTool(a, ScheduleRetry(a), false) && SameTool(a, ChildGone(a, c), false)
    ensures SameTool(a, Failed(p, a, now, child, missing), missing)
  {
  }

  lemma {:induction false} RefreshKeepsTools(s: State, o: Oracle)
    ensures SameTools(s, Refresh(s, o), !NeverMissing(o))
    decreases SpawnsLeft(s), 2
  {
    hide NeverMissing, Stopped, StartBlocker, StopBlocker, StartAssertion, EligibleCount, StaleDue;
    if ShouldBlock(s) {
      var s2 := s.(staleTimer := StaleDue(s.statuses, s.now), wanted := true, blocker := StartBlocker(s.blocker, o));
      StartKeepsTools(s2, MacOS, o);
      StartKeepsTools(StartAssertion(s2, MacOS, o), Linux, o);
    } else {
      AssertionStepsKeepTool(s.mac, MacOS, s.now, None, false, 0);
      AssertionStepsKeepTool(s.linux, Linux, s.now, None, false, 0);
    }
  }

  lemma {:induction false} StartKeepsTools(s: State, p: Platform, o: Oracle)
    requires ShouldBlock(s) && s.wanted
    ensures SameTools(s, StartAssertion(s, p, o), !NeverMissing(o))
    decreases SpawnsLeft(s), 1
  {
    hide NeverMissing, Spawned, SpawnFailed, Failed, ScheduleRetry, ReportFailure, SpawnsLeft, SameInputs, TimerSet, ShouldBlock;
    var a := Get(s, p);
    AssertionStepsKeepTool(a, p, s.now, None, false, 0);
    if WouldSpawn(a, s.now) && !o(s.blocker.calls).Works? {
      var missing := o(s.blocker.calls).ThrowsMissing?;
      FailedSpawnIsSpent(s, p, missing);
      ReportKeepsTools(Put(Called(s), p, SpawnFailed(a, s.now)), p, None, missing, o);
      assert NeverMissing(o) ==> !missing by { MissingAnswer(o, s.blocker.calls); }
    }
  }

  lemma MissingAnswer(o: Oracle, n: nat)
    ensures NeverMissing(o) ==> !o(n).ThrowsMissing?
  {
  }

  lemma {:induction false} ReportKeepsTools(s: State, p: Platform, child: Option<nat>, missing: bool, o: Oracle)
    ensures SameTools(s, ReportFailure(s, p, child, missing, o), missing || !NeverMissing(o))
    decreases SpawnsLeft(Put(s, p, Failed(p, Get(s, p), s.now, child, missing))), 3
  {
    hide NeverMissing, Failed, Refresh, SpawnsLeft, SameInputs, TimerSet, ShouldBlock;
    AssertionStepsKeepTool(Get(s, p), p, s.now, child, missing, 0);
    if !(missing && p.Linux?) {
      RefreshKeepsTools(Put(s, p, Failed(p, Get(s, p), s.now, child, missing)), o);
    }
  }

  predicate FindsMissing(e: Event) {
    e.ChildEvent? && e.missing
  }

  lemma ChildEventKeepsTools(s: State, p: Platform, c: nat, missing: bool, o: Oracle)
    ensures SameTools(s, Step(s, ChildEvent(p, c, missing), o), missing || !NeverMissing(o))
  {
    hide NeverMissing, Refresh, ReportFailure, ChildGone, SpawnsLeft, SameInputs, TimerSet, ShouldBlock, ReportsFailure, SameTool;
    AssertionStepsKeepTool(Get(s, p), p, s.now, None, false, c);
    var u := Put(s, p, ChildGone(Get(s, p), c));
    PutKeepsTools(s, p, ChildGone(Get(s, p), c), missing || !NeverMissing(o));
    ReportKeepsTools(u, p, Some(c), missing, o);
    SameToolsTogether(s, u, ReportFailure(u, p, Some(c), missing, o), missing || !NeverMissing(o));
  }

  lemma PutKeepsTools(s: State, p: Platform, a: Assertion, missing: bool)
    requires SameTool(Get(s, p), a, false)
    ensures SameTools(s, Put(s, p, a), false) && SameTools(s, Put(s, p, a), missing)
  {
  }

  lemma SameToolsTogether(s: State, t: State, u: State, missing: bool)
    requires SameTools(s, t, false) && SameTools(t, u, missing)
    ensures SameTools(s, u, missing)
  {
  }

  lemma StepKeepsTools(s: State, e: Event, o: Oracle)
    ensures SameTools(s, Step(s, e, o), FindsMissing(e) || !NeverMissing(o))
  {
    hide NeverMissing, Refresh, ReportFailure, Stopped, ChildGone, StopBlocker, SpawnsLeft, SameInputs, TimerSet, ShouldBlock, ReportsFailure;
    match e
    case SetEnabled(value) => RefreshKeepsTools(s.(enabled := value), o);
    case SetStatuses(list) => RefreshKeepsTools(s.(statuses := list), o);
    case Dispose =>
      AssertionStepsKeepTool(s.mac, MacOS, s.now, None, false, 0);
      AssertionStepsKeepTool(s.linux, Linux, s.now, None, false, 0);
    case StaleFires => RefreshKeepsTools(s.(staleTimer := None), o);
    case Resume => RefreshKeepsTools(s, o);
    case RetryFires(p) => RefreshKeepsTools(Put(s, p, Get(s, p).(retryTimer := false)), o);
    case ChildEvent(p, c, missing) => ChildEventKeepsTools(s, p, c, missing, o);
    case SilentExit(p, c) =>
    case BlockerLost =>
    case Tick(ms) =>
  }

  /** ... and for no other failure, over whole runs. */
  lemma {:induction false} OnlyMissingToolIsGivenUp(s: State, run: seq<Event>, o: Oracle)
    ensures Run(s, run, o).mac.active == s.mac.active && Run(s, run, o).linux.active == s.linux.active
    ensures (forall n :: o(n) != ThrowsMissing) && (forall i :: 0 <= i < |run| && run[i].ChildEvent? ==> !run[i].missing) ==>
      Run(s, run, o).mac.unavailable == s.mac.unavailable && Run(s, run, o).linux.unavailable == s.linux.unavailable
    decreases |run|
  {
    hide Step;
    if run != [] {
      StepKeepsTools(s, run[0], o);
      OnlyMissingToolIsGivenUp(Step(s, run[0], o), run[1..], o);
    }
  }

  // ------------------------------------------------------------- Over whole runs

  lemma StepKeepsDisabled(s: State, e: Event, o: Oracle)
    requires !s.enabled && !s.wanted && (e.SetEnabled? ==> !e.value)
    ensures !Step(s, e, o).enabled && !Step(s, e, o).wanted
  {
    hide Refresh, ReportFailure, EligibleCount, SpawnsLeft, TimerSet;
  }

  /** A service that is never enabled never wants wakefulness, and an assertion for another
      platform never has a child. */
  lemma {:induction false} DisabledStaysAsleep(s: State, run: seq<Event>, o: Oracle)
    requires !s.enabled && !s.wanted && forall i :: 0 <= i < |run| && run[i].SetEnabled? ==> !run[i].value
    ensures !Run(s, run, o).enabled && !Run(s, run, o).wanted
    decreases |run|
  {
    hide Step;
    if run != [] {
      StepKeepsDisabled(s, run[0], o);
      DisabledStaysAsleep(Step(s, run[0], o), run[1..], o);
    }
  }

  lemma RunsFromTheStart(onMac: bool, onLinux: bool, subscribed: bool, now: int, run: seq<Event>, o: Oracle)
    requires Legal(Initial(onMac, onLinux, subscribed, now), run, o)
    ensures var s := Run(Initial(onMac, onLinux, subscribed, now), run, o);
            && (!onMac ==> s.mac.running == {})
            && (!onLinux ==> s.linux.running == {})
            && ((forall i :: 0 <= i < |run| && run[i].SetEnabled? ==> !run[i].value) ==> !s.wanted)
  {
    hide Legal, Run, Inv, Awake, Step;
    var s0 := Initial(onMac, onLinux, subscribed, now);
    InitialInv(onMac, onLinux, subscribed, now);
    RunKeepsInv(s0, run, o);
    OnlyMissingToolIsGivenUp(s0, run, o);
    InactiveRunsNothing(Run(s0, run, o));
    if forall i :: 0 <= i < |run| && run[i].SetEnabled? ==> !run[i].value {
      DisabledStaysAsleep(s0, run, o);
    }
  }

  lemma InactiveRunsNothing(s: State)
    requires Inv(s)
    ensures (!s.mac.active ==> s.mac.running == {}) && (!s.linux.active ==> s.linux.running == {})
  {
    hide ChildIds, ReportedOnce, LogSound;
  }

  // ------------------------------------------------------------- A child's end

  /** A child stopped on purpose ends without a report, and any other child's end is
      reported once. */
  lemma EndIsReportedOnce(a: Assertion, c: nat, now: int)
    ensures a.child == Some(c) ==> !ReportsFailure(Stopped(a, now), c)
    ensures c in a.intentionalStops ==>
      !ReportsFailure(a, c) && ChildGone(a, c).child == a.child && ChildGone(a, c).reportedFailures == a.reportedFailures &&
      c !in ChildGone(a, c).intentionalStops
    ensures c in a.reportedFailures ==> !ReportsFailure(a, c) && ChildGone(a, c).child == a.child
    ensures c !in a.intentionalStops && c !in a.reportedFailures ==>
      ReportsFailure(a, c) && ChildGone(a, c).child != Some(c) && !ReportsFailure(ChildGone(a, c), c)
    ensures a.child != Some(c) ==> ChildGone(a, c).child == a.child
    ensures c !in ChildGone(a, c).running && c !in ChildGone(a, c).listening && ChildGone(a, c).log == a.log
  {
  }
}
