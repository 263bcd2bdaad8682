/** What every run of the keep-awake controller keeps. */
module AwakeProofs {
  import opened Wrappers
  import opened AwakeMachine

  // ------------------------------------------------------------------ Events

  datatype Event =
    | SetEnabled(value: bool)
    | SetStatuses(list: seq<Status>)
    | Dispose
    | StaleFires
    | Resume
    | RetryFires(p: Platform)
    | ChildEvent(p: Platform, c: nat, missing: bool)    // a listening child errors or exits
    | SilentExit(p: Platform, c: nat)                   // one we no longer listen to exits
    | BlockerLost                                       // the system drops its blockers
    | Tick(ms: nat)

  predicate CanHappen(s: State, e: Event) {
    match e
    case StaleFires => s.staleTimer.Some?
    case Resume => s.subscribed
    case RetryFires(p) => Get(s, p).retryTimer
    case ChildEvent(p, c, _) => c in Get(s, p).running && c in Get(s, p).listening
    case SilentExit(p, c) => c in Get(s, p).running && c !in Get(s, p).listening
    case _ => true
  }

  function Disposed(s: State, o: Oracle): State {
    s.(staleTimer := None, subscribed := false, wanted := false, blocker := StopBlocker(s.blocker, o),
       mac := Stopped(s.mac, s.now), linux := Stopped(s.linux, s.now))
  }

  function Step(s: State, e: Event, o: Oracle): State {
    match e
    case SetEnabled(value) => if s.enabled == value then s else Refresh(s.(enabled := value), o)
    case SetStatuses(list) => Refresh(s.(statuses := list), o)
    case Dispose => Disposed(s, o)
    case StaleFires => Refresh(s.(staleTimer := None), o)
    case Resume => Refresh(s, o)
    case RetryFires(p) => Refresh(Put(s, p, Get(s, p).(retryTimer := false)), o)
    case ChildEvent(p, c, missing) =>
      var t := Put(s, p, ChildGone(Get(s, p), c));
      if ReportsFailure(Get(s, p), c) then ReportFailure(t, p, Some(c), missing, o) else t
    case SilentExit(p, c) => Put(s, p, Get(s, p).(running := Get(s, p).running - {c}))
    case BlockerLost => s.(blocker := s.blocker.(started := {}))
    case Tick(ms) => s.(now := s.now + ms)
  }

  ghost predicate Legal(s: State, run: seq<Event>, o: Oracle)
    decreases |run|
  {
    run == [] || (CanHappen(s, run[0]) && Legal(Step(s, run[0], o), run[1..], o))
  }

  ghost function Run(s: State, run: seq<Event>, o: Oracle): State
    decreases |run|
  {
    if run == [] then s else Run(Step(s, run[0], o), run[1..], o)
  }

  // -------------------------------------------------------------- Invariants

  /** At most one child is neither exited nor asked to die, and it is the one held,
      and the only one listened to. */
  ghost predicate OneChild(a: Assertion) {
    && a.listening == (if a.child.None? then {} else {a.child.value})
    && (a.child.Some? ==> a.child.value in a.running)
    && (forall c :: c in a.running ==> c in a.asked || a.child == Some(c))
    && (!a.active ==> a.running == {})
  }

  ghost predicate ChildIds(a: Assertion) {
    && (forall c :: c in a.running || c in a.asked || c in a.intentionalStops || c in a.reportedFailures ==> c < a.nextChild)
    && (a.child.Some? ==> a.child.value !in a.asked && a.child.value !in a.intentionalStops && a.child.value !in a.reportedFailures)
    && a.asked !! a.reportedFailures
  }

  ghost predicate NoStopAfter(log: seq<Entry>, i: int, j: int)
    requires -1 <= i && j <= |log|
  {
    forall k :: i < k < j ==> !log[k].Stop?
  }

  /** A spawn follows a reported failure by the retry delay, unless a stop came between. */
  ghost predicate SpawnRate(log: seq<Entry>) {
    forall i, j :: 0 <= i < j < |log| && log[i].Failure? && log[j].Attempt? && NoStopAfter(log, i, j) ==>
      log[j].at >= log[i].at + RETRY_MS
  }

  /** After a missing-tool failure there is no spawn, stops or not. */
  ghost predicate NoSpawnAfterMissing(log: seq<Entry>) {
    forall i, j :: 0 <= i < j < |log| && log[i].Failure? && log[i].missing ==> !log[j].Attempt?
  }

  /** Each child's failure is reported once at most, and never after we stopped it. */
  ghost predicate ReportedOnce(a: Assertion) {
    && (forall i, j :: 0 <= i < j < |a.log| && a.log[i].Failure? && a.log[j].Failure? && a.log[i].child.Some? ==>
          a.log[i].child != a.log[j].child)
    && (forall i :: 0 <= i < |a.log| && a.log[i].Failure? && a.log[i].child.Some? ==>
          a.log[i].child.value in a.reportedFailures && a.log[i].child.value !in a.asked)
  }

  /** Why the next spawn will keep its distance from this failure. */
  predicate KeepsAway(a: Assertion, now: int, failedAt: int) {
    || a.unavailable
    || failedAt + RETRY_MS <= now
    || (a.retryNotBefore.Some? && failedAt + RETRY_MS <= a.retryNotBefore.value)
  }

  ghost predicate LogSound(a: Assertion, now: int) {
    && (forall i :: 0 <= i < |a.log| ==> a.log[i].at <= now)
    && (forall i :: 0 <= i < |a.log| && a.log[i].Failure? && NoStopAfter(a.log, i, |a.log|) ==> KeepsAway(a, now, a.log[i].at))
    && (forall i :: 0 <= i < |a.log| && a.log[i].Failure? && a.log[i].missing ==> a.unavailable)
    && SpawnRate(a.log) && NoSpawnAfterMissing(a.log)
  }

  ghost predicate AssertionInv(a: Assertion, now: int) {
    OneChild(a) && ChildIds(a) && ReportedOnce(a) && LogSound(a, now) && (a.retryTimer ==> a.retryNotBefore.Some?)
  }

  /** A blocker still started is the recorded one. */
  ghost predicate BlockerInv(b: Blocker) {
    forall id :: id in b.started ==> b.id == Some(id)
  }

  /** Only the Linux tool is ever found missing. */
  ghost predicate Inv(s: State) {
    AssertionInv(s.mac, s.now) && AssertionInv(s.linux, s.now) && BlockerInv(s.blocker) && !s.mac.unavailable
  }

  /** If the last refresh wanted wakefulness, a child is held, or a retry is armed,
      or the tool is known to be missing. */
  predicate Awake(s: State) {
    s.wanted ==> Held(s.mac) && Held(s.linux)
  }

  // ---------------------------------------------------- Steps of one assertion

  lemma NoStopOnAppend(log: seq<Entry>, e: Entry, i: nat, j: nat)
    requires j <= |log|
    ensures NoStopAfter(log + [e], i, j) <==> NoStopAfter(log, i, j)
    ensures i < |log| && NoStopAfter(log + [e], i, |log| + 1) ==> !e.Stop? && NoStopAfter(log, i, |log|)
  {
    assert forall k :: 0 <= k < |log| ==> (log + [e])[k] == log[k];
    if i < |log| && NoStopAfter(log + [e], i, |log| + 1) {
      assert (log + [e])[|log|] == e;
    }
  }

  /** One more entry keeps the log sound. */
  lemma AppendKeepsSound(a: Assertion, b: Assertion, now: int, e: Entry)
    requires LogSound(a, now) && b.log == a.log + [e] && e.at == now
    requires a.unavailable ==> b.unavailable
    requires e.Attempt? ==> WouldSpawn(a, now)
    requires e.Failure? ==> KeepsAway(b, now, now) && (e.missing ==> b.unavailable)
    requires !e.Stop? ==> forall t :: t <= now && KeepsAway(a, now, t) ==> KeepsAway(b, now, t)
    ensures LogSound(b, now)
  {
    var n := |a.log|;
    forall i | 0 <= i < |b.log| && b.log[i].Failure? && NoStopAfter(b.log, i, |b.log|) ensures KeepsAway(b, now, b.log[i].at) {
      if i < n {
        NoStopOnAppend(a.log, e, i, n);
        assert b.log[i] == a.log[i] && KeepsAway(a, now, a.log[i].at);
      }
    }
    forall i, j | 0 <= i < j < |b.log| && b.log[i].Failure? && b.log[j].Attempt? && NoStopAfter(b.log, i, j)
      ensures b.log[j].at >= b.log[i].at + RETRY_MS
    {
      NoStopOnAppend(a.log, e, i, j);
      assert b.log[i] == a.log[i];
      if j < n {
        assert b.log[j] == a.log[j];
      } else {
        assert KeepsAway(a, now, a.log[i].at);
      }
    }
    forall i, j | 0 <= i < j < |b.log| && b.log[i].Failure? && b.log[i].missing ensures !b.log[j].Attempt? {
      assert b.log[i] == a.log[i];
      if j < n {
        assert b.log[j] == a.log[j];
      }
    }
  }

  lemma ReportedOnceAppends(a: Assertion, b: Assertion, e: Entry)
    requires ReportedOnce(a) && b.log == a.log + [e]
    requires a.reportedFailures <= b.reportedFailures
    requires forall c :: c in b.asked && c !in a.asked ==> c !in a.reportedFailures
    requires e.Failure? && e.child.Some? ==>
      e.child.value in b.reportedFailures && e.child.value !in b.asked &&
      forall i :: 0 <= i < |a.log| && a.log[i].Failure? ==> a.log[i].child != e.child
    ensures ReportedOnce(b)
  {
    assert forall i :: 0 <= i < |a.log| ==> b.log[i] == a.log[i];
    assert forall i :: 0 <= i < |a.log| && a.log[i].Failure? && a.log[i].child.Some? ==> a.log[i].child.value in a.reportedFailures;
  }

  lemma SpawnKeepsInv(a: Assertion, now: int)
    requires AssertionInv(a, now) && WouldSpawn(a, now)
    ensures AssertionInv(Spawned(a, now), now)
  {
    AppendKeepsSound(a, Spawned(a, now), now, Attempt(now));
    ReportedOnceAppends(a, Spawned(a, now), Attempt(now));
  }

  lemma AttemptKeepsInv(a: Assertion, now: int)
    requires AssertionInv(a, now) && WouldSpawn(a, now)
    ensures AssertionInv(SpawnFailed(a, now), now)
  {
    AppendKeepsSound(a, SpawnFailed(a, now), now, Attempt(now));
    ReportedOnceAppends(a, SpawnFailed(a, now), Attempt(now));
  }

  /** The child has just been noted as failed, and its failure is not in the log yet. */
  ghost predicate ReportDue(a: Assertion, child: Option<nat>) {
    child.Some? ==>
      child.value in a.reportedFailures && child.value !in a.asked &&
      forall i :: 0 <= i < |a.log| && a.log[i].Failure? ==> a.log[i].child != child
  }

  lemma FailureKeepsInv(p: Platform, a: Assertion, now: int, child: Option<nat>, missing: bool)
    requires AssertionInv(a, now) && ReportDue(a, child)
    ensures AssertionInv(Failed(p, a, now, child, missing), now)
  {
    var b := Failed(p, a, now, child, missing);
    AppendKeepsSound(a, b, now, Failure(now, child, missing && p.Linux?));
    ReportedOnceAppends(a, b, Failure(now, child, missing && p.Linux?));
  }

  lemma StopKeepsInv(a: Assertion, now: int)
    requires AssertionInv(a, now)
    ensures AssertionInv(Stopped(a, now), now)
  {
    AppendKeepsSound(a, Stopped(a, now), now, Stop(now));
    ReportedOnceAppends(a, Stopped(a, now), Stop(now));
  }

  lemma ChildGoneKeepsInv(a: Assertion, now: int, c: nat)
    requires AssertionInv(a, now) && c in a.listening
    ensures AssertionInv(ChildGone(a, c), now) && ReportsFailure(a, c) && ReportDue(ChildGone(a, c), Some(c))
  {
    assert a.child == Some(c);
    var b := ChildGone(a, c);
    assert b.log == a.log;
    assert forall i :: 0 <= i < |a.log| && a.log[i].Failure? && a.log[i].child.Some? ==> a.log[i].child.value in a.reportedFailures;
  }

  lemma RetryKeepsInv(a: Assertion, now: int, armed: bool)
    requires AssertionInv(a, now) && (armed ==> a.retryNotBefore.Some?)
    ensures AssertionInv(a.(retryTimer := armed), now)
  {
  }

  // ------------------------------------------------------- Steps of the blocker

  lemma BlockerKeepsInv(b: Blocker, o: Oracle)
    requires BlockerInv(b)
    ensures BlockerInv(StartBlocker(b, o)) && BlockerInv(StopBlocker(b, o))
  {
  }

  lemma PutKeepsInv(s: State, p: Platform, a: Assertion)
    requires Inv(s) && AssertionInv(a, s.now) && (p.MacOS? ==> !a.unavailable)
    ensures Inv(Put(s, p, a))
  {
  }

  lemma CalledKeepsInv(s: State)
    requires Inv(s)
    ensures Inv(Called(s))
  {
    hide AssertionInv;
  }

  // ------------------------------------------------------- The re-entrant core

  lemma {:induction false} RefreshKeepsInv(s: State, o: Oracle)
    requires Inv(s)
    ensures Inv(Refresh(s, o)) && Awake(Refresh(s, o))
    decreases SpawnsLeft(s), 2
  {
    hide AssertionInv, BlockerInv;
    BlockerKeepsInv(s.blocker, o);
    if ShouldBlock(s) {
      var s2 := s.(staleTimer := StaleDue(s.statuses, s.now), wanted := true, blocker := StartBlocker(s.blocker, o));
      StartKeepsInv(s2, MacOS, o);
      StartKeepsInv(StartAssertion(s2, MacOS, o), Linux, o);
    } else {
      StopKeepsInv(s.mac, s.now);
      StopKeepsInv(s.linux, s.now);
    }
  }

  lemma {:induction false} StartKeepsInv(s: State, p: Platform, o: Oracle)
    requires Inv(s) && ShouldBlock(s) && s.wanted
    ensures var t := StartAssertion(s, p, o);
            Inv(t) && Held(Get(t, p)) && (Held(s.mac) ==> Held(t.mac)) && (Held(s.linux) ==> Held(t.linux))
    decreases SpawnsLeft(s), 1
  {
    hide AssertionInv, BlockerInv;
    var a := Get(s, p);
    if WouldSpawn(a, s.now) {
      SpawnTryKeepsInv(s, p, o);
    } else if a.retryNotBefore.Some? {
      RetryKeepsInv(a, s.now, true);
    }
  }

  lemma {:induction false} SpawnTryKeepsInv(s: State, p: Platform, o: Oracle)
    requires Inv(s) && ShouldBlock(s) && s.wanted && WouldSpawn(Get(s, p), s.now)
    ensures var t := TrySpawn(s, p, o);
            Inv(t) && Held(Get(t, p)) && (Held(s.mac) ==> Held(t.mac)) && (Held(s.linux) ==> Held(t.linux))
    decreases SpawnsLeft(s), 0
  {
    hide AssertionInv, BlockerInv;
    var a := Get(s, p);
    CalledKeepsInv(s);
    if o(s.blocker.calls).Works? {
      SpawnKeepsInv(a, s.now);
      PutKeepsInv(Called(s), p, Spawned(a, s.now));
    } else {
      var s' := Put(Called(s), p, SpawnFailed(a, s.now));
      AttemptKeepsInv(a, s.now);
      PutKeepsInv(Called(s), p, SpawnFailed(a, s.now));
      ReportKeepsInv(s', p, None, o(s.blocker.calls).ThrowsMissing?, o);
    }
  }

  lemma {:induction false} ReportKeepsInv(s: State, p: Platform, child: Option<nat>, missing: bool, o: Oracle)
    requires Inv(s) && ReportDue(Get(s, p), child)
    ensures var t := ReportFailure(s, p, child, missing, o);
            Inv(t) &&
            (if missing && p.Linux? then t == Put(s, p, Failed(p, Get(s, p), s.now, child, missing)) else Awake(t))
    decreases SpawnsLeft(Put(s, p, Failed(p, Get(s, p), s.now, child, missing))), 3
  {
    hide AssertionInv, BlockerInv, ReportDue;
    FailureKeepsInv(p, Get(s, p), s.now, child, missing);
    PutKeepsInv(s, p, Failed(p, Get(s, p), s.now, child, missing));
    if !(missing && p.Linux?) {
      RefreshKeepsInv(Put(s, p, Failed(p, Get(s, p), s.now, child, missing)), o);
    }
  }

  // ------------------------------------------------------------------- Runs

  lemma ChildEventKeepsInv(s: State, p: Platform, c: nat, missing: bool, o: Oracle)
    requires Inv(s) && Awake(s) && CanHappen(s, ChildEvent(p, c, missing))
    ensures var t := Step(s, ChildEvent(p, c, missing), o); Inv(t) && Awake(t)
  {
    hide AssertionInv, BlockerInv, ReportDue;
    ChildGoneKeepsInv(Get(s, p), s.now, c);
    PutKeepsInv(s, p, ChildGone(Get(s, p), c));
    ReportKeepsInv(Put(s, p, ChildGone(Get(s, p), c)), p, Some(c), missing, o);
  }

  lemma TickKeepsInv(a: Assertion, now: int, ms: nat)
    requires AssertionInv(a, now)
    ensures AssertionInv(a, now + ms)
  {
    assert forall t :: KeepsAway(a, now, t) ==> KeepsAway(a, now + ms, t);
  }

  lemma DisposeKeepsInv(s: State, o: Oracle)
    requires Inv(s)
    ensures Inv(Disposed(s, o))
  {
    BlockerKeepsInv(s.blocker, o);
    StopKeepsInv(s.mac, s.now);
    StopKeepsInv(s.linux, s.now);
  }

  lemma ExitKeepsInv(a: Assertion, now: int, c: nat)
    requires AssertionInv(a, now) && c in a.running && c !in a.listening
    ensures AssertionInv(a.(running := a.running - {c}), now)
  {
  }

  lemma SilentExitKeepsInv(s: State, p: Platform, c: nat, o: Oracle)
    requires Inv(s) && Awake(s) && CanHappen(s, SilentExit(p, c))
    ensures var t := Step(s, SilentExit(p, c), o); Inv(t) && Awake(t)
  {
    hide AssertionInv, BlockerInv;
    var a := Get(s, p);
    ExitKeepsInv(a, s.now, c);
    PutKeepsInv(s, p, a.(running := a.running - {c}));
  }

  lemma RetryFiringKeepsInv(s: State, p: Platform, o: Oracle)
    requires Inv(s)
    ensures var t := Step(s, RetryFires(p), o); Inv(t) && Awake(t)
  {
    hide AssertionInv, BlockerInv;
    RetryClearedKeepsInv(s, p);
    RefreshKeepsInv(Put(s, p, Get(s, p).(retryTimer := false)), o);
  }

  lemma RetryClearedKeepsInv(s: State, p: Platform)
    requires Inv(s)
    ensures Inv(Put(s, p, Get(s, p).(retryTimer := false)))
  {
    hide AssertionInv, BlockerInv;
    RetryKeepsInv(Get(s, p), s.now, false);
    PutKeepsInv(s, p, Get(s, p).(retryTimer := false));
  }

  lemma StepKeepsInv(s: State, e: Event, o: Oracle)
    requires Inv(s) && Awake(s) && CanHappen(s, e)
    ensures Inv(Step(s, e, o)) && Awake(Step(s, e, o))
  {
    hide AssertionInv;
    match e
    case SetEnabled(value) => if s.enabled != value { RefreshKeepsInv(s.(enabled := value), o); }
    case SetStatuses(list) => RefreshKeepsInv(s.(statuses := list), o);
    case Dispose => DisposeKeepsInv(s, o);
    case StaleFires => RefreshKeepsInv(s.(staleTimer := None), o);
    case Resume => RefreshKeepsInv(s, o);
    case RetryFires(p) => RetryFiringKeepsInv(s, p, o);
    case ChildEvent(p, c, missing) => ChildEventKeepsInv(s, p, c, missing, o);
    case SilentExit(p, c) => SilentExitKeepsInv(s, p, c, o);
    case BlockerLost =>
    case Tick(ms) =>
      TickKeepsInv(s.mac, s.now, ms);
      TickKeepsInv(s.linux, s.now, ms);
  }

  lemma {:induction false} RunKeepsInv(s: State, run: seq<Event>, o: Oracle)
    requires Inv(s) && Awake(s) && Legal(s, run, o)
    ensures Inv(Run(s, run, o)) && Awake(Run(s, run, o))
    decreases |run|
  {
    if run != [] {
      StepKeepsInv(s, run[0], o);
      RunKeepsInv(Step(s, run[0], o), run[1..], o);
    }
  }

  ghost predicate Reachable(s: State) {
    exists onMac, onLinux, subscribed, now, run, o ::
      Legal(Initial(onMac, onLinux, subscribed, now), run, o) && Run(Initial(onMac, onLinux, subscribed, now), run, o) == s
  }

  lemma ReachableInv(s: State)
    requires Reachable(s)
    ensures Inv(s) && Awake(s)
  {
    var onMac, onLinux, subscribed, now, run, o :|
      Legal(Initial(onMac, onLinux, subscribed, now), run, o) && Run(Initial(onMac, onLinux, subscribed, now), run, o) == s;
    RunKeepsInv(Initial(onMac, onLinux, subscribed, now), run, o);
  }

  // ------------------------------------------------------------ Main results

  /** In every reachable state at most one child of a platform is neither exited nor
      asked to die; only that one is listened to; and if the last refresh wanted
      wakefulness, a child is held, or a retry is armed, or, on Linux only, the tool is
      missing. */
  lemma WakefulnessHolds(s: State, p: Platform)
    requires Reachable(s)
    ensures var a := Get(s, p);
            (forall c, d :: c in a.running - a.asked && d in a.running - a.asked ==> c == d) &&
            a.listening <= a.running - a.asked &&
            (s.wanted && a.active ==> a.listening != {} || a.retryTimer || (p.Linux? && a.unavailable))
  {
    ReachableInv(s);
  }

  /** Every spawn keeps the retry delay from every earlier reported failure, unless
      a stop came between; each child's failure is reported at most once, and never
      after we stopped it; after a missing tool nothing is spawned. */
  lemma SpawnRateHolds(s: State, p: Platform)
    requires Reachable(s)
    ensures SpawnRate(Get(s, p).log) && NoSpawnAfterMissing(Get(s, p).log) && ReportedOnce(Get(s, p))
  {
    ReachableInv(s);
  }

  /** A blocker still started is the recorded one, so there is one at most. */
  lemma NoBlockerLeaks(s: State)
    requires Reachable(s)
    ensures s.blocker.started <= (if s.blocker.id.None? then {} else {s.blocker.id.value})
  {
    ReachableInv(s);
  }

  // ------------------------------------------------- The callback spares its caller

  ghost predicate NoAttemptSince(before: seq<Entry>, after: seq<Entry>) {
    && |before| <= |after| && (forall k :: 0 <= k < |before| ==> after[k] == before[k])
    && forall k :: |before| <= k < |after| ==> !after[k].Attempt?
  }

  /** Nothing was spawned, nor tried to. */
  ghost predicate Spared(a: Assertion, b: Assertion) {
    b.nextChild == a.nextChild && NoAttemptSince(a.log, b.log)
  }

  lemma SparedByNothing(a: Assertion)
    ensures Spared(a, a)
  {
  }

  lemma {:induction false} RefreshSpares(s: State, p: Platform, o: Oracle)
    requires ShouldBlock(s) ==> !WouldSpawn(Get(s, p), s.now)
    ensures var t := Refresh(s, o);
            Spared(Get(s, p), Get(t, p)) && (ShouldBlock(s) ==> !WouldSpawn(Get(t, p), t.now))
    decreases SpawnsLeft(s), 2
  {
    if ShouldBlock(s) {
      var s2 := s.(staleTimer := StaleDue(s.statuses, s.now), wanted := true, blocker := StartBlocker(s.blocker, o));
      StartSpares(s2, MacOS, p, o);
      StartSpares(StartAssertion(s2, MacOS, o), Linux, p, o);
    }
  }

  lemma {:induction false} StartSpares(s: State, q: Platform, p: Platform, o: Oracle)
    requires ShouldBlock(s) && s.wanted && !WouldSpawn(Get(s, p), s.now)
    ensures var t := StartAssertion(s, q, o); Spared(Get(s, p), Get(t, p)) && !WouldSpawn(Get(t, p), t.now)
    decreases SpawnsLeft(s), 1
  {
    if WouldSpawn(Get(s, q), s.now) {
      SpawnTrySpares(s, q, p, o);
    }
  }

  lemma {:induction false} SpawnTrySpares(s: State, q: Platform, p: Platform, o: Oracle)
    requires ShouldBlock(s) && s.wanted && WouldSpawn(Get(s, q), s.now) && !WouldSpawn(Get(s, p), s.now)
    ensures var t := TrySpawn(s, q, o); Spared(Get(s, p), Get(t, p)) && !WouldSpawn(Get(t, p), t.now)
    decreases SpawnsLeft(s), 0
  {
    hide Spared, ReportFailure, Spawned, SpawnFailed, Failed, SpawnsLeft;
    SparedByNothing(Get(s, p));
    FailedSpawnIsSpent(s, q, o(s.blocker.calls).ThrowsMissing?);
    if !o(s.blocker.calls).Works? {
      ReportSpares(Put(Called(s), q, SpawnFailed(Get(s, q), s.now)), q, None, o(s.blocker.calls).ThrowsMissing?, p, o);
    }
  }

  lemma {:induction false} ReportSpares(s: State, q: Platform, child: Option<nat>, missing: bool, p: Platform, o: Oracle)
    requires q == p || (ShouldBlock(s) ==> !WouldSpawn(Get(s, p), s.now))
    ensures var t := ReportFailure(s, q, child, missing, o);
            Spared(Get(s, p), Get(t, p)) && (ShouldBlock(s) ==> !WouldSpawn(Get(t, p), t.now))
    decreases SpawnsLeft(Put(s, q, Failed(q, Get(s, q), s.now, child, missing))), 3
  {
    if !(missing && q.Linux?) {
      RefreshSpares(Put(s, q, Failed(q, Get(s, q), s.now, child, missing)), p, o);
    }
  }

  /** A reported failure sets the retry deadline, or gives the tool up, before it calls
      back; so the callback, however it nests, neither spawns this assertion again nor
      tries to. */
  lemma CallbackDoesNotSpawn(s: State, p: Platform, child: Option<nat>, missing: bool, o: Oracle)
    ensures Spared(Get(s, p), Get(ReportFailure(s, p, child, missing, o), p))
  {
    ReportSpares(s, p, child, missing, p, o);
  }

  // ----------------------------------------------------- Quiet after dispose

  predicate Quiet(a: Assertion) {
    !a.retryTimer && a.listening == {} && a.child.None?
  }

  predicate AllQuiet(s: State) {
    s.staleTimer.None? && !s.subscribed && Quiet(s.mac) && Quiet(s.linux)
  }

  predicate IsCall(e: Event) {
    e.SetEnabled? || e.SetStatuses?
  }

  /** Nothing was spawned and no blocker was started. */
  predicate AcquiredNothing(s: State, t: State) {
    && t.mac.nextChild == s.mac.nextChild && t.linux.nextChild == s.linux.nextChild
    && t.blocker.next == s.blocker.next
    && t.blocker.started <= s.blocker.started && t.mac.running <= s.mac.running && t.linux.running <= s.linux.running
  }

  lemma StopBlockerStartsNone(b: Blocker, o: Oracle)
    ensures StopBlocker(b, o).next == b.next && StopBlocker(b, o).started <= b.started
  {
  }

  lemma DisposeQuiets(s: State, o: Oracle)
    requires Inv(s)
    ensures AllQuiet(Disposed(s, o)) && AcquiredNothing(s, Disposed(s, o))
  {
    StopBlockerStartsNone(s.blocker, o);
  }

  lemma {:induction false} QuietStaysQuiet(s: State, run: seq<Event>, o: Oracle)
    requires Inv(s) && Awake(s) && AllQuiet(s) && Legal(s, run, o)
    requires forall k :: 0 <= k < |run| ==> !IsCall(run[k])
    ensures AllQuiet(Run(s, run, o)) && AcquiredNothing(s, Run(s, run, o))
    decreases |run|
  {
    if run != [] {
      var t := Step(s, run[0], o);
      assert !IsCall(run[0]);
      StepKeepsInv(s, run[0], o);
      QuietStep(s, run[0], o);
      QuietStaysQuiet(t, run[1..], o);
    }
  }

  lemma QuietStep(s: State, e: Event, o: Oracle)
    requires Inv(s) && AllQuiet(s) && CanHappen(s, e) && !IsCall(e)
    ensures AllQuiet(Step(s, e, o)) && AcquiredNothing(s, Step(s, e, o))
  {
    if e.Dispose? {
      DisposeQuiets(s, o);
    }
  }

  /** After dispose nothing is left that could acquire anything: only an explicit
      call can. */
  lemma QuietAfterDispose(s: State, run: seq<Event>, o: Oracle)
    requires Reachable(s) && Legal(Step(s, Dispose, o), run, o)
    requires forall k :: 0 <= k < |run| ==> !IsCall(run[k])
    ensures AllQuiet(Run(Step(s, Dispose, o), run, o))
    ensures AcquiredNothing(s, Run(Step(s, Dispose, o), run, o))
  {
    hide AssertionInv, BlockerInv;
    ReachableInv(s);
    StepKeepsInv(s, Dispose, o);
    DisposeQuiets(s, o);
    QuietStaysQuiet(Step(s, Dispose, o), run, o);
  }
}
