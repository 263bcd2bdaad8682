/**
  The keep-awake controller as a state machine: the service that decides whether
  the machine must stay awake, its power-save blocker, and the two child-process
  assertions that hold it awake on macOS and on Linux.

  One event runs to its end before the next one starts, and the clock stands still
  meanwhile. A failed spawn calls back into the service in the middle of an event.
  What the platform answers to its n-th call is decided by an oracle.
 */
module AwakeMachine {
  import opened Wrappers

  const STALE_AFTER_MS := 7_200_000
  const RETRY_MS := 30_000

  // ---------------------------------------------------------------- Statuses

  datatype Receipt = At(ms: int) | NotFinite

  datatype Status = Status(working: bool, observed: bool, receivedAt: Receipt)

  predicate Tracked(status: Status) {
    status.observed && status.working && status.receivedAt.At?
  }

  function Expiry(status: Status): int
    requires Tracked(status)
  {
    status.receivedAt.ms + STALE_AFTER_MS
  }

  predicate WakeEligible(status: Status, now: int) {
    Tracked(status) && now - status.receivedAt.ms <= STALE_AFTER_MS
  }

  function EligibleCount(statuses: seq<Status>, now: int): nat {
    if statuses == [] then 0
    else
      var last := |statuses| - 1;
      EligibleCount(statuses[..last], now) + (if WakeEligible(statuses[last], now) then 1 else 0)
  }

  /** When the stale timer is due: the earliest expiry still ahead. */
  function StaleDue(statuses: seq<Status>, now: int): Option<int> {
    if statuses == [] then None
    else
      var last := statuses[|statuses| - 1];
      var before := StaleDue(statuses[..|statuses| - 1], now);
      if !Tracked(last) || Expiry(last) <= now then before
      else if before.None? || Expiry(last) < before.value then Some(Expiry(last))
      else before
  }

  // -------------------------------------------------------------- Assertions

  datatype Platform = MacOS | Linux

  /** What has happened to one assertion, in order. */
  datatype Entry =
    | Attempt(at: int)                                        // a spawn is tried
    | Failure(at: int, child: Option<nat>, missing: bool)     // a failure is reported
    | Stop(at: int)

  /** One assertion's fields, and the children it has spawned. */
  datatype Assertion = Assertion(
    active: bool,               // the machine runs this assertion's platform
    child: Option<nat>,
    retryNotBefore: Option<int>,
    retryTimer: bool,
    unavailable: bool,
    intentionalStops: set<nat>,
    reportedFailures: set<nat>,
    listening: set<nat>,        // children with our listeners attached
    running: set<nat>,          // spawned, and not yet exited
    asked: set<nat>,            // asked to die
    nextChild: nat,
    log: seq<Entry>)

  function NewAssertion(active: bool): Assertion {
    Assertion(active, None, None, false, false, {}, {}, {}, {}, {}, 0, [])
  }

  predicate Held(a: Assertion) {
    a.active ==> a.child.Some? || a.retryTimer || a.unavailable
  }

  /** A start at this moment would spawn. */
  predicate WouldSpawn(a: Assertion, now: int) {
    a.active && a.child.None? && !a.unavailable && (a.retryNotBefore.None? || a.retryNotBefore.value <= now)
  }

  function ScheduleRetry(a: Assertion): Assertion {
    if a.retryNotBefore.None? then a else a.(retryTimer := true)
  }

  function ResetRetry(a: Assertion): Assertion {
    a.(retryNotBefore := None, retryTimer := false)
  }

  function Spawned(a: Assertion, now: int): Assertion {
    var c := a.nextChild;
    ResetRetry(a.(child := Some(c), nextChild := c + 1, running := a.running + {c}, listening := a.listening + {c},
                  log := a.log + [Attempt(now)]))
  }

  function SpawnFailed(a: Assertion, now: int): Assertion {
    a.(log := a.log + [Attempt(now)])
  }

  /** A failure is recorded; unless the Linux tool is missing, a retry is set up. */
  function Failed(p: Platform, a: Assertion, now: int, child: Option<nat>, missing: bool): Assertion {
    var b := a.(log := a.log + [Failure(now, child, missing && p.Linux?)]);
    if missing && p.Linux? then ResetRetry(b.(unavailable := true))
    else ScheduleRetry(b.(retryNotBefore := Some(now + RETRY_MS)))
  }

  function Stopped(a: Assertion, now: int): Assertion {
    var b := ResetRetry(a.(log := a.log + [Stop(now)]));
    if a.child.None? then b
    else
      var c := a.child.value;
      b.(child := None, intentionalStops := b.intentionalStops + {c}, listening := b.listening - {c}, asked := b.asked + {c})
  }

  /** A listening child's error or exit, up to the report of the failure. */
  function ChildGone(a: Assertion, c: nat): Assertion {
    var b := a.(running := a.running - {c}, listening := a.listening - {c});
    if c in b.intentionalStops then b.(intentionalStops := b.intentionalStops - {c})
    else if c in b.reportedFailures then b
    else b.(reportedFailures := b.reportedFailures + {c}, child := if b.child == Some(c) then None else b.child)
  }

  predicate ReportsFailure(a: Assertion, c: nat) {
    c !in a.intentionalStops && c !in a.reportedFailures
  }

  // ----------------------------------------------------------------- Blocker

  datatype Answer = Works | Throws | ThrowsMissing

  /** What the platform answers to its n-th call. */
  type Oracle = nat -> Answer

  /** The recorded blocker id, and the blockers the system holds. */
  datatype Blocker = Blocker(id: Option<nat>, started: set<nat>, next: nat, calls: nat)

  /** Forgets a blocker the system no longer holds; a failed query changes nothing. */
  function Reconcile(b: Blocker, o: Oracle): (Blocker, bool) {
    if b.id.None? then (b, false)
    else
      var c := b.(calls := b.calls + 1);
      if !o(b.calls).Works? then (c, true)
      else if b.id.value in b.started then (c, true)
      else (c.(id := None), false)
  }

  function NewBlocker(b: Blocker, o: Oracle): Blocker {
    if !o(b.calls).Works? then b.(calls := b.calls + 1)
    else Reconcile(Blocker(Some(b.next), b.started + {b.next}, b.next + 1, b.calls + 1), o).0
  }

  function StartBlocker(b: Blocker, o: Oracle): Blocker {
    var (c, held) := Reconcile(b, o);
    if held then c else NewBlocker(c, o)
  }

  /** A stop that throws may or may not have stopped the blocker. */
  function StopBlocker(b: Blocker, o: Oracle): Blocker {
    if b.id.None? then b
    else
      var c := b.(calls := b.calls + 1);
      Reconcile(if o(b.calls).Throws? then c else c.(started := c.started - {b.id.value}), o).0
  }

  // ----------------------------------------------------------- The controller

  datatype State = State(
    enabled: bool,
    statuses: seq<Status>,
    staleTimer: Option<int>,
    subscribed: bool,
    now: int,
    wanted: bool,               // the last refresh decided to stay awake
    blocker: Blocker,
    mac: Assertion,
    linux: Assertion)

  function Initial(onMac: bool, onLinux: bool, subscribed: bool, now: int): State {
    State(false, [], None, subscribed, now, false, Blocker(None, {}, 0, 0), NewAssertion(onMac), NewAssertion(onLinux))
  }

  function Get(s: State, p: Platform): Assertion {
    if p.MacOS? then s.mac else s.linux
  }

  function Put(s: State, p: Platform, a: Assertion): State {
    if p.MacOS? then s.(mac := a) else s.(linux := a)
  }

  function Called(s: State): State {
    s.(blocker := s.blocker.(calls := s.blocker.calls + 1))
  }

  predicate ShouldBlock(s: State) {
    s.enabled && EligibleCount(s.statuses, s.now) > 0
  }

  /** How many spawns can still happen before the clock moves. */
  function SpawnsLeft(s: State): nat {
    (if WouldSpawn(s.mac, s.now) then 1 else 0) + (if WouldSpawn(s.linux, s.now) then 1 else 0)
  }

  /** The parts of the state that decide whether to block. */
  predicate SameInputs(s: State, t: State) {
    t.enabled == s.enabled && t.statuses == s.statuses && t.now == s.now && t.subscribed == s.subscribed
  }

  /** The stale timer is armed for the earliest expiry ahead, or not at all. */
  predicate TimerSet(s: State) {
    s.staleTimer == StaleDue(s.statuses, s.now)
  }

  /** The re-entrant core. A failed spawn moves the retry deadline past the present
      before it calls back, so each nested round has one spawn fewer to try. */
  function Refresh(s: State, o: Oracle): (t: State)
    ensures SameInputs(s, t) && t.wanted == ShouldBlock(s) && TimerSet(t)
    ensures ShouldBlock(s) ==> SpawnsLeft(t) <= SpawnsLeft(s)
    decreases SpawnsLeft(s), 2
  {
    var s1 := s.(staleTimer := StaleDue(s.statuses, s.now), wanted := ShouldBlock(s));
    if ShouldBlock(s) then
      var s2 := s1.(blocker := StartBlocker(s1.blocker, o));
      StartAssertion(StartAssertion(s2, MacOS, o), Linux, o)
    else
      s1.(blocker := StopBlocker(s1.blocker, o), mac := Stopped(s1.mac, s1.now), linux := Stopped(s1.linux, s1.now))
  }

  function StartAssertion(s: State, p: Platform, o: Oracle): (t: State)
    requires ShouldBlock(s) && s.wanted
    ensures SameInputs(s, t) && t.wanted && (TimerSet(s) ==> TimerSet(t))
    ensures SpawnsLeft(t) <= SpawnsLeft(s)
    decreases SpawnsLeft(s), 1
  {
    var a := Get(s, p);
    if !a.active || a.child.Some? || a.unavailable then s
    else if a.retryNotBefore.Some? && s.now < a.retryNotBefore.value then Put(s, p, ScheduleRetry(a))
    else TrySpawn(s, p, o)
  }

  function TrySpawn(s: State, p: Platform, o: Oracle): (t: State)
    requires ShouldBlock(s) && s.wanted && WouldSpawn(Get(s, p), s.now)
    ensures SameInputs(s, t) && t.wanted && (TimerSet(s) ==> TimerSet(t))
    ensures SpawnsLeft(t) <= SpawnsLeft(s)
    decreases SpawnsLeft(s), 0
  {
    var a := Get(s, p);
    var answer := o(s.blocker.calls);
    if answer.Works? then Put(Called(s), p, Spawned(a, s.now))
    else ReportFailure(Put(Called(s), p, SpawnFailed(a, s.now)), p, None, answer.ThrowsMissing?, o)
  }

  /** The attempt that failed is the one spawn fewer. */
  lemma FailedSpawnIsSpent(s: State, p: Platform, missing: bool)
    requires WouldSpawn(Get(s, p), s.now)
    ensures SpawnsLeft(Put(Called(s), p, Failed(p, SpawnFailed(Get(s, p), s.now), s.now, None, missing))) < SpawnsLeft(s)
  {
  }

  function ReportFailure(s: State, p: Platform, child: Option<nat>, missing: bool, o: Oracle): (t: State)
    ensures SameInputs(s, t) && (TimerSet(s) ==> TimerSet(t))
    ensures t.wanted == if missing && p.Linux? then s.wanted else ShouldBlock(s)
    ensures ShouldBlock(s) ==> SpawnsLeft(t) <= SpawnsLeft(Put(s, p, Failed(p, Get(s, p), s.now, child, missing)))
    decreases SpawnsLeft(Put(s, p, Failed(p, Get(s, p), s.now, child, missing))), 3
  {
    var t := Put(s, p, Failed(p, Get(s, p), s.now, child, missing));
    if missing && p.Linux? then t else Refresh(t, o)
  }
}
