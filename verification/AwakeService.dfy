/**
  The program's objects: the service, and the assertion that each platform has.
  Every method is proved to do what the state machine does.

  `onUnexpectedFailure` is the service's own `refresh`, so an assertion is given
  the service to call back. The fields named `world` are the platform's side.
 */
module AwakeService {
  import opened Wrappers
  import opened AwakeMachine
  import opened AwakeProofs

  /** `MacosSystemSleepAssertion` and `LinuxLidSleepAssertion`. The two differ in
      what a missing tool means, which only the Linux one looks for. */
  class SleepAssertion {
    const platform: Platform
    const active: bool
    var child: Option<nat>
    var retryNotBefore: Option<int>
    var retryTimer: bool
    var unavailable: bool
    var intentionalStops: set<nat>
    var reportedFailures: set<nat>
    var listening: set<nat>
    var running: set<nat>
    var asked: set<nat>
    var nextChild: nat
    var log: seq<Entry>

    constructor (platform: Platform, active: bool)
      ensures View() == NewAssertion(active) && this.platform == platform
    {
      this.platform, this.active := platform, active;
      child, retryNotBefore, retryTimer, unavailable := None, None, false, false;
      intentionalStops, reportedFailures, listening, running, asked := {}, {}, {}, {}, {};
      nextChild, log := 0, [];
    }

    function View(): Assertion
      reads this
    {
      Assertion(active, child, retryNotBefore, retryTimer, unavailable, intentionalStops, reportedFailures,
                listening, running, asked, nextChild, log)
    }

    method ScheduleRetryTimer()
      modifies this`retryTimer
      ensures View() == ScheduleRetry(old(View()))
    {
      if retryNotBefore.None? || retryTimer {
        return;
      }
      retryTimer := true;
    }

    method ResetRetrySuppression()
      modifies this`retryNotBefore, this`retryTimer
      ensures View() == ResetRetry(old(View()))
    {
      retryNotBefore := None;
      if !retryTimer {
        return;
      }
      retryTimer := false;
    }

    method StopNow(now: int)
      modifies this
      ensures View() == Stopped(old(View()), now)
    {
      log := log + [Stop(now)];
      ResetRetrySuppression();
      if child.None? {
        return;
      }
      var c := child.value;
      child := None;
      intentionalStops := intentionalStops + {c};
      listening := listening - {c};
      asked := asked + {c};
    }

    /** The child's listeners come off, and the failure is noted unless the child was
        stopped on purpose or has been reported already. */
    method NoteChildGone(c: nat) returns (report: bool)
      modifies this
      ensures View() == ChildGone(old(View()), c) && report == ReportsFailure(old(View()), c)
    {
      running := running - {c};
      listening := listening - {c};
      if c in intentionalStops {
        intentionalStops := intentionalStops - {c};
        return false;
      }
      if c in reportedFailures {
        return false;
      }
      reportedFailures := reportedFailures + {c};
      if child == Some(c) {
        child := None;
      }
      return true;
    }

    method NoteAttempt(now: int)
      modifies this`log
      ensures View() == SpawnFailed(old(View()), now)
    {
      log := log + [Attempt(now)];
    }

    method KeepChild(now: int)
      modifies this
      ensures View() == Spawned(old(View()), now)
    {
      log := log + [Attempt(now)];
      child := Some(nextChild);
      running, listening := running + {nextChild}, listening + {nextChild};
      nextChild := nextChild + 1;
      ResetRetrySuppression();
    }

    method Start(service: AgentAwakeService, o: Oracle)
      requires service.Assembled() && this in {service.macosAssertion, service.linuxAssertion}
      requires ShouldBlock(service.View()) && service.wanted
      modifies service, service.macosAssertion, service.linuxAssertion
      ensures service.Assembled()
      ensures service.View() == StartAssertion(old(service.View()), platform, o)
      decreases SpawnsLeft(service.View()), 1
    {
      hide TrySpawn;
      if !active || child.Some? || unavailable {
        return;
      }
      if retryNotBefore.Some? && service.now < retryNotBefore.value {
        ScheduleRetryTimer();
        return;
      }
      Spawn(service, o);
    }

    method Spawn(service: AgentAwakeService, o: Oracle)
      requires service.Assembled() && this in {service.macosAssertion, service.linuxAssertion}
      requires ShouldBlock(service.View()) && service.wanted && WouldSpawn(View(), service.now)
      modifies service, service.macosAssertion, service.linuxAssertion
      ensures service.Assembled()
      ensures service.View() == TrySpawn(old(service.View()), platform, o)
      decreases SpawnsLeft(service.View()), 0
    {
      hide Refresh, ReportFailure, Spawned, SpawnFailed, Failed, SpawnsLeft;
      ghost var s := service.View();
      var answer := o(service.calls);
      service.calls := service.calls + 1;
      if answer.Works? {
        KeepChild(service.now);
        return;
      }
      FailedSpawnIsSpent(s, platform, answer.ThrowsMissing?);
      NoteAttempt(service.now);
      assert service.View() == Put(Called(s), platform, SpawnFailed(Get(s, platform), s.now));
      HandleFailure(service, None, answer.ThrowsMissing?, o);
    }

    method NoteFailure(now: int, gone: Option<nat>, missing: bool)
      modifies this
      ensures View() == Failed(platform, old(View()), now, gone, missing)
    {
      log := log + [Failure(now, gone, missing && platform.Linux?)];
      if platform.Linux? && missing {
        unavailable := true;
        ResetRetrySuppression();
        return;
      }
      retryNotBefore := Some(now + RETRY_MS);
      ScheduleRetryTimer();
    }

    method HandleFailure(service: AgentAwakeService, gone: Option<nat>, missing: bool, o: Oracle)
      requires service.Assembled() && this in {service.macosAssertion, service.linuxAssertion}
      modifies service, service.macosAssertion, service.linuxAssertion
      ensures service.Assembled()
      ensures service.View() == ReportFailure(old(service.View()), platform, gone, missing, o)
      decreases SpawnsLeft(Put(service.View(), platform, Failed(platform, View(), service.now, gone, missing))), 3
    {
      hide Refresh;
      NoteFailure(service.now, gone, missing);
      if platform.Linux? && missing {
        return;
      }
      service.RefreshNow(o);
    }
  }

  class AgentAwakeService {
    var enabled: bool
    var statuses: seq<Status>
    var blockerId: Option<nat>
    var staleTimer: Option<int>
    var subscribed: bool
    const macosAssertion: SleepAssertion
    const linuxAssertion: SleepAssertion
    var wanted: bool
    var now: int
    var started: set<nat>
    var nextBlocker: nat
    var calls: nat

    constructor (onMac: bool, onLinux: bool, powerMonitor: bool, now: int)
      ensures Assembled() && View() == Initial(onMac, onLinux, powerMonitor, now)
      ensures fresh(macosAssertion) && fresh(linuxAssertion)
    {
      enabled, statuses, blockerId, staleTimer, subscribed := false, [], None, None, powerMonitor;
      linuxAssertion := new SleepAssertion(Linux, onLinux);
      macosAssertion := new SleepAssertion(MacOS, onMac);
      wanted, this.now, started, nextBlocker, calls := false, now, {}, 0, 0;
    }

    ghost predicate Assembled() {
      macosAssertion != linuxAssertion && macosAssertion.platform.MacOS? && linuxAssertion.platform.Linux?
    }

    function View(): State
      reads this, macosAssertion, linuxAssertion
    {
      State(enabled, statuses, staleTimer, subscribed, now, wanted,
            Blocker(blockerId, started, nextBlocker, calls), macosAssertion.View(), linuxAssertion.View())
    }

    method ReconcileBlocker(o: Oracle) returns (held: bool)
      modifies this`blockerId, this`calls
      ensures View() == old(View()).(blocker := Reconcile(old(View()).blocker, o).0)
      ensures held == Reconcile(old(View()).blocker, o).1
    {
      if blockerId.None? {
        return false;
      }
      var answer := o(calls);
      calls := calls + 1;
      if !answer.Works? {
        return true;
      }
      var isStarted := blockerId.value in started;
      if !isStarted {
        blockerId := None;
      }
      return isStarted;
    }

    method StartBlockerNow(o: Oracle)
      modifies this
      ensures View() == old(View()).(blocker := StartBlocker(old(View()).blocker, o))
    {
      hide NewBlocker;
      if blockerId.Some? {
        var held := ReconcileBlocker(o);
        if held {
          return;
        }
      }
      StartNewBlocker(o);
    }

    method StartNewBlocker(o: Oracle)
      modifies this
      ensures View() == old(View()).(blocker := NewBlocker(old(View()).blocker, o))
    {
      hide Reconcile;
      var answer := o(calls);
      calls := calls + 1;
      if answer.Works? {
        var id := nextBlocker;
        started, nextBlocker := started + {id}, nextBlocker + 1;
        blockerId := Some(id);
        var _ := ReconcileBlocker(o);
      }
    }

    method StopBlockerNow(o: Oracle)
      modifies this
      ensures View() == old(View()).(blocker := StopBlocker(old(View()).blocker, o))
    {
      if blockerId.None? {
        return;
      }
      var id := blockerId.value;
      var answer := o(calls);
      calls := calls + 1;
      if !answer.Throws? {
        started := started - {id};
      }
      var _ := ReconcileBlocker(o);
    }

    method CountEligible() returns (count: nat)
      ensures count == EligibleCount(statuses, now)
    {
      count := 0;
      for i := 0 to |statuses|
        invariant count == EligibleCount(statuses[..i], now)
      {
        assert statuses[..i + 1][..i] == statuses[..i];
        if WakeEligible(statuses[i], now) {
          count := count + 1;
        }
      }
      assert statuses[..|statuses|] == statuses;
    }

    method ScheduleStaleTimer()
      modifies this`staleTimer
      ensures staleTimer == StaleDue(statuses, now)
    {
      staleTimer := None;
      var earliestExpiry: Option<int> := None;
      for i := 0 to |statuses|
        invariant earliestExpiry == StaleDue(statuses[..i], now)
      {
        assert statuses[..i + 1][..i] == statuses[..i];
        var status := statuses[i];
        if !Tracked(status) {
          continue;
        }
        var expiry := Expiry(status);
        if expiry <= now {
          continue;
        }
        earliestExpiry := if earliestExpiry.None? || expiry < earliestExpiry.value then Some(expiry) else earliestExpiry;
      }
      assert statuses[..|statuses|] == statuses;
      if earliestExpiry.None? {
        return;
      }
      staleTimer := earliestExpiry;
    }

    method RefreshNow(o: Oracle)
      requires Assembled()
      modifies this, macosAssertion, linuxAssertion
      ensures Assembled()
      ensures View() == Refresh(old(View()), o)
      decreases SpawnsLeft(View()), 2
    {
      hide StartAssertion, StartBlocker, StopBlocker, StaleDue, EligibleCount;
      ScheduleStaleTimer();
      var runningStatusCount := CountEligible();
      wanted := enabled && runningStatusCount > 0;
      if wanted {
        StartBlockerNow(o);
        macosAssertion.Start(this, o);
        linuxAssertion.Start(this, o);
      } else {
        StopBlockerNow(o);
        macosAssertion.StopNow(now);
        linuxAssertion.StopNow(now);
      }
    }

    method SetEnabledTo(value: bool, o: Oracle)
      requires Assembled()
      modifies this, macosAssertion, linuxAssertion
      ensures Assembled() && View() == Step(old(View()), SetEnabled(value), o)
    {
      hide Refresh;
      if enabled == value {
        return;
      }
      enabled := value;
      RefreshNow(o);
    }

    method SetStatusesTo(list: seq<Status>, o: Oracle)
      requires Assembled()
      modifies this, macosAssertion, linuxAssertion
      ensures Assembled() && View() == Step(old(View()), SetStatuses(list), o)
    {
      hide Refresh;
      statuses := list;
      RefreshNow(o);
    }

    method DisposeNow(o: Oracle)
      requires Assembled()
      modifies this, macosAssertion, linuxAssertion
      ensures Assembled() && View() == Step(old(View()), Dispose, o)
    {
      hide StopBlocker, Stopped;
      staleTimer := None;
      subscribed := false;
      wanted := false;
      StopBlockerNow(o);
      macosAssertion.StopNow(now);
      linuxAssertion.StopNow(now);
    }

    method OnStaleTimer(o: Oracle)
      requires Assembled() && staleTimer.Some?
      modifies this, macosAssertion, linuxAssertion
      ensures Assembled() && View() == Step(old(View()), StaleFires, o)
    {
      hide Refresh;
      staleTimer := None;
      RefreshNow(o);
    }

    method OnResume(o: Oracle)
      requires Assembled() && subscribed
      modifies this, macosAssertion, linuxAssertion
      ensures Assembled() && View() == Step(old(View()), Resume, o)
    {
      hide Refresh;
      RefreshNow(o);
    }

    method OnRetryTimer(a: SleepAssertion, o: Oracle)
      requires Assembled() && a in {macosAssertion, linuxAssertion} && a.retryTimer
      modifies this, macosAssertion, linuxAssertion
      ensures Assembled() && View() == Step(old(View()), RetryFires(a.platform), o)
    {
      hide Refresh;
      a.retryTimer := false;
      RefreshNow(o);
    }

    method OnChildEvent(a: SleepAssertion, c: nat, missing: bool, o: Oracle)
      requires Assembled() && a in {macosAssertion, linuxAssertion} && c in a.running && c in a.listening
      modifies this, macosAssertion, linuxAssertion
      ensures Assembled() && View() == Step(old(View()), ChildEvent(a.platform, c, missing), o)
    {
      hide ReportFailure, ChildGone, ReportsFailure;
      var report := a.NoteChildGone(c);
      if report {
        a.HandleFailure(this, Some(c), missing, o);
      }
    }
  }
}
