/**
  The stale timer: between a refresh and the moment the timer is due, the decision
  taken at the refresh is the one a fresh look at the statuses would take. It is
  not when the last status expires at the very moment of the refresh.
 */
module StaleTimer {
  import opened Wrappers
  import opened AwakeMachine

  lemma {:induction false} EligibleCountPositive(statuses: seq<Status>, now: int)
    ensures EligibleCount(statuses, now) > 0 <==> exists i :: 0 <= i < |statuses| && WakeEligible(statuses[i], now)
  {
    if statuses != [] {
      var last := |statuses| - 1;
      EligibleCountPositive(statuses[..last], now);
      if i :| 0 <= i < last && WakeEligible(statuses[..last][i], now) {
        assert WakeEligible(statuses[i], now);
      }
      if i :| 0 <= i < |statuses| && WakeEligible(statuses[i], now) {
        assert i < last ==> WakeEligible(statuses[..last][i], now);
      }
    }
  }

  predicate ExpiresAfter(status: Status, now: int) {
    Tracked(status) && Expiry(status) > now
  }

  /** The timer is due at the earliest expiry still ahead, and is unarmed when there is none. */
  lemma {:induction false} StaleDueIsEarliest(statuses: seq<Status>, now: int)
    ensures var due := StaleDue(statuses, now);
            (due.Some? <==> exists i :: 0 <= i < |statuses| && ExpiresAfter(statuses[i], now)) &&
            (due.Some? ==>
               (exists i :: 0 <= i < |statuses| && ExpiresAfter(statuses[i], now) && Expiry(statuses[i]) == due.value) &&
               (forall i :: 0 <= i < |statuses| && ExpiresAfter(statuses[i], now) ==> due.value <= Expiry(statuses[i])))
  {
    if statuses != [] {
      var last := |statuses| - 1;
      StaleDueIsEarliest(statuses[..last], now);
      var before := StaleDue(statuses[..last], now);
      if before.Some? {
        var i :| 0 <= i < last && ExpiresAfter(statuses[..last][i], now) && Expiry(statuses[..last][i]) == before.value;
        assert ExpiresAfter(statuses[i], now) && Expiry(statuses[i]) == before.value;
      }
      forall i | 0 <= i < |statuses| && ExpiresAfter(statuses[i], now)
        ensures StaleDue(statuses, now).Some? && StaleDue(statuses, now).value <= Expiry(statuses[i])
      {
        if i < last {
          assert ExpiresAfter(statuses[..last][i], now);
        }
      }
    }
  }

  /** `t` is after the refresh and before the timer is due. */
  predicate BeforeDue(statuses: seq<Status>, refreshed: int, t: int) {
    refreshed <= t && (StaleDue(statuses, refreshed).None? || t < StaleDue(statuses, refreshed).value)
  }

  predicate Decision(enabled: bool, statuses: seq<Status>, t: int) {
    enabled && EligibleCount(statuses, t) > 0
  }

  /** The statuses that keep the machine awake at the refresh all expire right then. */
  predicate AllExpireNow(statuses: seq<Status>, now: int) {
    && (exists i :: 0 <= i < |statuses| && Tracked(statuses[i]) && Expiry(statuses[i]) == now)
    && (forall i :: 0 <= i < |statuses| ==> !ExpiresAfter(statuses[i], now))
  }

  /** The decision taken at a refresh stays right until the timer is due, exactly
      when the statuses do not all expire at the refresh itself. */
  lemma DecisionStaysRightIff(enabled: bool, statuses: seq<Status>, refreshed: int)
    ensures (forall t :: BeforeDue(statuses, refreshed, t) ==> Decision(enabled, statuses, t) == Decision(enabled, statuses, refreshed))
            <==> !(enabled && AllExpireNow(statuses, refreshed))
  {
    StaleDueIsEarliest(statuses, refreshed);
    EligibleCountPositive(statuses, refreshed);
    if enabled && AllExpireNow(statuses, refreshed) {
      var i :| 0 <= i < |statuses| && Tracked(statuses[i]) && Expiry(statuses[i]) == refreshed;
      assert WakeEligible(statuses[i], refreshed);
      EligibleCountPositive(statuses, refreshed + 1);
      forall j | 0 <= j < |statuses| ensures !WakeEligible(statuses[j], refreshed + 1) {
        assert !ExpiresAfter(statuses[j], refreshed);
      }
      assert BeforeDue(statuses, refreshed, refreshed + 1);
    } else {
      forall t | BeforeDue(statuses, refreshed, t)
        ensures Decision(enabled, statuses, t) == Decision(enabled, statuses, refreshed)
      {
        EligibleCountPositive(statuses, t);
        if i :| 0 <= i < |statuses| && ExpiresAfter(statuses[i], refreshed) {
          assert WakeEligible(statuses[i], t) && WakeEligible(statuses[i], refreshed);
        } else {
          assert enabled ==> forall i :: 0 <= i < |statuses| && Tracked(statuses[i]) ==> Expiry(statuses[i]) < refreshed;
        }
      }
    }
  }

  /** Statuses that all expire right now keep the machine awake with no timer armed;
      that happens in no other way, and from the next millisecond on it is wrong. */
  lemma HeldWithoutTimerIff(statuses: seq<Status>, now: int)
    ensures AllExpireNow(statuses, now) <==> Decision(true, statuses, now) && StaleDue(statuses, now).None?
    ensures AllExpireNow(statuses, now) ==> forall t :: t > now ==> !Decision(true, statuses, t)
  {
    StaleDueIsEarliest(statuses, now);
    EligibleCountPositive(statuses, now);
    if AllExpireNow(statuses, now) {
      var i :| 0 <= i < |statuses| && Tracked(statuses[i]) && Expiry(statuses[i]) == now;
      assert WakeEligible(statuses[i], now);
      forall t | t > now ensures !Decision(true, statuses, t) {
        EligibleCountPositive(statuses, t);
        assert forall j :: 0 <= j < |statuses| ==> !ExpiresAfter(statuses[j], now);
      }
    }
  }

  /** A timer that fires at the very millisecond it is due finds its statuses still
      eligible. If no other status outlives them, the machine is kept awake with no
      further timer, at every later time, although nothing is eligible then. */
  lemma TimerOnTimeHoldsForever(statuses: seq<Status>, refreshed: int)
    requires StaleDue(statuses, refreshed).Some?
    ensures var due := StaleDue(statuses, refreshed).value;
            Decision(true, statuses, due) &&
            (StaleDue(statuses, due).None? <==> AllExpireNow(statuses, due)) &&
            (StaleDue(statuses, due).None? ==> forall t :: t > due ==> !Decision(true, statuses, t))
  {
    var due := StaleDue(statuses, refreshed).value;
    StaleDueIsEarliest(statuses, refreshed);
    EligibleCountPositive(statuses, due);
    HeldWithoutTimerIff(statuses, due);
    var i :| 0 <= i < |statuses| && ExpiresAfter(statuses[i], refreshed) && Expiry(statuses[i]) == due;
    assert WakeEligible(statuses[i], due);
  }
}
