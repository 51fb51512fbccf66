/**
 * A monitor (Monitor.java): counts the events its filter selects and, when its
 * state is checked, compares the one-minute rate with its bounds and alerts on
 * every change between OK and FAILED, and only then.
 *
 * Both bounds are optional. The failure test is `rate < minimum` (strict, so a
 * rate equal to the minimum is OK) or `rate > maximum`; a monitor with only a
 * minimum behaves as the single-bound form.
 */
module Monitors {
  import opened Wrappers
  import opened Events
  import opened Filters
  import opened Counters
  import opened Alerting

  /** Whether a one-minute rate satisfies the configured bounds: at least the
      minimum and at most the maximum, where present. */
  predicate InBounds(rate: real, minimum: Option<real>, maximum: Option<real>)
    ensures minimum.None? && maximum.None? ==> InBounds(rate, minimum, maximum)
    ensures minimum.Some? && maximum.None? ==> (InBounds(rate, minimum, maximum) <==> minimum.value <= rate)
    ensures minimum.None? && maximum.Some? ==> (InBounds(rate, minimum, maximum) <==> rate <= maximum.value)
    ensures minimum.Some? && maximum.Some? ==>
      (InBounds(rate, minimum, maximum) <==> minimum.value <= rate <= maximum.value)
  {
    (minimum.None? || !(rate < minimum.value)) && (maximum.None? || !(rate > maximum.value))
  }

  /** The expectation an alert names: it follows which bounds are configured. */
  function ExpectationOf(minimum: Option<real>, maximum: Option<real>): (x: Expectation)
    ensures minimum.Some? && maximum.None? ==> x == GreaterThan(minimum.value)
    ensures minimum.None? && maximum.Some? ==> x == LessThan(maximum.value)
    ensures minimum.Some? && maximum.Some? ==> x == Between(minimum.value, maximum.value)
    ensures minimum.None? && maximum.None? ==> x == Unbounded
  {
    match (minimum, maximum)
    case (Some(lo), None) => GreaterThan(lo)
    case (None, Some(hi)) => LessThan(hi)
    case (Some(lo), Some(hi)) => Between(lo, hi)
    case (None, None) => Unbounded
  }

  /** The state after a check and the alerts the check sent. */
  datatype Check = Check(failed: bool, alerts: seq<Alert>)

  /** One `checkState` of monitor `name`, in state `failed`, at one-minute rate `rate`. */
  function Evaluate(name: string, failed: bool, rate: real, minimum: Option<real>, maximum: Option<real>): (c: Check)
    // the new state is FAILED exactly when the rate is out of bounds
    ensures c.failed <==> !InBounds(rate, minimum, maximum)
    // edge-triggered: one alert when the state changes, none otherwise
    ensures |c.alerts| <= 1
    ensures c.alerts != [] <==> c.failed != failed
    // the alert names the monitor and says which way the state went
    ensures c.alerts != [] ==> c.alerts[0].name == name && c.alerts[0].failed == c.failed
    ensures c.alerts != [] && c.failed ==>
      c.alerts[0].description == FailedReason(ExpectationOf(minimum, maximum), rate)
    ensures c.alerts != [] && !c.failed ==>
      c.alerts[0].description == RecoveredReason(ExpectationOf(minimum, maximum))
  {
    if !InBounds(rate, minimum, maximum) then
      if !failed then Check(true, [Alert(name, true, FailedReason(ExpectationOf(minimum, maximum), rate))])
      else Check(true, [])
    else
      if failed then Check(false, [Alert(name, false, RecoveredReason(ExpectationOf(minimum, maximum)))])
      else Check(false, [])
  }

  /** A check repeated at the same rate changes nothing and sends nothing. */
  lemma RepeatedCheckIsSilent(name: string, failed: bool, rate: real, minimum: Option<real>, maximum: Option<real>)
    ensures var c := Evaluate(name, failed, rate, minimum, maximum);
      Evaluate(name, c.failed, rate, minimum, maximum) == Check(c.failed, [])
  {
  }

  /** A series of checks at the given rates, starting in state `failed`. */
  function Run(name: string, failed: bool, rates: seq<real>, minimum: Option<real>, maximum: Option<real>): Check
    decreases rates
  {
    if rates == [] then Check(failed, [])
    else
      var first := Evaluate(name, failed, rates[0], minimum, maximum);
      var rest := Run(name, first.failed, rates[1..], minimum, maximum);
      Check(rest.failed, first.alerts + rest.alerts)
  }

  /** Over any series of checks the alerts strictly alternate between failure and
      recovery, the first one leaving the starting state, and the final state is
      the starting state flipped once per alert: exactly one alert per transition. */
  lemma {:induction false} RunAlertsAlternate(name: string, failed: bool, rates: seq<real>,
                                              minimum: Option<real>, maximum: Option<real>)
    ensures var c := Run(name, failed, rates, minimum, maximum);
      && |c.alerts| <= |rates|
      && (forall i :: 0 <= i < |c.alerts| ==> c.alerts[i].name == name && (c.alerts[i].failed <==> (i % 2 == 0) != failed))
      && (c.failed <==> (|c.alerts| % 2 == 1) != failed)
    decreases rates
  {
    if rates != [] {
      var first := Evaluate(name, failed, rates[0], minimum, maximum);
      RunAlertsAlternate(name, first.failed, rates[1..], minimum, maximum);
      var rest := Run(name, first.failed, rates[1..], minimum, maximum);
      var all := first.alerts + rest.alerts;
      assert Run(name, failed, rates, minimum, maximum) == Check(rest.failed, all);
      if first.alerts != [] {
        assert |first.alerts| == 1 && first.failed != failed;
        forall i | 0 <= i < |all|
          ensures all[i].name == name && (all[i].failed <==> (i % 2 == 0) != failed)
        {
          if i > 0 {
            assert all[i] == rest.alerts[i - 1];
            ParityStep(i);
          }
        }
        ParityStep(|all|);
      } else {
        assert all == rest.alerts;
      }
    }
  }

  /** Moving one place along flips parity. */
  lemma ParityStep(i: int)
    requires i >= 1
    ensures (i % 2 == 0) <==> ((i - 1) % 2 == 1)
  {
  }

  /** A monitor with a positive minimum that receives no events reads rate 0 however
      often its counter ticks, so its first check fails it with one alert. */
  lemma IdleNewMonitorFails(name: string, k: nat, minimum: real, maximum: Option<real>)
    requires minimum > 0.0
    ensures var rate := EwmaRate(IdleTicks(NewEwma(OneMinuteAlpha), k));
      Evaluate(name, false, rate, Some(minimum), maximum)
        == Check(true, [Alert(name, true, FailedReason(ExpectationOf(Some(minimum), maximum), 0.0))])
  {
    IdleNewStaysZero(OneMinuteAlpha, k);
  }

  class Monitor {
    const name: string
    const eventType: string
    const filter: Filter
    const minOneMinuteRate: Option<real>
    const maxOneMinuteRate: Option<real>
    const alerter: InMemoryAlerter
    const counterStat: CounterStat
    var failed: bool

    constructor (name: string, eventType: string, filter: Filter,
                 minOneMinuteRate: Option<real>, maxOneMinuteRate: Option<real>, alerter: InMemoryAlerter)
      ensures this.name == name && this.eventType == eventType && this.filter == filter
      ensures this.minOneMinuteRate == minOneMinuteRate && this.maxOneMinuteRate == maxOneMinuteRate
      ensures this.alerter == alerter
      ensures !failed
      ensures fresh(counterStat) && counterStat.Valid() && counterStat.count == 0
      ensures counterStat.oneMinute == NewEwma(OneMinuteAlpha) && counterStat.fiveMinute == NewEwma(FiveMinuteAlpha)
      ensures counterStat.fifteenMinute == NewEwma(FifteenMinuteAlpha)
      ensures counterStat.GetOneMinuteRate() == 0.0 && counterStat.GetFiveMinuteRate() == 0.0
      ensures counterStat.GetFifteenMinuteRate() == 0.0
    {
      this.name := name;
      this.eventType := eventType;
      this.filter := filter;
      this.alerter := alerter;
      counterStat := new CounterStat();
      this.minOneMinuteRate := minOneMinuteRate;
      this.maxOneMinuteRate := maxOneMinuteRate;
      failed := false;
    }

    function GetName(): string {
      name
    }

    function GetEventType(): string {
      eventType
    }

    function GetMinimumOneMinuteRate(): Option<real> {
      minOneMinuteRate
    }

    function GetMaximumOneMinuteRate(): Option<real> {
      maxOneMinuteRate
    }

    function GetEvents(): CounterStat {
      counterStat
    }

    function IsFailed(): bool
      reads this
    {
      failed
    }

    /** Compares the one-minute rate with the bounds; moves between OK and FAILED
        and tells the alerter, once, only when the state changes. The counter is
        only read. */
    method CheckState()
      modifies this, alerter
      ensures unchanged(counterStat)
      ensures var c := Evaluate(name, old(failed), counterStat.GetOneMinuteRate(), minOneMinuteRate, maxOneMinuteRate);
        failed == c.failed && alerter.alerts == old(alerter.alerts) + c.alerts
    {
      var oneMinuteRate := counterStat.GetOneMinuteRate();
      var expected := ExpectationOf(minOneMinuteRate, maxOneMinuteRate);
      if !InBounds(oneMinuteRate, minOneMinuteRate, maxOneMinuteRate) {
        if !failed {
          failed := true;
          alerter.Failed(name, FailedReason(expected, oneMinuteRate));
        }
      } else {
        if failed {
          failed := false;
          alerter.Recovered(name, RecoveredReason(expected));
        }
      }
    }

    /** Counts the events of the batch that the filter selects and updates the
        counter once with that number. */
    method ProcessEvents(events: seq<Event>)
      modifies counterStat
      ensures counterStat.count == old(counterStat.count) + |Select(filter, events)|
      ensures counterStat.oneMinute == EwmaUpdate(old(counterStat.oneMinute), |Select(filter, events)|)
      ensures counterStat.fiveMinute == EwmaUpdate(old(counterStat.fiveMinute), |Select(filter, events)|)
      ensures counterStat.fifteenMinute == EwmaUpdate(old(counterStat.fifteenMinute), |Select(filter, events)|)
      ensures old(counterStat.Valid()) ==> counterStat.Valid()
    {
      var count := |Select(filter, events)|;
      counterStat.Update(count);
    }
  }
}
