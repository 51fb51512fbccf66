/**
 * Building the monitors from the decoded rule map (MonitorLoader.java): one new
 * monitor per rule, named by the rule's key, sharing the loader's alerter.
 * Decoding the JSON text into the rule map is not part of this model; `Load`
 * takes the decoded map.
 */
module Loader {
  import Events
  import Counters
  import opened MonitorJsons
  import opened Filters
  import opened Alerting
  import opened Monitors

  /** Monitor `m` is the one `load` builds from `rule`: type, predicate and bounds
      come from the rule, the alerter is shared, and the monitor is OK with an
      empty counter. */
  ghost predicate BuiltFrom(m: Monitor, rule: MonitorJson, alerter: InMemoryAlerter)
    reads m, m.counterStat
  {
    && m.eventType == rule.eventType
    && m.filter == GetEventPredicate(rule)
    && m.minOneMinuteRate == rule.minOneMinuteRate
    && m.maxOneMinuteRate == rule.maxOneMinuteRate
    && m.alerter == alerter
    && !m.failed
    && m.counterStat.Valid() && m.counterStat.count == 0
    && m.counterStat.oneMinute == Counters.NewEwma(Counters.OneMinuteAlpha)
    && m.counterStat.fiveMinute == Counters.NewEwma(Counters.FiveMinuteAlpha)
    && m.counterStat.fifteenMinute == Counters.NewEwma(Counters.FifteenMinuteAlpha)
  }

  /** A monitor built from a rule counts exactly the events of the rule's type that
      satisfy every entry of its filter, each as often as it occurs in the batch. */
  lemma BuiltMonitorCounts(rule: MonitorJson, events: seq<Events.Event>)
    ensures forall x :: multiset(Select(GetEventPredicate(rule), events))[x] ==
                        if x.eventType == rule.eventType && AllPrefixesMatch(rule.filter.startsWith, x)
                        then multiset(events)[x] else 0
  {
    SelectOccurrences(GetEventPredicate(rule), events);
  }

  /** `load`: a set of new monitors, exactly one per rule; every rate of a loaded
      monitor reads 0. */
  method Load(rules: map<string, MonitorJson>, alerter: InMemoryAlerter) returns (monitors: set<Monitor>)
    ensures |monitors| == |rules|
    ensures forall m :: m in monitors ==> fresh(m) && fresh(m.counterStat)
    ensures forall m :: m in monitors ==> m.name in rules && BuiltFrom(m, rules[m.name], alerter)
    ensures forall name :: name in rules ==> exists m :: m in monitors && m.name == name
    ensures forall m1, m2 :: m1 in monitors && m2 in monitors && m1 != m2 ==>
      m1.name != m2.name && m1.counterStat != m2.counterStat
    ensures forall m :: m in monitors ==>
      m.counterStat.GetOneMinuteRate() == 0.0 && m.counterStat.GetFiveMinuteRate() == 0.0
      && m.counterStat.GetFifteenMinuteRate() == 0.0
  {
    monitors := {};
    var remaining := rules.Keys;
    while remaining != {}
      invariant remaining <= rules.Keys
      invariant |monitors| + |remaining| == |rules.Keys|
      invariant forall m :: m in monitors ==> fresh(m) && fresh(m.counterStat)
      invariant forall m :: m in monitors ==> m.name in rules && m.name !in remaining && BuiltFrom(m, rules[m.name], alerter)
      invariant forall name :: name in rules && name !in remaining ==> exists m :: m in monitors && m.name == name
      invariant forall m1, m2 :: m1 in monitors && m2 in monitors && m1 != m2 ==>
        m1.name != m2.name && m1.counterStat != m2.counterStat
      decreases remaining
    {
      var name :| name in remaining;
      var rule := rules[name];
      var monitor := new Monitor(name, rule.eventType, GetEventPredicate(rule),
                                 rule.minOneMinuteRate, rule.maxOneMinuteRate, alerter);
      assert monitor !in monitors;
      monitors := monitors + {monitor};
      remaining := remaining - {name};
    }
    assert |rules| == |rules.Keys|;
  }
}
