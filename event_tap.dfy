/**
 * The event tap endpoint (MonitorEventTapResource.java): hands every posted batch
 * to every monitor and keeps, per event type, how many events were posted.
 * The HTTP binding is not part of this model; the endpoint's methods are plain
 * method calls.
 */
module EventTap {
  import opened Events
  import opened Filters
  import opened Counters
  import opened Monitors

  /** The value of `key` in a counter table, 0 when absent. */
  function CountOf(history: map<string, int>, key: string): int {
    if key in history then history[key] else 0
  }

  class MonitorEventTapResource {
    const monitors: set<Monitor>
    var history: map<string, int>

    /** No two monitors share a counter (the loader builds each with its own). */
    ghost predicate Valid() {
      forall m1, m2 :: m1 in monitors && m2 in monitors && m1 != m2 ==> m1.counterStat != m2.counterStat
    }

    constructor (monitors: set<Monitor>)
      ensures this.monitors == monitors && history == map[]
    {
      this.monitors := monitors;
      history := map[];
    }

    /** `post(events)`: an empty batch does nothing. Otherwise every monitor
        processes the batch once, and the whole batch is counted under the type of
        its first event (batches are assumed to be of one type). */
    method Post(events: seq<Event>)
      requires Valid()
      modifies this, set m | m in monitors :: m.counterStat
      ensures events == [] ==> history == old(history)
      ensures events == [] ==> forall m :: m in monitors ==> unchanged(m.counterStat)
      ensures events != [] ==>
        history == old(history)[events[0].eventType := CountOf(old(history), events[0].eventType) + |events|]
      ensures events != [] ==> forall m :: m in monitors ==>
        && m.counterStat.count == old(m.counterStat.count) + |Select(m.filter, events)|
        && m.counterStat.oneMinute == EwmaUpdate(old(m.counterStat.oneMinute), |Select(m.filter, events)|)
        && m.counterStat.fiveMinute == EwmaUpdate(old(m.counterStat.fiveMinute), |Select(m.filter, events)|)
        && m.counterStat.fifteenMinute == EwmaUpdate(old(m.counterStat.fifteenMinute), |Select(m.filter, events)|)
    {
      if events == [] {
        return;
      }
      var remaining := monitors;
      while remaining != {}
        invariant remaining <= monitors
        invariant history == old(history)
        invariant forall m :: m in remaining ==> unchanged(m.counterStat)
        invariant forall m :: m in monitors && m !in remaining ==>
          && m.counterStat.count == old(m.counterStat.count) + |Select(m.filter, events)|
          && m.counterStat.oneMinute == EwmaUpdate(old(m.counterStat.oneMinute), |Select(m.filter, events)|)
          && m.counterStat.fiveMinute == EwmaUpdate(old(m.counterStat.fiveMinute), |Select(m.filter, events)|)
          && m.counterStat.fifteenMinute == EwmaUpdate(old(m.counterStat.fifteenMinute), |Select(m.filter, events)|)
        decreases remaining
      {
        var monitor :| monitor in remaining;
        monitor.ProcessEvents(events);
        remaining := remaining - {monitor};
      }
      var key := events[0].eventType;
      history := history[key := CountOf(history, key) + |events|];
    }

    /** `getStats()`: the posted-event count per event type. */
    function GetStats(): (stats: map<string, int>)
      reads this
      ensures stats.Keys == history.Keys
      ensures forall key :: key in stats ==> stats[key] == CountOf(history, key)
    {
      history
    }

    /** `resetStats()`: forgets every count. */
    method ResetStats()
      modifies this
      ensures history == map[]
    {
      history := map[];
    }
  }
}
