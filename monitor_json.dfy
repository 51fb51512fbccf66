/**
 * A decoded monitor rule (MonitorJson.java) and the event predicate it builds.
 *
 * `startsWith` is an immutable map that iterates in insertion order, so it is a
 * sequence of (field, prefix) entries here; the conjunction built from it does not
 * depend on that order (`ToPredicateOrderIrrelevant`). The rate bounds are both
 * optional: a rule with only `minOneMinuteRate` is the single-bound form.
 */
module MonitorJsons {
  import opened Wrappers
  import opened Events
  import EventPredicates
  import opened Filters

  /** One entry of a `startsWith` map: a data field and the prefix its value must have. */
  datatype Entry = Entry(field: string, prefix: string)

  datatype FilterJson = FilterJson(startsWith: seq<Entry>)

  datatype MonitorJson = MonitorJson(
    eventType: string,
    filter: FilterJson,
    minOneMinuteRate: Option<real>,
    maxOneMinuteRate: Option<real>)

  /** The JSON constructor: an absent filter becomes one with an empty `startsWith` map. */
  function NewMonitorJson(eventType: string, filter: Option<FilterJson>,
                          minOneMinuteRate: Option<real>, maxOneMinuteRate: Option<real>): (r: MonitorJson)
    ensures r.eventType == eventType
    ensures r.minOneMinuteRate == minOneMinuteRate && r.maxOneMinuteRate == maxOneMinuteRate
    ensures r.filter == if filter.Some? then filter.value else FilterJson([])
  {
    MonitorJson(eventType, if filter.Some? then filter.value else FilterJson([]),
                minOneMinuteRate, maxOneMinuteRate)
  }

  /** Whether `e` satisfies every entry of a `startsWith` map. */
  ghost predicate AllPrefixesMatch(entries: seq<Entry>, e: Event) {
    forall i :: 0 <= i < |entries| ==> EventPredicates.StartsWithApply(entries[i].field, entries[i].prefix, e)
  }

  /** `FilterJson.toPredicate`: always true for an empty map, otherwise the
      conjunction of one starts-with predicate per entry, in iteration order. */
  function ToPredicate(fj: FilterJson): (r: Filter)
    ensures fj.startsWith == [] ==> r == AlwaysTrue
    ensures forall e :: Matches(r, e) <==> AllPrefixesMatch(fj.startsWith, e)
  {
    var entries := fj.startsWith;
    if entries == [] then AlwaysTrue
    else
      var parts := seq(|entries|, i requires 0 <= i < |entries| => StartsWith(entries[i].field, entries[i].prefix));
      assert forall e :: Matches(All(parts), e) <==> AllPrefixesMatch(entries, e) by {
        forall e ensures Matches(All(parts), e) <==> AllPrefixesMatch(entries, e) {
          assert forall i :: 0 <= i < |parts| ==> Matches(parts[i], e) == EventPredicates.StartsWithApply(entries[i].field, entries[i].prefix, e);
        }
      }
      All(parts)
  }

  /** `MonitorJson.getEventPredicate`: the type test and the filter's predicate. */
  function GetEventPredicate(mj: MonitorJson): (r: Filter)
    ensures forall e :: Matches(r, e) <==> e.eventType == mj.eventType && AllPrefixesMatch(mj.filter.startsWith, e)
  {
    var parts := [OfType(mj.eventType), ToPredicate(mj.filter)];
    assert forall e :: Matches(All(parts), e) <==> Matches(parts[0], e) && Matches(parts[1], e);
    All(parts)
  }

  /** A rule without a filter selects exactly the events of its type. */
  lemma AbsentFilterSelectsType(eventType: string, lo: Option<real>, hi: Option<real>, e: Event)
    ensures Matches(GetEventPredicate(NewMonitorJson(eventType, None, lo, hi)), e) <==> e.eventType == eventType
  {
  }

  /** The conjunction depends only on which entries the map holds, not on their order. */
  lemma ToPredicateOrderIrrelevant(a: seq<Entry>, b: seq<Entry>, e: Event)
    requires forall x :: x in a <==> x in b
    ensures Matches(ToPredicate(FilterJson(a)), e) == Matches(ToPredicate(FilterJson(b)), e)
  {
    assert AllPrefixesMatch(a, e) ==> AllPrefixesMatch(b, e) by {
      if AllPrefixesMatch(a, e) {
        forall j | 0 <= j < |b| ensures EventPredicates.StartsWithApply(b[j].field, b[j].prefix, e) {
          assert b[j] in a;
          var i :| 0 <= i < |a| && a[i] == b[j];
        }
      }
    }
    assert AllPrefixesMatch(b, e) ==> AllPrefixesMatch(a, e) by {
      if AllPrefixesMatch(b, e) {
        forall i | 0 <= i < |a| ensures EventPredicates.StartsWithApply(a[i].field, a[i].prefix, e) {
          assert a[i] in b;
          var j :| 0 <= j < |b| && b[j] == a[i];
        }
      }
    }
  }
}
