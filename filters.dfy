/**
 * Event filters as a monitor holds them (the `Predicate<Event>` values built in
 * MonitorJson.java and applied in Monitor.java): the two declarative predicates,
 * the expression predicate, the always-true predicate and the conjunction of a
 * list of predicates. `Select` is the filtering of a batch that
 * `Monitor.processEvents` counts.
 */
module Filters {
  import opened Wrappers
  import opened Events
  import EventPredicates
  import EventPredicate

  datatype Filter =
    | AlwaysTrue
    | OfType(eventType: string)
    | StartsWith(field: string, prefix: string)
    | Expression(exprType: string, eventFilter: Option<string>, compiled: EventPredicate.Compiled)
    | All(parts: seq<Filter>)

  /** Whether event `e` satisfies filter `f`. A conjunction holds when every part does. */
  function Matches(f: Filter, e: Event): (r: bool)
    ensures f.OfType? ==> (r <==> e.eventType == f.eventType)
    ensures f.StartsWith? && f.field !in e.data ==> !r
    ensures f.Expression? && e.eventType != f.exprType ==> !r
    ensures f.All? && f.parts == [] ==> r
    ensures f.All? ==> (r <==> forall i | 0 <= i < |f.parts| :: Matches(f.parts[i], e))
    decreases f
  {
    match f
    case AlwaysTrue => true
    case OfType(t) => EventPredicates.TypeApply(t, e)
    case StartsWith(k, p) => EventPredicates.StartsWithApply(k, p, e)
    case Expression(t, src, c) => EventPredicate.Apply(t, src, c, e)
    case All(parts) => forall i | 0 <= i < |parts| :: Matches(parts[i], e)
  }

  /** The events of a batch that satisfy `f`, in batch order. */
  function Select(f: Filter, events: seq<Event>): (r: seq<Event>)
    ensures |r| <= |events|
    ensures forall x :: x in r ==> x in events && Matches(f, x)
    ensures forall x :: x in events && Matches(f, x) ==> x in r
  {
    if events == [] then []
    else
      var rest := Select(f, events[1..]);
      if Matches(f, events[0]) then [events[0]] + rest else rest
  }

  /** The selected events are the batch's matching events, each as often as it occurs. */
  lemma {:induction false} SelectOccurrences(f: Filter, events: seq<Event>)
    ensures forall x :: multiset(Select(f, events))[x] == if Matches(f, x) then multiset(events)[x] else 0
  {
    if events != [] {
      SelectOccurrences(f, events[1..]);
      assert events == [events[0]] + events[1..];
      assert multiset(events) == multiset{events[0]} + multiset(events[1..]);
    }
  }

  /** Selecting from two batches in turn selects from their concatenation. */
  lemma {:induction false} SelectAppend(f: Filter, a: seq<Event>, b: seq<Event>)
    ensures Select(f, a + b) == Select(f, a) + Select(f, b)
    decreases |a|
  {
    if a == [] {
      assert a + b == b;
    } else {
      var ab := a + b;
      assert ab[1..] == a[1..] + b;
      SelectAppend(f, a[1..], b);
      if Matches(f, a[0]) {
        calc {
          Select(f, ab);
          [a[0]] + Select(f, a[1..] + b);
          [a[0]] + (Select(f, a[1..]) + Select(f, b));
          ([a[0]] + Select(f, a[1..])) + Select(f, b);
        }
      }
    }
  }

  /** `n` copies of one event, as a test batch. */
  function Copies(n: nat, e: Event): (r: seq<Event>)
    ensures |r| == n && forall i :: 0 <= i < n ==> r[i] == e
  {
    if n == 0 then [] else [e] + Copies(n - 1, e)
  }

  /** A batch of copies of one event counts either entirely or not at all. */
  lemma {:induction false} SelectCopies(f: Filter, n: nat, e: Event)
    ensures |Select(f, Copies(n, e))| == if Matches(f, e) then n else 0
  {
    if n > 0 {
      assert Copies(n, e)[1..] == Copies(n - 1, e);
      SelectCopies(f, n - 1, e);
    }
  }

  /** A type filter given `n` events of its type and `m` of another type counts `n`
      (100 "event" plus 100 "not-event" counts 100). */
  lemma MixedBatchCountsOwnType(t: string, n: nat, m: nat, mine: Event, other: Event)
    requires mine.eventType == t && other.eventType != t
    ensures |Select(OfType(t), Copies(n, mine) + Copies(m, other))| == n
  {
    SelectAppend(OfType(t), Copies(n, mine), Copies(m, other));
    SelectCopies(OfType(t), n, mine);
    SelectCopies(OfType(t), m, other);
  }
}
