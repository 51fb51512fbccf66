/**
 * The expression-based event predicate (EventPredicate.java): an event type plus
 * an optional filter expression in an embedded expression language.
 *
 * The expression language itself is outside the model. Its compiled form is an
 * opaque function from an event's data to an `Outcome`: the Boolean it produced
 * (`None` when the expression yielded null), or `Throws` when evaluation raised an
 * exception (a missing field, a value of the wrong type).
 */
module EventPredicate {
  import opened Wrappers
  import opened Events

  datatype Outcome = Yields(result: Option<bool>) | Throws

  /** A compiled filter expression. */
  type Compiled = Data -> Outcome

  /** `EventPredicate(eventType, eventFilter).apply(event)`, with `compiled` the
      compiled form of `eventFilter`. */
  function Apply(eventType: string, eventFilter: Option<string>, compiled: Compiled, e: Event): (r: bool)
    // another type never matches, whatever the expression
    ensures e.eventType != eventType ==> !r
    // no expression: every event of the type matches
    ensures e.eventType == eventType && eventFilter.None? ==> r
    // with an expression, only an evaluation that yields exactly true matches
    ensures eventFilter.Some? ==> (r <==> e.eventType == eventType && compiled(e.data) == Yields(Some(true)))
  {
    if e.eventType != eventType then false
    else if eventFilter.None? then true
    else
      match compiled(e.data)
      case Yields(b) => b == Some(true)
      case Throws => false
  }

  /** Evaluation failures never escape: an exception, a null result and a false
      result all make the predicate false. */
  lemma FailuresAreFalse(eventType: string, src: string, compiled: Compiled, e: Event)
    requires compiled(e.data) in {Throws, Yields(None), Yields(Some(false))}
    ensures !Apply(eventType, Some(src), compiled, e)
  {
  }
}
