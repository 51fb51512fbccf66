/**
 * The two declarative event predicates (EventPredicates.java): equality of the
 * event type, and "a data field's string form starts with a prefix".
 */
module EventPredicates {
  import opened Events

  /** `EventTypeEventPredicate(eventType).apply(event)`. */
  function TypeApply(eventType: string, e: Event): (r: bool)
    ensures r <==> e.eventType == eventType
  {
    eventType == e.eventType
  }

  /** `StartsWithEventPredicate(field, prefix).apply(event)`: an absent field and a
      field mapped to null both give false; otherwise the field's string form is
      tested for the prefix. */
  function StartsWithApply(field: string, prefix: string, e: Event): (r: bool)
    ensures field !in e.data ==> !r
    ensures field in e.data && e.data[field] == Null ==> !r
    ensures field in e.data && e.data[field] != Null ==>
      (r <==> |prefix| <= |Show(e.data[field])| && Show(e.data[field])[..|prefix|] == prefix)
  {
    if field !in e.data || e.data[field] == Null then false
    else prefix <= Show(e.data[field])
  }

  /** With an empty prefix the predicate only tests that the field is present and not null. */
  lemma EmptyPrefixTestsPresence(field: string, e: Event)
    ensures StartsWithApply(field, "", e) <==> field in e.data && e.data[field] != Null
  {
  }
}
