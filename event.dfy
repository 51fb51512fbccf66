/**
 * The event record that the tap receives (Event.java).
 *
 * An `Event` is an immutable value: the Java class has only final fields, set
 * once by its constructor, and plain getters, so a datatype models it exactly and
 * each getter is the datatype's field selector. The bean-validation annotations on
 * the getters (non-null fields, the alphanumeric type pattern) are modelled by
 * `Validate`, which turns a decoded record with nullable fields into an `Event`
 * or the set of constraint violations.
 */
module Events {
  import opened Wrappers

  /** A value in an event's `data` map as decoded from JSON; `Null` is a JSON null. */
  datatype Value = Null | Text(s: string) | Number(n: int) | Flag(b: bool)

  /** The `data` payload of an event: field name to value. */
  type Data = map<string, Value>

  /** A validated event. The Java field `type` is called `eventType` here. */
  datatype Event = Event(eventType: string, uuid: string, host: string, timestamp: int, data: Data)

  /** The same record as the JSON constructor receives it: every field may be null. */
  datatype EventJson = EventJson(
    eventType: Option<string>,
    uuid: Option<string>,
    host: Option<string>,
    timestamp: Option<int>,
    data: Option<Data>)

  /** The constraint violations the validation annotations can report. */
  datatype Violation = Missing(property: string) | NotAlphanumeric

  predicate IsAsciiLetter(c: char) {
    'A' <= c <= 'Z' || 'a' <= c <= 'z'
  }

  predicate IsAsciiDigit(c: char) {
    '0' <= c <= '9'
  }

  predicate IsAsciiAlnum(c: char) {
    IsAsciiLetter(c) || IsAsciiDigit(c)
  }

  /** Matches `[A-Za-z0-9]*` against the whole of `s`, one character at a time. */
  predicate MatchesAlnumStar(s: string) {
    s == [] || (IsAsciiAlnum(s[0]) && MatchesAlnumStar(s[1..]))
  }

  /** Matches the type pattern `[A-Za-z][A-Za-z0-9]*` against the whole of `s`. */
  predicate MatchesTypePattern(s: string) {
    s != [] && IsAsciiLetter(s[0]) && MatchesAlnumStar(s[1..])
  }

  lemma {:induction false} AlnumStarIff(s: string)
    ensures MatchesAlnumStar(s) <==> forall i :: 0 <= i < |s| ==> IsAsciiAlnum(s[i])
  {
    if s != [] {
      AlnumStarIff(s[1..]);
      assert forall i :: 1 <= i < |s| ==> s[i] == s[1..][i - 1];
    }
  }

  /** An event type is valid exactly when it is a non-empty string that starts with
      an ASCII letter and continues with ASCII letters and digits only. */
  lemma TypePatternIff(s: string)
    ensures MatchesTypePattern(s) <==>
      (|s| > 0 && IsAsciiLetter(s[0]) && forall i :: 1 <= i < |s| ==> IsAsciiAlnum(s[i]))
  {
    if s != [] {
      AlnumStarIff(s[1..]);
      assert forall i :: 1 <= i < |s| ==> s[i] == s[1..][i - 1];
    }
  }

  /** Every violation of the annotations on the getters: each null field is reported
      as missing, and a present type that does not match the pattern as not alphanumeric. */
  function Violations(j: EventJson): (vs: set<Violation>)
    ensures Missing("type") in vs <==> j.eventType.None?
    ensures NotAlphanumeric in vs <==> (j.eventType.Some? && !MatchesTypePattern(j.eventType.value))
    ensures vs == {} <==>
      (j.eventType.Some? && j.uuid.Some? && j.host.Some? && j.timestamp.Some? && j.data.Some?
       && MatchesTypePattern(j.eventType.value))
  {
    (if j.eventType.None? then {Missing("type")}
     else if !MatchesTypePattern(j.eventType.value) then {NotAlphanumeric} else {})
    + (if j.uuid.None? then {Missing("uuid")} else {})
    + (if j.host.None? then {Missing("host")} else {})
    + (if j.timestamp.None? then {Missing("timestamp")} else {})
    + (if j.data.None? then {Missing("data")} else {})
  }

  /** Validation of a decoded record: an `Event` when no constraint is violated. */
  function Validate(j: EventJson): (r: Result<Event, set<Violation>>)
    ensures r.Success? <==> Violations(j) == {}
    ensures r.Success? ==>
      && Some(r.value.eventType) == j.eventType && Some(r.value.uuid) == j.uuid
      && Some(r.value.host) == j.host && Some(r.value.timestamp) == j.timestamp
      && Some(r.value.data) == j.data
    ensures r.Failure? ==> r.error == Violations(j) && r.error != {}
  {
    var vs := Violations(j);
    if vs == {} then
      Success(Event(j.eventType.value, j.uuid.value, j.host.value, j.timestamp.value, j.data.value))
    else
      Failure(vs)
  }

  /** The record an event serialises to through its getters. */
  function ToJson(e: Event): EventJson {
    EventJson(Some(e.eventType), Some(e.uuid), Some(e.host), Some(e.timestamp), Some(e.data))
  }

  /** Every getter returns exactly what the constructor was given: an event with a
      valid type survives serialisation and validation unchanged. */
  lemma ValidateToJson(e: Event)
    requires MatchesTypePattern(e.eventType)
    ensures Validate(ToJson(e)) == Success(e)
  {
  }

  /** The number a string of decimal digits denotes, most significant digit first. */
  function DecimalValue(s: string): nat
    requires forall i :: 0 <= i < |s| ==> IsAsciiDigit(s[i])
  {
    if s == [] then 0
    else
      var last := s[|s| - 1];
      assert IsAsciiDigit(last);
      10 * DecimalValue(s[..|s| - 1]) + (last as int - '0' as int)
  }

  /** The decimal digits of a natural number, most significant first: all digits,
      no leading zero, and they denote `n`. */
  function NatToDecimal(n: nat): (s: string)
    ensures |s| > 0 && forall i :: 0 <= i < |s| ==> IsAsciiDigit(s[i])
    ensures s[0] == '0' <==> n == 0
    ensures DecimalValue(s) == n
  {
    var d := ['0' + (n % 10) as char];
    if n < 10 then d
    else
      var s := NatToDecimal(n / 10) + d;
      assert s[..|s| - 1] == NatToDecimal(n / 10);
      s
  }

  /** `String.valueOf` of a data value, as the starts-with predicate uses it:
      a number is written in decimal with a leading minus sign when negative. */
  function Show(v: Value): (s: string)
    ensures v.Null? ==> s == "null"
    ensures v.Text? ==> s == v.s
    ensures v.Number? && v.n >= 0 ==>
      && |s| > 0 && (forall i :: 0 <= i < |s| ==> IsAsciiDigit(s[i]))
      && (s[0] == '0' <==> v.n == 0) && DecimalValue(s) == v.n
    ensures v.Number? && v.n < 0 ==>
      && |s| > 1 && s[0] == '-' && (forall i :: 1 <= i < |s| ==> IsAsciiDigit(s[i]))
      && s[1] != '0' && DecimalValue(s[1..]) == -v.n
    ensures v.Flag? ==> s == (if v.b then "true" else "false")
  {
    match v
    case Null => "null"
    case Text(s) => s
    case Number(n) => if n < 0 then "-" + NatToDecimal(-n) else NatToDecimal(n)
    case Flag(b) => if b then "true" else "false"
  }
}
