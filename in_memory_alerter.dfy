/**
 * The in-memory alerter (InMemoryAlerter.java): an append-only log of the
 * failure and recovery notifications a monitor sends.
 *
 * A description is a tagged reason rather than formatted text: which expectation
 * the monitor holds (at least a minimum, at most a maximum, or between both) and,
 * for a failure, the rate that was seen. The expectation is what the texts say:
 * "greater than", "less than" or "between".
 */
module Alerting {

  datatype Expectation =
    | GreaterThan(minimum: real)
    | LessThan(maximum: real)
    | Between(minimum: real, maximum: real)
    | Unbounded

  datatype Reason =
    | FailedReason(expected: Expectation, actual: real)
    | RecoveredReason(expected: Expectation)

  /** `InMemoryAlert`: the monitor's name, whether it is a failure, and the description. */
  datatype Alert = Alert(name: string, failed: bool, description: Reason)

  class InMemoryAlerter {
    var alerts: seq<Alert>

    constructor ()
      ensures alerts == []
    {
      alerts := [];
    }

    /** `getAlerts()`: the log, oldest first. */
    function GetAlerts(): seq<Alert>
      reads this
    {
      alerts
    }

    /** `getAlerts().clear()`: the live list is returned, so a caller can empty it. */
    method ClearAlerts()
      modifies this
      ensures alerts == []
    {
      alerts := [];
    }

    /** `failed(name, description)`: appends one failure entry; earlier entries stay as they were. */
    method Failed(name: string, description: Reason)
      modifies this
      ensures alerts == old(alerts) + [Alert(name, true, description)]
    {
      alerts := alerts + [Alert(name, true, description)];
    }

    /** `recovered(name, description)`: appends one recovery entry; earlier entries stay as they were. */
    method Recovered(name: string, description: Reason)
      modifies this
      ensures alerts == old(alerts) + [Alert(name, false, description)]
    {
      alerts := alerts + [Alert(name, false, description)];
    }
  }
}
