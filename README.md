# Event monitor: attribution, counting and edge-triggered alerts

A Dafny model of the core of the event monitor service. Batches of events are
posted to the tap endpoint and handed to every monitor. Each monitor keeps the
events its filter selects, counts them, and tracks decaying one-, five- and
fifteen-minute rates. When its state is checked, a monitor compares the
one-minute rate with its configured bounds. It tells the alerter once when it
moves from OK to FAILED and once when it moves back, and never otherwise.

One module per Java class of the core:

- `Events` (event.dfy): the immutable event record, its validation constraints
  (non-null fields, the type pattern `[A-Za-z][A-Za-z0-9]*`) and the string form
  of data values.
- `EventPredicates` (event_predicates.dfy): the type-equality and
  field-starts-with predicates.
- `EventPredicate` (event_predicate.dfy): the expression predicate. The
  embedded expression language is an opaque compiled function that yields a
  Boolean, null, or an exception.
- `Filters` (filters.dfy): a filter as a monitor holds it. It is one of
  always-true, type, starts-with, expression, or the conjunction of a list of
  filters. It comes with `Matches` and with `Select`, which filters a batch.
- `MonitorJsons` (monitor_json.dfy): the decoded rule, filter defaulting, and the
  predicate a rule builds.
- `Counters` (counter_stat.dfy): the three rate windows as pure functions
  (`Ewma`) and the `CounterStat` class that holds them with the lifetime count.
- `Alerting` (in_memory_alerter.dfy): the append-only in-memory alert log and
  the tagged alert reasons.
- `Monitors` (monitor.dfy): `Evaluate`, the pure specification of one state
  check, and the `Monitor` class. Its `CheckState` is proved against `Evaluate`,
  and its `ProcessEvents` against `Select`.
- `Loader` (monitor_loader.dfy): one new monitor per decoded rule.
- `EventTap` (event_tap.dfy): fan-out of a posted batch and the per-type history
  table.
- `Amazon` (amazon_config.dfy): the alerter configuration, its defaults, its
  chaining setters and its validity rule.

Where the sources disagree, the model follows the form the loader and the
tests use. `Monitor.java` and `MonitorJson.java` have a single
`minOneMinuteRate`. `MonitorLoader.java:48-53` and the tests call a two-bound
`Monitor` constructor and `getMaxOneMinuteRate`/`getMaximumOneMinuteRate`, which
those files do not define. Here both bounds are `Option<real>`, and a monitor
with only a minimum behaves exactly as the single-bound code does. The rules are:

- A rate below the minimum fails. The test is strict `<` (`Monitor.java:103`),
  so a rate equal to the minimum is OK.
- A rate above the maximum fails, and a rate equal to the maximum is OK. No
  source file fixes this comparison, and the tests do not settle equality: one
  loop feeds until `rate >= maximum` and then expects FAILED, another ticks until
  `rate <= maximum` and then expects OK. Using strict `>` is the model's choice,
  mirroring the minimum.
- An alert's reason follows which bounds are configured, not which bound was
  crossed. The tests expect "greater than" for a minimum only, "less than" for a
  maximum only, and "between" for both, even when the rate fell below the
  minimum.
- The monitor compares the counter's per-second one-minute rate directly with
  the configured bound, as the code does.

## Model

| member | source | states |
|---|---|---|
| `Events.TypePatternIff` | src/main/java/com/proofpoint/event/monitor/Event.java:37 | the type pattern matches exactly the non-empty strings that start with an ASCII letter and continue with ASCII letters and digits |
| `Events.Violations` | src/main/java/com/proofpoint/event/monitor/Event.java:35-69 | a null type is reported missing, a type not matching the pattern is reported as not alphanumeric, and there is no violation iff all five fields are non-null and the type matches |
| `Events.Validate` | src/main/java/com/proofpoint/event/monitor/Event.java:21-69 | a decoded record becomes an event iff it violates no constraint, and then each field of the event is the one given; otherwise the violations are returned |
| `Events.ValidateToJson` | src/main/java/com/proofpoint/event/monitor/Event.java:28-32 | every getter returns exactly the constructor's argument: an event with a valid type passes validation of its own fields unchanged |
| `Events.NatToDecimal` | src/main/java/com/proofpoint/event/monitor/EventPredicates.java:66 | the decimal form of a number is all digits, starts with 0 only for 0, and denotes the number |
| `Events.Show` | src/main/java/com/proofpoint/event/monitor/EventPredicates.java:66 | the string form of a value: "null", the text itself, "true"/"false", or a number's digits (after a minus sign when negative) denoting its magnitude without a leading zero |
| `EventPredicates.TypeApply` | src/main/java/com/proofpoint/event/monitor/EventPredicates.java:31-35 | the type predicate holds iff the event's type equals the configured type |
| `EventPredicates.StartsWithApply` | src/main/java/com/proofpoint/event/monitor/EventPredicates.java:59-68 | false when the field is absent or null; otherwise true iff the value's string form begins with the prefix |
| `EventPredicates.EmptyPrefixTestsPresence` | src/main/java/com/proofpoint/event/monitor/EventPredicates.java:62-67 | with an empty prefix the predicate holds iff the field is present and not null |
| `EventPredicate.Apply` | src/main/java/com/proofpoint/event/monitor/EventPredicate.java:44-63 | another type never matches; without an expression every event of the type matches; with one, an event matches iff its type is right and evaluation yields exactly true |
| `EventPredicate.FailuresAreFalse` | src/main/java/com/proofpoint/event/monitor/EventPredicate.java:55-62 | an evaluation that throws, yields null or yields false makes the predicate false |
| `Filters.Matches` | src/main/java/com/proofpoint/event/monitor/Monitor.java:119 | applying a monitor's filter: a type filter holds iff the types are equal, a starts-with filter fails on an absent field, an expression filter fails on another type, and a conjunction holds iff every part does (so the empty one always holds) |
| `Filters.Select` | src/main/java/com/proofpoint/event/monitor/Monitor.java:119 | the selected events are no more than the batch, all come from it and match, and every matching event of the batch is selected |
| `Filters.SelectOccurrences` | src/main/java/com/proofpoint/event/monitor/Monitor.java:119 | each event occurs in the selection as often as in the batch if it matches, and not at all otherwise |
| `Filters.SelectAppend` | src/main/java/com/proofpoint/event/monitor/Monitor.java:119 | selecting from a concatenation of batches is selecting from each in turn |
| `Filters.SelectCopies` | src/test/java/com/proofpoint/event/monitor/TestMonitor.java:77-78 | a batch of n copies of one event counts n if it matches and 0 otherwise |
| `Filters.MixedBatchCountsOwnType` | src/test/java/com/proofpoint/event/monitor/TestMonitor.java:85-91 | a type filter given n events of its type followed by m of another type counts exactly n |
| `MonitorJsons.NewMonitorJson` | src/main/java/com/proofpoint/event/monitor/MonitorJson.java:38-52 | an absent filter is replaced by one with an empty starts-with map; type and bounds are kept |
| `MonitorJsons.ToPredicate` | src/main/java/com/proofpoint/event/monitor/MonitorJson.java:107-118 | an empty map gives the always-true filter; any map gives a filter that an event satisfies iff every (field, prefix) entry's starts-with predicate holds |
| `MonitorJsons.GetEventPredicate` | src/main/java/com/proofpoint/event/monitor/MonitorJson.java:66-69 | an event satisfies the rule's predicate iff it has the rule's type and satisfies every starts-with entry |
| `MonitorJsons.AbsentFilterSelectsType` | src/main/java/com/proofpoint/event/monitor/MonitorJson.java:45-50 | a rule without a filter selects exactly the events of its type |
| `MonitorJsons.ToPredicateOrderIrrelevant` | src/main/java/com/proofpoint/event/monitor/MonitorJson.java:113-117 | the conjunction's verdict depends only on which entries the map holds, not on their iteration order |
| `Counters.NewEwma` | src/main/java/com/proofpoint/event/monitor/CounterStat.java:19-21 | a new window has rate 0, nothing accumulated and has not ticked |
| `Counters.EwmaUpdate` | src/main/java/com/proofpoint/event/monitor/CounterStat.java:64-66 | an update adds n to the pending events and leaves the rate unchanged |
| `Counters.EwmaTick` | src/main/java/com/proofpoint/event/monitor/CounterStat.java:57-59 | a tick clears the pending events; the first tick sets the rate to pending / 5 s; later ticks shrink the gap between the rate and pending / 5 s by the factor 1 - alpha |
| `Counters.EwmaRate` | src/main/java/com/proofpoint/event/monitor/CounterStat.java:79 | the rate read in events per second is never negative for a sound window |
| `Counters.TickKeepsSound` | src/main/java/com/proofpoint/event/monitor/CounterStat.java:55-60 | a tick of a window with non-negative pending events and rate keeps both non-negative: rates are never negative |
| `Counters.NoRateBeforeFirstTick` | src/test/java/com/proofpoint/event/monitor/TestMonitorsResource.java:94 | a window that has never ticked reports rate 0, whatever was accumulated |
| `Counters.FirstTickSeeds` | src/main/java/com/proofpoint/event/monitor/CounterStat.java:55-60 | the first tick after n events reports exactly n / 5 events per second |
| `Counters.UpdatesActAsTheirSum` | src/main/java/com/proofpoint/event/monitor/CounterStat.java:62-67 | any series of updates between ticks equals one update with their sum, so the next tick depends only on that sum |
| `Counters.IdleNewStaysZero` | src/test/java/com/proofpoint/event/monitor/TestServer.java:233-239 | a new window that gets no events reads rate 0 after any number of ticks |
| `Counters.IdleDecay` | src/test/java/com/proofpoint/event/monitor/TestMonitor.java:137-140 | k ticks with no events multiply an initialised window's rate by (1 - alpha)^k |
| `Counters.IdleTickDecreases` | src/test/java/com/proofpoint/event/monitor/TestMonitor.java:137-140 | an idle tick strictly lowers a positive rate and keeps it positive |
| `Counters.EventuallyAtMost` | src/test/java/com/proofpoint/event/monitor/TestMonitor.java:137-140 | for any positive bound, some number of idle ticks brings the rate to at most the bound, so the tests' "tick while above" loops end |
| `Counters.FedGap` | src/test/java/com/proofpoint/event/monitor/TestMonitor.java:119-124 | k rounds of "update n, tick" shrink the gap to the target rate n / 5 by (1 - alpha)^k |
| `Counters.EventuallyAtLeast` | src/test/java/com/proofpoint/event/monitor/TestMonitor.java:119-124 | from any starting rate, feeding n events per tick brings the rate within any positive margin of n / 5 on either side, so the tests' "feed while below" loops end |
| `Counters.CounterStat.constructor` | src/main/java/com/proofpoint/event/monitor/CounterStat.java:18-28 | a new counter has count 0 and three fresh windows with their fixed smoothing factors |
| `Counters.CounterStat.Tick` | src/main/java/com/proofpoint/event/monitor/CounterStat.java:54-60 | every window ticks, the count is unchanged, and the counter invariant is kept |
| `Counters.CounterStat.Update` | src/main/java/com/proofpoint/event/monitor/CounterStat.java:62-68 | the same n goes to all three windows and the count grows by exactly n |
| `Counters.CounterStat.GetOneMinuteRate` | src/main/java/com/proofpoint/event/monitor/CounterStat.java:76-80 | reads the one-minute window only; never negative for a valid counter |
| `Counters.CounterStat.GetFiveMinuteRate` | src/main/java/com/proofpoint/event/monitor/CounterStat.java:82-86 | reads the five-minute window only; never negative for a valid counter |
| `Counters.CounterStat.GetFifteenMinuteRate` | src/main/java/com/proofpoint/event/monitor/CounterStat.java:88-92 | reads the fifteen-minute window only; never negative for a valid counter |
| `Alerting.InMemoryAlerter.constructor` | src/main/java/com/proofpoint/event/monitor/InMemoryAlerter.java:9 | a new alerter has an empty log |
| `Alerting.InMemoryAlerter.Failed` | src/main/java/com/proofpoint/event/monitor/InMemoryAlerter.java:16-20 | appends exactly one entry (name, failed, description) and leaves earlier entries as they were |
| `Alerting.InMemoryAlerter.Recovered` | src/main/java/com/proofpoint/event/monitor/InMemoryAlerter.java:22-26 | appends exactly one entry (name, recovered, description) and leaves earlier entries as they were |
| `Alerting.InMemoryAlerter.ClearAlerts` | src/main/java/com/proofpoint/event/monitor/InMemoryAlerter.java:11-14 | the log is the live list, so clearing it leaves it empty |
| `Monitors.InBounds` | src/main/java/com/proofpoint/event/monitor/Monitor.java:103 | with no bounds every rate is in bounds; otherwise a rate is in bounds iff it is at least the minimum and at most the maximum, where present |
| `Monitors.ExpectationOf` | src/test/java/com/proofpoint/event/monitor/TestMonitor.java:115-296 | the reason names "greater than" the minimum, "less than" the maximum, or "between" both, according to which bounds are configured |
| `Monitors.Evaluate` | src/main/java/com/proofpoint/event/monitor/Monitor.java:99-115 | after a check the state is FAILED iff the rate is out of bounds; exactly one alert is sent iff the state changed, naming the monitor and the new state, with a failure or recovery reason |
| `Monitors.RepeatedCheckIsSilent` | src/main/java/com/proofpoint/event/monitor/Monitor.java:104-110 | a second check at the same rate changes nothing and sends nothing |
| `Monitors.RunAlertsAlternate` | src/main/java/com/proofpoint/event/monitor/Monitor.java:103-114 | over any series of checks, alerts alternate failed/recovered starting away from the initial state, and the final state is the initial one flipped once per alert |
| `Monitors.IdleNewMonitorFails` | src/test/java/com/proofpoint/event/monitor/TestServer.java:233-239 | a new monitor with a positive minimum that gets no events fails at its first check after any number of ticks, with one failure alert at rate 0 |
| `Monitors.Monitor.constructor` | src/main/java/com/proofpoint/event/monitor/Monitor.java:42-51 | a new monitor keeps its name, type, filter, bounds and alerter, and is not failed. Its fresh counter has count 0, and all three windows are new (not yet ticked, nothing pending), so all three rates read 0 |
| `Monitors.Monitor.CheckState` | src/main/java/com/proofpoint/event/monitor/Monitor.java:99-115 | the new state and the alerts appended to the alerter are those of `Evaluate` at the current one-minute rate; the counter is not changed |
| `Monitors.Monitor.ProcessEvents` | src/main/java/com/proofpoint/event/monitor/Monitor.java:117-121 | one update with the number of events the filter selects: count and all three windows grow by exactly that number |
| `Loader.Load` | src/main/java/com/proofpoint/event/monitor/MonitorLoader.java:41-57 | one new monitor per rule, named by its key, with that rule's type, predicate and bounds, the shared alerter, OK state, and a counter with count 0 and three new windows, so all three rates read 0; names and counters are distinct |
| `Loader.BuiltMonitorCounts` | src/main/java/com/proofpoint/event/monitor/MonitorLoader.java:48-53 | a loaded monitor selects exactly the events of its type that satisfy every filter entry, each as often as it occurs |
| `EventTap.MonitorEventTapResource.constructor` | src/main/java/com/proofpoint/event/monitor/MonitorEventTapResource.java:40-47 | the resource holds the given monitors and an empty history |
| `EventTap.MonitorEventTapResource.Post` | src/main/java/com/proofpoint/event/monitor/MonitorEventTapResource.java:49-67 | an empty batch changes nothing; otherwise every monitor processes the batch exactly once and the history entry of the first event's type grows by the batch size, starting from 0, all other entries kept |
| `EventTap.MonitorEventTapResource.GetStats` | src/main/java/com/proofpoint/event/monitor/MonitorEventTapResource.java:69-82 | the same keys as the history, each mapped to its current count |
| `EventTap.MonitorEventTapResource.ResetStats` | src/main/java/com/proofpoint/event/monitor/MonitorEventTapResource.java:84-89 | the history is empty afterwards |
| `Amazon.AmazonConfig.constructor` | src/main/java/com/proofpoint/event/monitor/AmazonConfig.java:26-31 | the defaults are alerting enabled, a 10-second update time and no addresses or keys, and this default configuration is invalid |
| `Amazon.AmazonConfig.SetCloudWatchUpdateTime` | src/main/java/com/proofpoint/event/monitor/AmazonConfig.java:38-43 | sets only the update time and returns the same object |
| `Amazon.AmazonConfig.SetFromAddress` | src/main/java/com/proofpoint/event/monitor/AmazonConfig.java:50-55 | sets only the sender address and returns the same object |
| `Amazon.AmazonConfig.SetToAddress` | src/main/java/com/proofpoint/event/monitor/AmazonConfig.java:62-67 | sets only the recipient address and returns the same object |
| `Amazon.AmazonConfig.SetAwsAccessKey` | src/main/java/com/proofpoint/event/monitor/AmazonConfig.java:74-79 | sets only the access key and returns the same object |
| `Amazon.AmazonConfig.SetAwsSecretKey` | src/main/java/com/proofpoint/event/monitor/AmazonConfig.java:86-91 | sets only the secret key and returns the same object |
| `Amazon.AmazonConfig.SetAlertingEnabled` | src/main/java/com/proofpoint/event/monitor/AmazonConfig.java:98-103 | sets only the alerting flag, returns the same object, and disabling alerting makes the configuration valid |
| `Amazon.ValidSettingsIff` | src/main/java/com/proofpoint/event/monitor/AmazonConfig.java:105-109 | with alerting disabled the configuration is valid; with it enabled, valid iff both addresses and both keys are set |

## Left out

- Scheduling: `start`/`stop` of `Monitor` and `CounterStat` and the executor they share are not modelled. Ticks and state checks are explicit method calls. The executor is therefore not a field of the modelled monitor, and that every loaded monitor shares the loader's executor is not stated.
- Concurrency: the atomic boolean, atomic long and concurrent map are plain sequential state, and compare-and-set is a test followed by a set.
- The moving-average class is not part of this model. A window is the datatype `Ewma`. It keeps its rate per second, ticks every 5 seconds, seeds its rate on the first tick, and moves the rate by the smoothing factor 1 - exp(-5/60/m). The factors are written as their double values. Double-precision rounding is not modelled: rates are exact reals.
- The embedded expression language is not modelled. A compiled expression is an opaque function from event data to a Boolean, null or an exception. Compiling a malformed expression throws in the predicate's constructor, and that failure is not modelled.
- Alert descriptions are tagged reasons (`Alerting.Reason`), not formatted strings of doubles.
- JSON decoding of events and rules and file reading are not modelled. `Load` takes the decoded rule map. `Validate` takes a decoded record.
- An event timestamp is an integer standing for the date-time. A data value is null, a string, an integer or a Boolean. Floating-point and nested values are not modelled.
- Integer widths: the lifetime count (a long), the batch count (an int) and the history counters (ints) are unbounded; overflow is not modelled.
- `Counters.CounterStat.Update`: keeps the counter invariant only for non-negative arguments. The source accepts any long, and the only caller passes a count, which is never negative.
- `EventTap.MonitorEventTapResource.Post`: requires that no two monitors share a counter. This always holds, because every monitor creates its own counter.
- Neither `Monitor.java` nor `MonitorJson.java` defines a maximum bound. The reason kinds come from the tests, and the strictness of the maximum (`rate > maximum` fails) is the model's own choice.
- Null references: events and decoded rules are assumed to meet `Event`'s `@NotNull` and `@Pattern` constraints, and `startsWith` maps are never null. The source's exception paths for nulls are not modelled. These are a null event type in the expression predicate (`EventPredicate.java:47`), a null rule type in the type predicate (`EventPredicates.java:34`), null event data in the starts-with predicate (`EventPredicates.java:62`), a null `startsWith` map (`MonitorJson.java:98`), and a null first-event type used as a key of the concurrent history map (`MonitorEventTapResource.java:62-65`). `post` validates nothing, so in the source such an exception leaves the batch applied to only some monitors; the model has no such partial state.
- `toString` methods; the management annotations.
- Only the in-memory alerter is modelled. The e-mail and metrics alerters, the monitor listing resource, the provider, the Guice modules and the monitor configuration are not part of this model.
- Plain getters (`Monitor.GetName`, `GetEventType`, `GetMinimumOneMinuteRate`, `GetMaximumOneMinuteRate`, `GetEvents`, `IsFailed`, `CounterStat.GetCount`, `InMemoryAlerter.GetAlerts`) are field reads and carry no contract of their own. `AmazonConfig.IsValid` is the validity rule of `AmazonConfig.java:105-109`. It is defined through `Amazon.ValidSettings` and characterised by `Amazon.ValidSettingsIff`, not by a contract of its own.
