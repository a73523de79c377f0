# Idle transactions, trace propagation and route transactions

A Dafny model of four pieces of a JavaScript tracing client.

- **The idle transaction** (`IdleTransaction` with its `IdleTransactionSpanRecorder`). This is a transaction that finishes itself.
  - Its recorder logs every span and turns each open child into an *activity*.
  - An idle timer finishes the transaction once no activity has been open for `idleTimeout`.
  - A heartbeat finishes it with status `deadline_exceeded` on the third consecutive beat that sees the same set of open activities.
  - A final timer caps its lifetime.
  - Finishing runs the `beforeFinish` callbacks, settles the recorded spans, leaves the scope, and hands the transaction on, or reports it dropped when it is unsampled.
  - Modelled as an immutable state (`Txn`) with a step function over the events `InitSpanRecorder`, `StartChild`, `FinishChild`, `RegisterBeforeFinish`, `Advance(ms)` and `Finish`.
  - The model is derived from the package's tests (`packages/tracing/test/idletransaction.test.ts`), which pin its behaviour down.
- **`SentryPropogator`** for OpenTelemetry:
  - `inject` writes the `sentry-trace` and `baggage` headers;
  - `extract` reads a remote parent back;
  - `fields` names the two headers.
- **`BrowserTracing`**:
  - how its options are resolved;
  - how `_createRouteTransaction` turns a router context, the page's meta tags and `beforeNavigate` into the context of the idle transaction it starts;
  - the click handler that starts interaction transactions.
- **The replay `Session`'s `sampled` decision.**

Files:
- `optional.dfy`: `Option`.
- `spans.dfy`: spans.
- `span_recorder.dfy`: the recorder and its push/pop signals.
- `idle_transaction.dfy`: the engine.
- `idle_transaction_laws.dfy`: its invariant and timing laws.
- `idle_transaction_facts.dfy`: facts about every reachable state.
- `idle_transaction_scenarios.dfy` and `span_recorder_scenarios.dfy`: the tests' scenarios.
- `trace_data.dfy`: parsed trace-parent data and dash splitting.
- `propagator.dfy`, `browser_tracing.dfy`, `replay_session.dfy`.

Time is an integer clock in milliseconds, moved only by `Advance` events. A timer is the instant it is due. A timer set for 0 ms is modelled as due 1 ms later (see "## Left out"). Span timestamps share this integer clock.

## Model

| member | source | states |
|---|---|---|
| SpanRecorder.Add | packages/tracing/test/idletransaction.test.ts:357-401 | `add` appends the span: length grows by one and earlier spans are untouched. It signals exactly one push, with the span's id, iff the span is open and is not the transaction's own; otherwise it signals nothing. |
| SpanRecorder.AddTracksOpenChildren | packages/tracing/test/idletransaction.test.ts:357-401 | After `add`, the open-children set grows by exactly the pushed id and the recorded ids by the span's id. Child ids stay distinct when the id is new. |
| SpanRecorder.Finish | packages/tracing/test/idletransaction.test.ts:357-378 | Finishing a recorded child signals exactly one pop of its id and leaves every other span as it was. Finishing the transaction's own span or an unknown id changes nothing and signals nothing. |
| SpanRecorder.FinishTracksOpenChildren | packages/tracing/test/idletransaction.test.ts:357-378 | Finishing keeps the recorded ids. With distinct child ids, it stamps the end on that child's span only and removes exactly its id from the open-children set. |
| SpanRecorderScenarios.AddThenFinish | packages/tracing/test/idletransaction.test.ts:357-378 | Adding a fresh open child and then finishing it gives push then pop of its id. The open-children set ends where it started, and the span stays recorded with its end timestamp. |
| SpanRecorderScenarios.PushesAndPops | packages/tracing/test/idletransaction.test.ts:357-378 | The test's scenario: length 0 to 1, one push with the span's id, then one pop. |
| IdleTransaction.Start | packages/tracing/test/idletransaction.test.ts:23-46 | A new transaction is open, has no activities and no recorder, and has emitted nothing. Its idle and final timers are armed; the heartbeat is not. It is on the scope iff `onScope`; otherwise the scope is unchanged. |
| IdleTransaction.FilterSpansExact | packages/tracing/test/idletransaction.test.ts:155-186 | Membership: every span the finish-time pass hands on is the transaction's own or closed and started no later than the end. Each surviving span (own, or not started after the end) appears settled, cut at the end and cancelled if still open, and nothing else appears. |
| IdleTransaction.FilterSpansAppend | packages/tracing/test/idletransaction.test.ts:171-184 | Order and multiplicity: filtering a concatenation filters each part, in order. With `FilterSpansSingle` (one span gives itself settled if it survives, nothing otherwise) this fixes the output as the surviving spans, settled, in recording order. |
| IdleTransaction.NextTimer | packages/tracing/test/idletransaction.test.ts:201-300 | The timer that fires next is an armed one with the earliest due instant. There is none only when no timer is armed. |
| IdleTransaction.FireTimer | packages/tracing/test/idletransaction.test.ts:201-300 | Firing a due timer keeps the clock and the transaction's identity, settings, scope ownership and callbacks. It strictly reduces the number of timers due. |
| IdleTransaction.AdvanceBy | packages/tracing/test/idletransaction.test.ts:201-300 | Waiting `d` moves the clock by exactly `d`, fires every timer due on the way, and leaves every armed timer in the future. |
| IdleTransactionLaws.StartInv | packages/tracing/test/idletransaction.test.ts:23-46 | The invariant holds of a new transaction. |
| IdleTransactionLaws.FinishAtInv | packages/tracing/test/idletransaction.test.ts:134-199 | Finishing an open transaction establishes the finished shape. No timer is left armed and the activities are released. Every callback has been called once, in order, with the end timestamp. The scope is left, the children are settled, and there is exactly one emission: the kept spans, or a sample_rate/transaction drop report. |
| IdleTransactionLaws.StepInv | packages/tracing/test/idletransaction.test.ts:90-352 | Every event keeps the invariant. While open, the activities are exactly the recorder's open children. The idle timer is armed iff there are none, the heartbeat runs iff recording has begun, and the final timer is armed. Once finished, the shape above holds. |
| IdleTransactionLaws.RunInv | packages/tracing/test/idletransaction.test.ts:90-352 | Every sequence of events keeps the invariant. |
| IdleTransactionTiming.FinishedIsFrozen | packages/tracing/test/idletransaction.test.ts:347-351 | Once finished, no event changes anything but the clock: no timer, heartbeat or child can finish it again. |
| IdleTransactionTiming.RunFrozen | packages/tracing/test/idletransaction.test.ts:347-351 | The same for any sequence of events. |
| IdleTransactionTiming.EmitsAtMostOnce | packages/tracing/test/idletransaction.test.ts:188-199 | Whatever happens, a transaction is emitted or reported dropped at most once, and nothing is emitted after it finished. |
| IdleTransactionTiming.ArmedDeadlineFinishes | packages/tracing/test/idletransaction.test.ts:202-253 | An armed idle (or final) timer finishes an open transaction by its due instant at the latest. |
| IdleTransactionTiming.IdleFinishesAtDue | packages/tracing/test/idletransaction.test.ts:202-253 | If nothing is open and no other timer comes due earlier, the idle timer finishes the transaction exactly at its due instant. That instant is the end timestamp, the cut-off for the kept spans and the value passed to each beforeFinish callback. The status is unchanged. On a tie the idle timer fires first. |
| IdleTransactionTiming.TwoBeatsKeepOpen | packages/tracing/test/idletransaction.test.ts:281-300 | With activities open and a changed activity set, the first beat counts 1, the second counts 2, and neither finishes the transaction. |
| IdleTransactionTiming.ThirdUnchangedBeatFinishes | packages/tracing/test/idletransaction.test.ts:281-300 | The third beat over an unchanged activity set finishes it, with status deadline_exceeded, at that beat's instant. |
| IdleTransactionTiming.FirstBeat | packages/tracing/test/idletransaction.test.ts:302-352 | The first beat after the activity set changed counts 1 and keeps the transaction open. |
| IdleTransactionTiming.StartChildResetsHeartbeat | packages/tracing/test/idletransaction.test.ts:314-333 | Starting an open child changes the activity set, so the next beat starts counting again. |
| IdleTransactionTiming.FinishChildResetsHeartbeat | packages/tracing/test/idletransaction.test.ts:335-347 | Finishing a child changes the activity set too, so the count restarts after an unchanged beat. |
| IdleTransactionTiming.AdvanceQuiet | packages/tracing/test/idletransaction.test.ts:210-235 | Before the earliest armed timer, waiting only moves the clock. |
| IdleTransactionTiming.OpenChildStarts | packages/tracing/test/idletransaction.test.ts:90-106 | Starting a new open child adds exactly its id to the activities and cancels the idle timer. It leaves the heartbeat, final timer and status alone and records the id. |
| IdleTransactionTiming.ClosedChildStarts | packages/tracing/test/idletransaction.test.ts:108-115 | A child that already has an end timestamp is recorded but registers no activity. Its end is not checked against its start. |
| IdleTransactionTiming.OpenChildFinishes | packages/tracing/test/idletransaction.test.ts:90-106 | Finishing an open child removes exactly its id. It re-arms the idle timer from now iff no activity is left. |
| IdleTransactionFacts.RegistryTracksOpenChildren | packages/tracing/test/idletransaction.test.ts:90-132 | In every reachable open state, the activities are exactly the recorded open children (none without a recorder). The idle timer is armed iff there are none, and the transaction's own id is never an activity. |
| IdleTransactionFacts.FinishReportsOnce | packages/tracing/test/idletransaction.test.ts:188-199 | In every reachable state: nothing is emitted while open. A finished sampled transaction was sent once with its kept spans. A finished unsampled one was reported dropped once, for sample_rate and category transaction. |
| IdleTransactionFacts.CallbacksCalledOnce | packages/tracing/test/idletransaction.test.ts:134-153 | In every reachable state, no callback has run while open. Once finished, each registered callback has run exactly once, in registration order, with the numeric end timestamp. |
| IdleTransactionFacts.ScopeFollowsLifetime | packages/tracing/test/idletransaction.test.ts:23-83 | With `onScope`, the transaction is on the scope while open and off it once finished, sampled or not. Without `onScope`, the scope is never touched. |
| IdleTransactionFacts.FinishedSpansSettled | packages/tracing/test/idletransaction.test.ts:155-186 | Every span a finished transaction keeps is its own or a closed child that did not start after the end. |
| IdleTransactionFacts.NoRecorderNoHeartbeat | packages/tracing/test/idletransaction.test.ts:257-279 | Without `initSpanRecorder`, no activity is ever registered and the heartbeat never runs. A status can only come from the final timer. |
| IdleTransactionScenarios.PushAndPopActivities | packages/tracing/test/idletransaction.test.ts:90-106 | The test's run: the child's id appears then disappears, and the idle timer then finishes the transaction. |
| IdleTransactionScenarios.IdleEndIsFiringInstant | packages/tracing/test/idletransaction.test.ts:90-106 | In that run the child ends at 0. If no other timer comes due first, the transaction ends `idleTimeout` later, when the idle timer fires. |
| IdleTransactionScenarios.ClosedChildPushesNothing | packages/tracing/test/idletransaction.test.ts:108-115 | A child started with an end timestamp leaves the activities empty. |
| IdleTransactionScenarios.OpenGrandchildKeepsOpen | packages/tracing/test/idletransaction.test.ts:117-132 | A grandchild still open after its parent ended keeps the transaction open past the idle timeout. |
| IdleTransactionScenarios.CallbacksRunAtIdleFinish | packages/tracing/test/idletransaction.test.ts:134-153 | Two registered callbacks are not called before finish. Both are called, in order, with the end timestamp when the idle timer finishes it. |
| IdleTransactionScenarios.FiltersSpansOnFinish | packages/tracing/test/idletransaction.test.ts:155-186 | Built from the test's calls: `initSpanRecorder`, children at 1236, 645345234 and 1238, then the first ended at 1240. Finishing at 1244 leaves exactly [own span, the child ended at 1240 unchanged, the open child ended at 1244 and cancelled], in that order, and drops the late child. This holds sampled or not. |
| IdleTransactionScenarios.UnsampledIsDropped | packages/tracing/test/idletransaction.test.ts:188-199 | Finishing an unsampled transaction reports one drop for sample_rate and category transaction. |
| IdleTransactionScenarios.IdleWithoutActivities | packages/tracing/test/idletransaction.test.ts:202-208 | With no activity, the transaction is finished after `idleTimeout`. |
| IdleTransactionScenarios.OpenChildHoldsIdle | packages/tracing/test/idletransaction.test.ts:210-217 | An open child keeps the transaction open while only the idle timeout passes. |
| IdleTransactionScenarios.IdleNotYetExceeded | packages/tracing/test/idletransaction.test.ts:219-235 | After a second child opens and closes at time k, the transaction is still open `idleTimeout` after the first child's close. |
| IdleTransactionScenarios.IdleExceeded | packages/tracing/test/idletransaction.test.ts:237-253 | It is finished `idleTimeout` after the second close. |
| IdleTransactionScenarios.NoRecorderNoDeadline | packages/tracing/test/idletransaction.test.ts:257-279 | Without a recorder, three heartbeat intervals pass with the transaction open and no status. |
| IdleTransactionScenarios.TwoBeatsKeepChildrenOpen | packages/tracing/test/idletransaction.test.ts:281-300 | With a child open, the first two heartbeats leave the transaction open. |
| IdleTransactionScenarios.ThirdBeatFinishesChildren | packages/tracing/test/idletransaction.test.ts:281-300 | The third heartbeat finishes it with status deadline_exceeded. |
| IdleTransactionScenarios.NewChildResetsCount | packages/tracing/test/idletransaction.test.ts:314-333 | Whatever the count, starting a new child makes the next beat count 1. |
| IdleTransactionScenarios.EndedChildResetsCount | packages/tracing/test/idletransaction.test.ts:335-347 | Ending one of several open children after an unchanged beat makes the next beat count 1. |
| IdleTransactionScenarios.FinishClearsScope | packages/tracing/test/idletransaction.test.ts:48-83 | A transaction created on the scope and finished, sampled or not, is off the scope however long the clock then runs. |
| TraceData.SplitAfterField | packages/opentelemetry-node/src/propogator.ts:42-46 | Splitting `a-b` at dashes, for a dash-free `a`, gives `a` followed by the fields of `b`. |
| Propagator.Inject | packages/opentelemetry-node/src/propogator.ts:32-56 | Nothing is written iff there is no span context, it is invalid, or tracing is suppressed. Otherwise the first write is `sentry-trace` set to `traceId-spanId-bit`. A second write, `baggage`, happens iff the span's transaction has a non-empty serialised sampling context. |
| Propagator.TraceParentFields | packages/opentelemetry-node/src/propogator.ts:42-46 | The trace header has exactly three dash-separated fields (for dash-free ids): trace id, span id, and "1" iff the SAMPLED flag bit is set, else "0". |
| Propagator.InjectWritesOnlyFields | packages/opentelemetry-node/src/propogator.ts:91-93 | Every header `inject` writes is one of the two `fields` returns, in that order, and none is written twice. |
| Propagator.RemoteContext | packages/opentelemetry-node/src/propogator.ts:69-76 | The extracted span context is remote. A missing trace or parent span id becomes ''. Its flags are SAMPLED iff the parent was sampled, otherwise NONE. |
| Propagator.ExtractWith | packages/opentelemetry-node/src/propogator.ts:61-85 | With no (or an empty) trace header the context is returned unchanged. Otherwise only its span context changes, and only when the value parses. The `setValue` entries are discarded. |
| Propagator.AsWrittenParsesOneCharacter | packages/opentelemetry-node/src/propogator.ts:64-67 | As written, for a plain-string header the parser only ever sees its first character. |
| Propagator.AsWrittenLosesTheTrace | packages/opentelemetry-node/src/propogator.ts:64-67 | As written, injecting `abc-def-1` and extracting it with the reference parser gives no span context. |
| Propagator.Extract | packages/opentelemetry-node/src/propogator.ts:61-85 | Corrected: a plain-string header reaches the parser whole; otherwise as `ExtractWith`. |
| Propagator.RoundTrip | packages/opentelemetry-node/src/propogator.ts:32-86 | With the corrected extract and the reference parser, extract(inject(ctx)) yields a remote span context with ctx's trace id, span id and SAMPLED bit, and no other context entry changes. |
| BrowserTracing.Resolve | packages/tracing/src/browser/browsertracing.ts:120-130 | Each option the user gives wins; every other takes its default. The merge is shallow, so `_experiments` is taken whole. |
| BrowserTracing.DefaultOptions | packages/tracing/src/browser/browsertracing.ts:36-79 | With no options: idle 1000, final 30000, heartbeat 5000, all three flags true, long tasks on, interaction sample rate 0, no `beforeNavigate`. |
| BrowserTracing.ExperimentsReplacedWhole | packages/tracing/src/browser/browsertracing.ts:158-162 | Passing `_experiments` with only `enableLongTask` loses the default interaction sample rate. |
| BrowserTracing.PageTraceparent | packages/tracing/src/browser/browsertracing.ts:219-224 | The `sentry-trace` meta tag is read only for op `pageload`, and parsed only when non-empty. |
| BrowserTracing.PageBaggage | packages/tracing/src/browser/browsertracing.ts:219-227 | The `baggage` meta tag is read only for op `pageload`, and parsed only when non-empty. |
| BrowserTracing.Expand | packages/tracing/src/browser/browsertracing.ts:229-237 | The expanded context keeps name, op and sampled. Trace-parent fields, when parsed, override the context's. The metadata source is kept. The sampling context is `{}` when a trace parent came without baggage, and otherwise is the baggage's. `trimEnd` is true. |
| BrowserTracing.FinalContext | packages/tracing/src/browser/browsertracing.ts:239-249 | `beforeNavigate` gets the expanded context and may edit it in place. If it returns undefined, the result is the argument as left, with sampled false. If it returns the argument itself, the result is exactly that, never marked custom. If it returns another object, the result is that object, with source custom iff its name differs from the argument as left. Without `beforeNavigate`, the result is the expanded context. |
| BrowserTracing.CreateRouteTransaction | packages/tracing/src/browser/browsertracing.ts:209-282 | Without a hub getter, nothing starts and the state is unchanged. Otherwise the final context's name and source become the latest route, and an idle transaction starts with it, the configured timeouts and `onScope` true. |
| BrowserTracing.MetaTagsOnlyForPageload | packages/tracing/src/browser/browsertracing.ts:219-227 | For any op other than `pageload`, the page's meta tags make no difference to the result. |
| BrowserTracing.PlainNavigation | packages/tracing/src/browser/browsertracing.ts:229-272 | Without `beforeNavigate` and away from a page load, the started context is the router's, with only `trimEnd` and an empty sampling-context slot added. |
| BrowserTracing.CustomSourceIffRenamed | packages/tracing/src/browser/browsertracing.ts:245-249 | The name is always the one that came back. The source becomes custom iff that name differs from the argument as the callback left it, which only another returned object can do. Otherwise the metadata is the returned context's. |
| BrowserTracing.InPlaceRenameKeepsSource | packages/tracing/src/browser/browsertracing.ts:239-252 | A callback that renames its argument in place and returns it starts the transaction under the new name. The remembered source stays the expanded context's, not custom. |
| BrowserTracing.UndefinedDrops | packages/tracing/src/browser/browsertracing.ts:239-252 | A `beforeNavigate` returning undefined still starts the transaction: the argument as the callback left it, in-place renames included, with sampled false. That name and source are remembered. |
| BrowserTracing.UntouchedUndefinedDrops | packages/tracing/src/browser/browsertracing.ts:239-252 | If that callback left its argument alone, the transaction starts unsampled under the router's name and source, and they are remembered. |
| BrowserTracing.RouteTransactionOnScope | packages/tracing/src/browser/browsertracing.ts:264-272 | The idle transaction a route starts holds the scope from its start and uses the resolved idle, final and heartbeat values. |
| BrowserTracing.OnClick | packages/tracing/src/browser/browsertracing.ts:285-336 | A draw above the rate does nothing. Otherwise the in-flight interaction transaction is finished first, whether or not a hub or latest route name exists. A new one starts iff both exist, named after the latest route, with source defaulting to url, and becomes the one in flight. |
| BrowserTracing.React | packages/tracing/src/browser/browsertracing.ts:201-203 | A navigation never starts or finishes an interaction transaction. A click changes nothing unless the listener was registered under the corrected test; when it was, the handler compares the draw with the configured rate. |
| BrowserTracing.InteractionsNeverOverlap | packages/tracing/src/browser/browsertracing.ts:285-336 | Over any sequence of navigations and clicks, interaction starts and finishes alternate, each finish closing the transaction started just before it. One is in flight exactly when the log ends with a start. |
| BrowserTracing.RegistersListener | packages/tracing/src/browser/browsertracing.ts:201-203 | Corrected: the click listener is registered iff an interaction sample rate is given and is positive. |
| BrowserTracing.ListenerTestDiffers | packages/tracing/src/browser/browsertracing.ts:201-203 | The as-written test and the corrected one differ exactly on negative rates; -1 registers as written. |
| BrowserTracing.NegativeRateIgnoresClicks | packages/tracing/src/browser/browsertracing.ts:285-291 | Under a negative rate no `Math.random()` draw passes the click guard, so the as-written extra listener never acts. |
| ReplaySession.Decide | packages/replay/test/unit/session/Session.test.ts:37-76 | An existing decision, `false` included, is kept. Otherwise the result is 'session' iff the session draw hits, 'error' iff only the error draw hits, and false iff neither does. |
| ReplaySession.RestoredSessionKeepsDecision | packages/replay/test/unit/session/Session.test.ts:64-76 | A decided session re-created from storage keeps its decision, whatever the rates and draws then. |

## Left out

- Timers are discrete. Timers due at the same instant fire idle first, then heartbeat, then final. The order between timers that share an instant under real or fake timers is not modelled.
- The recorder's `maxlen` cap (`initSpanRecorder(10)`) is not modelled: nothing about its behaviour is visible.
- The transaction's own span is recorded as it was when recording began. Its end timestamp and status are carried by the transaction, not copied into that recorded span.
- A child started with an id already recorded is ignored. Real ids are random 64-bit values.
- Whether a late child is dropped at finish is decided by `start > end`. The tests show only 645345234 against 1244, not the exact boundary.
- Once finished, every event except the passage of time is ignored. Real span objects would still change, but nothing observable through the transaction does.
- The final timer finishes an open transaction with status deadline_exceeded, the status the heartbeat sets. The tests say nothing about the final timer's status, so this status is a modelling choice. `ArmedDeadlineFinishes` bounds when the final timer fires, and `NoRecorderNoHeartbeat`'s "a status can only come from the final timer" rests on this choice.
- IdleTransaction.FireTimer: an idle finish is stamped with the instant the idle timer fires, which is the emptying pop plus `idleTimeout`. The doc comment of the `idleTimeout` option (packages/tracing/src/browser/browsertracing.ts:32) promises instead that the transaction uses the end timestamp of the last finished span. The idle transaction's own code is not part of this model. The tests only check that an end timestamp is defined. Any trimming to the last span's end, which the `trimEnd: true` context flag (browsertracing.ts:236) suggests happens later when the transaction is sent, is not modelled. `IdleFinishesAtDue` and `IdleEndIsFiringInstant` state the instant the model uses.
- IdleTransaction.TimerDelay: a timer set for 0 ms is due 1 ms later, as with Node's `setTimeout`. Under the Jest fake timers the tests use, it is due at once and fires on `advanceTimersByTime(0)`. This is a modelling choice that keeps every armed timer strictly in the future; no test uses a 0 ms timeout.
- Span timestamps are float seconds in the source (the filter test adds 2, 4 and 10 to `startTimestamp`). The model puts them on the same integer clock as the timers, in the units of the test's literals.
- The spans' other attributes (op, description, tags, data), the hub, the client and the scope object are reduced to a scope slot and an emission log.
- The heartbeat compares the set of open activities, as the tests require, not the number of recorded spans.
- Propagator: `isSpanContextValid`, `isTracingSuppressed`, `extractTraceparentData`, the span-processor map and the baggage serialiser are passed in as functions with no assumed laws. The reference parser used by the round-trip lemmas is the three-field reading of the header, not the shared utility's regular expression.
- Propagator: `getter.get` and `setter.set` act on a map carrier. `trace.getSpanContext` and `trace.setSpanContext` read and replace one context field.
- Propagator: the baggage header read and parsed at the end of `extract` is not modelled, because its result is discarded.
- Propagator.ExtractWith: a trace-parent object is always truthy; a `TraceparentData` with every field missing still sets a span context with empty ids.
- BrowserTracing: `_metricOptions`, web vitals, long tasks, performance entries, background-tab detection, the `beforeFinish` callback that adds performance entries, `instrumentOutgoingRequests` and the request options, `routingInstrumentation`, `getMetaContent` and the DOM, `addEventListener` and `logger` are left out. Meta tag values and `Math.random()` draws are parameters.
- BrowserTracing: `TxnContext` keeps eight context keys (name, op, trace id, parent span id, parent sampled, sampled, metadata, trimEnd) and `Metadata` keeps two (source, dynamic sampling context). The spreads `...context` and `...context.metadata` also copy description, tags, data and the other metadata keys; the model drops them.
- BrowserTracing: `beforeNavigate` is modelled by what one call does: its argument as the call left it, and whether it returned undefined, that same object or another one. Side effects beyond its argument, and objects shared between the argument and another returned object, are not modelled.
- BrowserTracing.Resolve: a key passed explicitly as `undefined` overrides its default with `undefined` in JavaScript; user options here are either absent or a value.
- BrowserTracing.Expand: the parsed trace-parent data is taken to carry all three of its keys, so it overrides all three context fields, with missing values included.
- BrowserTracing: `sampled` set by a sampler after the transaction starts is out of scope.
- ReplaySession: the decision is derived from the package's test file (`Session.test.ts`). `??` keeps an existing `false`.
- ReplaySession: sample-rate draws are abstract predicates with only `hit(0) = false` and `hit(1) = true`.
- ReplaySession: session storage, `JSON.parse`, `saveSession`, session ids and timestamps (`createSession.ts`, `fetchSession.ts`) are I/O and left out.
- The build configuration (`rollup.config.core.ts`) and the browser network test for trace propagation targets are left out. They hold no logic of this core.

## Findings

| source | as written | input that shows it | evidently intended | confidence | as-written member | corrected member |
|---|---|---|---|---|---|---|
| packages/opentelemetry-node/src/propogator.ts:66 | `header = maybeSentryTraceHeader[0]` also indexes a plain string, so the parser gets its first character | a carrier whose `sentry-trace` is the string `abc-def-1`: the parser sees `a` and no parent is extracted | index only a list; pass a string whole, so that extract(inject(ctx)) restores the parent | high (not executed) | Propagator.ExtractAsWritten, Propagator.AsWrittenLosesTheTrace | Propagator.Extract, Propagator.RoundTrip |
| packages/tracing/src/browser/browsertracing.ts:201 | `_experiments?.interactionSampleRate ?? 0 > 0` parses as `rate ?? (0 > 0)`, true for any non-zero rate | `interactionSampleRate: -1` registers the click listener | `(rate ?? 0) > 0` | medium (not executed); the extra listener never starts a transaction | BrowserTracing.RegistersListenerAsWritten, BrowserTracing.ListenerTestDiffers | BrowserTracing.RegistersListener, BrowserTracing.NegativeRateIgnoresClicks |
