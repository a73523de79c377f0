/**
 * IdleTransaction: a transaction that finishes itself. It keeps a registry
 * of open child spans ("activities") fed by its span recorder, and three
 * timers decide when it ends:
 *   - the idle timer, armed while no activity is open, finishes it after
 *     `idleTimeout` of inactivity;
 *   - the heartbeat, running once span recording has begun, finishes it with
 *     status deadline_exceeded on the third consecutive beat that sees the
 *     same set of open activities;
 *   - the final timer finishes it with status deadline_exceeded after
 *     `finalTimeout`, whatever its activities.
 * Time is an integer clock moved forward only by `Advance` events; a timer
 * is its due instant.
 */
module IdleTransaction {
  import opened Optional
  import opened Spans
  import opened SpanRecorder

  const DefaultIdleTimeout: nat := 1000
  const DefaultFinalTimeout: nat := 30000
  const DefaultHeartbeatInterval: nat := 5000

  /** Consecutive beats over an unchanged activity set that end the transaction. */
  const BeatsToDeadline: nat := 3

  const SampleRateReason: string := "sample_rate"
  const TransactionCategory: string := "transaction"

  /** The delay a timer set for `ms` really waits: a timer never fires in the instant it is set. */
  function TimerDelay(ms: nat): nat
  {
    if ms == 0 then 1 else ms
  }

  datatype Config = Config(idleTimeout: nat, finalTimeout: nat, heartbeatInterval: nat)

  const DefaultConfig := Config(DefaultIdleTimeout, DefaultFinalTimeout, DefaultHeartbeatInterval)

  /** What finishing hands on: the kept spans, or a dropped-event report. */
  datatype Emission = Sent(spans: seq<Span>) | Dropped(reason: string, category: string)

  /** One invocation of the `callback`-th registered beforeFinish callback. */
  datatype CallbackCall = CallbackCall(callback: nat, endTimestamp: int)

  datatype Txn = Txn(
    spanId: string,
    startTimestamp: int,
    sampled: bool,
    config: Config,
    onScope: bool,
    now: int,
    activities: set<string>,
    recorder: Option<Recorder>,
    idleDue: Option<int>,
    heartbeatDue: Option<int>,
    finalDue: Option<int>,
    prevHeartbeat: Option<set<string>>,
    heartbeatCounter: nat,
    callbacks: nat,
    callbackCalls: seq<CallbackCall>,
    status: Option<Status>,
    finished: bool,
    endTimestamp: Option<int>,
    scope: Option<string>,
    emitted: seq<Emission>)

  datatype Event =
    | InitSpanRecorder
    | StartChild(id: string, parentSpanId: Option<string>, startAt: Option<int>, endAt: Option<int>)
    | FinishChild(id: string, endAt: Option<int>)
    | RegisterBeforeFinish
    | Advance(ms: nat)
    | Finish(endAt: Option<int>)

  /**
   * The constructor: arm the idle timer (the registry starts empty) and the
   * final timer; with `onScope`, put the transaction on the scope slot.
   */
  function Start(spanId: string, startTimestamp: Option<int>, sampled: bool, config: Config,
                 onScope: bool, now: int, scope: Option<string>): (t: Txn)
    ensures !t.finished && t.activities == {} && t.recorder.None?
    ensures t.idleDue == Some(now + TimerDelay(config.idleTimeout))
    ensures t.finalDue == Some(now + TimerDelay(config.finalTimeout))
    ensures t.heartbeatDue.None? && t.emitted == []
    ensures onScope ==> t.scope == Some(spanId)
    ensures !onScope ==> t.scope == scope
  {
    Txn(spanId, startTimestamp.GetOr(now), sampled, config, onScope, now,
        {}, None,
        Some(now + TimerDelay(config.idleTimeout)), None, Some(now + TimerDelay(config.finalTimeout)),
        None, 0,
        0, [],
        None, false, None,
        if onScope then Some(spanId) else scope,
        [])
  }

  /** The span the recorder holds for the transaction itself. */
  function RootSpan(t: Txn): Span
  {
    Span(t.spanId, None, t.startTimestamp, None, None)
  }

  // ---------------------------------------------------------------------
  // Finishing

  /** A recorded span survives finishing when it is the transaction's own or did not start after the end. */
  predicate KeptAtFinish(sp: Span, rootId: string, end: int)
  {
    sp.spanId == rootId || sp.startTimestamp <= end
  }

  /** A surviving child still open is cut at the end and cancelled; every other span is untouched. */
  function SettleAtFinish(sp: Span, rootId: string, end: int): Span
  {
    if sp.spanId != rootId && sp.IsOpen() then
      sp.(endTimestamp := Some(end), status := Some(Cancelled))
    else
      sp
  }

  /** The finish-time pass over the recorder's spans. */
  function FilterSpans(spans: seq<Span>, rootId: string, end: int): (out: seq<Span>)
    ensures |out| <= |spans|
  {
    if |spans| == 0 then []
    else
      var rest := FilterSpans(spans[1..], rootId, end);
      if KeptAtFinish(spans[0], rootId, end) then [SettleAtFinish(spans[0], rootId, end)] + rest
      else rest
  }

  /**
   * The pass keeps exactly the spans that survive, each settled, and every
   * span it hands on is the transaction's own or closed and started no
   * later than the end.
   */
  lemma {:induction false} FilterSpansExact(spans: seq<Span>, rootId: string, end: int)
    ensures var out := FilterSpans(spans, rootId, end);
      && (forall o :: o in out ==> o.spanId == rootId || (o.endTimestamp.Some? && o.startTimestamp <= end))
      && (forall sp :: sp in spans && KeptAtFinish(sp, rootId, end) ==> SettleAtFinish(sp, rootId, end) in out)
      && (forall o :: o in out ==> exists sp :: sp in spans && KeptAtFinish(sp, rootId, end) && o == SettleAtFinish(sp, rootId, end))
    decreases |spans|
  {
    if |spans| > 0 {
      FilterSpansExact(spans[1..], rootId, end);
      assert forall sp :: sp in spans[1..] ==> sp in spans;
      assert forall sp :: sp in spans ==> sp == spans[0] || sp in spans[1..];
    }
  }

  /**
   * The pass goes span by span: filtering a concatenation is filtering each
   * part, in order, so spans keep their order and their multiplicity.
   */
  lemma {:induction false} FilterSpansAppend(a: seq<Span>, b: seq<Span>, rootId: string, end: int)
    ensures FilterSpans(a + b, rootId, end) == FilterSpans(a, rootId, end) + FilterSpans(b, rootId, end)
    decreases |a|
  {
    if |a| > 0 {
      assert (a + b)[1..] == a[1..] + b;
      FilterSpansAppend(a[1..], b, rootId, end);
    } else {
      assert a + b == b;
    }
  }

  /** A single span comes out settled when it survives, and not at all otherwise. */
  lemma FilterSpansSingle(sp: Span, rootId: string, end: int)
    ensures KeptAtFinish(sp, rootId, end) ==> FilterSpans([sp], rootId, end) == [SettleAtFinish(sp, rootId, end)]
    ensures !KeptAtFinish(sp, rootId, end) ==> FilterSpans([sp], rootId, end) == []
  {
    assert [sp][1..] == [];
  }

  /** The calls finishing makes: every registered callback once, in order, with the end timestamp. */
  function CallsInOrder(callbacks: nat, end: int): seq<CallbackCall>
  {
    seq(callbacks, i requires 0 <= i < callbacks => CallbackCall(i, end))
  }

  /**
   * `finish(end)`: a no-op once finished; otherwise cancel the timers,
   * release the registry, run the beforeFinish callbacks, filter the
   * recorded spans, leave the scope, and emit the transaction, or report
   * it dropped when it is not sampled.
   */
  function FinishAt(t: Txn, end: int): (r: Txn)
  {
    if t.finished then t
    else
      var kept := if t.recorder.Some? then FilterSpans(t.recorder.value.spans, t.spanId, end) else [];
      t.(finished := true,
         endTimestamp := Some(end),
         activities := {},
         idleDue := None,
         heartbeatDue := None,
         finalDue := None,
         callbackCalls := CallsInOrder(t.callbacks, end),
         recorder := if t.recorder.Some? then Some(t.recorder.value.(spans := kept)) else None,
         scope := if t.onScope then None else t.scope,
         emitted := t.emitted + [if t.sampled then Sent(kept) else Dropped(SampleRateReason, TransactionCategory)])
  }

  // ---------------------------------------------------------------------
  // Activities

  /** `_pushActivity`: register an open span and cancel the idle timer. */
  function PushActivity(t: Txn, id: string): Txn
  {
    if t.finished then t
    else t.(activities := t.activities + {id}, idleDue := None)
  }

  /** `_popActivity`: deregister a span; an emptied registry re-arms the idle timer from now. */
  function PopActivity(t: Txn, id: string): Txn
  {
    if t.finished then t
    else
      var rest := t.activities - {id};
      t.(activities := rest,
         idleDue := if rest == {} then Some(t.now + TimerDelay(t.config.idleTimeout)) else t.idleDue)
  }

  function ApplySignals(t: Txn, signals: seq<Signal>): Txn
    decreases |signals|
  {
    if |signals| == 0 then t
    else
      var t' := match signals[0]
        case Push(id) => PushActivity(t, id)
        case Pop(id) => PopActivity(t, id);
      ApplySignals(t', signals[1..])
  }

  /** `initSpanRecorder`: the first call creates the recorder and starts the heartbeat; every call records the transaction's own span. */
  function InitRecorder(t: Txn): Txn
  {
    if t.recorder.None? then
      t.(recorder := Some(Add(Recorder(t.spanId, []), RootSpan(t)).recorder),
         heartbeatDue := Some(t.now + TimerDelay(t.config.heartbeatInterval)))
    else
      t.(recorder := Some(Add(t.recorder.value, RootSpan(t)).recorder))
  }

  /**
   * `startChild`: a child is recorded only once a recorder exists; recording
   * an open child pushes its activity. An id already recorded is ignored.
   */
  function StartChildSpan(t: Txn, id: string, parent: Option<string>, startAt: Option<int>, endAt: Option<int>): Txn
  {
    if t.recorder.None? || id == t.spanId || id in RecordedIds(t.recorder.value) then t
    else
      var u := Add(t.recorder.value, Span(id, parent, startAt.GetOr(t.now), endAt, None));
      ApplySignals(t.(recorder := Some(u.recorder)), u.signals)
  }

  /** A child's `finish`: stamp its end in the recorder and pop its activity. */
  function FinishChildSpan(t: Txn, id: string, endAt: Option<int>): Txn
  {
    if t.recorder.None? then t
    else
      var u := SpanRecorder.Finish(t.recorder.value, id, endAt.GetOr(t.now));
      ApplySignals(t.(recorder := Some(u.recorder)), u.signals)
  }

  // ---------------------------------------------------------------------
  // Timers

  datatype Timer = IdleTimer | HeartbeatTimer | FinalTimer

  /** The instant `x` is due, when armed. */
  function Due(t: Txn, x: Timer): Option<int>
  {
    match x
    case IdleTimer => t.idleDue
    case HeartbeatTimer => t.heartbeatDue
    case FinalTimer => t.finalDue
  }

  /** The armed timer due first; on a tie the idle timer goes first, then the heartbeat, then the final timer. */
  function NextTimer(t: Txn): (x: Option<Timer>)
    ensures x.None? <==> t.idleDue.None? && t.heartbeatDue.None? && t.finalDue.None?
    ensures x.Some? ==> Due(t, x.value).Some?
    ensures x.Some? ==> forall y :: Due(t, y).Some? ==> Due(t, x.value).value <= Due(t, y).value
  {
    if t.idleDue.Some?
       && (t.heartbeatDue.None? || t.idleDue.value <= t.heartbeatDue.value)
       && (t.finalDue.None? || t.idleDue.value <= t.finalDue.value)
    then Some(IdleTimer)
    else if t.heartbeatDue.Some? && (t.finalDue.None? || t.heartbeatDue.value <= t.finalDue.value)
    then Some(HeartbeatTimer)
    else if t.finalDue.Some? then Some(FinalTimer)
    else None
  }

  /** How many armed timers are due at or before the current instant. */
  function DueByNow(t: Txn): nat
  {
    (if t.idleDue.Some? && t.idleDue.value <= t.now then 1 else 0)
    + (if t.heartbeatDue.Some? && t.heartbeatDue.value <= t.now then 1 else 0)
    + (if t.finalDue.Some? && t.finalDue.value <= t.now then 1 else 0)
  }

  /** `_beat`: count consecutive beats over the same activity set; the third ends the transaction. */
  function Beat(t: Txn): Txn
  {
    if t.finished then t
    else
      var counter := if t.prevHeartbeat == Some(t.activities) then t.heartbeatCounter + 1 else 1;
      var t1 := t.(prevHeartbeat := Some(t.activities), heartbeatCounter := counter);
      if counter >= BeatsToDeadline then
        FinishAt(t1.(status := Some(DeadlineExceeded)), t1.now)
      else
        t1.(heartbeatDue := Some(t1.now + TimerDelay(t1.config.heartbeatInterval)))
  }

  /**
   * Timer `x` fires. The idle timer finishes the transaction when nothing is
   * open; the heartbeat beats; the final timer finishes it with status
   * deadline_exceeded. None of them acts on a finished transaction.
   */
  function FireTimer(t: Txn, x: Timer): (r: Txn)
    requires Due(t, x).Some? && Due(t, x).value <= t.now
    ensures r.now == t.now && r.config == t.config && r.spanId == t.spanId && r.sampled == t.sampled
    ensures r.onScope == t.onScope && (!t.onScope ==> r.scope == t.scope) && r.callbacks == t.callbacks
    ensures DueByNow(r) < DueByNow(t)
  {
    match x
    case IdleTimer =>
      var t1 := t.(idleDue := None);
      if !t1.finished && t1.activities == {} then FinishAt(t1, t1.now) else t1
    case HeartbeatTimer =>
      Beat(t.(heartbeatDue := None))
    case FinalTimer =>
      var t1 := t.(finalDue := None);
      if !t1.finished then FinishAt(t1.(status := Some(DeadlineExceeded)), t1.now) else t1
  }

  /**
   * Let `d` units of time pass: repeatedly move the clock to the next armed
   * timer within reach and fire it.
   */
  function AdvanceBy(t: Txn, d: nat): (r: Txn)
    ensures r.now == t.now + d
    ensures r.config == t.config && r.spanId == t.spanId && r.sampled == t.sampled
    ensures r.onScope == t.onScope && (!t.onScope ==> r.scope == t.scope) && r.callbacks == t.callbacks
    ensures r.idleDue.Some? ==> r.idleDue.value > r.now
    ensures r.heartbeatDue.Some? ==> r.heartbeatDue.value > r.now
    ensures r.finalDue.Some? ==> r.finalDue.value > r.now
    decreases d, DueByNow(t)
  {
    match NextTimer(t)
    case None => t.(now := t.now + d)
    case Some(x) =>
      var due := Due(t, x).value;
      if due > t.now + d then t.(now := t.now + d)
      else if due <= t.now then AdvanceBy(FireTimer(t, x), d)
      else AdvanceBy(FireTimer(t.(now := due), x), d - (due - t.now))
  }

  // ---------------------------------------------------------------------
  // Events

  /** One event. Once finished, only the clock still moves. */
  function Step(t: Txn, e: Event): Txn
  {
    match e
    case Advance(d) => AdvanceBy(t, d)
    case InitSpanRecorder => if t.finished then t else InitRecorder(t)
    case StartChild(id, parent, s, en) => if t.finished then t else StartChildSpan(t, id, parent, s, en)
    case FinishChild(id, en) => if t.finished then t else FinishChildSpan(t, id, en)
    case RegisterBeforeFinish => if t.finished then t else t.(callbacks := t.callbacks + 1)
    case Finish(en) => FinishAt(t, en.GetOr(t.now))
  }

  function Run(t: Txn, events: seq<Event>): Txn
    decreases |events|
  {
    if |events| == 0 then t else Run(Step(t, events[0]), events[1..])
  }
}
