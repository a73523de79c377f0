/**
 * Laws of the idle-transaction engine: the invariant every reachable state
 * keeps, and the timing rules the engine promises.
 */
module IdleTransactionLaws {
  import opened Optional
  import opened Spans
  import opened SpanRecorder
  import opened IdleTransaction

  /** Every armed timer lies strictly in the future. */
  ghost predicate TimersAhead(t: Txn)
  {
    && (t.idleDue.Some? ==> t.idleDue.value > t.now)
    && (t.heartbeatDue.Some? ==> t.heartbeatDue.value > t.now)
    && (t.finalDue.Some? ==> t.finalDue.value > t.now)
  }

  /** The spans a finished transaction hands on. */
  function KeptSpans(t: Txn): seq<Span>
  {
    if t.recorder.Some? then t.recorder.value.spans else []
  }

  /**
   * An open transaction: the registry is exactly the recorder's open
   * children; the idle timer is armed exactly when the registry is empty;
   * the heartbeat runs exactly when recording has begun; the final timer is
   * armed; nothing has been emitted or called back yet.
   */
  ghost predicate LiveShape(t: Txn)
  {
    && t.endTimestamp.None?
    && t.emitted == []
    && t.callbackCalls == []
    && (t.idleDue.Some? <==> t.activities == {})
    && (t.heartbeatDue.Some? <==> t.recorder.Some?)
    && t.finalDue.Some?
    && (t.onScope ==> t.scope == Some(t.spanId))
    && match t.recorder
       case None => t.activities == {} && t.prevHeartbeat.None?
       case Some(r) =>
         && r.transactionSpanId == t.spanId
         && DistinctChildIds(r)
         && t.activities == OpenIds(r)
         && (t.prevHeartbeat.Some? ==> t.prevHeartbeat.value <= RecordedIds(r))
  }

  /** After the finish-time pass: every child left is closed and did not start after the end. */
  ghost predicate Settled(spans: seq<Span>, rootId: string, end: int)
  {
    forall sp :: sp in spans ==> sp.spanId == rootId || (sp.endTimestamp.Some? && sp.startTimestamp <= end)
  }

  /**
   * A finished transaction: no timer armed, registry released, every
   * callback called once with the end timestamp, scope left, children
   * settled, exactly one emission.
   */
  ghost predicate FinishedShape(t: Txn)
  {
    && t.endTimestamp.Some?
    && t.idleDue.None? && t.heartbeatDue.None? && t.finalDue.None?
    && t.activities == {}
    && t.callbackCalls == CallsInOrder(t.callbacks, t.endTimestamp.value)
    && (t.onScope ==> t.scope.None?)
    && Settled(KeptSpans(t), t.spanId, t.endTimestamp.value)
    && t.emitted == [if t.sampled then Sent(KeptSpans(t)) else Dropped(SampleRateReason, TransactionCategory)]
  }

  ghost predicate Shape(t: Txn)
  {
    if t.finished then FinishedShape(t) else LiveShape(t)
  }

  ghost predicate Inv(t: Txn)
  {
    TimersAhead(t) && Shape(t)
  }

  // ---------------------------------------------------------------------
  // The invariant holds initially and is kept by every event

  lemma StartInv(spanId: string, startTimestamp: Option<int>, sampled: bool, config: Config,
                 onScope: bool, now: int, scope: Option<string>)
    ensures Inv(Start(spanId, startTimestamp, sampled, config, onScope, now, scope))
  {
  }

  lemma FinishAtInv(t: Txn, end: int)
    requires !t.finished && t.emitted == []
    ensures Inv(FinishAt(t, end)) && FinishAt(t, end).finished
    ensures FinishAt(t, end).endTimestamp == Some(end)
  {
    if t.recorder.Some? {
      FilterSpansExact(t.recorder.value.spans, t.spanId, end);
    }
  }

  /** The registry signals touch only the registry and the idle timer. */
  lemma ApplySignalsFrame(t: Txn, signals: seq<Signal>)
    ensures var r := ApplySignals(t, signals);
      r == t.(activities := r.activities, idleDue := r.idleDue)
    decreases |signals|
  {
    if |signals| > 0 {
      var t' := match signals[0]
        case Push(id) => PushActivity(t, id)
        case Pop(id) => PopActivity(t, id);
      ApplySignalsFrame(t', signals[1..]);
    }
  }

  lemma OpenIdsAreRecorded(r: Recorder)
    ensures OpenIds(r) <= RecordedIds(r)
  {
  }

  lemma FireTimerShape(t: Txn, x: Timer)
    requires Shape(t) && Due(t, x).Some? && Due(t, x).value <= t.now
    ensures Shape(FireTimer(t, x))
  {
    if !t.finished {
      match x
      case IdleTimer =>
        FinishAtInv(t.(idleDue := None), t.now);
      case HeartbeatTimer =>
        var counter := if t.prevHeartbeat == Some(t.activities) then t.heartbeatCounter + 1 else 1;
        OpenIdsAreRecorded(t.recorder.value);
        if counter >= BeatsToDeadline {
          FinishAtInv(t.(heartbeatDue := None, prevHeartbeat := Some(t.activities),
                         heartbeatCounter := counter, status := Some(DeadlineExceeded)), t.now);
        }
      case FinalTimer =>
        FinishAtInv(t.(finalDue := None, status := Some(DeadlineExceeded)), t.now);
    }
  }

  lemma AdvanceShape(t: Txn, d: nat)
    requires Shape(t)
    ensures Shape(AdvanceBy(t, d))
    decreases d, DueByNow(t)
  {
    match NextTimer(t)
    case None =>
    case Some(x) =>
      var due := Due(t, x).value;
      if due <= t.now {
        FireTimerShape(t, x);
        AdvanceShape(FireTimer(t, x), d);
      } else if due <= t.now + d {
        FireTimerShape(t.(now := due), x);
        AdvanceShape(FireTimer(t.(now := due), x), d - (due - t.now));
      }
  }

  lemma AdvanceInv(t: Txn, d: nat)
    requires Inv(t)
    ensures Inv(AdvanceBy(t, d))
  {
    AdvanceShape(t, d);
  }

  lemma InitRecorderInv(t: Txn)
    requires Inv(t) && !t.finished
    ensures Inv(InitRecorder(t))
  {
    var root := RootSpan(t);
    if t.recorder.None? {
      var r := Recorder(t.spanId, []);
      assert OpenIds(r) == {};
      assert DistinctChildIds(r);
    }
  }

  lemma StartChildInv(t: Txn, id: string, parent: Option<string>, startAt: Option<int>, endAt: Option<int>)
    requires Inv(t) && !t.finished
    ensures Inv(StartChildSpan(t, id, parent, startAt, endAt))
  {
    if !(t.recorder.None? || id == t.spanId || id in RecordedIds(t.recorder.value)) {
      var r := t.recorder.value;
      var u := Add(r, Span(id, parent, startAt.GetOr(t.now), endAt, None));
      AddTracksOpenChildren(r, Span(id, parent, startAt.GetOr(t.now), endAt, None));
      if u.signals == [] {
        AddSilentInv(t, u);
      } else {
        AddPushInv(t, u, id);
      }
    }
  }

  /** The common ground of both cases: the new recorder keeps ids distinct and only grows. */
  ghost predicate AddedTo(t: Txn, u: Update)
  {
    && t.recorder.Some?
    && u.recorder.transactionSpanId == t.recorder.value.transactionSpanId
    && DistinctChildIds(u.recorder)
    && RecordedIds(t.recorder.value) <= RecordedIds(u.recorder)
  }

  lemma AddSilentInv(t: Txn, u: Update)
    requires Inv(t) && !t.finished && AddedTo(t, u)
    requires u.signals == [] && OpenIds(u.recorder) == OpenIds(t.recorder.value)
    ensures Inv(ApplySignals(t.(recorder := Some(u.recorder)), u.signals))
  {
    var t1 := t.(recorder := Some(u.recorder));
    assert ApplySignals(t1, u.signals) == t1;
    assert LiveShape(t1);
  }

  lemma AddPushInv(t: Txn, u: Update, id: string)
    requires Inv(t) && !t.finished && AddedTo(t, u)
    requires u.signals == [Push(id)] && OpenIds(u.recorder) == OpenIds(t.recorder.value) + {id}
    ensures Inv(ApplySignals(t.(recorder := Some(u.recorder)), u.signals))
  {
    var t1 := t.(recorder := Some(u.recorder));
    var t2 := PushActivity(t1, id);
    assert ApplySignals(t1, u.signals) == t2;
    assert t2.activities == OpenIds(u.recorder);
    assert t2.activities != {} && t2.idleDue.None?;
    assert LiveShape(t2);
  }

  lemma FinishChildInv(t: Txn, id: string, endAt: Option<int>)
    requires Inv(t) && !t.finished
    ensures Inv(FinishChildSpan(t, id, endAt))
  {
    if t.recorder.Some? {
      var u := SpanRecorder.Finish(t.recorder.value, id, endAt.GetOr(t.now));
      FinishTracksOpenChildren(t.recorder.value, id, endAt.GetOr(t.now));
      var t1 := t.(recorder := Some(u.recorder));
      if u.signals == [] {
        assert ApplySignals(t1, u.signals) == t1;
        assert id !in OpenIds(t.recorder.value);
      } else {
        assert ApplySignals(t1, u.signals) == PopActivity(t1, id);
      }
    }
  }

  lemma StepInv(t: Txn, e: Event)
    requires Inv(t)
    ensures Inv(Step(t, e))
  {
    match e
    case Advance(d) => AdvanceInv(t, d);
    case InitSpanRecorder => if !t.finished { InitRecorderInv(t); }
    case StartChild(id, parent, s, en) => if !t.finished { StartChildInv(t, id, parent, s, en); }
    case FinishChild(id, en) => if !t.finished { FinishChildInv(t, id, en); }
    case RegisterBeforeFinish =>
    case Finish(en) => if !t.finished { FinishAtInv(t, en.GetOr(t.now)); }
  }

  lemma {:induction false} RunInv(t: Txn, events: seq<Event>)
    requires Inv(t)
    ensures Inv(Run(t, events))
    decreases |events|
  {
    if |events| > 0 {
      StepInv(t, events[0]);
      RunInv(Step(t, events[0]), events[1..]);
    }
  }
}

module IdleTransactionTiming {
  import opened Optional
  import opened Spans
  import opened SpanRecorder
  import opened IdleTransaction
  import opened IdleTransactionLaws

  // ---------------------------------------------------------------------
  // Finishing happens once

  /** Once finished, no event changes anything but the clock. */
  lemma FinishedIsFrozen(t: Txn, e: Event)
    requires Inv(t) && t.finished
    ensures Step(t, e) == t.(now := Step(t, e).now)
  {
    match e
    case Advance(d) =>
      AdvanceFinished(t, d);
    case _ =>
  }

  lemma {:induction false} RunFrozen(t: Txn, events: seq<Event>)
    requires Inv(t) && t.finished
    ensures Run(t, events) == t.(now := Run(t, events).now)
    decreases |events|
  {
    if |events| > 0 {
      FinishedIsFrozen(t, events[0]);
      StepInv(t, events[0]);
      RunFrozen(Step(t, events[0]), events[1..]);
    }
  }

  /**
   * Whatever happens, a transaction is emitted (or reported dropped) at most
   * once, and nothing is emitted again after it has finished.
   */
  lemma EmitsAtMostOnce(t: Txn, events: seq<Event>)
    requires Inv(t)
    ensures |Run(t, events).emitted| <= 1
    ensures t.finished ==> Run(t, events).emitted == t.emitted && Run(t, events).finished
  {
    RunInv(t, events);
    if t.finished {
      RunFrozen(t, events);
    }
  }

  // ---------------------------------------------------------------------
  // Timers

  /** Once finished, waiting only moves the clock. */
  lemma AdvanceFinished(t: Txn, d: nat)
    requires Shape(t) && t.finished
    ensures AdvanceBy(t, d) == t.(now := t.now + d)
  {
    assert NextTimer(t).None?;
  }

  /**
   * An armed idle or final timer finishes an open transaction by its due
   * instant at the latest (another timer may finish it earlier).
   */
  lemma {:induction false} ArmedDeadlineFinishes(t: Txn, due: int, d: nat)
    requires Shape(t) && !t.finished
    requires t.idleDue == Some(due) || t.finalDue == Some(due)
    requires t.now + d >= due
    ensures AdvanceBy(t, d).finished
    decreases d, DueByNow(t)
  {
    var t1, rest := FireBeforeDeadline(t, due, d);
    if t1.finished {
      AdvanceFinished(t1, rest);
    } else {
      ArmedDeadlineFinishes(t1, due, rest);
    }
  }

  /**
   * When the idle timer is the first armed timer to come due and nothing is
   * open, the transaction finishes exactly at the idle timer's due instant:
   * that instant is its end timestamp, the cut-off for the kept spans and the
   * value every beforeFinish callback receives. On ties the idle timer fires
   * first.
   */
  lemma IdleFinishesAtDue(t: Txn, d: nat) returns (r: Txn)
    requires !t.finished && t.activities == {} && t.idleDue == Some(t.now + d)
    requires t.heartbeatDue.None? || t.heartbeatDue.value >= t.now + d
    requires t.finalDue.None? || t.finalDue.value >= t.now + d
    ensures r == AdvanceBy(t, d)
    ensures r.finished && r.endTimestamp.Some? && r.endTimestamp.value == t.now + d
    ensures r.status == t.status && r.callbackCalls == CallsInOrder(t.callbacks, t.now + d)
    ensures t.recorder.Some? ==>
      r.recorder.Some? && r.recorder.value.spans == FilterSpans(t.recorder.value.spans, t.spanId, t.now + d)
  {
    r := AdvanceBy(t, d);
    IdleFiresFirst(t, d);
  }

  /** Waiting out an idle timer that comes due first is one idle finish at its due instant. */
  lemma IdleFiresFirst(t: Txn, d: nat)
    requires !t.finished && t.activities == {} && t.idleDue == Some(t.now + d)
    requires t.heartbeatDue.None? || t.heartbeatDue.value >= t.now + d
    requires t.finalDue.None? || t.finalDue.value >= t.now + d
    ensures AdvanceBy(t, d) == FinishAt(t.(now := t.now + d, idleDue := None), t.now + d)
  {
    assert NextTimer(t) == Some(IdleTimer);
    var s := if d == 0 then t else t.(now := t.now + d);
    var f := FinishAt(s.(idleDue := None), t.now + d);
    assert FireTimer(s, IdleTimer) == f;
    assert NextTimer(f).None?;
    assert AdvanceBy(t, d) == AdvanceBy(f, 0) == f;
  }

  /**
   * One firing on the way to an armed deadline: the wait that remains still
   * reaches the deadline, which stays armed unless the firing finished the
   * transaction.
   */
  lemma FireBeforeDeadline(t: Txn, due: int, d: nat) returns (t1: Txn, rest: nat)
    requires Shape(t) && !t.finished
    requires t.idleDue == Some(due) || t.finalDue == Some(due)
    requires t.now + d >= due
    ensures AdvanceBy(t, d) == AdvanceBy(t1, rest) && Shape(t1)
    ensures !t1.finished ==> (t1.idleDue == Some(due) || t1.finalDue == Some(due)) && t1.now + rest >= due
    ensures rest < d || (rest == d && DueByNow(t1) < DueByNow(t))
  {
    var x, s;
    x, s, rest := NextFiring(t, due, d);
    FireTimerShape(s, x);
    FireOpenKeepsDeadlines(s, x);
    t1 := FireTimer(s, x);
  }

  /**
   * The first timer to fire while waiting for an armed deadline, and the
   * state it fires in: the clock moved to its due instant, nothing else
   * changed.
   */
  lemma NextFiring(t: Txn, due: int, d: nat) returns (x: Timer, s: Txn, rest: nat)
    requires Shape(t) && !t.finished
    requires t.idleDue == Some(due) || t.finalDue == Some(due)
    requires t.now + d >= due
    ensures Due(s, x).Some? && Due(s, x).value <= s.now
    ensures AdvanceBy(t, d) == AdvanceBy(FireTimer(s, x), rest)
    ensures s == t.(now := s.now) && s.now >= t.now && s.now + rest == t.now + d
    ensures rest < d || s == t
  {
    x := NextTimer(t).value;
    var dx := Due(t, x).value;
    s := if dx <= t.now then t else t.(now := dx);
    rest := if dx <= t.now then d else d - (dx - t.now);
    AdvanceUnfold(t, d);
  }

  /** One unfolding of `AdvanceBy` when the next timer falls within reach. */
  lemma AdvanceUnfold(t: Txn, d: nat)
    requires NextTimer(t).Some? && Due(t, NextTimer(t).value).value <= t.now + d
    ensures var x := NextTimer(t).value;
      var dx := Due(t, x).value;
      var s := if dx <= t.now then t else t.(now := dx);
      var rest: nat := if dx <= t.now then d else d - (dx - t.now);
      AdvanceBy(t, d) == AdvanceBy(FireTimer(s, x), rest)
  {
  }

  /**
   * A firing that leaves a well-shaped transaction open was a heartbeat, and
   * it leaves the idle and final timers as they were.
   */
  lemma FireOpenKeepsDeadlines(t: Txn, x: Timer)
    requires Shape(t) && !t.finished && Due(t, x).Some? && Due(t, x).value <= t.now
    ensures !FireTimer(t, x).finished ==>
      x == HeartbeatTimer && FireTimer(t, x).idleDue == t.idleDue && FireTimer(t, x).finalDue == t.finalDue
  {
  }

  /**
   * An open transaction with children open: the idle timer is off and the
   * heartbeat and final timers are armed in the future.
   */
  ghost predicate Beating(t: Txn)
  {
    && !t.finished && t.activities != {} && t.idleDue.None?
    && t.heartbeatDue.Some? && t.finalDue.Some? && TimersAhead(t)
  }

  lemma InvBeating(t: Txn)
    requires Inv(t) && !t.finished && t.activities != {}
    ensures Beating(t)
  {
  }

  /** When the heartbeat is the next timer, waiting for it runs exactly one beat. */
  lemma SingleBeat(t: Txn, d: nat)
    requires Beating(t) && t.finalDue.value > t.heartbeatDue.value
    requires d == t.heartbeatDue.value - t.now
    ensures AdvanceBy(t, d) == Beat(t.(now := t.heartbeatDue.value, heartbeatDue := None))
  {
    var b := t.heartbeatDue.value;
    assert NextTimer(t) == Some(HeartbeatTimer);
    AdvanceUnfold(t, d);
    var u := t.(now := b, heartbeatDue := None);
    BeatOutcome(u);
    AdvanceQuiet(Beat(u), 0);
  }

  /**
   * One beat of an open transaction with children open: the counter grows
   * when the activity set is the one the previous beat saw and restarts at
   * 1 otherwise; the third consecutive count finishes the transaction with
   * status deadline_exceeded at the beat instant.
   */
  lemma BeatOutcome(t: Txn)
    requires !t.finished && t.activities != {} && t.idleDue.None?
    requires t.finalDue.Some? && t.finalDue.value > t.now
    ensures var c := if t.prevHeartbeat == Some(t.activities) then t.heartbeatCounter + 1 else 1;
      var r := Beat(t);
      && r.heartbeatCounter == c && r.prevHeartbeat == Some(t.activities) && r.now == t.now
      && r.finished == (c >= BeatsToDeadline)
      && (r.finished ==> r.status == Some(DeadlineExceeded) && r.endTimestamp == Some(t.now)
                         && r.idleDue.None? && r.heartbeatDue.None? && r.finalDue.None?)
      && (!r.finished ==> r.activities == t.activities && r.finalDue == t.finalDue && r.idleDue.None?
                          && r.heartbeatDue == Some(t.now + TimerDelay(t.config.heartbeatInterval)))
  {
  }

  /** With children open, waiting for the heartbeat runs one beat. */
  lemma NextBeat(t: Txn, d: nat)
    requires Beating(t) && t.finalDue.value > t.heartbeatDue.value
    requires d == t.heartbeatDue.value - t.now
    ensures var b := t.heartbeatDue.value;
      var r := AdvanceBy(t, d);
      var c := if t.prevHeartbeat == Some(t.activities) then t.heartbeatCounter + 1 else 1;
      && r.heartbeatCounter == c && r.config == t.config && r.now == b
      && r.prevHeartbeat == Some(t.activities)
      && r.finished == (c >= BeatsToDeadline)
      && (r.finished ==> r.status == Some(DeadlineExceeded) && r.endTimestamp == Some(b))
      && (!r.finished ==> Beating(r) && r.activities == t.activities && r.finalDue == t.finalDue
                          && r.heartbeatDue == Some(b + TimerDelay(t.config.heartbeatInterval)))
  {
    SingleBeat(t, d);
    BeatOutcome(t.(now := t.heartbeatDue.value, heartbeatDue := None));
  }

  /**
   * The heartbeat rule, first half: when the next beat will see a changed
   * activity set and nothing else happens, the first and second beats count
   * 1 and 2 and leave the transaction open, and it is still open one
   * instant before the third beat. (With open activities the idle timer is
   * off.)
   */
  lemma TwoBeatsKeepOpen(t: Txn)
    requires Inv(t) && !t.finished && t.activities != {} && t.heartbeatDue.Some?
    requires t.prevHeartbeat != Some(t.activities)
    requires t.finalDue.value > t.heartbeatDue.value + 2 * TimerDelay(t.config.heartbeatInterval)
    ensures var h := TimerDelay(t.config.heartbeatInterval);
      var t1 := AdvanceBy(t, t.heartbeatDue.value - t.now);
      var t2 := AdvanceBy(t1, h);
      && !t1.finished && t1.heartbeatCounter == 1
      && !t2.finished && t2.heartbeatCounter == 2
      && !AdvanceBy(t2, h - 1).finished
  {
    InvBeating(t);
    TwoBeats(t, t.heartbeatDue.value - t.now);
  }

  lemma TwoBeats(t: Txn, d: nat)
    requires Beating(t) && t.prevHeartbeat != Some(t.activities)
    requires t.finalDue.value > t.heartbeatDue.value + 2 * TimerDelay(t.config.heartbeatInterval)
    requires d == t.heartbeatDue.value - t.now
    ensures var h := TimerDelay(t.config.heartbeatInterval);
      var t1 := AdvanceBy(t, d);
      var t2 := AdvanceBy(t1, h);
      && !t1.finished && t1.heartbeatCounter == 1
      && !t2.finished && t2.heartbeatCounter == 2
      && !AdvanceBy(t2, h - 1).finished
  {
    BeatAfterChange(t, d);
    var t1 := AdvanceBy(t, d);
    SecondBeat(t1);
    BeforeLastBeat(AdvanceBy(t1, TimerDelay(t.config.heartbeatInterval)));
  }

  /**
   * The heartbeat rule, second half: in the same situation the third beat
   * finishes the transaction with status deadline_exceeded at that instant,
   * unless the final timer comes first.
   */
  lemma ThirdUnchangedBeatFinishes(t: Txn)
    requires Inv(t) && !t.finished && t.activities != {} && t.heartbeatDue.Some?
    requires t.prevHeartbeat != Some(t.activities)
    requires t.finalDue.value > t.heartbeatDue.value + 2 * TimerDelay(t.config.heartbeatInterval)
    ensures var h := TimerDelay(t.config.heartbeatInterval);
      var t3 := AdvanceBy(AdvanceBy(AdvanceBy(t, t.heartbeatDue.value - t.now), h), h);
      && t3.finished
      && t3.status == Some(DeadlineExceeded)
      && t3.endTimestamp.Some? && t3.endTimestamp.value == t.heartbeatDue.value + 2 * h
  {
    InvBeating(t);
    var d := t.heartbeatDue.value - t.now;
    ThreeBeats(t, d);
    assert AdvanceBy(t, t.heartbeatDue.value - t.now) == AdvanceBy(t, d);
  }

  lemma ThreeBeats(t: Txn, d: nat)
    requires Beating(t) && t.prevHeartbeat != Some(t.activities)
    requires t.finalDue.value > t.heartbeatDue.value + 2 * TimerDelay(t.config.heartbeatInterval)
    requires d == t.heartbeatDue.value - t.now
    ensures var h := TimerDelay(t.config.heartbeatInterval);
      var t3 := AdvanceBy(AdvanceBy(AdvanceBy(t, d), h), h);
      && t3.finished
      && t3.status == Some(DeadlineExceeded)
      && t3.endTimestamp.Some? && t3.endTimestamp.value == t.heartbeatDue.value + 2 * h
  {
    BeatAfterChange(t, d);
    var t1 := AdvanceBy(t, d);
    var h := TimerDelay(t.config.heartbeatInterval);
    TwoMoreBeats(t1, h, t.heartbeatDue.value);
  }

  /**
   * From a first count at instant `at`, the second beat keeps the
   * transaction open and the third ends it two intervals later.
   */
  lemma TwoMoreBeats(t1: Txn, h: nat, at: int)
    requires Counting(t1, 1) && h == TimerDelay(t1.config.heartbeatInterval) && at == t1.now
    requires t1.finalDue.value > at + 2 * h
    ensures var t3 := AdvanceBy(AdvanceBy(t1, h), h);
      && t3.finished
      && t3.status == Some(DeadlineExceeded)
      && t3.endTimestamp.Some? && t3.endTimestamp.value == at + 2 * h
  {
    SecondBeat(t1);
    LastBeat(AdvanceBy(t1, h));
  }

  /** Open, beating, and `k` beats into an unchanged activity set. */
  ghost predicate Counting(t: Txn, k: nat)
  {
    && Beating(t)
    && t.heartbeatDue == Some(t.now + TimerDelay(t.config.heartbeatInterval))
    && t.prevHeartbeat == Some(t.activities) && t.heartbeatCounter == k
  }

  /** The first beat after the activity set changed counts 1. */
  lemma FirstBeat(t: Txn)
    requires Inv(t) && !t.finished && t.activities != {} && t.heartbeatDue.Some?
    requires t.prevHeartbeat != Some(t.activities)
    requires t.finalDue.value > t.heartbeatDue.value
    ensures var t1 := AdvanceBy(t, t.heartbeatDue.value - t.now);
      Counting(t1, 1) && t1.now == t.heartbeatDue.value && t1.finalDue == t.finalDue
  {
    InvBeating(t);
    BeatAfterChange(t, t.heartbeatDue.value - t.now);
  }

  lemma BeatAfterChange(t: Txn, d: nat)
    requires Beating(t) && t.prevHeartbeat != Some(t.activities)
    requires t.finalDue.value > t.heartbeatDue.value
    requires d == t.heartbeatDue.value - t.now
    ensures var t1 := AdvanceBy(t, d);
      Counting(t1, 1) && t1.now == t.heartbeatDue.value && t1.finalDue == t.finalDue && t1.config == t.config
  {
    NextBeat(t, d);
  }

  /** A beat over an unchanged activity set counts one more. */
  lemma SecondBeat(t: Txn)
    requires Counting(t, 1)
    requires t.finalDue.value > t.now + TimerDelay(t.config.heartbeatInterval)
    ensures var h := TimerDelay(t.config.heartbeatInterval);
      var t2 := AdvanceBy(t, h);
      Counting(t2, 2) && t2.now == t.now + h && t2.finalDue == t.finalDue && t2.config == t.config
  {
    NextBeat(t, TimerDelay(t.config.heartbeatInterval));
  }

  /** The third beat over an unchanged activity set ends the transaction. */
  lemma LastBeat(t: Txn)
    requires Counting(t, 2)
    requires t.finalDue.value > t.now + TimerDelay(t.config.heartbeatInterval)
    ensures var h := TimerDelay(t.config.heartbeatInterval);
      && AdvanceBy(t, h).finished
      && AdvanceBy(t, h).status == Some(DeadlineExceeded)
      && AdvanceBy(t, h).endTimestamp == Some(t.now + h)
  {
    NextBeat(t, TimerDelay(t.config.heartbeatInterval));
  }

  /** One instant before the third beat the transaction is still open. */
  lemma BeforeLastBeat(t: Txn)
    requires Counting(t, 2)
    requires t.finalDue.value > t.now + TimerDelay(t.config.heartbeatInterval)
    ensures !AdvanceBy(t, TimerDelay(t.config.heartbeatInterval) - 1).finished
  {
    BeatNotYet(t, TimerDelay(t.config.heartbeatInterval) - 1);
  }

  /** Before the heartbeat is due, with the idle timer off, waiting leaves the transaction open. */
  lemma BeatNotYet(t: Txn, d: nat)
    requires Beating(t) && t.now + d < t.heartbeatDue.value < t.finalDue.value
    ensures !AdvanceBy(t, d).finished
  {
    assert NextTimer(t) == Some(HeartbeatTimer);
  }

  /**
   * Starting a new open child changes the activity set, so the next beat
   * restarts its count.
   */
  lemma StartChildResetsHeartbeat(t: Txn, id: string, parent: Option<string>, startAt: Option<int>)
    requires Inv(t) && !t.finished && t.recorder.Some?
    requires id != t.spanId && id !in RecordedIds(t.recorder.value)
    ensures var r := Step(t, StartChild(id, parent, startAt, None));
      && r.activities == t.activities + {id}
      && r.prevHeartbeat == t.prevHeartbeat
      && r.prevHeartbeat != Some(r.activities)
  {
    OpenChildStarts(t, id, parent, startAt);
  }

  /**
   * Finishing an open child changes the activity set, so the next beat
   * restarts its count even when the previous beat saw the set as it was.
   */
  lemma FinishChildResetsHeartbeat(t: Txn, id: string, endAt: Option<int>)
    requires Inv(t) && !t.finished && id in t.activities
    ensures var r := Step(t, FinishChild(id, endAt));
      && r.activities == t.activities - {id}
      && r.prevHeartbeat == t.prevHeartbeat
      && (t.prevHeartbeat == Some(t.activities) ==> r.prevHeartbeat != Some(r.activities))
  {
    OpenChildFinishes(t, id, endAt);
  }

  // ---------------------------------------------------------------------
  // One event at a time

  /** Before the earliest armed timer, waiting only moves the clock. */
  lemma AdvanceQuiet(t: Txn, d: nat)
    requires t.idleDue.None? || t.idleDue.value > t.now + d
    requires t.heartbeatDue.None? || t.heartbeatDue.value > t.now + d
    requires t.finalDue.None? || t.finalDue.value > t.now + d
    ensures AdvanceBy(t, d) == t.(now := t.now + d)
  {
    if NextTimer(t).Some? {
      assert Due(t, NextTimer(t).value).value > t.now + d;
    }
  }

  /**
   * The first `initSpanRecorder` records the transaction's own span and
   * starts the heartbeat; the registry and the other timers are untouched.
   */
  lemma RecordingStarts(t: Txn)
    requires Inv(t) && !t.finished && t.recorder.None?
    ensures var r := Step(t, InitSpanRecorder);
      && Inv(r) && !r.finished && r.now == t.now
      && r.spanId == t.spanId && r.config == t.config && r.sampled == t.sampled
      && r.recorder == Some(Recorder(t.spanId, [RootSpan(t)]))
      && r.activities == t.activities
      && r.heartbeatDue == Some(t.now + TimerDelay(t.config.heartbeatInterval))
      && r.idleDue == t.idleDue && r.finalDue == t.finalDue
      && r.prevHeartbeat.None? && r.heartbeatCounter == t.heartbeatCounter
      && r.callbacks == t.callbacks && r.status == t.status
  {
    InitRecorderInv(t);
    assert Add(Recorder(t.spanId, []), RootSpan(t)).recorder.spans == [RootSpan(t)];
  }

  /**
   * Starting a child with a new id and no end timestamp records it, pushes
   * its activity and cancels the idle timer; the other timers and the
   * heartbeat state are untouched.
   */
  lemma OpenChildStarts(t: Txn, id: string, parent: Option<string>, startAt: Option<int>)
    requires Inv(t) && !t.finished && t.recorder.Some?
    requires id != t.spanId && id !in RecordedIds(t.recorder.value)
    ensures var r := Step(t, StartChild(id, parent, startAt, None));
      && Inv(r) && !r.finished && r.now == t.now
      && r.spanId == t.spanId && r.config == t.config && r.sampled == t.sampled
      && r.recorder == Some(t.recorder.value.(spans := t.recorder.value.spans + [Span(id, parent, startAt.GetOr(t.now), None, None)]))
      && RecordedIds(r.recorder.value) == RecordedIds(t.recorder.value) + {id}
      && r.activities == t.activities + {id}
      && r.idleDue.None? && r.heartbeatDue == t.heartbeatDue && r.finalDue == t.finalDue
      && r.prevHeartbeat == t.prevHeartbeat && r.heartbeatCounter == t.heartbeatCounter
      && r.callbacks == t.callbacks && r.status == t.status
  {
    StartChildInv(t, id, parent, startAt, None);
    var span := Span(id, parent, startAt.GetOr(t.now), None, None);
    var u := Add(t.recorder.value, span);
    AddTracksOpenChildren(t.recorder.value, span);
    assert u.signals == [Push(id)];
    assert u.recorder.spans == t.recorder.value.spans + [span];
    var t1 := t.(recorder := Some(u.recorder));
    assert ApplySignals(t1, u.signals) == PushActivity(t1, id);
  }

  /** Starting a child that already has an end timestamp records it and pushes nothing. */
  lemma ClosedChildStarts(t: Txn, id: string, parent: Option<string>, startAt: Option<int>, end: int)
    requires Inv(t) && !t.finished && t.recorder.Some?
    requires id != t.spanId && id !in RecordedIds(t.recorder.value)
    ensures var r := Step(t, StartChild(id, parent, startAt, Some(end)));
      && Inv(r) && !r.finished
      && r.recorder == Some(t.recorder.value.(spans := t.recorder.value.spans + [Span(id, parent, startAt.GetOr(t.now), Some(end), None)]))
      && r == t.(recorder := r.recorder)
  {
    StartChildInv(t, id, parent, startAt, Some(end));
    var span := Span(id, parent, startAt.GetOr(t.now), Some(end), None);
    var u := Add(t.recorder.value, span);
    AddTracksOpenChildren(t.recorder.value, span);
    assert u.signals == [];
    assert u.recorder.spans == t.recorder.value.spans + [span];
  }

  /**
   * Finishing an open child pops its activity; when that empties the
   * registry the idle timer is re-armed from now. The other timers and the
   * heartbeat state are untouched.
   */
  lemma OpenChildFinishes(t: Txn, id: string, endAt: Option<int>)
    requires Inv(t) && !t.finished && id in t.activities
    ensures var r := Step(t, FinishChild(id, endAt));
      && Inv(r) && !r.finished && r.now == t.now
      && r.spanId == t.spanId && r.config == t.config && r.sampled == t.sampled
      && r.activities == t.activities - {id}
      && r.idleDue == (if r.activities == {} then Some(t.now + TimerDelay(t.config.idleTimeout)) else None)
      && r.heartbeatDue == t.heartbeatDue && r.finalDue == t.finalDue
      && r.prevHeartbeat == t.prevHeartbeat && r.heartbeatCounter == t.heartbeatCounter
      && r.callbacks == t.callbacks && r.status == t.status
      && r.recorder.Some? && RecordedIds(r.recorder.value) == RecordedIds(t.recorder.value)
  {
    FinishChildInv(t, id, endAt);
    var u := SpanRecorder.Finish(t.recorder.value, id, endAt.GetOr(t.now));
    FinishTracksOpenChildren(t.recorder.value, id, endAt.GetOr(t.now));
    assert u.signals == [Pop(id)];
    var t1 := t.(recorder := Some(u.recorder));
    assert ApplySignals(t1, u.signals) == PopActivity(t1, id);
  }
}
