/**
 * What holds of every transaction reachable from the constructor by any
 * sequence of events.
 */
module IdleTransactionFacts {
  import opened Optional
  import opened Spans
  import opened SpanRecorder
  import opened IdleTransaction
  import opened IdleTransactionLaws
  import opened IdleTransactionTiming

  function Reach(spanId: string, startTimestamp: Option<int>, sampled: bool, config: Config,
                 onScope: bool, now: int, scope: Option<string>, events: seq<Event>): Txn
  {
    Run(Start(spanId, startTimestamp, sampled, config, onScope, now, scope), events)
  }

  lemma ReachableInv(spanId: string, startTimestamp: Option<int>, sampled: bool, config: Config,
                     onScope: bool, now: int, scope: Option<string>, events: seq<Event>)
    ensures Inv(Reach(spanId, startTimestamp, sampled, config, onScope, now, scope, events))
  {
    StartInv(spanId, startTimestamp, sampled, config, onScope, now, scope);
    RunInv(Start(spanId, startTimestamp, sampled, config, onScope, now, scope), events);
  }

  /**
   * The activity registry of an open transaction is exactly the set of its
   * recorded children that have not ended; without a recorder it is empty.
   * The idle timer is armed exactly when the registry is empty, and the
   * heartbeat runs exactly when a recorder exists.
   */
  lemma RegistryTracksOpenChildren(spanId: string, startTimestamp: Option<int>, sampled: bool, config: Config,
                                   onScope: bool, now: int, scope: Option<string>, events: seq<Event>)
    ensures var t := Reach(spanId, startTimestamp, sampled, config, onScope, now, scope, events);
      !t.finished ==>
        && t.activities == (if t.recorder.Some? then OpenIds(t.recorder.value) else {})
        && (t.idleDue.Some? <==> t.activities == {})
        && (t.heartbeatDue.Some? <==> t.recorder.Some?)
        && spanId !in t.activities
  {
    ReachableInv(spanId, startTimestamp, sampled, config, onScope, now, scope, events);
    RunIdentity(Start(spanId, startTimestamp, sampled, config, onScope, now, scope), events);
  }

  /**
   * Finishing reports the transaction exactly once: sent with its settled
   * spans when sampled, reported dropped for reason sample_rate and
   * category transaction otherwise; nothing is reported while it is open.
   */
  lemma FinishReportsOnce(spanId: string, startTimestamp: Option<int>, sampled: bool, config: Config,
                          onScope: bool, now: int, scope: Option<string>, events: seq<Event>)
    ensures var t := Reach(spanId, startTimestamp, sampled, config, onScope, now, scope, events);
      && (!t.finished ==> t.emitted == [])
      && (t.finished && sampled ==> t.emitted == [Sent(KeptSpans(t))])
      && (t.finished && !sampled ==> t.emitted == [Dropped("sample_rate", "transaction")])
  {
    ReachableInv(spanId, startTimestamp, sampled, config, onScope, now, scope, events);
    RunIdentity(Start(spanId, startTimestamp, sampled, config, onScope, now, scope), events);
  }

  /**
   * At finish every registered beforeFinish callback has been called
   * exactly once, in registration order, with the end timestamp; before
   * finishing none has.
   */
  lemma CallbacksCalledOnce(spanId: string, startTimestamp: Option<int>, sampled: bool, config: Config,
                            onScope: bool, now: int, scope: Option<string>, events: seq<Event>)
    ensures var t := Reach(spanId, startTimestamp, sampled, config, onScope, now, scope, events);
      && (!t.finished ==> t.callbackCalls == [])
      && (t.finished ==>
            && t.endTimestamp.Some?
            && |t.callbackCalls| == t.callbacks
            && forall i :: 0 <= i < t.callbacks ==>
                 t.callbackCalls[i] == CallbackCall(i, t.endTimestamp.value))
  {
    ReachableInv(spanId, startTimestamp, sampled, config, onScope, now, scope, events);
    RunIdentity(Start(spanId, startTimestamp, sampled, config, onScope, now, scope), events);
  }

  /**
   * With `onScope` the transaction sits on the scope while open and is
   * taken off when it finishes, sampled or not; without it the scope is
   * never touched.
   */
  lemma ScopeFollowsLifetime(spanId: string, startTimestamp: Option<int>, sampled: bool, config: Config,
                             onScope: bool, now: int, scope: Option<string>, events: seq<Event>)
    ensures var t := Reach(spanId, startTimestamp, sampled, config, onScope, now, scope, events);
      && (onScope && !t.finished ==> t.scope == Some(spanId))
      && (onScope && t.finished ==> t.scope.None?)
      && (!onScope ==> t.scope == scope)
    decreases |events|
  {
    ReachableInv(spanId, startTimestamp, sampled, config, onScope, now, scope, events);
    RunIdentity(Start(spanId, startTimestamp, sampled, config, onScope, now, scope), events);
  }

  /** Which transaction it is, whether it is sampled and its settings never change. */
  ghost predicate SameIdentity(a: Txn, b: Txn)
  {
    && a.spanId == b.spanId && a.sampled == b.sampled && a.config == b.config
    && a.onScope == b.onScope && (!a.onScope ==> a.scope == b.scope)
  }

  lemma {:induction false} RunIdentity(t: Txn, events: seq<Event>)
    ensures SameIdentity(t, Run(t, events))
    decreases |events|
  {
    if |events| > 0 {
      StepIdentity(t, events[0]);
      RunIdentity(Step(t, events[0]), events[1..]);
    }
  }

  lemma StepIdentity(t: Txn, e: Event)
    ensures SameIdentity(t, Step(t, e))
  {
    match e
    case StartChild(id, parent, s, en) =>
      if !t.finished && !(t.recorder.None? || id == t.spanId || id in RecordedIds(t.recorder.value)) {
        var u := Add(t.recorder.value, Span(id, parent, s.GetOr(t.now), en, None));
        ApplySignalsFrame(t.(recorder := Some(u.recorder)), u.signals);
      }
    case FinishChild(id, en) =>
      if !t.finished && t.recorder.Some? {
        var u := SpanRecorder.Finish(t.recorder.value, id, en.GetOr(t.now));
        ApplySignalsFrame(t.(recorder := Some(u.recorder)), u.signals);
      }
    case _ =>
  }

  /**
   * A finished transaction's spans: its own span, and children that ended
   * and did not start after the transaction's end; children still open at
   * the end were cut there and marked cancelled.
   */
  lemma FinishedSpansSettled(spanId: string, startTimestamp: Option<int>, sampled: bool, config: Config,
                             onScope: bool, now: int, scope: Option<string>, events: seq<Event>)
    ensures var t := Reach(spanId, startTimestamp, sampled, config, onScope, now, scope, events);
      t.finished ==>
        && t.endTimestamp.Some?
        && forall sp :: sp in KeptSpans(t) ==>
          sp.spanId == spanId || (sp.endTimestamp.Some? && sp.startTimestamp <= t.endTimestamp.value)
  {
    ReachableInv(spanId, startTimestamp, sampled, config, onScope, now, scope, events);
    RunIdentity(Start(spanId, startTimestamp, sampled, config, onScope, now, scope), events);
  }

  /**
   * Without `initSpanRecorder` nothing is recorded, no activity is ever
   * pushed and the heartbeat never runs, so only the idle timer, the final
   * timer or an explicit finish can end the transaction.
   */
  lemma NoRecorderNoHeartbeat(spanId: string, startTimestamp: Option<int>, sampled: bool, config: Config,
                              onScope: bool, now: int, scope: Option<string>, events: seq<Event>)
    requires forall i :: 0 <= i < |events| ==> events[i] != InitSpanRecorder
    ensures var t := Reach(spanId, startTimestamp, sampled, config, onScope, now, scope, events);
      && t.recorder.None? && t.heartbeatDue.None? && t.heartbeatCounter == 0
      && t.activities == {}
      && (t.status.Some? ==> t.finished && t.status == Some(DeadlineExceeded))
  {
    NoRecorderRun(Start(spanId, startTimestamp, sampled, config, onScope, now, scope), events);
  }

  ghost predicate Unrecorded(t: Txn)
  {
    && t.recorder.None? && t.heartbeatDue.None? && t.heartbeatCounter == 0
    && t.activities == {}
    && (t.status.Some? ==> t.finished && t.status == Some(DeadlineExceeded))
  }

  lemma {:induction false} NoRecorderRun(t: Txn, events: seq<Event>)
    requires Unrecorded(t)
    requires forall i :: 0 <= i < |events| ==> events[i] != InitSpanRecorder
    ensures Unrecorded(Run(t, events))
    decreases |events|
  {
    if |events| > 0 {
      match events[0] {
        case Advance(d) => NoRecorderAdvance(t, d);
        case _ =>
      }
      NoRecorderRun(Step(t, events[0]), events[1..]);
    }
  }

  lemma NoRecorderAdvance(t: Txn, d: nat)
    requires Unrecorded(t)
    ensures Unrecorded(AdvanceBy(t, d))
    decreases d, DueByNow(t)
  {
    match NextTimer(t)
    case None =>
    case Some(x) =>
      var due := Due(t, x).value;
      if due <= t.now {
        NoRecorderAdvance(FireTimer(t, x), d);
      } else if due <= t.now + d {
        NoRecorderAdvance(FireTimer(t.(now := due), x), d - (due - t.now));
      }
  }
}
