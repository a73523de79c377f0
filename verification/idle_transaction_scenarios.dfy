/**
 * The idle-transaction behaviours the package's own tests describe,
 * replayed on the model. The transaction's id is "tx" and the clock starts
 * at 0; children get arbitrary distinct ids, and where a test uses the
 * default timeouts the lemma states the behaviour for every configuration
 * whose timers keep the same order.
 */
module IdleTransactionScenarios {
  import opened Optional
  import opened Spans
  import opened SpanRecorder
  import opened IdleTransaction
  import opened IdleTransactionLaws
  import opened IdleTransactionTiming

  function Fresh(startTimestamp: Option<int>, sampled: bool, config: Config, onScope: bool): Txn
  {
    Start("tx", startTimestamp, sampled, config, onScope, 0, None)
  }

  function Child(id: string): Event
  {
    StartChild(id, Some("tx"), None, None)
  }

  /** A fresh transaction whose recorder has just been initialised. */
  function Recording(sampled: bool, config: Config): Txn
  {
    Step(Fresh(None, sampled, config, false), InitSpanRecorder)
  }

  lemma RecordingFacts(sampled: bool, config: Config)
    ensures var t := Recording(sampled, config);
      && Inv(t) && !t.finished && t.now == 0 && t.activities == {}
      && t.spanId == "tx" && t.config == config && t.sampled == sampled && !t.onScope
      && t.recorder == Some(Recorder("tx", [RootSpan(t)]))
      && RecordedIds(t.recorder.value) == {"tx"}
      && t.idleDue == Some(TimerDelay(config.idleTimeout))
      && t.heartbeatDue == Some(TimerDelay(config.heartbeatInterval))
      && t.finalDue == Some(TimerDelay(config.finalTimeout))
      && t.prevHeartbeat.None? && t.heartbeatCounter == 0 && t.callbacks == 0
  {
    var t0 := Fresh(None, sampled, config, false);
    StartInv("tx", None, sampled, config, false, 0, None);
    RecordingStarts(t0);
    var t := Recording(sampled, config);
    assert RecordedIds(t.recorder.value) == {"tx"} by {
      assert t.recorder.value.spans == [RootSpan(t0)];
    }
  }

  /** Waiting out an armed idle timer with nothing open finishes the transaction. */
  lemma IdleTimerFinishes(t: Txn, d: nat)
    requires Shape(t) && !t.finished && t.idleDue == Some(t.now + d)
    ensures Step(t, Advance(d)).finished
  {
    ArmedDeadlineFinishes(t, t.now + d, d);
  }

  // ---------------------------------------------------------------------
  // Activities

  /** The first open child of a recording transaction becomes its only activity. */
  lemma OpenFirstChild(t0: Txn, a: string)
    requires Inv(t0) && !t0.finished && t0.recorder.Some? && t0.activities == {} && t0.spanId == "tx"
    requires a != "tx" && a !in RecordedIds(t0.recorder.value)
    ensures var t1 := Step(t0, Child(a));
      && Inv(t1) && !t1.finished && t1.activities == {a} && t1.now == t0.now && t1.config == t0.config
      && t1.idleDue.None? && t1.heartbeatDue == t0.heartbeatDue && t1.finalDue == t0.finalDue
      && t1.prevHeartbeat == t0.prevHeartbeat
      && t1.recorder.Some? && RecordedIds(t1.recorder.value) == RecordedIds(t0.recorder.value) + {a}
  {
    OpenChildStarts(t0, a, Some("tx"), None);
    assert {} + {a} == {a};
  }

  /** Ending the only open child re-arms the idle timer from now. */
  lemma CloseOnlyChild(t1: Txn, a: string)
    requires Inv(t1) && !t1.finished && t1.activities == {a}
    ensures var t2 := Step(t1, FinishChild(a, None));
      && t2.activities == {} && !t2.finished && Inv(t2) && Shape(t2) && t2.now == t1.now
      && t2.idleDue == Some(t1.now + TimerDelay(t1.config.idleTimeout))
      && t2.heartbeatDue == t1.heartbeatDue && t2.finalDue == t1.finalDue
      && t2.spanId == t1.spanId && t2.config == t1.config
      && t2.recorder.Some? && RecordedIds(t2.recorder.value) == RecordedIds(t1.recorder.value)
  {
    OpenChildFinishes(t1, a, None);
    assert t1.activities - {a} == {};
  }

  /**
   * Test "push and pops activities": an open child pushes its activity,
   * ending it pops the activity, and the idle timer then finishes the
   * transaction.
   */
  lemma PushAndPopActivities(config: Config, a: string)
    requires a != "tx"
    ensures var t0 := Recording(true, config);
      var t1 := Step(t0, Child(a));
      var t2 := Step(t1, FinishChild(a, None));
      && t0.activities == {}
      && t1.activities == {a} && !t1.finished
      && t2.activities == {} && !t2.finished
      && Step(t2, Advance(TimerDelay(config.idleTimeout))).finished
  {
    RecordingFacts(true, config);
    PushThenPop(Recording(true, config), a);
  }

  lemma PushThenPop(t0: Txn, a: string)
    requires Inv(t0) && !t0.finished && t0.recorder.Some? && t0.activities == {} && t0.spanId == "tx"
    requires a != "tx" && a !in RecordedIds(t0.recorder.value)
    ensures var t1 := Step(t0, Child(a));
      var t2 := Step(t1, FinishChild(a, None));
      && t1.activities == {a} && !t1.finished
      && t2.activities == {} && !t2.finished
      && Step(t2, Advance(TimerDelay(t0.config.idleTimeout))).finished
  {
    OpenFirstChild(t0, a);
    var t1 := Step(t0, Child(a));
    CloseOnlyChild(t1, a);
    IdleTimerFinishes(Step(t1, FinishChild(a, None)), TimerDelay(t0.config.idleTimeout));
  }

  /**
   * The idle finish of test "push and pops activities" stamps the instant the
   * idle timer fires, `idleTimeout` after the child ended at 0, when no other
   * timer comes due first.
   */
  lemma IdleEndIsFiringInstant(config: Config, a: string)
    requires a != "tx"
    requires TimerDelay(config.idleTimeout) <= TimerDelay(config.heartbeatInterval)
    requires TimerDelay(config.idleTimeout) <= TimerDelay(config.finalTimeout)
    ensures var t2 := Step(Step(Recording(true, config), Child(a)), FinishChild(a, None));
      var t3 := Step(t2, Advance(TimerDelay(config.idleTimeout)));
      && t2.now == 0 && t3.finished
      && t3.endTimestamp.Some? && t3.endTimestamp.value == TimerDelay(config.idleTimeout)
  {
    var t2 := Step(Step(Recording(true, config), Child(a)), FinishChild(a, None));
    OpenCloseAtZero(config, a);
    var t3 := IdleFinishesAtDue(t2, TimerDelay(config.idleTimeout));
    StepAdvance(t2, TimerDelay(config.idleTimeout));
  }

  /** After the child of test "push and pops activities" closes, every timer is still where recording armed it. */
  lemma OpenCloseAtZero(config: Config, a: string)
    requires a != "tx"
    ensures var t2 := Step(Step(Recording(true, config), Child(a)), FinishChild(a, None));
      && !t2.finished && t2.now == 0 && t2.activities == {}
      && t2.idleDue == Some(TimerDelay(config.idleTimeout))
      && t2.heartbeatDue == Some(TimerDelay(config.heartbeatInterval))
      && t2.finalDue == Some(TimerDelay(config.finalTimeout))
  {
    RecordingFacts(true, config);
    var t0 := Recording(true, config);
    OpenFirstChild(t0, a);
    CloseOnlyChild(Step(t0, Child(a)), a);
  }

  /** Test "does not push activities if a span already has an end timestamp". */
  lemma ClosedChildPushesNothing(config: Config, a: string, startAt: int, end: int)
    requires a != "tx"
    ensures Step(Recording(true, config), StartChild(a, Some("tx"), Some(startAt), Some(end))).activities == {}
  {
    RecordingFacts(true, config);
    ClosedChildStarts(Recording(true, config), a, Some("tx"), Some(startAt), end);
  }

  lemma GrandchildOutlivesChild(config: Config, a: string, b: string)
    requires a != "tx" && b != "tx" && a != b
    ensures var t1 := Step(Recording(true, config), Child(a));
      var t2 := Step(t1, StartChild(b, Some(a), None, None));
      var t3 := Step(t2, FinishChild(a, None));
      && t2.activities == {a, b}
      && !t3.finished && t3.activities == {b} && t3.now == 0 && t3.idleDue.None?
      && t3.heartbeatDue == Some(TimerDelay(config.heartbeatInterval))
      && t3.finalDue == Some(TimerDelay(config.finalTimeout))
  {
    RecordingFacts(true, config);
    ChildThenGrandchild(Recording(true, config), a, b);
  }

  /** A child opens, then a grandchild under it, then the child ends: only the grandchild stays open. */
  lemma ChildThenGrandchild(t0: Txn, a: string, b: string)
    requires Inv(t0) && !t0.finished && t0.recorder.Some? && t0.activities == {}
    requires a != t0.spanId && b != t0.spanId && a != b
    requires a !in RecordedIds(t0.recorder.value) && b !in RecordedIds(t0.recorder.value)
    ensures var t1 := Step(t0, StartChild(a, Some(t0.spanId), None, None));
      var t2 := Step(t1, StartChild(b, Some(a), None, None));
      var t3 := Step(t2, FinishChild(a, None));
      && t2.activities == {a, b}
      && !t3.finished && t3.activities == {b} && t3.now == t0.now && t3.idleDue.None?
      && t3.heartbeatDue == t0.heartbeatDue && t3.finalDue == t0.finalDue
  {
    OpenChildStarts(t0, a, Some(t0.spanId), None);
    GrandchildThenChildEnds(Step(t0, StartChild(a, Some(t0.spanId), None, None)), a, b);
  }

  lemma GrandchildThenChildEnds(t1: Txn, a: string, b: string)
    requires Inv(t1) && !t1.finished && t1.recorder.Some? && t1.activities == {a}
    requires b != t1.spanId && b != a && b !in RecordedIds(t1.recorder.value)
    ensures var t2 := Step(t1, StartChild(b, Some(a), None, None));
      var t3 := Step(t2, FinishChild(a, None));
      && t2.activities == {a, b}
      && !t3.finished && t3.activities == {b} && t3.now == t1.now && t3.idleDue.None?
      && t3.heartbeatDue == t1.heartbeatDue && t3.finalDue == t1.finalDue
  {
    OpenChildStarts(t1, b, Some(a), None);
    var t2 := Step(t1, StartChild(b, Some(a), None, None));
    OpenChildFinishes(t2, a, None);
    assert t2.activities - {a} == {b};
  }

  /**
   * Test "does not finish if there are still active activities": a
   * grandchild still open keeps the transaction open past the idle timeout,
   * up to the first heartbeat.
   */
  lemma OpenGrandchildKeepsOpen(config: Config, a: string, b: string, d: nat)
    requires a != "tx" && b != "tx" && a != b
    requires d < TimerDelay(config.heartbeatInterval) && d < TimerDelay(config.finalTimeout)
    ensures var t1 := Step(Recording(true, config), Child(a));
      var t2 := Step(t1, StartChild(b, Some(a), None, None));
      var t4 := Step(Step(t2, FinishChild(a, None)), Advance(d));
      && t2.activities == {a, b}
      && !t4.finished && t4.activities == {b}
  {
    GrandchildOutlivesChild(config, a, b);
    var t3 := Step(Step(Step(Recording(true, config), Child(a)), StartChild(b, Some(a), None, None)), FinishChild(a, None));
    WaitQuietly(t3, d);
  }

  /** Waiting short of every armed timer, as an `Advance` event, changes nothing but the clock. */
  lemma WaitQuietly(t: Txn, d: nat)
    requires t.idleDue.None? || t.idleDue.value > t.now + d
    requires t.heartbeatDue.None? || t.heartbeatDue.value > t.now + d
    requires t.finalDue.None? || t.finalDue.value > t.now + d
    ensures Step(t, Advance(d)) == t.(now := t.now + d)
  {
    AdvanceQuiet(t, d);
    StepAdvance(t, d);
  }

  lemma CallbacksRegistered(config: Config, a: string)
    requires a != "tx"
    ensures var t1 := Step(Step(Recording(true, config), RegisterBeforeFinish), RegisterBeforeFinish);
      var t2 := Step(Step(t1, Child(a)), FinishChild(a, None));
      && t1.callbackCalls == []
      && Inv(t2) && !t2.finished && t2.callbacks == 2 && t2.activities == {}
      && t2.idleDue == Some(t2.now + TimerDelay(config.idleTimeout))
  {
    RecordingFacts(true, config);
    var t0 := Recording(true, config);
    var t1 := Step(Step(t0, RegisterBeforeFinish), RegisterBeforeFinish);
    assert t1 == t0.(callbacks := 2);
    OpenChildStarts(t1, a, Some("tx"), None);
    var t15 := Step(t1, Child(a));
    OpenChildFinishes(t15, a, None);
    assert Step(t15, FinishChild(a, None)).activities == {};
  }

  /**
   * Test "calls beforeFinish callback before finishing": when the idle
   * timer finishes the transaction, both registered callbacks have been
   * called once, in order, with the end timestamp.
   */
  lemma CallbacksRunAtIdleFinish(config: Config, a: string)
    requires a != "tx"
    ensures var t1 := Step(Step(Recording(true, config), RegisterBeforeFinish), RegisterBeforeFinish);
      var t2 := Step(Step(t1, Child(a)), FinishChild(a, None));
      var t3 := Step(t2, Advance(TimerDelay(config.idleTimeout)));
      && t1.callbackCalls == []
      && t3.finished && t3.endTimestamp.Some?
      && t3.callbackCalls == [CallbackCall(0, t3.endTimestamp.value), CallbackCall(1, t3.endTimestamp.value)]
  {
    CallbacksRegistered(config, a);
    var t2 := Step(Step(Step(Step(Recording(true, config), RegisterBeforeFinish), RegisterBeforeFinish), Child(a)), FinishChild(a, None));
    IdleFinishCallsBoth(t2, TimerDelay(config.idleTimeout));
  }

  /** The idle timer finishing a transaction with two registered callbacks calls both, in order. */
  lemma IdleFinishCallsBoth(t: Txn, d: nat)
    requires Inv(t) && !t.finished && t.idleDue == Some(t.now + d) && t.callbacks == 2
    ensures var r := Step(t, Advance(d));
      && r.finished && r.endTimestamp.Some?
      && r.callbackCalls == [CallbackCall(0, r.endTimestamp.value), CallbackCall(1, r.endTimestamp.value)]
  {
    IdleTimerFinishes(t, d);
    AdvanceInv(t, d);
    StepAdvance(t, d);
    var r := AdvanceBy(t, d);
    assert r.callbackCalls == CallsInOrder(2, r.endTimestamp.value);
  }

  // ---------------------------------------------------------------------
  // Finishing

  /** The finish-time pass over the recorder of test "filters spans on finish". */
  lemma FilterExample(root: Span, a: string, b: string, c: string)
    requires root.spanId == "tx" && a != "tx" && b != "tx" && c != "tx"
    ensures FilterSpans([root,
                         Span(a, Some("tx"), 1236, Some(1240), None),
                         Span(b, Some("tx"), 645345234, None, None),
                         Span(c, Some("tx"), 1238, None, None)], "tx", 1244)
         == [root,
             Span(a, Some("tx"), 1236, Some(1240), None),
             Span(c, Some("tx"), 1238, Some(1244), Some(Cancelled))]
  {
    var sa := Span(a, Some("tx"), 1236, Some(1240), None);
    var sb := Span(b, Some("tx"), 645345234, None, None);
    var sc := Span(c, Some("tx"), 1238, None, None);
    assert [sc][1..] == [];
    assert FilterSpans([sc], "tx", 1244) == [SettleAtFinish(sc, "tx", 1244)];
    assert [sb, sc][1..] == [sc];
    assert FilterSpans([sb, sc], "tx", 1244) == FilterSpans([sc], "tx", 1244);
    assert [sa, sb, sc][1..] == [sb, sc];
    assert FilterSpans([sa, sb, sc], "tx", 1244) == [sa] + FilterSpans([sb, sc], "tx", 1244);
    assert [root, sa, sb, sc][1..] == [sa, sb, sc];
    assert FilterSpans([root, sa, sb, sc], "tx", 1244) == [root] + FilterSpans([sa, sb, sc], "tx", 1244);
  }

  /** The transaction of test "filters spans on finish": started at 1234, recording from the start. */
  function FilterTestStart(sampled: bool, config: Config): Txn
  {
    Step(Fresh(Some(1234), sampled, config, false), InitSpanRecorder)
  }

  /**
   * The test's children: a regular one at 1236, a late one at 645345234 and
   * one at 1238 that never ends; then the regular one ends at 1240.
   */
  function FilterTestChildren(t: Txn, a: string, b: string, c: string): Txn
  {
    var t1 := Step(t, StartChild(a, Some("tx"), Some(1236), None));
    var t2 := Step(t1, StartChild(b, Some("tx"), Some(645345234), None));
    var t3 := Step(t2, StartChild(c, Some("tx"), Some(1238), None));
    Step(t3, FinishChild(a, Some(1240)))
  }

  lemma FilterTestStartFacts(sampled: bool, config: Config)
    ensures var t := FilterTestStart(sampled, config);
      && !t.finished && t.spanId == "tx" && t.recorder.Some?
      && t.recorder.value.spans == [Span("tx", None, 1234, None, None)]
      && t.recorder.value.transactionSpanId == "tx"
      && RecordedIds(t.recorder.value) == {"tx"}
  {
    var t0 := Fresh(Some(1234), sampled, config, false);
    StartInv("tx", Some(1234), sampled, config, false, 0, None);
    RecordingStarts(t0);
    var t := FilterTestStart(sampled, config);
    assert RecordedIds(t.recorder.value) == {"tx"} by {
      assert t.recorder.value.spans == [RootSpan(t0)];
    }
  }

  /** A new child started at `at` is appended to the recorded spans, whatever the activities. */
  lemma ChildAppended(t: Txn, id: string, at: int)
    requires !t.finished && t.spanId == "tx" && t.recorder.Some?
    requires id != "tx" && id !in RecordedIds(t.recorder.value)
    ensures var r := Step(t, StartChild(id, Some("tx"), Some(at), None));
      && !r.finished && r.spanId == "tx" && r.recorder.Some?
      && r.recorder.value.transactionSpanId == t.recorder.value.transactionSpanId
      && r.recorder.value.spans == t.recorder.value.spans + [Span(id, Some("tx"), at, None, None)]
      && RecordedIds(r.recorder.value) == RecordedIds(t.recorder.value) + {id}
  {
    var span := Span(id, Some("tx"), at, None, None);
    var u := Add(t.recorder.value, span);
    AddTracksOpenChildren(t.recorder.value, span);
    ApplySignalsFrame(t.(recorder := Some(u.recorder)), u.signals);
    assert u.recorder.spans == t.recorder.value.spans + [span];
  }

  /** Three new children started in turn are recorded in that order. */
  lemma ThreeChildrenRecorded(t: Txn, a: string, b: string, c: string)
    requires !t.finished && t.spanId == "tx" && t.recorder.Some?
    requires RecordedIds(t.recorder.value) == {"tx"}
    requires a != "tx" && b != "tx" && c != "tx" && a != b && a != c && b != c
    ensures var t3 := Step(Step(Step(t, StartChild(a, Some("tx"), Some(1236), None)),
                                StartChild(b, Some("tx"), Some(645345234), None)),
                           StartChild(c, Some("tx"), Some(1238), None));
      && !t3.finished && t3.spanId == "tx" && t3.recorder.Some?
      && t3.recorder.value.transactionSpanId == t.recorder.value.transactionSpanId
      && t3.recorder.value.spans == t.recorder.value.spans + [Span(a, Some("tx"), 1236, None, None),
                                                              Span(b, Some("tx"), 645345234, None, None),
                                                              Span(c, Some("tx"), 1238, None, None)]
  {
    ChildAppended(t, a, 1236);
    var t1 := Step(t, StartChild(a, Some("tx"), Some(1236), None));
    TwoChildrenAppended(t1, b, 645345234, c, 1238);
    var sa, sb, sc := Span(a, Some("tx"), 1236, None, None), Span(b, Some("tx"), 645345234, None, None),
                      Span(c, Some("tx"), 1238, None, None);
    assert t.recorder.value.spans + [sa] + [sb, sc] == t.recorder.value.spans + [sa, sb, sc];
  }

  lemma TwoChildrenAppended(t: Txn, b: string, atB: int, c: string, atC: int)
    requires !t.finished && t.spanId == "tx" && t.recorder.Some?
    requires b != "tx" && c != "tx" && b != c
    requires b !in RecordedIds(t.recorder.value) && c !in RecordedIds(t.recorder.value)
    ensures var t2 := Step(Step(t, StartChild(b, Some("tx"), Some(atB), None)), StartChild(c, Some("tx"), Some(atC), None));
      && !t2.finished && t2.spanId == "tx" && t2.recorder.Some?
      && t2.recorder.value.transactionSpanId == t.recorder.value.transactionSpanId
      && t2.recorder.value.spans == t.recorder.value.spans + [Span(b, Some("tx"), atB, None, None),
                                                              Span(c, Some("tx"), atC, None, None)]
  {
    ChildAppended(t, b, atB);
    var t1 := Step(t, StartChild(b, Some("tx"), Some(atB), None));
    ChildAppended(t1, c, atC);
    assert t.recorder.value.spans + [Span(b, Some("tx"), atB, None, None)] + [Span(c, Some("tx"), atC, None, None)]
        == t.recorder.value.spans + [Span(b, Some("tx"), atB, None, None), Span(c, Some("tx"), atC, None, None)];
  }

  /** Ending the regular child stamps its end in the recorder and touches no other span. */
  lemma RegularChildEnds(t: Txn, root: Span, a: string, b: string, c: string)
    requires !t.finished && t.recorder.Some?
    requires root.spanId == "tx" && t.recorder.value.transactionSpanId == "tx"
    requires a != "tx" && b != "tx" && c != "tx"
    requires t.recorder.value.spans == [root,
                                        Span(a, Some("tx"), 1236, None, None),
                                        Span(b, Some("tx"), 645345234, None, None),
                                        Span(c, Some("tx"), 1238, None, None)]
    ensures var r := Step(t, FinishChild(a, Some(1240)));
      && !r.finished && r.spanId == t.spanId && r.recorder.Some?
      && r.recorder.value.spans == [root,
                                    Span(a, Some("tx"), 1236, Some(1240), None),
                                    Span(b, Some("tx"), 645345234, None, None),
                                    Span(c, Some("tx"), 1238, None, None)]
  {
    var spans := t.recorder.value.spans;
    assert IndexOf(spans, a) == Some(1) by {
      assert spans[1..] == [spans[1], spans[2], spans[3]];
    }
    var u := SpanRecorder.Finish(t.recorder.value, a, 1240);
    ApplySignalsFrame(t.(recorder := Some(u.recorder)), u.signals);
  }

  /**
   * Test "filters spans on finish", built from the test's own calls:
   * finishing at 1244 keeps, in this order, the transaction's own span, the
   * regular child unchanged with its end at 1240, and the never-ended child
   * cut at 1244 and cancelled; the late child is dropped. This holds whether
   * or not the transaction is sampled.
   */
  lemma FiltersSpansOnFinish(sampled: bool, config: Config, a: string, b: string, c: string)
    requires a != "tx" && b != "tx" && c != "tx" && a != b && a != c && b != c
    ensures var r := Step(FilterTestChildren(FilterTestStart(sampled, config), a, b, c), Finish(Some(1244)));
      && r.finished && r.endTimestamp.Some? && r.endTimestamp.value == 1244 && r.recorder.Some?
      && r.recorder.value.spans == [Span("tx", None, 1234, None, None),
                                    Span(a, Some("tx"), 1236, Some(1240), None),
                                    Span(c, Some("tx"), 1238, Some(1244), Some(Cancelled))]
  {
    var t0 := FilterTestStart(sampled, config);
    FilterTestStartFacts(sampled, config);
    ThreeChildrenRecorded(t0, a, b, c);
    var t3 := Step(Step(Step(t0, StartChild(a, Some("tx"), Some(1236), None)),
                        StartChild(b, Some("tx"), Some(645345234), None)),
                   StartChild(c, Some("tx"), Some(1238), None));
    RegularChildEnds(t3, Span("tx", None, 1234, None, None), a, b, c);
    var t4 := Step(t3, FinishChild(a, Some(1240)));
    FinishFilters(t4, 1244);
    FilterExample(Span("tx", None, 1234, None, None), a, b, c);
  }

  /** An explicit finish at `end` leaves the recorder holding the finish-time pass over its spans. */
  lemma FinishFilters(t: Txn, end: int)
    requires !t.finished && t.recorder.Some?
    ensures var r := Step(t, Finish(Some(end)));
      && r.finished && r.endTimestamp.Some? && r.endTimestamp.value == end && r.recorder.Some?
      && r.recorder.value.spans == FilterSpans(t.recorder.value.spans, t.spanId, end)
  {
  }

  /** Test "should record dropped transactions": an unsampled transaction is reported dropped at finish. */
  lemma UnsampledIsDropped(config: Config, end: int)
    ensures Step(Recording(false, config), Finish(Some(end))).emitted == [Dropped("sample_rate", "transaction")]
  {
    RecordingFacts(false, config);
  }

  // ---------------------------------------------------------------------
  // The idle timeout

  /** Test "finishes if no activities are added to the transaction". */
  lemma IdleWithoutActivities(config: Config)
    ensures Step(Recording(true, config), Advance(TimerDelay(config.idleTimeout))).finished
  {
    RecordingFacts(true, config);
    IdleTimerFinishes(Recording(true, config), TimerDelay(config.idleTimeout));
  }

  /** Test "does not finish if a activity is started": an open child holds the idle timer off. */
  lemma OpenChildHoldsIdle(config: Config, a: string, d: nat)
    requires a != "tx"
    requires d < TimerDelay(config.heartbeatInterval) && d < TimerDelay(config.finalTimeout)
    ensures !Step(Step(Recording(true, config), Child(a)), Advance(d)).finished
  {
    RecordingFacts(true, config);
    OpenChildStarts(Recording(true, config), a, Some("tx"), None);
    AdvanceQuiet(Step(Recording(true, config), Child(a)), d);
  }

  /** A child that opens and closes at once re-arms the idle timer from now. */
  lemma OpenClose(t: Txn, a: string)
    requires Inv(t) && !t.finished && t.recorder.Some? && t.activities == {}
    requires a != t.spanId && a !in RecordedIds(t.recorder.value)
    ensures var r := Step(Step(t, StartChild(a, Some(t.spanId), None, None)), FinishChild(a, None));
      && Inv(r) && !r.finished && r.now == t.now && r.activities == {}
      && r.spanId == t.spanId && r.config == t.config
      && r.idleDue == Some(t.now + TimerDelay(t.config.idleTimeout))
      && r.heartbeatDue == t.heartbeatDue && r.finalDue == t.finalDue
      && r.recorder.Some? && RecordedIds(r.recorder.value) == RecordedIds(t.recorder.value) + {a}
  {
    OpenChildStarts(t, a, Some(t.spanId), None);
    var t1 := Step(t, StartChild(a, Some(t.spanId), None, None));
    assert t1.activities == {a};
    CloseOnlyChild(t1, a);
  }

  /** Before any timer is due, waiting only moves the clock (and keeps the invariant). */
  lemma Wait(t: Txn, d: nat)
    requires Inv(t)
    requires t.idleDue.None? || t.idleDue.value > t.now + d
    requires t.heartbeatDue.None? || t.heartbeatDue.value > t.now + d
    requires t.finalDue.None? || t.finalDue.value > t.now + d
    ensures Step(t, Advance(d)) == t.(now := t.now + d) && Inv(Step(t, Advance(d)))
  {
    AdvanceQuiet(t, d);
    AdvanceInv(t, d);
  }

  lemma FirstChildThenWait(config: Config, a: string, k: nat)
    requires a != "tx"
    requires k < TimerDelay(config.idleTimeout)
    requires TimerDelay(config.idleTimeout) < TimerDelay(config.heartbeatInterval)
    requires TimerDelay(config.idleTimeout) < TimerDelay(config.finalTimeout)
    ensures var t := Step(Step(Step(Recording(true, config), Child(a)), FinishChild(a, None)), Advance(k));
      && Inv(t) && !t.finished && t.now == k && t.activities == {} && t.spanId == "tx" && t.config == config
      && t.recorder.Some? && RecordedIds(t.recorder.value) == {"tx", a}
      && t.heartbeatDue == Some(TimerDelay(config.heartbeatInterval))
      && t.finalDue == Some(TimerDelay(config.finalTimeout))
  {
    RecordingFacts(true, config);
    var t0 := Recording(true, config);
    OpenClose(t0, a);
    Wait(Step(Step(t0, Child(a)), FinishChild(a, None)), k);
  }

  /**
   * The state of tests "does not finish when idleTimeout is not exceed after
   * last activity finished" and "finish when idleTimeout is exceeded after
   * last activity finished" once the second child has opened and closed:
   * the idle countdown restarted at that instant.
   */
  lemma SecondChildRestartsIdle(t: Txn, b: string, k: nat)
    requires Inv(t) && !t.finished && t.spanId == "tx" && t.now == k && t.activities == {}
    requires t.recorder.Some? && b != "tx" && b !in RecordedIds(t.recorder.value)
    ensures var t5 := Step(Step(t, Child(b)), FinishChild(b, None));
      && Shape(t5) && !t5.finished && t5.now == k
      && t5.idleDue == Some(k + TimerDelay(t.config.idleTimeout))
      && t5.heartbeatDue == t.heartbeatDue && t5.finalDue == t.finalDue
  {
    OpenClose(t, b);
  }

  /** Test "does not finish when idleTimeout is not exceed after last activity finished". */
  lemma IdleNotYetExceeded(t: Txn, b: string, k: nat)
    requires Inv(t) && !t.finished && t.spanId == "tx" && t.now == k && t.activities == {}
    requires t.recorder.Some? && b != "tx" && b !in RecordedIds(t.recorder.value)
    requires 0 < k < TimerDelay(t.config.idleTimeout)
    requires t.heartbeatDue.Some? && t.heartbeatDue.value > k + TimerDelay(t.config.idleTimeout)
    requires t.finalDue.Some? && t.finalDue.value > k + TimerDelay(t.config.idleTimeout)
    ensures !Step(Step(Step(t, Child(b)), FinishChild(b, None)), Advance(TimerDelay(t.config.idleTimeout) - k)).finished
  {
    SecondChildRestartsIdle(t, b, k);
    AdvanceQuiet(Step(Step(t, Child(b)), FinishChild(b, None)), TimerDelay(t.config.idleTimeout) - k);
  }

  /** Test "finish when idleTimeout is exceeded after last activity finished". */
  lemma IdleExceeded(t: Txn, b: string, k: nat)
    requires Inv(t) && !t.finished && t.spanId == "tx" && t.now == k && t.activities == {}
    requires t.recorder.Some? && b != "tx" && b !in RecordedIds(t.recorder.value)
    ensures Step(Step(Step(t, Child(b)), FinishChild(b, None)), Advance(TimerDelay(t.config.idleTimeout))).finished
  {
    SecondChildRestartsIdle(t, b, k);
    IdleTimerFinishes(Step(Step(t, Child(b)), FinishChild(b, None)), TimerDelay(t.config.idleTimeout));
  }

  // ---------------------------------------------------------------------
  // The heartbeat

  /**
   * Test "does not mark transaction as `DeadlineExceeded` if idle timeout
   * has not been reached": without `initSpanRecorder` there is no heartbeat,
   * so three heartbeat intervals pass without finishing or a status.
   */
  lemma NoRecorderNoDeadline(config: Config)
    requires 3 * TimerDelay(config.heartbeatInterval) < TimerDelay(config.idleTimeout)
    requires 3 * TimerDelay(config.heartbeatInterval) < TimerDelay(config.finalTimeout)
    ensures var h := TimerDelay(config.heartbeatInterval);
      var t1 := Step(Fresh(None, true, config, false), Advance(h));
      var t2 := Step(t1, Advance(h));
      var t3 := Step(t2, Advance(h));
      && !t1.finished && t1.status.None?
      && !t2.finished && t2.status.None?
      && !t3.finished && t3.status.None?
  {
    var h := TimerDelay(config.heartbeatInterval);
    var t0 := Fresh(None, true, config, false);
    AdvanceQuiet(t0, h);
    AdvanceQuiet(t0.(now := h), h);
    AdvanceQuiet(t0.(now := 2 * h), h);
  }

  lemma OneOpenChild(config: Config, a: string)
    requires a != "tx"
    ensures var t := Step(Recording(true, config), Child(a));
      && Inv(t) && !t.finished && t.now == 0 && t.activities == {a} && t.config == config
      && t.heartbeatDue == Some(TimerDelay(config.heartbeatInterval))
      && t.finalDue == Some(TimerDelay(config.finalTimeout))
      && t.prevHeartbeat.None?
  {
    RecordingFacts(true, config);
    OpenChildStarts(Recording(true, config), a, Some("tx"), None);
  }

  lemma StepAdvance(t: Txn, d: nat)
    ensures Step(t, Advance(d)) == AdvanceBy(t, d)
  {
  }

  /**
   * Test "finishes a transaction after 3 beats", over any open transaction
   * with children whose heartbeat has not yet run: the first two beats
   * leave it open.
   */
  lemma TwoBeatsKeepChildrenOpen(t: Txn)
    requires Inv(t) && !t.finished && t.activities != {} && t.prevHeartbeat.None?
    requires t.heartbeatDue == Some(t.now + TimerDelay(t.config.heartbeatInterval))
    requires t.finalDue.value > t.now + 3 * TimerDelay(t.config.heartbeatInterval)
    ensures var h := TimerDelay(t.config.heartbeatInterval);
      && !Step(t, Advance(h)).finished
      && !Step(Step(t, Advance(h)), Advance(h)).finished
  {
    var h := TimerDelay(t.config.heartbeatInterval);
    InvBeating(t);
    TwoBeats(t, h);
    var s1 := AdvanceBy(t, h);
    StepAdvance(t, h);
    StepAdvance(s1, h);
  }

  /** Test "finishes a transaction after 3 beats": the third beat finishes it with status deadline_exceeded. */
  lemma ThirdBeatFinishesChildren(t: Txn)
    requires Inv(t) && !t.finished && t.activities != {} && t.prevHeartbeat.None?
    requires t.heartbeatDue == Some(t.now + TimerDelay(t.config.heartbeatInterval))
    requires t.finalDue.value > t.now + 3 * TimerDelay(t.config.heartbeatInterval)
    ensures var h := TimerDelay(t.config.heartbeatInterval);
      var t3 := Step(Step(Step(t, Advance(h)), Advance(h)), Advance(h));
      t3.finished && t3.status == Some(DeadlineExceeded)
  {
    var h := TimerDelay(t.config.heartbeatInterval);
    InvBeating(t);
    ThreeBeats(t, h);
    var s1 := AdvanceBy(t, h);
    StepAdvance(t, h);
    var s2 := AdvanceBy(s1, h);
    StepAdvance(s1, h);
    StepAdvance(s2, h);
  }

  /**
   * Test "resets after new activities are added", first half: whatever the
   * count, starting a new child makes the next beat count 1 again.
   */
  lemma NewChildResetsCount(t: Txn, id: string)
    requires Inv(t) && !t.finished && t.recorder.Some? && t.heartbeatDue.Some?
    requires id != t.spanId && id !in RecordedIds(t.recorder.value)
    requires t.finalDue.value > t.heartbeatDue.value
    ensures var r := Step(Step(t, StartChild(id, Some(t.spanId), None, None)), Advance(t.heartbeatDue.value - t.now));
      Counting(r, 1)
  {
    StartChildResetsHeartbeat(t, id, Some(t.spanId), None);
    OpenChildStarts(t, id, Some(t.spanId), None);
    NextBeatCountsOne(Step(t, StartChild(id, Some(t.spanId), None, None)), t.heartbeatDue.value - t.now);
  }

  /**
   * Test "resets after new activities are added", second half: ending one of
   * several open children after an unchanged beat makes the next beat count
   * 1 again.
   */
  lemma EndedChildResetsCount(t: Txn, id: string)
    requires Inv(t) && !t.finished && t.heartbeatDue.Some?
    requires id in t.activities && t.activities != {id}
    requires t.prevHeartbeat == Some(t.activities)
    requires t.finalDue.value > t.heartbeatDue.value
    ensures Counting(Step(Step(t, FinishChild(id, None)), Advance(t.heartbeatDue.value - t.now)), 1)
  {
    OpenChildFinishes(t, id, None);
    BeatAfterEnd(t, Step(t, FinishChild(id, None)), id);
  }

  /** `t1` is `t` with child `id` ended: the next beat counts 1. */
  lemma BeatAfterEnd(t: Txn, t1: Txn, id: string)
    requires Inv(t) && t.heartbeatDue.Some?
    requires id in t.activities && t.activities != {id}
    requires t.prevHeartbeat == Some(t.activities)
    requires t.finalDue.value > t.heartbeatDue.value
    requires Inv(t1) && !t1.finished && t1.now == t.now
    requires t1.activities == t.activities - {id}
    requires t1.heartbeatDue == t.heartbeatDue && t1.finalDue == t.finalDue && t1.prevHeartbeat == t.prevHeartbeat
    ensures Counting(Step(t1, Advance(t.heartbeatDue.value - t.now)), 1)
  {
    OthersRemain(t.activities, id);
    NextBeatCountsOne(t1, t.heartbeatDue.value - t.now);
  }

  /** The first beat, taken as an `Advance` event, after the activity set changed. */
  lemma NextBeatCountsOne(t: Txn, d: nat)
    requires Inv(t) && !t.finished && t.activities != {} && t.heartbeatDue.Some?
    requires t.prevHeartbeat != Some(t.activities)
    requires t.finalDue.value > t.heartbeatDue.value
    requires d == t.heartbeatDue.value - t.now
    ensures Counting(Step(t, Advance(d)), 1)
  {
    InvBeating(t);
    BeatAfterChange(t, d);
    StepAdvance(t, d);
  }

  lemma OthersRemain(s: set<string>, id: string)
    requires id in s && s != {id}
    ensures s - {id} != {} && s - {id} != s
  {
    var other :| other in s && other != id;
    assert other in s - {id};
  }

  // ---------------------------------------------------------------------
  // The scope

  /** Test "sets the transaction on the scope on creation if onScope is true". */
  lemma OnScopeSetsScope(config: Config)
    ensures Step(Fresh(None, true, config, true), InitSpanRecorder).scope == Some("tx")
  {
  }

  /** Test "does not set the transaction on the scope on creation if onScope is falsey". */
  lemma NotOnScopeLeavesScope(config: Config)
    ensures Step(Fresh(None, true, config, false), InitSpanRecorder).scope.None?
  {
  }

  /**
   * Tests "removes sampled transaction from scope on finish if onScope is
   * true" and "removes unsampled transaction from scope on finish if onScope
   * is true": after finishing, however long the timers run, the scope is
   * empty.
   */
  lemma FinishClearsScope(config: Config, sampled: bool, d: nat)
    ensures Step(Step(Fresh(None, sampled, config, true), Finish(None)), Advance(d)).scope.None?
  {
    var t0 := Fresh(None, sampled, config, true);
    StartInv("tx", None, sampled, config, true, 0, None);
    FinishAtInv(t0, t0.now);
    AdvanceFinished(Step(t0, Finish(None)), d);
  }
}
