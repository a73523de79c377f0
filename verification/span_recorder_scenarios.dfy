/**
 * The recorder on its own: the push/pop pairing of one child span, and the
 * spans that never signal.
 */
module SpanRecorderScenarios {
  import opened Optional
  import opened Spans
  import opened SpanRecorder

  /**
   * Adding a fresh open child and then finishing it signals one push and
   * one pop of its id, and leaves the set of open children where it was;
   * the span stays recorded, now with its end timestamp.
   */
  lemma AddThenFinish(r: Recorder, span: Span, end: int)
    requires DistinctChildIds(r)
    requires span.IsOpen() && span.spanId != r.transactionSpanId && span.spanId !in RecordedIds(r)
    ensures var u := Add(r, span);
      var v := SpanRecorder.Finish(u.recorder, span.spanId, end);
      && u.signals == [Push(span.spanId)]
      && v.signals == [Pop(span.spanId)]
      && OpenIds(v.recorder) == OpenIds(r)
      && v.recorder.spans == r.spans + [span.(endTimestamp := Some(end))]
  {
    var u := Add(r, span);
    AddTracksOpenChildren(r, span);
    var v := SpanRecorder.Finish(u.recorder, span.spanId, end);
    FinishTracksOpenChildren(u.recorder, span.spanId, end);
    assert u.recorder.spans[|r.spans|].spanId == span.spanId;
    forall i | 0 <= i < |v.recorder.spans|
      ensures v.recorder.spans[i] == (r.spans + [span.(endTimestamp := Some(end))])[i]
    {
      if i < |r.spans| {
        assert u.recorder.spans[i] == r.spans[i];
        assert r.spans[i] in r.spans;
        assert r.spans[i].spanId in RecordedIds(r);
      }
    }
  }

  /** Test "pushes and pops activities": one push on add, one pop on finish. */
  lemma PushesAndPops(id: string, start: int, end: int)
    requires id != ""
    ensures var u := Add(Recorder("", []), Span(id, None, start, None, None));
      && |u.recorder.spans| == 1
      && u.signals == [Push(id)]
      && SpanRecorder.Finish(u.recorder, id, end).signals == [Pop(id)]
  {
    AddThenFinish(Recorder("", []), Span(id, None, start, None, None), end);
  }

  /** Test "does not push activities if a span has a timestamp". */
  lemma EndedSpanPushesNothing(id: string)
    ensures Add(Recorder("", []), Span(id, None, 765, Some(345), None)).signals == []
  {
  }

  /** Test "does not push or pop transaction spans". */
  lemma TransactionSpanNeverSignals(tx: string, start: int, end: int)
    ensures var u := Add(Recorder(tx, []), Span(tx, None, start, None, None));
      && u.signals == []
      && SpanRecorder.Finish(u.recorder, tx, end).signals == []
  {
  }
}
