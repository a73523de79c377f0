/**
 * IdleTransactionSpanRecorder: the append-ordered log of every span of one
 * idle transaction. Adding an open span other than the transaction's own
 * signals "push activity"; finishing such a span later signals "pop
 * activity". These two signals are the only coupling between the recorder
 * and the transaction's activity registry.
 */
module SpanRecorder {
  import opened Optional
  import opened Spans

  datatype Signal = Push(id: string) | Pop(id: string)

  /** The recorded spans, and the id of the owning transaction's own span. */
  datatype Recorder = Recorder(transactionSpanId: string, spans: seq<Span>)

  /** A recorder after an operation, with the signals the operation emitted. */
  datatype Update = Update(recorder: Recorder, signals: seq<Signal>)

  /** Ids of every recorded span. */
  function RecordedIds(r: Recorder): set<string>
  {
    set sp | sp in r.spans :: sp.spanId
  }

  /** Ids of the recorded spans, other than the transaction's own, that are still open. */
  function OpenIds(r: Recorder): set<string>
  {
    set sp | sp in r.spans && sp.spanId != r.transactionSpanId && sp.IsOpen() :: sp.spanId
  }

  /** No two recorded spans other than the transaction's own share an id. */
  predicate DistinctChildIds(r: Recorder)
  {
    forall i, j ::
      0 <= i < |r.spans| && 0 <= j < |r.spans| &&
      r.spans[i].spanId == r.spans[j].spanId && r.spans[i].spanId != r.transactionSpanId
      ==> i == j
  }

  /**
   * `add(span)`: append unconditionally; push an activity for an open span
   * that is not the transaction's own.
   */
  function Add(r: Recorder, span: Span): (u: Update)
    ensures u.recorder.transactionSpanId == r.transactionSpanId
    ensures |u.recorder.spans| == |r.spans| + 1
    ensures u.recorder.spans[..|r.spans|] == r.spans && u.recorder.spans[|r.spans|] == span
    ensures u.signals == [] || u.signals == [Push(span.spanId)]
    ensures u.signals == [Push(span.spanId)] <==> span.spanId != r.transactionSpanId && span.IsOpen()
  {
    var pushes := span.spanId != r.transactionSpanId && span.IsOpen();
    Update(r.(spans := r.spans + [span]), if pushes then [Push(span.spanId)] else [])
  }

  /**
   * Adding grows the open-children set by exactly the pushed id and the
   * recorded ids by the span's id, and keeps child ids distinct when the id
   * is new.
   */
  lemma AddTracksOpenChildren(r: Recorder, span: Span)
    ensures var u := Add(r, span);
      && OpenIds(u.recorder) == OpenIds(r) + (if u.signals == [] then {} else {span.spanId})
      && RecordedIds(u.recorder) == RecordedIds(r) + {span.spanId}
      && (DistinctChildIds(r) && (span.spanId == r.transactionSpanId || span.spanId !in RecordedIds(r)) ==>
            DistinctChildIds(u.recorder))
  {
    OpenIdsAppend(r, span);
  }

  /**
   * The patched `finish` of a recorded span other than the transaction's
   * own: stamp its end and pop its activity. Any other id was never patched,
   * so nothing happens.
   */
  function Finish(r: Recorder, id: string, end: int): (u: Update)
    ensures u.recorder.transactionSpanId == r.transactionSpanId
    ensures |u.recorder.spans| == |r.spans|
    ensures id == r.transactionSpanId || IndexOf(r.spans, id).None? ==> u == Update(r, [])
    ensures id != r.transactionSpanId && IndexOf(r.spans, id).Some? ==> u.signals == [Pop(id)]
    ensures forall i :: 0 <= i < |r.spans| && r.spans[i].spanId != id ==> u.recorder.spans[i] == r.spans[i]
  {
    if id == r.transactionSpanId then
      Update(r, [])
    else
      match IndexOf(r.spans, id)
      case None => Update(r, [])
      case Some(k) => Update(r.(spans := r.spans[k := r.spans[k].(endTimestamp := Some(end))]), [Pop(id)])
  }

  /**
   * Finishing keeps the recorded ids; it changes nothing for the
   * transaction's own span or an unknown id and otherwise pops the id; with
   * distinct child ids it stamps the end on that span only, removes the id
   * from the open set and keeps the ids distinct.
   */
  lemma FinishTracksOpenChildren(r: Recorder, id: string, end: int)
    ensures var u := Finish(r, id, end);
      && RecordedIds(u.recorder) == RecordedIds(r)
      && (id == r.transactionSpanId || id !in RecordedIds(r) ==> u == Update(r, []))
      && (id != r.transactionSpanId && id in RecordedIds(r) ==> u.signals == [Pop(id)])
      && (DistinctChildIds(r) ==>
            && (forall i :: 0 <= i < |r.spans| && r.spans[i].spanId == id && id != r.transactionSpanId ==>
                  u.recorder.spans[i] == r.spans[i].(endTimestamp := Some(end)))
            && OpenIds(u.recorder) == OpenIds(r) - {id}
            && DistinctChildIds(u.recorder))
  {
    if id != r.transactionSpanId {
      match IndexOf(r.spans, id)
      case None =>
        assert id !in RecordedIds(r);
      case Some(k) =>
        RecordedIdsUpdate(r, k, end);
        assert id in RecordedIds(r);
        if DistinctChildIds(r) {
          OpenIdsStamp(r, k, end);
        }
    }
  }

  lemma OpenIdsAppend(r: Recorder, span: Span)
    ensures OpenIds(r.(spans := r.spans + [span])) ==
      OpenIds(r) + (if span.spanId != r.transactionSpanId && span.IsOpen() then {span.spanId} else {})
    ensures RecordedIds(r.(spans := r.spans + [span])) == RecordedIds(r) + {span.spanId}
  {
    var r' := r.(spans := r.spans + [span]);
    var extra := if span.spanId != r.transactionSpanId && span.IsOpen() then {span.spanId} else {};
    forall x | x in OpenIds(r') ensures x in OpenIds(r) + extra {
      var sp :| sp in r'.spans && sp.spanId != r.transactionSpanId && sp.IsOpen() && sp.spanId == x;
      if sp !in r.spans {
        assert sp == span;
      }
    }
    forall x | x in OpenIds(r) + extra ensures x in OpenIds(r') {
      if x in extra {
        assert span in r'.spans;
      } else {
        var sp :| sp in r.spans && sp.spanId != r.transactionSpanId && sp.IsOpen() && sp.spanId == x;
        assert sp in r'.spans;
      }
    }
    forall x | x in RecordedIds(r') ensures x in RecordedIds(r) + {span.spanId} {
      var sp :| sp in r'.spans && sp.spanId == x;
      if sp !in r.spans {
        assert sp == span;
      }
    }
    forall x | x in RecordedIds(r) + {span.spanId} ensures x in RecordedIds(r') {
      if x == span.spanId {
        assert span in r'.spans;
      } else {
        var sp :| sp in r.spans && sp.spanId == x;
        assert sp in r'.spans;
      }
    }
  }

  lemma RecordedIdsUpdate(r: Recorder, k: nat, end: int)
    requires k < |r.spans|
    ensures RecordedIds(r.(spans := r.spans[k := r.spans[k].(endTimestamp := Some(end))])) == RecordedIds(r)
  {
    var r' := r.(spans := r.spans[k := r.spans[k].(endTimestamp := Some(end))]);
    forall x | x in RecordedIds(r') ensures x in RecordedIds(r) {
      var sp :| sp in r'.spans && sp.spanId == x;
      var i :| 0 <= i < |r'.spans| && r'.spans[i] == sp;
      assert r.spans[i].spanId == x;
    }
    forall x | x in RecordedIds(r) ensures x in RecordedIds(r') {
      var sp :| sp in r.spans && sp.spanId == x;
      var i :| 0 <= i < |r.spans| && r.spans[i] == sp;
      assert r'.spans[i].spanId == x;
    }
  }

  lemma OpenIdsStamp(r: Recorder, k: nat, end: int)
    requires k < |r.spans| && r.spans[k].spanId != r.transactionSpanId
    requires DistinctChildIds(r)
    ensures OpenIds(r.(spans := r.spans[k := r.spans[k].(endTimestamp := Some(end))])) ==
      OpenIds(r) - {r.spans[k].spanId}
    ensures DistinctChildIds(r.(spans := r.spans[k := r.spans[k].(endTimestamp := Some(end))]))
  {
    var id := r.spans[k].spanId;
    var r' := r.(spans := r.spans[k := r.spans[k].(endTimestamp := Some(end))]);
    forall x | x in OpenIds(r') ensures x in OpenIds(r) - {id} {
      var sp :| sp in r'.spans && sp.spanId != r.transactionSpanId && sp.IsOpen() && sp.spanId == x;
      var i :| 0 <= i < |r'.spans| && r'.spans[i] == sp;
      assert i != k;
      assert r.spans[i] == sp;
    }
    forall x | x in OpenIds(r) - {id} ensures x in OpenIds(r') {
      var sp :| sp in r.spans && sp.spanId != r.transactionSpanId && sp.IsOpen() && sp.spanId == x;
      var i :| 0 <= i < |r.spans| && r.spans[i] == sp;
      assert r'.spans[i] == sp;
    }
  }
}
