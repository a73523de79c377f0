/**
 * Spans as the idle-transaction engine sees them: identity, timestamps and
 * the status that finishing may force on them.
 */
module Spans {
  import opened Optional

  /** The span statuses this core sets. */
  datatype Status = Ok | Cancelled | DeadlineExceeded

  /**
   * A timed unit of work. `endTimestamp` is `None` while the span is open.
   * All timestamps share one integer unit with the engine's clock.
   */
  datatype Span = Span(
    spanId: string,
    parentSpanId: Option<string>,
    startTimestamp: int,
    endTimestamp: Option<int>,
    status: Option<Status>)
  {
    predicate IsOpen()
    {
      endTimestamp.None?
    }
  }

  /** Position of the first span in `spans` whose id is `id`. */
  function IndexOf(spans: seq<Span>, id: string): (k: Option<nat>)
    ensures k.Some? ==> k.value < |spans| && spans[k.value].spanId == id
    ensures k.Some? ==> forall i :: 0 <= i < k.value ==> spans[i].spanId != id
    ensures k.None? <==> forall i :: 0 <= i < |spans| ==> spans[i].spanId != id
  {
    if |spans| == 0 then None
    else if spans[0].spanId == id then Some(0)
    else match IndexOf(spans[1..], id)
      case None => None
      case Some(j) => Some(j + 1)
  }
}
