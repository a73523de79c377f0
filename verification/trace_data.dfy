/**
 * What a parsed `sentry-trace` value carries, shared by the OpenTelemetry
 * propagator and the browser integration; and the dash-separated field
 * structure of the header's text.
 */
module TraceData {
  import opened Optional

  /**
   * The result of parsing a `sentry-trace` value. Every field may be
   * missing: the parser tolerates partial values.
   */
  datatype TraceparentData = TraceparentData(
    traceId: Option<string>,
    parentSpanId: Option<string>,
    parentSampled: Option<bool>)

  /** `s` split at every '-'; the empty string is one empty field. */
  function SplitDash(s: string): (parts: seq<string>)
    ensures |parts| >= 1
    ensures '-' !in s ==> parts == [s]
    decreases |s|
  {
    if |s| == 0 then [""]
    else
      var rest := SplitDash(s[1..]);
      if s[0] == '-' then [""] + rest
      else
        assert '-' !in s ==> '-' !in s[1..] && [s[0]] + s[1..] == s;
        [[s[0]] + rest[0]] + rest[1..]
  }

  /** Splitting `a + "-" + b` for a dash-free `a` peels off `a` as the first field. */
  lemma {:induction false} SplitAfterField(a: string, b: string)
    requires '-' !in a
    ensures SplitDash(a + "-" + b) == [a] + SplitDash(b)
    decreases |a|
  {
    if |a| == 0 {
      assert a + "-" + b == "-" + b;
      assert ("-" + b)[1..] == b;
    } else {
      var s := a + "-" + b;
      assert s[0] == a[0];
      assert s[1..] == a[1..] + "-" + b;
      SplitAfterField(a[1..], b);
      assert [a[0]] + a[1..] == a;
    }
  }

  /**
   * The reference reading of a `sentry-trace` value: exactly three
   * dash-separated fields, the last "0" or "1". Anything else is not a
   * trace parent.
   */
  function ParseReference(header: Option<string>): (d: Option<TraceparentData>)
    ensures d.Some? ==> header.Some? && |SplitDash(header.value)| == 3
    ensures d.Some? ==> d.value.traceId == Some(SplitDash(header.value)[0])
    ensures d.Some? ==> d.value.parentSpanId == Some(SplitDash(header.value)[1])
    ensures d.Some? ==> d.value.parentSampled == Some(SplitDash(header.value)[2] == "1")
  {
    match header
    case None => None
    case Some(h) =>
      var parts := SplitDash(h);
      if |parts| == 3 && (parts[2] == "0" || parts[2] == "1") then
        Some(TraceparentData(Some(parts[0]), Some(parts[1]), Some(parts[2] == "1")))
      else
        None
  }
}
