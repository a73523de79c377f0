/**
 * SentryPropogator: moves a trace across process boundaries in two carrier
 * headers. `inject` writes the current span's `sentry-trace` value (and the
 * transaction's `baggage` value when there is one); `extract` reads the
 * `sentry-trace` value back into a remote span context.
 *
 * The OpenTelemetry and Sentry helpers it calls are not part of this model.
 * They are passed in as a `Foreign` bundle of functions about which nothing
 * is assumed.
 */
module Propagator {
  import opened Optional
  import opened TraceData

  const TraceHeader: string := "sentry-trace"
  const BaggageHeader: string := "baggage"

  /** OpenTelemetry trace flags: no flag, and the SAMPLED bit. */
  const FlagsNone: bv8 := 0
  const FlagSampled: bv8 := 1

  datatype SpanContext = SpanContext(traceId: string, spanId: string, traceFlags: bv8, isRemote: bool)

  /**
   * An OpenTelemetry context, as far as this propagator sees it: the span
   * context stored in it, and every other entry, which it never changes.
   */
  datatype Context = Context(spanContext: Option<SpanContext>, entries: map<string, string>)

  /** A carrier header value: a single string or, for repeated headers, a list. */
  datatype HeaderValue = Text(text: string) | List(items: seq<string>)

  /** The helpers the propagator calls and does not define. */
  datatype Foreign = Foreign(
    /** `isSpanContextValid` */
    isValid: SpanContext -> bool,
    /** `isTracingSuppressed` */
    isSuppressed: Context -> bool,
    /**
     * The span processor's span for a span id, its transaction's dynamic
     * sampling context, serialised by `dynamicSamplingContextToSentryBaggageHeader`;
     * `None` when there is no such span, no transaction, or no serialisation.
     */
    baggageOf: string -> Option<string>,
    /** `extractTraceparentData` */
    parseTraceparent: Option<string> -> Option<TraceparentData>)

  /** One `setter.set(carrier, name, value)` call. */
  datatype Write = Write(name: string, value: string)

  function SampledBit(flags: bv8): string
  {
    if flags & FlagSampled != 0 then "1" else "0"
  }

  /** The `sentry-trace` value of a span context: `traceId-spanId-bit`. */
  function TraceParent(sc: SpanContext): string
  {
    sc.traceId + "-" + sc.spanId + "-" + SampledBit(sc.traceFlags)
  }

  /** Whether `inject` returns before writing anything. */
  predicate InjectSkips(f: Foreign, context: Context)
  {
    context.spanContext.None? || !f.isValid(context.spanContext.value) || f.isSuppressed(context)
  }

  /** `inject`: the header writes, in the order they are made. */
  function Inject(f: Foreign, context: Context): (writes: seq<Write>)
    ensures writes == [] <==> InjectSkips(f, context)
    ensures !InjectSkips(f, context) ==>
      writes[0] == Write(TraceHeader, TraceParent(context.spanContext.value))
    ensures !InjectSkips(f, context) ==>
      var baggage := f.baggageOf(context.spanContext.value.spanId);
      && (|writes| == 2 <==> baggage.Some? && baggage.value != "")
      && (|writes| == 2 ==> writes[1] == Write(BaggageHeader, baggage.value))
      && |writes| <= 2
  {
    if InjectSkips(f, context) then
      []
    else
      var sc := context.spanContext.value;
      var traceWrite := Write(TraceHeader, TraceParent(sc));
      match f.baggageOf(sc.spanId)
      case Some(b) =>
        if b != "" then [traceWrite, Write(BaggageHeader, b)] else [traceWrite]
      case None =>
        [traceWrite]
  }

  /** `fields`: the headers this propagator reads and writes. */
  function Fields(): (names: seq<string>)
    ensures |names| == 2 && names[0] != names[1]
  {
    [TraceHeader, BaggageHeader]
  }

  /** `inject` writes only headers that `fields` announces, each at most once. */
  lemma InjectWritesOnlyFields(f: Foreign, context: Context)
    ensures forall i :: 0 <= i < |Inject(f, context)| ==> Inject(f, context)[i].name in Fields()
    ensures forall i, j :: 0 <= i < j < |Inject(f, context)| ==>
      Inject(f, context)[i].name != Inject(f, context)[j].name
  {
  }

  /**
   * The trace header always has three dash-separated fields when the ids
   * have no dashes of their own: the trace id, the span id, and "1" exactly
   * when the SAMPLED flag is set, else "0".
   */
  lemma TraceParentFields(sc: SpanContext)
    requires '-' !in sc.traceId && '-' !in sc.spanId
    ensures SplitDash(TraceParent(sc)) == [sc.traceId, sc.spanId, SampledBit(sc.traceFlags)]
    ensures SampledBit(sc.traceFlags) == "1" <==> sc.traceFlags & FlagSampled != 0
  {
    var bit := SampledBit(sc.traceFlags);
    assert TraceParent(sc) == sc.traceId + "-" + (sc.spanId + "-" + bit);
    SplitAfterField(sc.traceId, sc.spanId + "-" + bit);
    SplitAfterField(sc.spanId, bit);
  }

  /** A carrier after a list of header writes; a later write wins. */
  function Apply(carrier: map<string, HeaderValue>, writes: seq<Write>): (r: map<string, HeaderValue>)
    ensures forall w :: w in writes ==> w.name in r
    ensures forall k :: k in carrier ==> k in r
    decreases |writes|
  {
    if |writes| == 0 then carrier
    else Apply(carrier[writes[0].name := Text(writes[0].value)], writes[1..])
  }

  /** `getter.get` on a carrier; an absent header is `undefined`. */
  function Get(carrier: map<string, HeaderValue>, name: string): Option<HeaderValue>
  {
    if name in carrier then Some(carrier[name]) else None
  }

  /** JavaScript truthiness of a header value: a string when non-empty, a list always. */
  predicate Truthy(v: Option<HeaderValue>)
  {
    match v
    case None => false
    case Some(Text(s)) => s != ""
    case Some(List(_)) => true
  }

  /**
   * The remote span context built from parsed trace-parent data: missing
   * ids become '', and SAMPLED is set exactly when the parent was sampled.
   */
  function RemoteContext(d: TraceparentData): (sc: SpanContext)
    ensures sc.isRemote
    ensures sc.traceId == (if d.traceId.Some? then d.traceId.value else "")
    ensures sc.spanId == (if d.parentSpanId.Some? then d.parentSpanId.value else "")
    ensures sc.traceFlags == FlagSampled <==> d.parentSampled == Some(true)
    ensures sc.traceFlags == FlagsNone <==> d.parentSampled != Some(true)
  {
    SpanContext(d.traceId.GetOr(""), d.parentSpanId.GetOr(""),
                if d.parentSampled == Some(true) then FlagSampled else FlagsNone, true)
  }

  /**
   * `extract` once the value to parse is chosen: the given context, with
   * the remote span context set when the value parses. The context entries
   * written by `setValue` are discarded by the source, so they never appear.
   */
  function ExtractWith(f: Foreign, context: Context, header: Option<HeaderValue>,
                       argument: Option<string>): (r: Context)
    ensures r.entries == context.entries
    ensures !Truthy(header) ==> r == context
    ensures Truthy(header) ==>
      match f.parseTraceparent(argument)
      case None => r == context
      case Some(d) => r.spanContext == Some(RemoteContext(d))
  {
    if Truthy(header) then
      match f.parseTraceparent(argument)
      case None => context
      case Some(d) => context.(spanContext := Some(RemoteContext(d)))
    else
      context
  }

  /**
   * `header[0]` as the source writes it: the first element of a list, or,
   * for a plain string, its first character.
   */
  function FirstElement(v: HeaderValue): (arg: Option<string>)
    ensures v.Text? && v.text != "" ==> arg == Some(v.text[..1])
    ensures v.List? ==> (arg.Some? <==> v.items != [])
  {
    match v
    case Text(s) => if s == "" then None else Some(s[..1])
    case List(items) => if items == [] then None else Some(items[0])
  }

  /** `extract` as written: the parser is handed `header[0]`. */
  function ExtractAsWritten(f: Foreign, context: Context, carrier: map<string, HeaderValue>): (r: Context)
    ensures r.entries == context.entries
    ensures TraceHeader !in carrier ==> r == context
  {
    var header := Get(carrier, TraceHeader);
    ExtractWith(f, context, header, if header.Some? then FirstElement(header.value) else None)
  }

  /** The value the parser should see: a string whole, or a list's first element. */
  function WholeHeader(v: HeaderValue): (arg: Option<string>)
    ensures v.Text? ==> arg == Some(v.text)
    ensures v.List? ==> arg == FirstElement(v)
  {
    match v
    case Text(s) => Some(s)
    case List(items) => if items == [] then None else Some(items[0])
  }

  /** `extract` with the string value passed whole. */
  function Extract(f: Foreign, context: Context, carrier: map<string, HeaderValue>): (r: Context)
    ensures r.entries == context.entries
    ensures TraceHeader !in carrier ==> r == context
    ensures forall s :: Get(carrier, TraceHeader) == Some(Text(s)) && s != "" ==>
      r == match f.parseTraceparent(Some(s))
           case None => context
           case Some(d) => context.(spanContext := Some(RemoteContext(d)))
  {
    var header := Get(carrier, TraceHeader);
    ExtractWith(f, context, header, if header.Some? then WholeHeader(header.value) else None)
  }

  /**
   * As written, whatever the parser, it only ever sees the first character
   * of a plain-string `sentry-trace` value.
   */
  lemma AsWrittenParsesOneCharacter(f: Foreign, context: Context, carrier: map<string, HeaderValue>, s: string)
    requires Get(carrier, TraceHeader) == Some(Text(s)) && s != ""
    ensures ExtractAsWritten(f, context, carrier) ==
      match f.parseTraceparent(Some(s[..1]))
      case None => context
      case Some(d) => context.(spanContext := Some(RemoteContext(d)))
  {
  }

  /**
   * The round trip `extract(inject(ctx))` fails as written: a sampled span
   * context injected into an empty carrier comes back as no span context
   * at all, because the reference parser is handed "a" instead of the
   * whole value.
   */
  lemma AsWrittenLosesTheTrace()
    ensures var sc := SpanContext("abc", "def", FlagSampled, false);
      var f := Foreign(_ => true, _ => false, _ => None, ParseReference);
      var carrier := Apply(map[], Inject(f, Context(Some(sc), map[])));
      && Get(carrier, TraceHeader) == Some(Text("abc-def-1"))
      && ExtractAsWritten(f, Context(None, map[]), carrier).spanContext.None?
  {
    var sc := SpanContext("abc", "def", FlagSampled, false);
    var f := Foreign(_ => true, _ => false, _ => None, ParseReference);
    assert TraceParent(sc) == "abc-def-1";
    var carrier := Apply(map[], Inject(f, Context(Some(sc), map[])));
    ApplyFirstWrite(Inject(f, Context(Some(sc), map[])));
    assert "abc-def-1"[..1] == "a";
    assert SplitDash("a") == ["a"];
  }

  /**
   * With the value passed whole and the reference parser, the round trip
   * holds: the extracted context carries, as a remote parent, the injected
   * trace id, span id and sampled bit.
   */
  lemma RoundTrip(f: Foreign, context: Context, target: Context)
    requires context.spanContext.Some? && !InjectSkips(f, context)
    requires f.parseTraceparent == ParseReference
    requires '-' !in context.spanContext.value.traceId && '-' !in context.spanContext.value.spanId
    ensures var sc := context.spanContext.value;
      var r := Extract(f, target, Apply(map[], Inject(f, context)));
      && r.entries == target.entries
      && r.spanContext == Some(SpanContext(sc.traceId, sc.spanId,
           if sc.traceFlags & FlagSampled != 0 then FlagSampled else FlagsNone, true))
  {
    var sc := context.spanContext.value;
    var writes := Inject(f, context);
    var carrier := Apply(map[], writes);
    TraceParentFields(sc);
    assert Get(carrier, TraceHeader) == Some(Text(TraceParent(sc))) by {
      ApplyFirstWrite(writes);
    }
  }

  /** In the carrier built from `inject`'s writes, the trace header holds the first write. */
  lemma ApplyFirstWrite(writes: seq<Write>)
    requires 1 <= |writes| <= 2 && writes[0].name == TraceHeader
    requires |writes| == 2 ==> writes[1].name == BaggageHeader
    ensures Get(Apply(map[], writes), TraceHeader) == Some(Text(writes[0].value))
  {
    var m := map[TraceHeader := Text(writes[0].value)];
    assert Apply(map[], writes) == Apply(m, writes[1..]);
    if |writes| == 2 {
      assert Apply(m, writes[1..]) == Apply(m[BaggageHeader := Text(writes[1].value)], writes[2..]);
    }
  }
}
