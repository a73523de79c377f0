/**
 * BrowserTracing: the browser integration that starts an idle transaction
 * for every page load, navigation and (when enabled) click. This model
 * covers option resolution, how a route transaction's context is resolved
 * from the router's context, the page's meta tags and `beforeNavigate`, and
 * the click handler's guards.
 */
module BrowserTracing {
  import opened Optional
  import opened TraceData
  import IdleTransaction

  const PageloadOp: string := "pageload"
  const InteractionOp: string := "ui.action.click"

  /** Where a transaction's name came from. */
  datatype Source = Custom | Url | Route | View | Component | Task

  /** A dynamic sampling context: baggage keys and values. */
  type Dsc = map<string, string>

  datatype Metadata = Metadata(source: Option<Source>, dynamicSamplingContext: Option<Dsc>)

  /** A transaction context; `None` is a key that is absent or undefined. */
  datatype TxnContext = TxnContext(
    name: string,
    op: Option<string>,
    traceId: Option<string>,
    parentSpanId: Option<string>,
    parentSampled: Option<bool>,
    sampled: Option<bool>,
    metadata: Option<Metadata>,
    trimEnd: Option<bool>)

  /** What `beforeNavigate` returned: undefined, the very object it was given, or another object. */
  datatype Returned = Undefined | SameObject | OtherObject(context: TxnContext)

  /**
   * One call of `beforeNavigate(expandedContext)`: the argument as the call
   * left it (the callback may edit it in place) and what it returned.
   */
  datatype NavigateCall = NavigateCall(argument: TxnContext, returned: Returned)

  /** A `beforeNavigate` callback, as what each call does. */
  type BeforeNavigate = TxnContext -> NavigateCall

  datatype Experiments = Experiments(enableLongTask: Option<bool>, interactionSampleRate: Option<real>)

  /** The options a user passes; `None` is a key left out. */
  datatype UserOptions = UserOptions(
    idleTimeout: Option<nat>,
    finalTimeout: Option<nat>,
    heartbeatInterval: Option<nat>,
    markBackgroundTransactions: Option<bool>,
    startTransactionOnLocationChange: Option<bool>,
    startTransactionOnPageLoad: Option<bool>,
    experiments: Option<Experiments>,
    beforeNavigate: Option<BeforeNavigate>)

  /** The resolved options. */
  datatype Options = Options(
    idleTimeout: nat,
    finalTimeout: nat,
    heartbeatInterval: nat,
    markBackgroundTransactions: bool,
    startTransactionOnLocationChange: bool,
    startTransactionOnPageLoad: bool,
    experiments: Experiments,
    beforeNavigate: Option<BeforeNavigate>)

  const DefaultExperiments: Experiments := Experiments(Some(true), Some(0.0))

  const NoUserOptions: UserOptions := UserOptions(None, None, None, None, None, None, None, None)

  /**
   * The constructor's `{...DEFAULT_BROWSER_TRACING_OPTIONS, ..._options}`:
   * a shallow merge, so a given `_experiments` object replaces the default
   * one whole.
   */
  function Resolve(u: UserOptions): (o: Options)
    ensures o.idleTimeout == u.idleTimeout.GetOr(IdleTransaction.DefaultIdleTimeout)
    ensures o.finalTimeout == u.finalTimeout.GetOr(IdleTransaction.DefaultFinalTimeout)
    ensures o.heartbeatInterval == u.heartbeatInterval.GetOr(IdleTransaction.DefaultHeartbeatInterval)
    ensures o.markBackgroundTransactions == u.markBackgroundTransactions.GetOr(true)
    ensures o.startTransactionOnLocationChange == u.startTransactionOnLocationChange.GetOr(true)
    ensures o.startTransactionOnPageLoad == u.startTransactionOnPageLoad.GetOr(true)
    ensures o.experiments == u.experiments.GetOr(DefaultExperiments)
    ensures o.beforeNavigate == u.beforeNavigate
  {
    Options(
      u.idleTimeout.GetOr(IdleTransaction.DefaultIdleTimeout),
      u.finalTimeout.GetOr(IdleTransaction.DefaultFinalTimeout),
      u.heartbeatInterval.GetOr(IdleTransaction.DefaultHeartbeatInterval),
      u.markBackgroundTransactions.GetOr(true),
      u.startTransactionOnLocationChange.GetOr(true),
      u.startTransactionOnPageLoad.GetOr(true),
      u.experiments.GetOr(DefaultExperiments),
      u.beforeNavigate)
  }

  /**
   * With no options the documented defaults apply: 1000 ms idle, 30000 ms
   * final, 5000 ms heartbeat, every flag on, long tasks on and an
   * interaction sample rate of 0.
   */
  lemma DefaultOptions()
    ensures var o := Resolve(NoUserOptions);
      && o.idleTimeout == 1000 && o.finalTimeout == 30000 && o.heartbeatInterval == 5000
      && o.markBackgroundTransactions && o.startTransactionOnLocationChange && o.startTransactionOnPageLoad
      && o.experiments.enableLongTask == Some(true) && o.experiments.interactionSampleRate == Some(0.0)
      && o.beforeNavigate.None?
  {
  }

  /**
   * Because the merge is shallow, passing `_experiments` with only
   * `enableLongTask` drops the default interaction sample rate.
   */
  lemma ExperimentsReplacedWhole(u: UserOptions, longTask: bool)
    requires u.experiments == Some(Experiments(Some(longTask), None))
    ensures Resolve(u).experiments.interactionSampleRate.None?
    ensures Resolve(u).experiments.enableLongTask == Some(longTask)
  {
  }

  /** The idle transaction configuration the resolved options ask for. */
  function IdleConfig(o: Options): (c: IdleTransaction.Config)
    ensures c.idleTimeout == o.idleTimeout && c.finalTimeout == o.finalTimeout
    ensures c.heartbeatInterval == o.heartbeatInterval
  {
    IdleTransaction.Config(o.idleTimeout, o.finalTimeout, o.heartbeatInterval)
  }

  // ---------------------------------------------------------------------
  // Route transactions

  /** The page's `<meta>` tags and the parsers applied to them. */
  datatype Page = Page(
    /** `getMetaContent('sentry-trace')`; `None` for null */
    sentryTraceMeta: Option<string>,
    /** `getMetaContent('baggage')` */
    baggageMeta: Option<string>,
    /** `extractTraceparentData` */
    parseTraceparent: string -> Option<TraceparentData>,
    /** `baggageHeaderToDynamicSamplingContext` */
    parseBaggage: string -> Option<Dsc>)

  /** One `startIdleTransaction(hub, context, idle, final, onScope, ..., heartbeat)` call. */
  datatype IdleStart = IdleStart(context: TxnContext, config: IdleTransaction.Config, onScope: bool)

  /** The integration's state: whether `setupOnce` gave it a hub getter, and what it remembers. */
  datatype State = State(
    hasHub: bool,
    latestRouteName: Option<string>,
    latestRouteSource: Option<Source>,
    inflight: Option<IdleStart>)

  datatype RouteResult = RouteResult(state: State, started: Option<IdleStart>)

  /** A meta tag value the source treats as present: non-null and non-empty. */
  predicate Given(v: Option<string>)
  {
    v.Some? && v.value != ""
  }

  /** The trace-parent data read from the page, for a page load only. */
  function PageTraceparent(context: TxnContext, page: Page): (d: Option<TraceparentData>)
    ensures context.op != Some(PageloadOp) ==> d.None?
    ensures context.op == Some(PageloadOp) && Given(page.sentryTraceMeta) ==>
      d == page.parseTraceparent(page.sentryTraceMeta.value)
    ensures !Given(page.sentryTraceMeta) ==> d.None?
  {
    if context.op == Some(PageloadOp) && Given(page.sentryTraceMeta) then
      page.parseTraceparent(page.sentryTraceMeta.value)
    else
      None
  }

  /** The dynamic sampling context read from the page, for a page load only. */
  function PageBaggage(context: TxnContext, page: Page): (dsc: Option<Dsc>)
    ensures context.op != Some(PageloadOp) ==> dsc.None?
    ensures context.op == Some(PageloadOp) && Given(page.baggageMeta) ==>
      dsc == page.parseBaggage(page.baggageMeta.value)
    ensures !Given(page.baggageMeta) ==> dsc.None?
  {
    if context.op == Some(PageloadOp) && Given(page.baggageMeta) then
      page.parseBaggage(page.baggageMeta.value)
    else
      None
  }

  function MetadataSource(m: Option<Metadata>): Option<Source>
  {
    if m.Some? then m.value.source else None
  }

  function MetadataDsc(m: Option<Metadata>): Option<Dsc>
  {
    if m.Some? then m.value.dynamicSamplingContext else None
  }

  /**
   * The expanded context: the router's context, overridden by the page's
   * trace-parent data, with the dynamic sampling context (an empty one when
   * a trace parent came without baggage) and `trimEnd` set.
   */
  function Expand(context: TxnContext, page: Page): (e: TxnContext)
    ensures e.name == context.name && e.op == context.op && e.sampled == context.sampled
    ensures e.trimEnd == Some(true)
    ensures e.metadata.Some? && e.metadata.value.source == MetadataSource(context.metadata)
    ensures var d := PageTraceparent(context, page);
      && (d.None? ==> e.traceId == context.traceId && e.parentSpanId == context.parentSpanId
                      && e.parentSampled == context.parentSampled)
      && (d.Some? ==> e.traceId == d.value.traceId && e.parentSpanId == d.value.parentSpanId
                      && e.parentSampled == d.value.parentSampled)
    ensures var d := PageTraceparent(context, page);
      var dsc := PageBaggage(context, page);
      e.metadata.value.dynamicSamplingContext == (if d.Some? && dsc.None? then Some(map[]) else dsc)
  {
    var d := PageTraceparent(context, page);
    var dsc := PageBaggage(context, page);
    var withParent :=
      if d.Some? then context.(traceId := d.value.traceId, parentSpanId := d.value.parentSpanId,
                               parentSampled := d.value.parentSampled)
      else context;
    withParent.(
      metadata := Some(Metadata(MetadataSource(context.metadata),
                                if d.Some? && dsc.None? then Some(map[]) else dsc)),
      trimEnd := Some(true))
  }

  /**
   * The call `_createRouteTransaction` makes: `beforeNavigate` on the
   * expanded context when there is one; otherwise the expanded context
   * itself stands as the result.
   */
  function Navigate(expanded: TxnContext, beforeNavigate: Option<BeforeNavigate>): (call: NavigateCall)
    ensures beforeNavigate.None? ==> call == NavigateCall(expanded, SameObject)
    ensures beforeNavigate.Some? ==> call == beforeNavigate.value(expanded)
  {
    if beforeNavigate.Some? then beforeNavigate.value(expanded) else NavigateCall(expanded, SameObject)
  }

  /**
   * The context chosen after the call, before the rename check: the
   * argument marked unsampled when undefined came back, the argument itself
   * when it came back, and the other object otherwise.
   */
  function Chosen(call: NavigateCall): TxnContext
  {
    match call.returned
    case Undefined => call.argument.(sampled := Some(false))
    case SameObject => call.argument
    case OtherObject(c) => c
  }

  /**
   * What `beforeNavigate` makes of the expanded context. The rename check
   * compares with the expanded context object, which the callback may have
   * edited: a rename is seen only when another object with another name came
   * back, and then the source is set to custom.
   */
  function FinalContext(expanded: TxnContext, beforeNavigate: Option<BeforeNavigate>): (f: TxnContext)
    ensures beforeNavigate.None? ==> f == expanded
    ensures var call := Navigate(expanded, beforeNavigate);
      && (call.returned.Undefined? ==> f == call.argument.(sampled := Some(false)))
      && (call.returned.SameObject? ==> f == call.argument)
      && (call.returned.OtherObject? && call.returned.context.name == call.argument.name ==>
            f == call.returned.context)
      && (call.returned.OtherObject? && call.returned.context.name != call.argument.name ==>
            f == call.returned.context.(metadata :=
                   Some(Metadata(Some(Custom), MetadataDsc(call.returned.context.metadata)))))
  {
    var call := Navigate(expanded, beforeNavigate);
    var chosen := Chosen(call);
    if chosen.name != call.argument.name then
      chosen.(metadata := Some(Metadata(Some(Custom), MetadataDsc(chosen.metadata))))
    else
      chosen
  }

  /**
   * `_createRouteTransaction`: without a hub getter nothing happens;
   * otherwise the final context is remembered as the latest route and an
   * idle transaction is started on the scope with the configured timeouts.
   */
  function CreateRouteTransaction(s: State, o: Options, page: Page, context: TxnContext): (r: RouteResult)
    ensures !s.hasHub ==> r == RouteResult(s, None)
    ensures s.hasHub ==>
      var f := FinalContext(Expand(context, page), o.beforeNavigate);
      && r.started == Some(IdleStart(f, IdleConfig(o), true))
      && r.state == s.(latestRouteName := Some(f.name), latestRouteSource := MetadataSource(f.metadata))
  {
    if !s.hasHub then
      RouteResult(s, None)
    else
      var f := FinalContext(Expand(context, page), o.beforeNavigate);
      RouteResult(s.(latestRouteName := Some(f.name), latestRouteSource := MetadataSource(f.metadata)),
                  Some(IdleStart(f, IdleConfig(o), true)))
  }

  /** Only a page load reads the meta tags: for any other op the page makes no difference. */
  lemma MetaTagsOnlyForPageload(s: State, o: Options, p1: Page, p2: Page, context: TxnContext)
    requires context.op != Some(PageloadOp)
    ensures CreateRouteTransaction(s, o, p1, context) == CreateRouteTransaction(s, o, p2, context)
  {
    assert Expand(context, p1) == Expand(context, p2);
  }

  /**
   * Without `beforeNavigate` and away from a page load, the started context
   * is the router's context with only `trimEnd` and the sampling-context
   * slot of its metadata filled in.
   */
  lemma PlainNavigation(s: State, o: Options, page: Page, context: TxnContext)
    requires s.hasHub && o.beforeNavigate.None? && context.op != Some(PageloadOp)
    ensures CreateRouteTransaction(s, o, page, context).started ==
      Some(IdleStart(context.(metadata := Some(Metadata(MetadataSource(context.metadata), None)),
                              trimEnd := Some(true)),
                     IdleTransaction.Config(o.idleTimeout, o.finalTimeout, o.heartbeatInterval), true))
  {
  }

  /**
   * The source becomes custom exactly when the context that came back
   * carries another name than the argument as the call left it; otherwise
   * the metadata is that of the context that came back. The name is always
   * the returned one.
   */
  lemma CustomSourceIffRenamed(expanded: TxnContext, bn: BeforeNavigate)
    ensures var call := bn(expanded);
      var f := FinalContext(expanded, Some(bn));
      && f.name == Chosen(call).name
      && (f.name != call.argument.name ==> MetadataSource(f.metadata) == Some(Custom))
      && (f.name == call.argument.name ==> f.metadata == Chosen(call).metadata)
      && (f.name != call.argument.name ==> call.returned.OtherObject?)
  {
  }

  /**
   * A callback that renames its argument in place and returns it is not
   * seen as renaming: the transaction takes the new name, and the source
   * stays what the expanded context carried.
   */
  lemma InPlaceRenameKeepsSource(s: State, o: Options, page: Page, context: TxnContext, name: string)
    requires s.hasHub && o.beforeNavigate.Some?
    requires o.beforeNavigate.value(Expand(context, page)) ==
      NavigateCall(Expand(context, page).(name := name), SameObject)
    ensures var r := CreateRouteTransaction(s, o, page, context);
      && r.started.Some? && r.started.value.context.name == name
      && r.state.latestRouteName == Some(name)
      && r.state.latestRouteSource == MetadataSource(context.metadata)
  {
  }

  /**
   * A `beforeNavigate` that returns undefined drops the transaction: it
   * still starts, unsampled, with the name and source of the expanded
   * context as the callback left it.
   */
  lemma UndefinedDrops(s: State, o: Options, page: Page, context: TxnContext)
    requires s.hasHub && o.beforeNavigate.Some?
    requires o.beforeNavigate.value(Expand(context, page)).returned.Undefined?
    ensures var arg := o.beforeNavigate.value(Expand(context, page)).argument;
      var r := CreateRouteTransaction(s, o, page, context);
      && r.started.Some? && r.started.value.context == arg.(sampled := Some(false))
      && r.state.latestRouteName == Some(arg.name)
      && r.state.latestRouteSource == MetadataSource(arg.metadata)
  {
  }

  /**
   * When the callback leaves its argument untouched and returns undefined,
   * the transaction starts under the router's name and source.
   */
  lemma UntouchedUndefinedDrops(s: State, o: Options, page: Page, context: TxnContext)
    requires s.hasHub && o.beforeNavigate.Some?
    requires o.beforeNavigate.value(Expand(context, page)) == NavigateCall(Expand(context, page), Undefined)
    ensures var r := CreateRouteTransaction(s, o, page, context);
      && r.started.Some? && r.started.value.context.sampled == Some(false)
      && r.started.value.context.name == context.name
      && r.state.latestRouteName == Some(context.name)
      && r.state.latestRouteSource == MetadataSource(context.metadata)
  {
  }

  /**
   * A route transaction is started on the scope: the idle transaction it
   * starts holds the scope slot from the start.
   */
  lemma RouteTransactionOnScope(s: State, o: Options, page: Page, context: TxnContext,
                                spanId: string, now: int, scope: Option<string>, sampled: bool)
    requires s.hasHub
    ensures var st := CreateRouteTransaction(s, o, page, context).started.value;
      var t := IdleTransaction.Start(spanId, None, sampled, st.config, st.onScope, now, scope);
      && t.scope == Some(spanId)
      && t.config.idleTimeout == o.idleTimeout
      && t.config.finalTimeout == o.finalTimeout
      && t.config.heartbeatInterval == o.heartbeatInterval
  {
  }

  // ---------------------------------------------------------------------
  // Interaction transactions

  /** What a click does to interaction transactions, in order. */
  datatype Action = FinishInflight(finished: IdleStart) | StartInteraction(started: IdleStart)

  datatype ClickResult = ClickResult(state: State, actions: seq<Action>)

  /** The interaction context built from the latest route. */
  function InteractionContext(name: string, source: Option<Source>): (c: TxnContext)
    ensures c.name == name && c.op == Some(InteractionOp) && c.trimEnd == Some(true)
    ensures c.metadata == Some(Metadata(Some(source.GetOr(Url)), None))
  {
    TxnContext(name, Some(InteractionOp), None, None, None, None, Some(Metadata(Some(source.GetOr(Url)), None)), Some(true))
  }

  /**
   * The click handler. `random` is the `Math.random()` draw; a draw above
   * the rate ignores the click. Otherwise the in-flight interaction
   * transaction is finished first, and only then are the hub and the latest
   * route name checked.
   */
  function OnClick(s: State, o: Options, rate: real, random: real): (r: ClickResult)
    ensures random > rate ==> r == ClickResult(s, [])
    ensures random <= rate ==>
      && r.state.hasHub == s.hasHub && |r.actions| <= 2
      && r.state.latestRouteName == s.latestRouteName && r.state.latestRouteSource == s.latestRouteSource
      && (s.inflight.Some? ==> |r.actions| >= 1 && r.actions[0] == FinishInflight(s.inflight.value))
      && (s.inflight.None? ==> forall i :: 0 <= i < |r.actions| ==> r.actions[i].StartInteraction?)
    ensures random <= rate && s.hasHub && Given(s.latestRouteName) ==>
      var st := IdleStart(InteractionContext(s.latestRouteName.value, s.latestRouteSource), IdleConfig(o), true);
      && |r.actions| >= 1 && r.actions[|r.actions| - 1] == StartInteraction(st)
      && r.state.inflight == Some(st)
    ensures random <= rate && !(s.hasHub && Given(s.latestRouteName)) ==>
      && r.state.inflight.None?
      && forall i :: 0 <= i < |r.actions| ==> r.actions[i].FinishInflight?
  {
    if random > rate then
      ClickResult(s, [])
    else
      var finishes := if s.inflight.Some? then [FinishInflight(s.inflight.value)] else [];
      var cleared := s.(inflight := None);
      if !s.hasHub || !Given(s.latestRouteName) then
        ClickResult(cleared, finishes)
      else
        var st := IdleStart(InteractionContext(s.latestRouteName.value, s.latestRouteSource), IdleConfig(o), true);
        ClickResult(cleared.(inflight := Some(st)), finishes + [StartInteraction(st)])
  }

  /** What the integration reacts to once set up. */
  datatype Trigger = Navigate(page: Page, context: TxnContext) | Click(random: real)

  /**
   * One trigger. A click reaches the handler only when `setupOnce`
   * registered the listener, and the handler compares the draw with the
   * configured interaction sample rate.
   */
  function React(s: State, o: Options, t: Trigger): (r: ClickResult)
    ensures t.Navigate? ==> r.actions == []
    ensures t.Click? && !RegistersListener(o.experiments) ==> r == ClickResult(s, [])
  {
    match t
    case Navigate(page, context) => ClickResult(CreateRouteTransaction(s, o, page, context).state, [])
    case Click(random) =>
      if RegistersListener(o.experiments) then
        OnClick(s, o, o.experiments.interactionSampleRate.value, random)
      else
        ClickResult(s, [])
  }

  /** The interaction actions of a sequence of triggers, and the final state. */
  function Run(s: State, o: Options, triggers: seq<Trigger>): (r: ClickResult)
    ensures r.state.hasHub == s.hasHub
    decreases |triggers|
  {
    if |triggers| == 0 then
      ClickResult(s, [])
    else
      var next := React(s, o, triggers[0]);
      var rest := Run(next.state, o, triggers[1..]);
      ClickResult(rest.state, next.actions + rest.actions)
  }

  /**
   * Interaction transactions never overlap: in the action log starts and
   * finishes alternate, each finish closing the transaction started just
   * before it, and one is in flight exactly when the log ends with a start.
   */
  ghost predicate Alternates(log: seq<Action>)
  {
    && (forall i :: 0 <= i < |log| ==> (log[i].StartInteraction? <==> i % 2 == 0))
    && (forall i :: 0 < i < |log| && log[i].FinishInflight? ==> log[i].finished == log[i - 1].started)
  }

  ghost predicate Tracks(s: State, log: seq<Action>)
  {
    && Alternates(log)
    && (s.inflight.Some? <==> |log| % 2 == 1)
    && (s.inflight.Some? ==> log[|log| - 1] == StartInteraction(s.inflight.value))
  }

  lemma {:induction false} InteractionsNeverOverlap(s: State, o: Options, triggers: seq<Trigger>)
    requires s.inflight.None?
    ensures Tracks(Run(s, o, triggers).state, Run(s, o, triggers).actions)
  {
    RunTracks(s, o, triggers, []);
    assert [] + Run(s, o, triggers).actions == Run(s, o, triggers).actions;
  }

  lemma {:induction false} RunTracks(s: State, o: Options, triggers: seq<Trigger>, log: seq<Action>)
    requires Tracks(s, log)
    ensures var r := Run(s, o, triggers); Tracks(r.state, log + r.actions)
    decreases |triggers|
  {
    if |triggers| > 0 {
      var next := React(s, o, triggers[0]);
      ReactTracks(s, o, triggers[0], log);
      var rest := Run(next.state, o, triggers[1..]);
      RunTracks(next.state, o, triggers[1..], log + next.actions);
      assert log + next.actions + rest.actions == log + (next.actions + rest.actions);
    }
  }

  lemma ReactTracks(s: State, o: Options, t: Trigger, log: seq<Action>)
    requires Tracks(s, log)
    ensures var next := React(s, o, t); Tracks(next.state, log + next.actions)
  {
    match t
    case Navigate(page, context) =>
      assert log + [] == log;
    case Click(random) =>
      var r := React(s, o, t);
      if !RegistersListener(o.experiments) || random > o.experiments.interactionSampleRate.value {
        assert log + [] == log;
      } else {
        var l := log + r.actions;
        forall i | 0 <= i < |l| ensures l[i].StartInteraction? <==> i % 2 == 0 {
          if i >= |log| {
            assert l[i] == r.actions[i - |log|];
          }
        }
      }
  }

  // ---------------------------------------------------------------------
  // Registering the click listener

  /**
   * `setupOnce`'s test `_experiments?.interactionSampleRate ?? 0 > 0` as
   * written: `>` binds tighter than `??`, so it reads
   * `rate ?? (0 > 0)` and registers for any non-zero rate.
   */
  function RegistersListenerAsWritten(e: Experiments): bool
  {
    match e.interactionSampleRate
    case None => false
    case Some(rate) => rate != 0.0
  }

  /** The evidently intended test `(rate ?? 0) > 0`. */
  function RegistersListener(e: Experiments): (b: bool)
    ensures b <==> e.interactionSampleRate.Some? && e.interactionSampleRate.value > 0.0
  {
    e.interactionSampleRate.GetOr(0.0) > 0.0
  }

  /** The two readings differ exactly on a negative rate, for instance -1. */
  lemma ListenerTestDiffers(e: Experiments)
    ensures RegistersListenerAsWritten(e) != RegistersListener(e) <==>
      e.interactionSampleRate.Some? && e.interactionSampleRate.value < 0.0
    ensures RegistersListenerAsWritten(Experiments(None, Some(-1.0))) && !RegistersListener(Experiments(None, Some(-1.0)))
  {
  }

  /**
   * With the corrected test the listener exists only when a click can
   * start something; under a negative rate, as written, the listener is
   * registered but no `Math.random()` draw passes it.
   */
  lemma NegativeRateIgnoresClicks(s: State, o: Options, rate: real, random: real)
    requires 0.0 <= random < 1.0 && rate < 0.0
    ensures OnClick(s, o, rate, random) == ClickResult(s, [])
    ensures !RegistersListener(Experiments(None, Some(rate)))
  {
  }
}
