/**
 The tracing layer: the sampling decision of a trace is made once, at its root span, and
 inherited down the span forest; it decides what is encoded and handed to the exporter.
 */
module SpanLayer {
  import opened Bytes
  import opened OtlpCommon
  import opened Sampling
  import T = OtlpTrace
  import L = OtlpLog

  const NO_TRACE: T.TraceId := [0, 0, 0, 0, 0, 0, 0, 0, 0, 0, 0, 0, 0, 0, 0, 0]
  const NO_SPAN: T.SpanId := [0, 0, 0, 0, 0, 0, 0, 0]

  // --- Spans and what happens to them ---

  datatype Level = Trace | Debug | Info | Warn | Error {
    function Severity(): L.Severity {
      match this
      case Trace => L.Trace
      case Debug => L.Debug
      case Info => L.Info
      case Warn => L.Warn
      case Error => L.Err
    }

    /** The upper-case name in ASCII. */
    function Text(): seq<byte> {
      match this
      case Trace => [84, 82, 65, 67, 69]
      case Debug => [68, 69, 66, 85, 71]
      case Info => [73, 78, 70, 79]
      case Warn => [87, 65, 82, 78]
      case Error => [69, 82, 82, 79, 82]
    }
  }

  datatype Config = Config(
    resource: seq<KeyValue>, scope: seq<byte>, version: seq<byte>,
    exportTraces: bool, exportLogs: bool, rate: real, ratio: u64 -> real)

  /** What the layer stores with a span it was told about. */
  datatype Ext = Ext(start: u64, attrs: seq<KeyValue>, traceId: T.TraceId, spanId: T.SpanId, parentSpanId: T.SpanId,
    sampled: bool)

  /** A span of the registry; it is known by its place in the order of creation. */
  datatype Span = Span(name: seq<byte>, ext: Option<Ext>)

  /**
   A callback and what it finds: field values, generated ids and times are inputs. `Unseen` is the
   creation of a span of which the layer is not told.
   */
  datatype Event =
    | NewSpan(parent: Option<nat>, name: seq<byte>, attrs: seq<KeyValue>, traceId: Option<T.TraceId>,
      spanId: T.SpanId, now: u64)
    | Unseen(parent: Option<nat>, name: seq<byte>)
    | Record(span: nat, attrs: seq<KeyValue>)
    | LogEvent(current: Option<nat>, level: Level, message: Option<seq<byte>>, attrs: seq<KeyValue>, now: u64)
    | Close(span: nat, now: u64)

  datatype Sent = TraceSent(span: T.SpanData) | LogSent(log: L.LogData)

  datatype State = State(spans: seq<Span>, sent: seq<Sent>)

  /** A span mentioned by an event exists. */
  predicate Enabled(n: nat, e: Event) {
    match e
    case NewSpan(parent, _, _, _, _, _) => parent.Some? ==> parent.value < n
    case Unseen(parent, _) => parent.Some? ==> parent.value < n
    case Record(span, _) => span < n
    case LogEvent(current, _, _, _, _) => current.Some? ==> current.value < n
    case Close(span, _) => span < n
  }

  function ExtOf(spans: seq<Span>, span: Option<nat>): Option<Ext> {
    if span.Some? && span.value < |spans| then spans[span.value].ext else None
  }

  /** A span inherits the decision of its parent if that has one, and makes its own otherwise. */
  function NewExt(cfg: Config, parent: Option<Ext>, attrs: seq<KeyValue>, traceId: Option<T.TraceId>,
        spanId: T.SpanId, now: u64): Ext {
    var id := if traceId.Some? then traceId.value else NO_TRACE;
    match parent
    case Some(p) => Ext(now, attrs, id, spanId, p.spanId, p.sampled)
    case None => Ext(now, attrs, id, spanId, NO_SPAN, ShouldSample(cfg.ratio, id, cfg.rate))
  }

  function SpanOf(name: seq<byte>, x: Ext, now: u64): T.SpanData {
    T.SpanData(x.traceId, x.spanId, x.parentSpanId, name, T.Internal, x.start, now, x.attrs, None)
  }

  function LogOf(level: Level, message: Option<seq<byte>>, attrs: seq<KeyValue>, now: u64, traceId: T.TraceId,
        spanId: T.SpanId): L.LogData {
    L.LogData(now, level.Severity(), level.Text(), StringValue(if message.Some? then message.value else []), attrs,
      traceId, spanId)
  }

  function SpansAfter(cfg: Config, spans: seq<Span>, e: Event): seq<Span> {
    match e
    case NewSpan(parent, name, attrs, traceId, spanId, now) =>
      spans + [Span(name, Some(NewExt(cfg, ExtOf(spans, parent), attrs, traceId, spanId, now)))]
    case Unseen(_, name) => spans + [Span(name, None)]
    case Record(span, attrs) =>
      if ExtOf(spans, Some(span)).Some? then
        var x := spans[span].ext.value;
        spans[span := spans[span].(ext := Some(x.(attrs := x.attrs + attrs)))]
      else spans
    case LogEvent(_, _, _, _, _) => spans
    case Close(_, _) => spans
  }

  /** What a callback hands to the exporter, by the stored flags. */
  function SentBy(cfg: Config, spans: seq<Span>, e: Event): seq<Sent> {
    match e
    case LogEvent(current, level, message, attrs, now) =>
      if !cfg.exportLogs then []
      else (
        match ExtOf(spans, current)
        case Some(x) => if x.sampled then [LogSent(LogOf(level, message, attrs, now, x.traceId, x.spanId))] else []
        case None => [LogSent(LogOf(level, message, attrs, now, NO_TRACE, NO_SPAN))])
    case Close(span, now) =>
      if !cfg.exportTraces then []
      else (
        match ExtOf(spans, Some(span))
        case Some(x) => if x.sampled then [TraceSent(SpanOf(spans[span].name, x, now))] else []
        case None => [])
    case _ => []
  }

  function Run(cfg: Config, es: seq<Event>): Option<State> {
    if es == [] then Some(State([], []))
    else
      var s :- Run(cfg, es[..|es| - 1]);
      var e := es[|es| - 1];
      if Enabled(|s.spans|, e) then Some(State(SpansAfter(cfg, s.spans, e), s.sent + SentBy(cfg, s.spans, e))) else None
  }

  // --- The reference: what the events alone say ---

  /** The creations, in order: the span with number `i` was created by `Born(es)[i]`. */
  function Born(es: seq<Event>): (r: seq<Event>)
    ensures forall e | e in r :: e.NewSpan? || e.Unseen?
  {
    if es == [] then []
    else Born(es[..|es| - 1]) + if es[|es| - 1].NewSpan? || es[|es| - 1].Unseen? then [es[|es| - 1]] else []
  }

  /** All fields recorded later for span `i`. */
  function Recorded(es: seq<Event>, i: nat): seq<KeyValue> {
    if es == [] then []
    else Recorded(es[..|es| - 1], i) + if es[|es| - 1].Record? && es[|es| - 1].span == i then es[|es| - 1].attrs else []
  }

  /** The layer was told about the span. */
  predicate Tracked(born: seq<Event>, span: Option<nat>) {
    span.Some? && span.value < |born| && born[span.value].NewSpan?
  }

  /** Up the tracked ancestors to the one that has no tracked parent. */
  function Root(born: seq<Event>, i: nat): (r: nat)
    requires Tracked(born, Some(i))
    ensures r <= i && Tracked(born, Some(r))
  {
    if Tracked(born, born[i].parent) && born[i].parent.value < i then Root(born, born[i].parent.value) else i
  }

  function TraceIdOf(born: seq<Event>, i: nat): T.TraceId
    requires Tracked(born, Some(i))
  {
    if born[i].traceId.Some? then born[i].traceId.value else NO_TRACE
  }

  /** The decision of the root's trace id. */
  predicate Decided(cfg: Config, born: seq<Event>, i: nat)
    requires Tracked(born, Some(i))
  {
    ShouldSample(cfg.ratio, TraceIdOf(born, Root(born, i)), cfg.rate)
  }

  /** What span `i` should store after a run. */
  function Described(cfg: Config, born: seq<Event>, recorded: seq<KeyValue>, i: nat): Span
    requires i < |born|
  {
    var b := born[i];
    match b
    case NewSpan(parent, name, attrs, traceId, spanId, now) =>
      var up := if Tracked(born, parent) then born[parent.value].spanId else NO_SPAN;
      Span(name, Some(Ext(now, attrs + recorded, TraceIdOf(born, i), spanId, up, Decided(cfg, born, i))))
    case Unseen(_, name) => Span(name, None)
    case _ => Span([], None)
  }

  predicate IsAscii(text: string) {
    forall i | 0 <= i < |text| :: text[i] as int < 128
  }

  /** The characters of an ASCII text. */
  function Ascii(text: string): (r: seq<byte>)
    requires IsAscii(text)
    ensures |r| == |text| && forall i | 0 <= i < |r| :: r[i] == text[i] as int
  {
    if text == "" then [] else [text[0] as int] + Ascii(text[1..])
  }

  /** OpenTelemetry's number for a level. */
  function SeverityNumber(level: Level): (n: u64)
    ensures L.ReadSeverity(n).Some?
  {
    match level
    case Trace => 1
    case Debug => 5
    case Info => 9
    case Warn => 13
    case Error => 17
  }

  function LevelName(level: Level): (r: string)
    ensures IsAscii(r)
  {
    match level
    case Trace => "TRACE"
    case Debug => "DEBUG"
    case Info => "INFO"
    case Warn => "WARN"
    case Error => "ERROR"
  }

  /** The log record an event asks for, in the span with the given ids. */
  function ExpectedLog(e: Event, traceId: T.TraceId, spanId: T.SpanId): L.LogData
    requires e.LogEvent?
  {
    L.LogData(
      time := e.now,
      severity := L.ReadSeverity(SeverityNumber(e.level)).value,
      severityText := Ascii(LevelName(e.level)),
      body := StringValue(if e.message == None then [] else e.message.value),
      attributes := e.attrs,
      traceId := traceId,
      spanId := spanId)
  }

  /** The record the closing of span `i` asks for, by its creation, its parent's, and what was recorded since. */
  function ExpectedSpan(born: seq<Event>, recorded: seq<KeyValue>, i: nat, now: u64): T.SpanData
    requires Tracked(born, Some(i))
  {
    var b := born[i];
    T.SpanData(
      traceId := if b.traceId == None then NO_TRACE else b.traceId.value,
      spanId := b.spanId,
      parentSpanId := if Tracked(born, b.parent) then born[b.parent.value].spanId else NO_SPAN,
      name := b.name,
      kind := T.Internal,
      startTime := b.now,
      endTime := now,
      attributes := b.attrs + recorded,
      status := None)
  }

  /** What the last event should hand to the exporter, given the events before it. */
  function ExpectedBy(cfg: Config, es: seq<Event>, e: Event): seq<Sent> {
    var born := Born(es);
    match e
    case LogEvent(current, _, _, _, _) =>
      if !cfg.exportLogs then []
      else if !Tracked(born, current) then [LogSent(ExpectedLog(e, NO_TRACE, NO_SPAN))]
      else if Decided(cfg, born, current.value) then
        [LogSent(ExpectedLog(e, TraceIdOf(born, current.value), born[current.value].spanId))]
      else []
    case Close(span, now) =>
      if cfg.exportTraces && Tracked(born, Some(span)) && Decided(cfg, born, span) then
        [TraceSent(ExpectedSpan(born, Recorded(es, span), span, now))]
      else []
    case _ => []
  }

  function Expected(cfg: Config, es: seq<Event>): seq<Sent> {
    if es == [] then [] else Expected(cfg, es[..|es| - 1]) + ExpectedBy(cfg, es[..|es| - 1], es[|es| - 1])
  }

  // --- The layer meets the reference ---

  /** Parents are created before their children. */
  ghost predicate Ordered(born: seq<Event>) {
    forall i | 0 <= i < |born| && born[i].NewSpan? :: born[i].parent.Some? ==> born[i].parent.value < i
  }

  lemma {:induction false} RootAppend(born: seq<Event>, e: Event, i: nat)
    requires Ordered(born) && Tracked(born, Some(i))
    ensures Root(born + [e], i) == Root(born, i)
  {
    if Tracked(born, born[i].parent) {
      RootAppend(born, e, born[i].parent.value);
    }
  }

  /** `spans` is exactly what the events describe. */
  ghost predicate Meets(cfg: Config, es: seq<Event>, spans: seq<Span>) {
    && Ordered(Born(es)) && |spans| == |Born(es)|
    && (forall i | 0 <= i < |spans| :: spans[i] == Described(cfg, Born(es), Recorded(es, i), i))
    && (forall i: nat | |spans| <= i :: Recorded(es, i) == [])
  }

  lemma DescribedAppend(cfg: Config, born: seq<Event>, e: Event, recorded: seq<KeyValue>, i: nat)
    requires Ordered(born) && i < |born|
    ensures Described(cfg, born + [e], recorded, i) == Described(cfg, born, recorded, i)
  {
    if born[i].NewSpan? {
      RootAppend(born, e, i);
    }
  }

  lemma HistorySnoc(es: seq<Event>, e: Event)
    ensures Born(es + [e]) == if e.NewSpan? || e.Unseen? then Born(es) + [e] else Born(es)
    ensures forall i: nat ::
      Recorded(es + [e], i) == if e.Record? && e.span == i then Recorded(es, i) + e.attrs else Recorded(es, i)
  {
    assert (es + [e])[..|es|] == es;
  }

  lemma CreationMeets(cfg: Config, es: seq<Event>, spans: seq<Span>, e: Event)
    requires Meets(cfg, es, spans) && (e.NewSpan? || e.Unseen?) && Enabled(|spans|, e)
    ensures Meets(cfg, es + [e], SpansAfter(cfg, spans, e))
  {
    hide Born, Recorded, Described;
    var es', born, spans' := es + [e], Born(es), SpansAfter(cfg, spans, e);
    HistorySnoc(es, e);
    forall i | 0 <= i < |spans'| ensures spans'[i] == Described(cfg, born + [e], Recorded(es', i), i) {
      if i < |spans| {
        DescribedAppend(cfg, born, e, Recorded(es, i), i);
      } else {
        NewSpanMeets(cfg, es, spans, e);
      }
    }
  }

  lemma NewSpanMeets(cfg: Config, es: seq<Event>, spans: seq<Span>, e: Event)
    requires Meets(cfg, es, spans) && (e.NewSpan? || e.Unseen?) && Enabled(|spans|, e)
    ensures SpansAfter(cfg, spans, e)[|spans|] == Described(cfg, Born(es) + [e], [], |spans|)
  {
    var born, n := Born(es), |spans|;
    assert (born + [e])[n] == e;
    if e.Unseen? {
      return;
    }
    assert e.attrs + [] == e.attrs;
    if Tracked(born, e.parent) {
      var p := e.parent.value;
      RootAppend(born, e, p);
      assert spans[p] == Described(cfg, born, Recorded(es, p), p);
      assert Root(born + [e], n) == Root(born + [e], p);
    } else {
      assert !Tracked(born + [e], e.parent);
      assert Root(born + [e], n) == n;
    }
  }

  lemma RecordMeets(cfg: Config, born: seq<Event>, recorded: seq<KeyValue>, attrs: seq<KeyValue>, i: nat)
    requires i < |born|
    ensures var s := Described(cfg, born, recorded, i);
      Described(cfg, born, recorded + attrs, i)
      == if s.ext.Some? then s.(ext := Some(s.ext.value.(attrs := s.ext.value.attrs + attrs))) else s
  {
    hide Root, Decided;
    if born[i].NewSpan? {
      Assoc3(born[i].attrs, recorded, attrs);
    }
  }

  lemma OtherMeets(cfg: Config, es: seq<Event>, spans: seq<Span>, e: Event)
    requires Meets(cfg, es, spans) && !e.NewSpan? && !e.Unseen? && Enabled(|spans|, e)
    ensures Meets(cfg, es + [e], SpansAfter(cfg, spans, e))
  {
    hide Root, Decided, Ordered, Described, Born, Recorded;
    var es', spans' := es + [e], SpansAfter(cfg, spans, e);
    HistorySnoc(es, e);
    forall i | 0 <= i < |spans'| ensures spans'[i] == Described(cfg, Born(es'), Recorded(es', i), i) {
      assert spans[i] == Described(cfg, Born(es), Recorded(es, i), i);
      if e.Record? && e.span == i {
        RecordMeets(cfg, Born(es), Recorded(es, i), e.attrs, i);
      }
    }
  }

  lemma SentMeets(cfg: Config, es: seq<Event>, spans: seq<Span>, e: Event)
    requires Meets(cfg, es, spans) && Enabled(|spans|, e)
    ensures SentBy(cfg, spans, e) == ExpectedBy(cfg, es, e)
  {
    hide Root, Decided, Ordered, LogOf, ExpectedLog;
    if e.LogEvent? {
      LogMeets(e, NO_TRACE, NO_SPAN);
      if Tracked(Born(es), e.current) {
        LogMeets(e, TraceIdOf(Born(es), e.current.value), Born(es)[e.current.value].spanId);
      }
    }
  }

  lemma LogMeets(e: Event, traceId: T.TraceId, spanId: T.SpanId)
    requires e.LogEvent?
    ensures LogOf(e.level, e.message, e.attrs, e.now, traceId, spanId) == ExpectedLog(e, traceId, spanId)
  {
    assert e.level.Text() == Ascii(LevelName(e.level)) by {
      match e.level
      case Trace =>
      case Debug =>
      case Info =>
      case Warn =>
      case Error =>
    }
  }

  /**
   In every run each span stores what the events say, the flag being the decision of its root, and
   exactly the expected messages are sent: a closed span, or an event inside a
   span, if its root is sampled, and an event outside of spans always.
   */
  lemma {:induction false} RunsMeetReference(cfg: Config, es: seq<Event>)
    requires Run(cfg, es).Some?
    ensures Meets(cfg, es, Run(cfg, es).value.spans)
    ensures Run(cfg, es).value.sent == Expected(cfg, es)
  {
    hide Meets, Enabled, SpansAfter, SentBy, ExpectedBy;
    if es == [] {
      NothingMeets(cfg);
    } else {
      var front, e := es[..|es| - 1], es[|es| - 1];
      assert es == front + [e];
      RunsMeetReference(cfg, front);
      var spans := Run(cfg, front).value.spans;
      if e.NewSpan? || e.Unseen? {
        CreationMeets(cfg, front, spans, e);
      } else {
        OtherMeets(cfg, front, spans, e);
      }
      SentMeets(cfg, front, spans, e);
    }
  }

  /** What the last callback of a run sent. */
  lemma LastSent(cfg: Config, es: seq<Event>, e: Event)
    requires Run(cfg, es).Some? && Enabled(|Born(es)|, e)
    ensures Run(cfg, es + [e]).Some?
    ensures Run(cfg, es + [e]).value.sent == Run(cfg, es).value.sent + ExpectedBy(cfg, es, e)
  {
    RunsMeetReference(cfg, es);
    hide ExpectedBy, SentBy;
    assert (es + [e])[..|es|] == es;
    SentMeets(cfg, es, Run(cfg, es).value.spans, e);
  }

  /**
   Closing span `i` sends one record if traces are exported, the layer was told of the span and its root is sampled,
   and nothing otherwise. Each field of the record comes from the events.
   */
  lemma ClosedSpanIs(cfg: Config, es: seq<Event>, i: nat, now: u64)
    requires Run(cfg, es).Some? && i < |Born(es)|
    ensures var born, run := Born(es), Run(cfg, es + [Close(i, now)]);
      && run.Some? && Run(cfg, es).value.sent <= run.value.sent
      && var b, more := born[i], run.value.sent[|Run(cfg, es).value.sent|..];
         if cfg.exportTraces && b.NewSpan? && Decided(cfg, born, i) then
           && |more| == 1 && more[0].TraceSent?
           && var x := more[0].span;
              && x.traceId == TraceIdOf(born, i) && x.spanId == b.spanId && x.name == b.name
              && x.parentSpanId == (if Tracked(born, b.parent) then born[b.parent.value].spanId else NO_SPAN)
              && x.startTime == b.now && x.endTime == now && x.kind.Code() == 1
              && x.attributes == b.attrs + Recorded(es, i) && x.status == None
         else more == []
  {
    hide Run, Born, Recorded, Decided, Enabled;
    CloseEnabled(es, i, now);
    LastSent(cfg, es, Close(i, now));
  }

  lemma CloseEnabled(es: seq<Event>, i: nat, now: u64)
    requires i < |Born(es)|
    ensures Enabled(|Born(es)|, Close(i, now))
  {
  }

  /**
   An event sends one record if logs are exported and it is outside of spans or its root is sampled, and nothing
   otherwise. Each field of the record comes from the events.
   */
  lemma LogRecordIs(cfg: Config, es: seq<Event>, e: Event)
    requires Run(cfg, es).Some? && e.LogEvent? && Enabled(|Born(es)|, e)
    ensures var born, run := Born(es), Run(cfg, es + [e]);
      && run.Some? && Run(cfg, es).value.sent <= run.value.sent
      && var inside, more := Tracked(born, e.current), run.value.sent[|Run(cfg, es).value.sent|..];
         if cfg.exportLogs && (inside ==> Decided(cfg, born, e.current.value)) then
           && |more| == 1 && more[0].LogSent?
           && var x := more[0].log;
              && x.time == e.now && x.severity.Code() == SeverityNumber(e.level)
              && x.severityText == Ascii(LevelName(e.level)) && x.attributes == e.attrs
              && x.body == StringValue(if e.message.Some? then e.message.value else [])
              && x.traceId == (if inside then TraceIdOf(born, e.current.value) else NO_TRACE)
              && x.spanId == (if inside then born[e.current.value].spanId else NO_SPAN)
         else more == []
  {
    hide Run, Born, Recorded, Decided, Enabled, Ascii;
    LastSent(cfg, es, e);
    SeverityReads(e.level);
  }

  lemma SeverityReads(level: Level)
    ensures L.ReadSeverity(SeverityNumber(level)).value.Code() == SeverityNumber(level)
  {
  }

  lemma NothingMeets(cfg: Config)
    ensures Meets(cfg, [], [])
  {
  }

  /** A trace is sampled as a whole: spans below one root share its decision. */
  lemma TracesAreWhole(cfg: Config, es: seq<Event>, i: nat, j: nat)
    requires Run(cfg, es).Some? && Tracked(Born(es), Some(i)) && Tracked(Born(es), Some(j))
    requires Root(Born(es), i) == Root(Born(es), j)
    ensures var spans := Run(cfg, es).value.spans;
      && i < |spans| && j < |spans| && spans[i].ext.Some? && spans[j].ext.Some?
      && spans[i].ext.value.sampled == spans[j].ext.value.sampled
  {
    RunsMeetReference(cfg, es);
  }

  /** The flag of span `i` after a run. */
  predicate Sampled(cfg: Config, es: seq<Event>, i: nat)
    requires Run(cfg, es).Some? && i < |Run(cfg, es).value.spans| && Run(cfg, es).value.spans[i].ext.Some?
  {
    Run(cfg, es).value.spans[i].ext.value.sampled
  }

  /**
   A span is not always decided by its own trace id: that is so at every rate if and only if the id
   has the same place as the id of its root.
   */
  lemma OwnIdDecidesIff(cfg: Config, es: seq<Event>, i: nat)
    requires Run(cfg, es).Some? && Tracked(Born(es), Some(i))
    requires forall h: u64 :: 0.0 <= cfg.ratio(h) <= 1.0
    ensures forall rate ::
      (Run(cfg.(rate := rate), es).Some?
       && i < |Run(cfg.(rate := rate), es).value.spans| && Run(cfg.(rate := rate), es).value.spans[i].ext.Some?)
    ensures var own, root := TraceIdOf(Born(es), i), TraceIdOf(Born(es), Root(Born(es), i));
      (forall rate :: Sampled(cfg.(rate := rate), es, i) == ShouldSample(cfg.ratio, own, rate))
      <==> cfg.ratio(FromLe64(own[..8])) == cfg.ratio(FromLe64(root[..8]))
  {
    var own, root := TraceIdOf(Born(es), i), TraceIdOf(Born(es), Root(Born(es), i));
    forall rate
      ensures Run(cfg.(rate := rate), es).Some?
      ensures i < |Run(cfg.(rate := rate), es).value.spans| && Run(cfg.(rate := rate), es).value.spans[i].ext.Some?
      ensures Sampled(cfg.(rate := rate), es, i) == ShouldSample(cfg.ratio, root, rate)
    {
      RunsAtAnyRate(cfg, cfg.(rate := rate), es);
      RunsMeetReference(cfg.(rate := rate), es);
    }
    SameDecisionIff(cfg.ratio, own, root);
  }

  lemma RootAndChild(cfg: Config, root: Event, child: Event)
    requires root.NewSpan? && root.parent == None && root.traceId == None
    requires child.NewSpan? && child.parent == Some(0) && child.traceId.Some?
    ensures Run(cfg, [root, child]).Some?
    ensures var spans := Run(cfg, [root, child]).value.spans;
      && |spans| == 2 && spans[1].ext.Some? && spans[1].ext.value.traceId == child.traceId.value
      && spans[1].ext.value.sampled == ShouldSample(cfg.ratio, NO_TRACE, cfg.rate)
  {
    hide ShouldSample, SentBy;
    var es := [root, child];
    assert es[..1] == [root] && [root][..0] == [];
    assert Run(cfg, []) == Some(State([], []));
    assert Run(cfg, [root]) == Some(State(SpansAfter(cfg, [], root), [] + SentBy(cfg, [], root)));
  }

  lemma NoTraceHash()
    ensures FromLe64(NO_TRACE[..8]) == 0
  {
    Zeros(NO_TRACE[..8]);
  }

  /**
   An instance, for any ratio that tells the child's id from the root's: at the rate where the child's own id
   is just sampled out, the child is kept because its root is.
   */
  lemma OwnIdMayDisagree(ratio: u64 -> real, id: T.TraceId) returns (cfg: Config, es: seq<Event>)
    requires 0.0 == ratio(0) < ratio(FromLe64(id[..8])) < 1.0
    ensures cfg.ratio == ratio && 0.0 < cfg.rate < 1.0
    ensures Run(cfg, es).Some? && |Run(cfg, es).value.spans| == 2 && Run(cfg, es).value.spans[1].ext.Some?
    ensures var x := Run(cfg, es).value.spans[1].ext.value;
      x.traceId == id && x.sampled && !ShouldSample(ratio, id, cfg.rate)
  {
    hide Run, FromLe64;
    cfg := Config([], [], [], true, true, ratio(FromLe64(id[..8])), ratio);
    var root, child := NewSpan(None, [], [], None, NO_SPAN, 0), NewSpan(Some(0), [], [], Some(id), NO_SPAN, 0);
    es := [root, child];
    NoTraceHash();
    RootAndChild(cfg, root, child);
  }

  lemma {:induction false} Zeros(s: seq<byte>)
    requires forall i | 0 <= i < |s| :: s[i] == 0
    ensures FromLe(s) == 0
  {
    if s == [] {
    } else {
      Zeros(s[1..]);
    }
  }

  // --- Two rates ---

  predicate Subsequence<A(==)>(a: seq<A>, b: seq<A>)
    decreases |b|
  {
    a == []
    || (b != []
        && ((a[|a| - 1] == b[|b| - 1] && Subsequence(a[..|a| - 1], b[..|b| - 1])) || Subsequence(a, b[..|b| - 1])))
  }

  lemma {:induction false} RunsAtAnyRate(low: Config, high: Config, es: seq<Event>)
    requires Run(low, es).Some?
    ensures Run(high, es).Some? && |Run(high, es).value.spans| == |Run(low, es).value.spans|
  {
    if es == [] {
    } else {
      RunsAtAnyRate(low, high, es[..|es| - 1]);
    }
  }

  /** A callback sends the same at a higher rate, if it sends anything. */
  lemma SentAtHigherRate(low: Config, high: Config, es: seq<Event>, e: Event)
    requires high == low.(rate := high.rate) && low.rate <= high.rate
    ensures ExpectedBy(low, es, e) == [] || ExpectedBy(low, es, e) == ExpectedBy(high, es, e)
  {
    hide Root;
    var born := Born(es);
    var i := match e case LogEvent(current, _, _, _, _) => current case Close(span, _) => Some(span) case _ => None;
    if Tracked(born, i) && Decided(low, born, i.value) {
      DecisionIsMonotone(low.ratio, TraceIdOf(born, Root(born, i.value)), low.rate, high.rate);
    }
  }

  lemma {:induction false} SubsequenceAppend<A(!new)>(a: seq<A>, b: seq<A>, x: seq<A>, y: seq<A>)
    requires Subsequence(a, b) && |y| <= 1 && (x == [] || x == y)
    ensures Subsequence(a + x, b + y)
  {
    if y == [] {
      assert a + x == a && b + y == b;
    } else {
      assert (b + y)[..|b + y| - 1] == b;
      if x == [] {
        assert a + x == a;
      } else {
        assert (a + x)[..|a + x| - 1] == a;
      }
    }
  }

  /** On the same callbacks, a lower rate sends a subsequence of what a higher rate sends. */
  lemma {:induction false} HigherRateSendsMore(low: Config, high: Config, es: seq<Event>)
    requires high == low.(rate := high.rate) && low.rate <= high.rate && Run(low, es).Some?
    ensures Run(high, es).Some? && Subsequence(Run(low, es).value.sent, Run(high, es).value.sent)
  {
    RunsAtAnyRate(low, high, es);
    RunsMeetReference(low, es);
    RunsMeetReference(high, es);
    ExpectedAtHigherRate(low, high, es);
  }

  lemma {:induction false} ExpectedAtHigherRate(low: Config, high: Config, es: seq<Event>)
    requires high == low.(rate := high.rate) && low.rate <= high.rate
    ensures Subsequence(Expected(low, es), Expected(high, es))
  {
    hide ExpectedBy, Subsequence;
    if es == [] {
      NothingIsSubsequence(Expected(high, es));
    } else {
      var front, e := es[..|es| - 1], es[|es| - 1];
      ExpectedAtHigherRate(low, high, front);
      SentAtHigherRate(low, high, front, e);
      AtMostOneSent(high, front, e);
      SubsequenceAppend(Expected(low, front), Expected(high, front), ExpectedBy(low, front, e),
        ExpectedBy(high, front, e));
    }
  }

  lemma NothingIsSubsequence<A(!new)>(s: seq<A>)
    ensures Subsequence([], s)
  {
  }

  lemma AtMostOneSent(cfg: Config, es: seq<Event>, e: Event)
    ensures |ExpectedBy(cfg, es, e)| <= 1
  {
    hide Root, Decided;
  }
}
