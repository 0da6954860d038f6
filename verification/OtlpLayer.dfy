/**
 The tracing layer in place: callbacks that update span data and hand encoded requests to
 the exporter, and what a collector finally decodes of the spans that were closed.
 */
module OtlpLayer {
  import opened Bytes
  import opened Wire
  import opened OtlpCommon
  import opened EndToEnd
  import opened Sampling
  import opened SpanLayer
  import E = Exporter
  import X = ExporterProperties

  // --- Messages ---

  function RequestOf<A>(cfg: Config, item: A): Request<A> {
    Request(cfg.resource, cfg.scope, cfg.version, [item])
  }

  /** Each span and each log record is a request of its own. */
  function Encode(cfg: Config, m: Sent): E.Msg {
    match m
    case TraceSent(span) => E.Data(E.Traces, Encoded(RequestOf(cfg, span), T.SpanFields))
    case LogSent(log) => E.Data(E.Logs, Encoded(RequestOf(cfg, log), L.LogFields))
  }

  function EncodeAll(cfg: Config, ms: seq<Sent>): seq<E.Msg> {
    if ms == [] then [] else EncodeAll(cfg, ms[..|ms| - 1]) + [Encode(cfg, ms[|ms| - 1])]
  }

  lemma EncodeAllSnoc(cfg: Config, ms: seq<Sent>, m: Sent)
    ensures EncodeAll(cfg, ms + [m]) == EncodeAll(cfg, ms) + [Encode(cfg, m)]
  {
    assert (ms + [m])[..|ms|] == ms;
  }

  /** The resource entry of a request fits five length bytes. */
  predicate Fits<A>(cfg: Config, item: A, f: A -> seq<Field>) {
    |Emit(EnvelopeFields(cfg.resource, cfg.scope, cfg.version, [item], f))| < TWO_35
  }

  // --- The callbacks ---

  class OtlpLayer {
    const cfg: Config
    var spans: seq<Span>
    var sent: seq<E.Msg>
    ghost var history: seq<Event>

    /** The layer is where a run of the callbacks leads, and has sent the encodings. */
    ghost predicate Valid()
      reads this
    {
      && Run(cfg, history).Some?
      && spans == Run(cfg, history).value.spans
      && sent == EncodeAll(cfg, Run(cfg, history).value.sent)
    }

    constructor (cfg: Config)
      ensures Valid() && this.cfg == cfg && history == []
    {
      this.cfg := cfg;
      spans, sent, history := [], [], [];
    }

    /** The registry creates a span of which this layer is not told. */
    method AddUnseen(parent: Option<nat>, name: seq<byte>)
      requires Valid() && (parent.Some? ==> parent.value < |spans|)
      modifies this
      ensures Valid() && history == old(history) + [Unseen(parent, name)]
    {
      hide EncodeAll, Run;
      RunSnoc(cfg, history, Unseen(parent, name));
      history := history + [Unseen(parent, name)];
      spans := spans + [Span(name, None)];
    }

    method OnNewSpan(parent: Option<nat>, name: seq<byte>, attrs: seq<KeyValue>, traceId: Option<T.TraceId>,
          spanId: T.SpanId, now: u64)
      requires Valid() && (parent.Some? ==> parent.value < |spans|)
      modifies this
      ensures Valid() && history == old(history) + [NewSpan(parent, name, attrs, traceId, spanId, now)]
    {
      hide EncodeAll, Run, ShouldSample;
      RunSnoc(cfg, history, NewSpan(parent, name, attrs, traceId, spanId, now));
      history := history + [NewSpan(parent, name, attrs, traceId, spanId, now)];
      var id := NO_TRACE;
      if traceId.Some? {
        id := traceId.value;
      }
      var up, sampled := NO_SPAN, false;
      var fields := ExtOf(spans, parent);
      if fields.Some? {
        up, sampled := fields.value.spanId, fields.value.sampled;
      } else {
        sampled := ShouldSample(cfg.ratio, id, cfg.rate);
      }
      spans := spans + [Span(name, Some(Ext(now, attrs, id, spanId, up, sampled)))];
    }

    method OnRecord(span: nat, attrs: seq<KeyValue>)
      requires Valid() && span < |spans|
      modifies this
      ensures Valid() && history == old(history) + [Record(span, attrs)]
    {
      hide EncodeAll, Run;
      RunSnoc(cfg, history, Record(span, attrs));
      history := history + [Record(span, attrs)];
      if spans[span].ext.Some? {
        var x := spans[span].ext.value;
        x := x.(attrs := x.attrs + attrs);
        spans := spans[span := spans[span].(ext := Some(x))];
      }
    }

    method OnEvent(current: Option<nat>, level: Level, message: Option<seq<byte>>, attrs: seq<KeyValue>, now: u64)
      requires Valid() && (current.Some? ==> current.value < |spans|)
      requires var x := ExtOf(spans, current);
        Fits(cfg, LogOf(level, message, attrs, now,
          if x.Some? then x.value.traceId else NO_TRACE, if x.Some? then x.value.spanId else NO_SPAN), L.LogFields)
      modifies this
      ensures Valid() && history == old(history) + [LogEvent(current, level, message, attrs, now)]
      ensures spans == old(spans)
    {
      hide EncodeAll, Run, LogOf;
      RunSnoc(cfg, history, LogEvent(current, level, message, attrs, now));
      ghost var before := Run(cfg, history).value.sent;
      history := history + [LogEvent(current, level, message, attrs, now)];
      if !cfg.exportLogs {
        return;
      }
      var id, spanId, sampled := NO_TRACE, NO_SPAN, true;
      var fields := ExtOf(spans, current);
      if fields.Some? {
        id, spanId, sampled := fields.value.traceId, fields.value.spanId, fields.value.sampled;
      }
      if !sampled {
        return;
      }
      var log := LogOf(level, message, attrs, now, id, spanId);
      var data := L.EncodeExportLogsRequest(cfg.resource, cfg.scope, cfg.version, [log]);
      EncodeAllSnoc(cfg, before, LogSent(log));
      sent := sent + [E.Data(E.Logs, data)];
    }

    method OnClose(span: nat, now: u64)
      requires Valid() && span < |spans|
      requires spans[span].ext.Some? ==> Fits(cfg, SpanOf(spans[span].name, spans[span].ext.value, now), T.SpanFields)
      modifies this
      ensures Valid() && history == old(history) + [Close(span, now)]
      ensures spans == old(spans)
    {
      hide EncodeAll, Run, SpanOf;
      RunSnoc(cfg, history, Close(span, now));
      ghost var before := Run(cfg, history).value.sent;
      history := history + [Close(span, now)];
      if !cfg.exportTraces || spans[span].ext.None? || !spans[span].ext.value.sampled {
        return;
      }
      var closed := SpanOf(spans[span].name, spans[span].ext.value, now);
      var data := T.EncodeExportTraceRequest(cfg.resource, cfg.scope, cfg.version, [closed]);
      EncodeAllSnoc(cfg, before, TraceSent(closed));
      sent := sent + [E.Data(E.Traces, data)];
    }
  }

  lemma RunSnoc(cfg: Config, es: seq<Event>, e: Event)
    requires Run(cfg, es).Some? && Enabled(|Run(cfg, es).value.spans|, e)
    ensures var s := Run(cfg, es).value;
      Run(cfg, es + [e]) == Some(State(SpansAfter(cfg, s.spans, e), s.sent + SentBy(cfg, s.spans, e)))
      && s.sent + [] == s.sent
  {
    assert (es + [e])[..|es|] == es;
  }

  // --- From the callbacks to the collector ---

  /** The spans among the messages sent. */
  function SpansOf(ms: seq<Sent>): seq<T.SpanData> {
    if ms == [] then []
    else SpansOf(ms[..|ms| - 1]) + if ms[|ms| - 1].TraceSent? then [ms[|ms| - 1].span] else []
  }

  /** The log records among the messages sent. */
  function LogsOf(ms: seq<Sent>): seq<L.LogData> {
    if ms == [] then []
    else LogsOf(ms[..|ms| - 1]) + if ms[|ms| - 1].LogSent? then [ms[|ms| - 1].log] else []
  }

  /** The messages of a signal are the requests of the given items, one each. */
  ghost predicate AreRequests<A>(cfg: Config, ms: seq<seq<byte>>, items: seq<A>, f: A -> seq<Field>) {
    |ms| == |items| && forall i | 0 <= i < |ms| :: ms[i] == Encoded(RequestOf(cfg, items[i]), f)
  }

  lemma {:induction false} MessagesAreRequests(cfg: Config, ms: seq<Sent>)
    ensures AreRequests(cfg, E.DataOf(EncodeAll(cfg, ms), E.Traces), SpansOf(ms), T.SpanFields)
    ensures AreRequests(cfg, E.DataOf(EncodeAll(cfg, ms), E.Logs), LogsOf(ms), L.LogFields)
  {
    hide Encoded, RequestOf;
    if ms == [] {
    } else {
      var n := |ms| - 1;
      MessagesAreRequests(cfg, ms[..n]);
      E.DataSnoc(EncodeAll(cfg, ms[..n]), Encode(cfg, ms[n]), E.Traces);
      E.DataSnoc(EncodeAll(cfg, ms[..n]), Encode(cfg, ms[n]), E.Logs);
    }
  }

  /** What a collector makes of the requests of the given items. */
  function Entries<A, D>(cfg: Config, items: seq<A>, norm: A -> Option<D>): seq<seq<Envelope<D>>> {
    seq(|items|, i requires 0 <= i < |items| => NormRequest(cfg.resource, cfg.scope, cfg.version, [items[i]], norm))
  }

  lemma TracesDecode(cfg: Config, ms: seq<seq<byte>>, spans: seq<T.SpanData>)
    requires AreRequests(cfg, ms, spans, T.SpanFields) && forall x | x in spans :: Fits(cfg, x, T.SpanFields)
    ensures DecodeTo(T.SPAN_SCHEMA, T.ReadSpan, ms, Entries(cfg, spans, T.NormSpan))
  {
    hide DecodeRequest, NormRequest, Emit;
    forall i | 0 <= i < |ms|
      ensures DecodeRequest(T.SPAN_SCHEMA, T.ReadSpan, ms[i]) == Some(Entries(cfg, spans, T.NormSpan)[i])
    {
      assert Fits(cfg, spans[i], T.SpanFields);
      RequestBytes(cfg.resource, cfg.scope, cfg.version, [spans[i]], T.SpanFields);
      T.TraceRoundTrip(cfg.resource, cfg.scope, cfg.version, [spans[i]]);
    }
  }

  lemma LogsDecode(cfg: Config, ms: seq<seq<byte>>, logs: seq<L.LogData>)
    requires AreRequests(cfg, ms, logs, L.LogFields) && forall x | x in logs :: Fits(cfg, x, L.LogFields)
    ensures DecodeTo(L.LOG_SCHEMA, L.ReadLog, ms, Entries(cfg, logs, L.NormLog))
  {
    hide DecodeRequest, NormRequest, Emit;
    forall i | 0 <= i < |ms|
      ensures DecodeRequest(L.LOG_SCHEMA, L.ReadLog, ms[i]) == Some(Entries(cfg, logs, L.NormLog)[i])
    {
      assert Fits(cfg, logs[i], L.LogFields);
      RequestBytes(cfg.resource, cfg.scope, cfg.version, [logs[i]], L.LogFields);
      L.LogsRoundTrip(cfg.resource, cfg.scope, cfg.version, [logs[i]]);
    }
  }

  /**
   From callbacks to the collector, in any state of the exporter to whose trace sends the layer is the only caller:
   closed spans whose root is sampled arrive, in the order of closing. They are those the channel had room
   for, as far as they have left their batch; all others were dropped and counted.
   */
  lemma ClosedSpansArrive(cfg: Config, es: seq<Event>, ecfg: E.Config, ees: seq<E.Event>, s: E.State)
    requires Run(cfg, es).Some? && X.Reachable(ecfg, ees, s) && ecfg.url.Get(E.Traces)
    requires X.Sends(ees, E.Traces) == E.DataOf(EncodeAll(cfg, Run(cfg, es).value.sent), E.Traces)
    requires forall x | x in SpansOf(Expected(cfg, es)) :: Fits(cfg, x, T.SpanFields)
    ensures var entries, keep := Entries(cfg, SpansOf(Expected(cfg, es)), T.NormSpan),
      X.Kept(ecfg, E.INIT, ees, E.Traces);
      && |keep| == |entries|
      && var arrived, n := X.Select(entries, keep), |E.Spawned(s.work.tasks, E.Traces)|;
         && n <= |arrived| == |entries| - s.dropped.Get(E.Traces)
         && Arrives(T.SPAN_SCHEMA, T.ReadSpan, s.work.tasks, E.Traces, arrived[..n])
  {
    hide E.Run, E.DataOf, X.Posted, X.Sends, X.Kept, X.Select, DecodeAll, DecodeTo, AreRequests;
    hide Concat, Arrives, Expected, Run, EncodeAll, SpansOf, LogsOf, Entries, Fits;
    RunsMeetReference(cfg, es);
    MessagesAreRequests(cfg, Expected(cfg, es));
    var spans := SpansOf(Expected(cfg, es));
    TracesDecode(cfg, X.Sends(ees, E.Traces), spans);
    SentEntriesArrive(ecfg, ees, s, E.Traces, T.SPAN_SCHEMA, T.ReadSpan, Entries(cfg, spans, T.NormSpan));
  }

  /**
   The same for events: the log records of events outside of spans and of events inside sampled traces
   arrive, in order, but for those dropped and those not yet spawned.
   */
  lemma LogEventsArrive(cfg: Config, es: seq<Event>, ecfg: E.Config, ees: seq<E.Event>, s: E.State)
    requires Run(cfg, es).Some? && X.Reachable(ecfg, ees, s) && ecfg.url.Get(E.Logs)
    requires X.Sends(ees, E.Logs) == E.DataOf(EncodeAll(cfg, Run(cfg, es).value.sent), E.Logs)
    requires forall x | x in LogsOf(Expected(cfg, es)) :: Fits(cfg, x, L.LogFields)
    ensures var entries, keep := Entries(cfg, LogsOf(Expected(cfg, es)), L.NormLog), X.Kept(ecfg, E.INIT, ees, E.Logs);
      && |keep| == |entries|
      && var arrived, n := X.Select(entries, keep), |E.Spawned(s.work.tasks, E.Logs)|;
         && n <= |arrived| == |entries| - s.dropped.Get(E.Logs)
         && Arrives(L.LOG_SCHEMA, L.ReadLog, s.work.tasks, E.Logs, arrived[..n])
  {
    hide E.Run, E.DataOf, X.Posted, X.Sends, X.Kept, X.Select, DecodeAll, DecodeTo, AreRequests;
    hide Concat, Arrives, Expected, Run, EncodeAll, SpansOf, LogsOf, Entries, Fits;
    RunsMeetReference(cfg, es);
    MessagesAreRequests(cfg, Expected(cfg, es));
    var logs := LogsOf(Expected(cfg, es));
    LogsDecode(cfg, X.Sends(ees, E.Logs), logs);
    SentEntriesArrive(ecfg, ees, s, E.Logs, L.LOG_SCHEMA, L.ReadLog, Entries(cfg, logs, L.NormLog));
  }
}
