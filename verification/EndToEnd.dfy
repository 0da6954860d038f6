/**
 From the encoders to the wire: what a collector decodes from the posted payloads of a
 signal is, entry by entry and in order, what was given to the encoders.
 */
module EndToEnd {
  import opened Bytes
  import opened Wire
  import opened OtlpCommon
  import opened OtlpTrace
  import opened OtlpLog
  import opened OtlpMetrics
  import opened ExporterProperties
  import E = Exporter

  /** Each message decodes to its list of entries. */
  ghost predicate DecodeTo<D(!new)>(item: Schema, read: seq<Field> -> D, ms: seq<seq<byte>>,
        entries: seq<seq<Envelope<D>>>) {
    |ms| == |entries| && forall i | 0 <= i < |ms| :: DecodeRequest(item, read, ms[i]) == Some(entries[i])
  }

  lemma DecodeToSplit<D(!new)>(item: Schema, read: seq<Field> -> D, a: seq<seq<byte>>, b: seq<seq<byte>>,
        entries: seq<seq<Envelope<D>>>)
    requires DecodeTo(item, read, a + b, entries)
    ensures |entries| == |a| + |b|
    ensures DecodeTo(item, read, a, entries[..|a|]) && DecodeTo(item, read, b, entries[|a|..])
  {
    var ms := a + b;
    assert forall i | 0 <= i < |a| :: a[i] == ms[i];
    assert forall i | 0 <= i < |b| :: b[i] == ms[|a| + i];
  }

  lemma {:induction false} DecodeAllEntries<D(!new)>(item: Schema, read: seq<Field> -> D, ms: seq<seq<byte>>,
        entries: seq<seq<Envelope<D>>>)
    requires DecodeTo(item, read, ms, entries)
    ensures DecodeAll(item, read, ms) == Some(Concat(entries))
  {
    if ms == [] {
    } else {
      DecodeAllEntries(item, read, ms[1..], entries[1..]);
    }
  }

  lemma {:induction false} DecodeAllSnoc<D(!new)>(item: Schema, read: seq<Field> -> D, ms: seq<seq<byte>>, m: seq<byte>)
    requires DecodeAll(item, read, ms).Some? && DecodeRequest(item, read, m).Some?
    ensures DecodeAll(item, read, ms + [m])
      == Some(DecodeAll(item, read, ms).value + DecodeRequest(item, read, m).value)
  {
    if ms == [] {
      var d := DecodeRequest(item, read, m).value;
      assert ms + [m] == [m] && [m][1..] == [] && d + [] == d && [] + d == d;
      assert DecodeAll(item, read, [m]) == Some(d + []);
    } else {
      assert (ms + [m])[0] == ms[0] && (ms + [m])[1..] == ms[1..] + [m];
      DecodeAllSnoc(item, read, ms[1..], m);
      Assoc3(DecodeRequest(item, read, ms[0]).value, DecodeAll(item, read, ms[1..]).value,
        DecodeRequest(item, read, m).value);
    }
  }

  /** One more payload, joined from messages whose entries are known. */
  lemma PayloadDecodes<D(!new)>(item: Schema, read: seq<Field> -> D, posted: seq<seq<byte>>, items: seq<seq<byte>>,
        a: seq<seq<Envelope<D>>>, b: seq<seq<Envelope<D>>>)
    requires DecodeAll(item, read, posted) == Some(Concat(a)) && DecodeTo(item, read, items, b)
    ensures DecodeAll(item, read, posted + [Concat(items)]) == Some(Concat(a + b))
  {
    hide DecodeRequest;
    DecodeAllEntries(item, read, items, b);
    DecodeConcat(item, read, items);
    DecodeAllSnoc(item, read, posted, Concat(items));
    ConcatAppend(a, b);
  }

  /** The payloads of a signal decode to the entries of the messages they were joined from. */
  lemma {:induction false} PayloadsDecode<D(!new)>(cfg: E.Config, ts: seq<E.Task>, sig: E.Signal, item: Schema,
        read: seq<Field> -> D, entries: seq<seq<Envelope<D>>>)
    requires forall i | 0 <= i < |ts| :: E.TaskOk(cfg, ts[i])
    requires DecodeTo(item, read, E.Spawned(ts, sig), entries)
    ensures DecodeAll(item, read, Posted(ts, sig)) == Some(Concat(entries))
  {
    hide DecodeRequest, DecodeTo, DecodeAll;
    if ts == [] {
      DecodeAllEntries(item, read, [], entries);
      assert entries == [] by { DecodeToSplit(item, read, [], [], entries); }
    } else {
      var n := |ts| - 1;
      var t, front := ts[n], E.Spawned(ts[..n], sig);
      assert E.TaskOk(cfg, t);
      if t.sig == sig {
        DecodeToSplit(item, read, front, t.items, entries);
        var a, b := entries[..|front|], entries[|front|..];
        PayloadsDecode(cfg, ts[..n], sig, item, read, a);
        PayloadDecodes(item, read, Posted(ts[..n], sig), t.items, a, b);
        assert entries == a + b;
      } else {
        assert E.Spawned(ts, sig) == front && Posted(ts, sig) == Posted(ts[..n], sig);
        PayloadsDecode(cfg, ts[..n], sig, item, read, entries);
      }
    }
  }

  /**
   In every reachable state, for a signal with a URL: if the messages received so far decode to
   `entries`, then the payloads in spawn order decode to exactly those entries in their
   order, up to the messages still in the current batch.
   */
  lemma PipelineDelivers<D(!new)>(cfg: E.Config, es: seq<E.Event>, s: E.State, sig: E.Signal, item: Schema,
        read: seq<Field> -> D, entries: seq<seq<Envelope<D>>>)
    requires Reachable(cfg, es, s) && cfg.url.Get(sig) && s.received <= |s.accepted|
    requires DecodeTo(item, read, E.DataOf(s.accepted[..s.received], sig), entries)
    ensures |s.work.batch.Get(sig)| <= |entries|
    ensures DecodeAll(item, read, Posted(s.work.tasks, sig))
      == Some(Concat(entries[..|entries| - |s.work.batch.Get(sig)|]))
  {
    hide E.Run, E.Sum, DecodeAll, DecodeRequest, Posted;
    PayloadsPartition(cfg, es, s, sig);
    var sp := E.Spawned(s.work.tasks, sig);
    DecodeToSplit(item, read, sp, s.work.batch.Get(sig), entries);
    PayloadsDecode(cfg, s.work.tasks, sig, item, read, entries[..|sp|]);
  }

  lemma DecodeToAppend<D(!new)>(item: Schema, read: seq<Field> -> D, a: seq<seq<byte>>, b: seq<seq<byte>>,
      x: seq<seq<Envelope<D>>>, y: seq<seq<Envelope<D>>>)
    requires DecodeTo(item, read, a, x) && DecodeTo(item, read, b, y)
    ensures DecodeTo(item, read, a + b, x + y)
  {
    hide DecodeRequest;
  }

  lemma {:induction false} SelectDecodes<D(!new)>(item: Schema, read: seq<Field> -> D, ms: seq<seq<byte>>,
      entries: seq<seq<Envelope<D>>>, keep: seq<bool>)
    requires DecodeTo(item, read, ms, entries) && |keep| == |ms|
    ensures DecodeTo(item, read, Select(ms, keep), Select(entries, keep))
  {
    if ms == [] {
    } else {
      assert ms == [ms[0]] + ms[1..];
      DecodeToSplit(item, read, [ms[0]], ms[1..], entries);
      assert entries[..1] == [entries[0]];
      hide DecodeTo;
      SelectDecodes(item, read, ms[1..], entries[1..], keep[1..]);
      if keep[0] {
        DecodeToAppend(item, read, [ms[0]], Select(ms[1..], keep[1..]), [entries[0]], Select(entries[1..], keep[1..]));
      } else {
        assert [] + Select(ms[1..], keep[1..]) == Select(ms[1..], keep[1..]);
        assert [] + Select(entries[1..], keep[1..]) == Select(entries[1..], keep[1..]);
      }
    }
  }

  /** The payload of task `i` decodes, by itself, to the entries of its own messages, at their place. */
  ghost predicate TaskArrives<D(!new)>(item: Schema, read: seq<Field> -> D, ts: seq<E.Task>, i: nat,
      entries: seq<seq<Envelope<D>>>)
    requires i < |ts|
  {
    var from, n := |E.Spawned(ts[..i], ts[i].sig)|, |ts[i].items|;
    from + n <= |entries| && DecodeRequest(item, read, ts[i].payload) == Some(Concat(entries[from..from + n]))
  }

  /**
   What a collector has of the spawned messages of a signal with these entries: posted payloads decode to
   the entries in order, the delivered ones to the entries of the delivered messages, and each by itself to its own.
   */
  ghost predicate Arrives<D(!new)>(item: Schema, read: seq<Field> -> D, ts: seq<E.Task>, sig: E.Signal,
      entries: seq<seq<Envelope<D>>>)
  {
    && |entries| == |E.Spawned(ts, sig)|
    && DecodeAll(item, read, Posted(ts, sig)) == Some(Concat(entries))
    && DecodeAll(item, read, DeliveredPayloads(ts, sig)) == Some(Concat(Select(entries, WasDelivered(ts, sig))))
    && forall i | 0 <= i < |ts| && ts[i].sig == sig :: TaskArrives(item, read, ts, i, entries)
  }

  lemma PayloadEntries<D(!new)>(item: Schema, read: seq<Field> -> D, items: seq<seq<byte>>,
      entries: seq<seq<Envelope<D>>>)
    requires DecodeTo(item, read, items, entries)
    ensures DecodeRequest(item, read, Concat(items)) == Some(Concat(entries))
  {
    hide DecodeRequest;
    DecodeAllEntries(item, read, items, entries);
    DecodeConcat(item, read, items);
  }

  lemma TaskDecodes<D(!new)>(cfg: E.Config, ts: seq<E.Task>, i: nat, item: Schema, read: seq<Field> -> D,
      entries: seq<seq<Envelope<D>>>)
    requires i < |ts| && E.TaskOk(cfg, ts[i]) && DecodeTo(item, read, E.Spawned(ts, ts[i].sig), entries)
    ensures TaskArrives(item, read, ts, i, entries)
  {
    hide DecodeRequest, DecodeTo, Concat, E.Spawned;
    var t, front := ts[i], E.Spawned(ts[..i], ts[i].sig);
    var rest := SpawnedAround(ts, i);
    DecodeToMiddle(item, read, front, t.items, rest, entries);
    PayloadEntries(item, read, t.items, entries[|front|..|front| + |t.items|]);
  }

  lemma DecodeToMiddle<D(!new)>(item: Schema, read: seq<Field> -> D, a: seq<seq<byte>>, b: seq<seq<byte>>,
      c: seq<seq<byte>>, entries: seq<seq<Envelope<D>>>)
    requires DecodeTo(item, read, a + b + c, entries)
    ensures |a| + |b| <= |entries| && DecodeTo(item, read, b, entries[|a|..|a| + |b|])
  {
    hide DecodeTo;
    var n := |a| + |b|;
    DecodeToSplit(item, read, a + b, c, entries);
    DecodeToSplit(item, read, a, b, entries[..n]);
    assert entries[..n][|a|..] == entries[|a|..n];
  }

  lemma {:induction false} DeliveredDecode<D(!new)>(cfg: E.Config, ts: seq<E.Task>, sig: E.Signal, item: Schema,
      read: seq<Field> -> D, entries: seq<seq<Envelope<D>>>)
    requires forall i | 0 <= i < |ts| :: E.TaskOk(cfg, ts[i])
    requires |entries| == |E.Spawned(ts, sig)| && DecodeTo(item, read, E.Spawned(ts, sig), entries)
    ensures DecodeAll(item, read, DeliveredPayloads(ts, sig)) == Some(Concat(Select(entries, WasDelivered(ts, sig))))
  {
    hide DecodeRequest, DecodeTo, Select;
    if ts == [] {
      SelectSame(entries, [], false);
      assert Concat<Envelope<D>>([]) == [] && DecodeAll(item, read, []) == Some([]);
    } else {
      var n := |ts| - 1;
      var t, front := ts[n], E.Spawned(ts[..n], sig);
      assert E.TaskOk(cfg, t);
      var mine := if t.sig == sig then t.items else [];
      var keep := if t.sig == sig then seq(|t.items|, _ => t.phase == E.Finished(E.Delivered)) else [];
      var a, b := entries[..|front|], entries[|front|..];
      DecodeToSplit(item, read, front, mine, entries);
      DeliveredDecode(cfg, ts[..n], sig, item, read, a);
      assert entries == a + b;
      SelectAppend(a, b, WasDelivered(ts[..n], sig), keep);
      SelectSame(b, keep, t.sig == sig && t.phase == E.Finished(E.Delivered));
      DeliveredNext(cfg, ts, sig, item, read, Select(a, WasDelivered(ts[..n], sig)), b);
    }
  }

  lemma DeliveredNext<D(!new)>(cfg: E.Config, ts: seq<E.Task>, sig: E.Signal, item: Schema, read: seq<Field> -> D,
      a: seq<seq<Envelope<D>>>, b: seq<seq<Envelope<D>>>)
    requires ts != [] && E.TaskOk(cfg, ts[|ts| - 1])
    requires DecodeAll(item, read, DeliveredPayloads(ts[..|ts| - 1], sig)) == Some(Concat(a))
    requires DecodeTo(item, read, if ts[|ts| - 1].sig == sig then ts[|ts| - 1].items else [], b)
    ensures var t := ts[|ts| - 1];
      DecodeAll(item, read, DeliveredPayloads(ts, sig))
      == Some(Concat(a + if t.sig == sig && t.phase == E.Finished(E.Delivered) then b else []))
  {
    hide DecodeRequest, DecodeAll, DecodeTo, Concat;
    var t, front := ts[|ts| - 1], DeliveredPayloads(ts[..|ts| - 1], sig);
    assert front + [] == front && a + [] == a;
    if t.sig == sig && t.phase == E.Finished(E.Delivered) {
      PayloadDecodes(item, read, front, t.items, a, b);
    }
  }

  lemma SpawnedArrive<D(!new)>(cfg: E.Config, ts: seq<E.Task>, sig: E.Signal, item: Schema, read: seq<Field> -> D,
      entries: seq<seq<Envelope<D>>>)
    requires forall i | 0 <= i < |ts| :: E.TaskOk(cfg, ts[i])
    requires |entries| == |E.Spawned(ts, sig)| && DecodeTo(item, read, E.Spawned(ts, sig), entries)
    ensures Arrives(item, read, ts, sig, entries)
  {
    hide DecodeRequest, DecodeTo, DecodeAll, Concat, E.TaskOk, E.Spawned, TaskArrives;
    PayloadsDecode(cfg, ts, sig, item, read, entries);
    DeliveredDecode(cfg, ts, sig, item, read, entries);
    forall i | 0 <= i < |ts| && ts[i].sig == sig ensures TaskArrives(item, read, ts, i, entries) {
      TaskDecodes(cfg, ts, i, item, read, entries);
    }
  }

  /** Of the messages the channel took, those that were spawned arrive. */
  lemma AcceptedEntriesArrive<D(!new)>(cfg: E.Config, es: seq<E.Event>, s: E.State, sig: E.Signal, item: Schema,
      read: seq<Field> -> D, entries: seq<seq<Envelope<D>>>)
    requires Reachable(cfg, es, s) && cfg.url.Get(sig)
    requires DecodeTo(item, read, E.DataOf(s.accepted, sig), entries)
    ensures var n := |E.Spawned(s.work.tasks, sig)|;
      n <= |entries| && Arrives(item, read, s.work.tasks, sig, entries[..n])
  {
    hide E.Run, E.DataOf, E.Spawned, Posted, DecodeAll, DecodeTo, Concat, E.TaskOk, Arrives;
    PayloadsPartition(cfg, es, s, sig);
    var ms, behind := s.accepted[..s.received], s.accepted[s.received..];
    assert s.accepted == ms + behind;
    E.DataAppend(ms, behind, sig);
    var front, n := E.DataOf(ms, sig), |E.Spawned(s.work.tasks, sig)|;
    DecodeToSplit(item, read, front, E.DataOf(behind, sig), entries);
    DecodeToSplit(item, read, E.Spawned(s.work.tasks, sig), s.work.batch.Get(sig), entries[..|front|]);
    assert entries[..|front|][..n] == entries[..n];
    SpawnedArrive(cfg, s.work.tasks, sig, item, read, entries[..n]);
  }

  /**
   Whatever is dropped on the way: if the messages handed to the sends of a signal decode to `entries`, then
   the entries of the messages that found room arrive, in their order, as far as these have been spawned.
   */
  lemma SentEntriesArrive<D(!new)>(cfg: E.Config, es: seq<E.Event>, s: E.State, sig: E.Signal, item: Schema,
      read: seq<Field> -> D, entries: seq<seq<Envelope<D>>>)
    requires Reachable(cfg, es, s) && cfg.url.Get(sig)
    requires DecodeTo(item, read, Sends(es, sig), entries)
    ensures |Kept(cfg, E.INIT, es, sig)| == |entries|
    ensures var arrived, n := Select(entries, Kept(cfg, E.INIT, es, sig)), |E.Spawned(s.work.tasks, sig)|;
      && n <= |arrived| == |entries| - s.dropped.Get(sig)
      && Arrives(item, read, s.work.tasks, sig, arrived[..n])
  {
    var ms, keep := Sends(es, sig), Kept(cfg, E.INIT, es, sig);
    assert E.INIT.dropped.Get(sig) == 0 && E.DataOf(E.INIT.accepted, sig) == [];
    AcceptedIsSelected(cfg, E.INIT, es, sig);
    hide E.Run, E.DataOf, E.Spawned, Posted, DecodeAll, DecodeRequest, Kept, Sends, Select, Concat, Arrives;
    assert [] + Select(ms, keep) == Select(ms, keep);
    SelectDecodes(item, read, ms, entries, keep);
    AcceptedEntriesArrive(cfg, es, s, sig, item, read, Select(entries, keep));
  }

  /** The arguments of one call of an export encoder. */
  datatype Request<T> = Request(attrs: seq<KeyValue>, name: seq<byte>, version: seq<byte>, items: seq<T>)

  function Encoded<T>(r: Request<T>, f: T -> seq<Field>): seq<byte> {
    Emit(RequestFields(r.attrs, r.name, r.version, r.items, f))
  }

  function Normal<T, D>(rs: seq<Request<T>>, norm: T -> Option<D>): seq<seq<Envelope<D>>> {
    seq(|rs|, i requires 0 <= i < |rs| => NormRequest(rs[i].attrs, rs[i].name, rs[i].version, rs[i].items, norm))
  }

  /** The messages of a signal are the encodings of `rs`, each of a representable size. */
  ghost predicate AreEncodings<T>(ms: seq<seq<byte>>, rs: seq<Request<T>>, f: T -> seq<Field>) {
    |ms| == |rs| && forall i | 0 <= i < |ms| :: ms[i] == Encoded(rs[i], f) && |ms[i]| < TWO_64
  }

  /** Trace requests: posted payloads decode to the requests, in order. */
  lemma TracesEndToEnd(cfg: E.Config, es: seq<E.Event>, s: E.State, rs: seq<Request<SpanData>>)
    requires Reachable(cfg, es, s) && cfg.url.Get(E.Traces) && s.received <= |s.accepted|
    requires AreEncodings(E.DataOf(s.accepted[..s.received], E.Traces), rs, SpanFields)
    ensures |s.work.batch.Get(E.Traces)| <= |rs|
    ensures DecodeAll(SPAN_SCHEMA, ReadSpan, Posted(s.work.tasks, E.Traces))
         == Some(Concat(Normal(rs, NormSpan)[..|rs| - |s.work.batch.Get(E.Traces)|]))
  {
    hide E.Run, E.DataOf, Posted, DecodeAll, DecodeRequest, NormRequest, Emit, Concat;
    var ms, entries := E.DataOf(s.accepted[..s.received], E.Traces), Normal(rs, NormSpan);
    forall i | 0 <= i < |ms| ensures DecodeRequest(SPAN_SCHEMA, ReadSpan, ms[i]) == Some(entries[i]) {
      TraceRoundTrip(rs[i].attrs, rs[i].name, rs[i].version, rs[i].items);
    }
    PipelineDelivers(cfg, es, s, E.Traces, SPAN_SCHEMA, ReadSpan, entries);
  }

  /** Logs requests: posted payloads decode to the requests, in order. */
  lemma LogsEndToEnd(cfg: E.Config, es: seq<E.Event>, s: E.State, rs: seq<Request<LogData>>)
    requires Reachable(cfg, es, s) && cfg.url.Get(E.Logs) && s.received <= |s.accepted|
    requires AreEncodings(E.DataOf(s.accepted[..s.received], E.Logs), rs, LogFields)
    ensures |s.work.batch.Get(E.Logs)| <= |rs|
    ensures DecodeAll(LOG_SCHEMA, ReadLog, Posted(s.work.tasks, E.Logs))
         == Some(Concat(Normal(rs, NormLog)[..|rs| - |s.work.batch.Get(E.Logs)|]))
  {
    hide E.Run, E.DataOf, Posted, DecodeAll, DecodeRequest, NormRequest, Emit, Concat;
    var ms, entries := E.DataOf(s.accepted[..s.received], E.Logs), Normal(rs, NormLog);
    forall i | 0 <= i < |ms| ensures DecodeRequest(LOG_SCHEMA, ReadLog, ms[i]) == Some(entries[i]) {
      LogsRoundTrip(rs[i].attrs, rs[i].name, rs[i].version, rs[i].items);
    }
    PipelineDelivers(cfg, es, s, E.Logs, LOG_SCHEMA, ReadLog, entries);
  }

  /** A metrics request together with the times it was encoded with. */
  datatype MetricsRequest = MetricsRequest(request: Request<Metric>, start: u64, time: u64)

  function NormalMetrics(rs: seq<MetricsRequest>): seq<seq<Envelope<DecodedMetric>>> {
    seq(|rs|, i requires 0 <= i < |rs| =>
      var r := rs[i].request; NormRequest(r.attrs, r.name, r.version, r.items, NormMetric(rs[i].start, rs[i].time)))
  }

  /** Metrics requests: posted payloads decode to the requests, in order. */
  lemma MetricsEndToEnd(cfg: E.Config, es: seq<E.Event>, s: E.State, rs: seq<MetricsRequest>)
    requires Reachable(cfg, es, s) && cfg.url.Get(E.Metrics) && s.received <= |s.accepted|
    requires var ms := E.DataOf(s.accepted[..s.received], E.Metrics);
      |ms| == |rs| && forall i | 0 <= i < |ms| ::
        ms[i] == Encoded(rs[i].request, MetricAt(rs[i].start, rs[i].time)) && |ms[i]| < TWO_64
    ensures |s.work.batch.Get(E.Metrics)| <= |rs|
    ensures DecodeAll(METRIC_SCHEMA, ReadMetric, Posted(s.work.tasks, E.Metrics))
         == Some(Concat(NormalMetrics(rs)[..|rs| - |s.work.batch.Get(E.Metrics)|]))
  {
    hide E.Run, E.DataOf, Posted, DecodeAll, DecodeRequest, NormRequest, Emit, Concat;
    var ms, entries := E.DataOf(s.accepted[..s.received], E.Metrics), NormalMetrics(rs);
    forall i | 0 <= i < |ms| ensures DecodeRequest(METRIC_SCHEMA, ReadMetric, ms[i]) == Some(entries[i]) {
      var r := rs[i].request;
      MetricsRoundTrip(r.attrs, r.name, r.version, r.items, rs[i].start, rs[i].time);
    }
    PipelineDelivers(cfg, es, s, E.Metrics, METRIC_SCHEMA, ReadMetric, entries);
  }
}
