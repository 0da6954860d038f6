/** The metrics signal: data points, their encoder, and the round trip of a metrics request. */
module OtlpMetrics {
  import opened Bytes
  import opened Wire
  import opened WireReader
  import opened ProtoWriter
  import opened OtlpCommon
  import opened OtlpTrace

  /** A sorted attribute list of a data point. */
  type Attrs = seq<(seq<byte>, seq<byte>)>

  /** A measured value: signed integer or the bits of a double. */
  datatype Number = IntNumber(i: i64) | DoubleNumber(bits: u64)

  datatype Exemplar = Exemplar(traceId: TraceId, spanId: SpanId, time: u64, value: Number)
  datatype CounterPoint = CounterPoint(attrs: Attrs, value: i64, exemplar: Option<Exemplar>)
  datatype GaugePoint = GaugePoint(attrs: Attrs, bits: u64, exemplar: Option<Exemplar>)
  datatype HistogramPoint = HistogramPoint(
    attrs: Attrs, bucketCounts: seq<u64>, sum: u64, count: u64, min: u64, max: u64, exemplar: Option<Exemplar>)

  datatype Metric =
    | Counter(name: seq<byte>, description: seq<byte>, counterPoints: seq<CounterPoint>)
    | Gauge(name: seq<byte>, description: seq<byte>, gaugePoints: seq<GaugePoint>)
    | Histogram(name: seq<byte>, description: seq<byte>, boundaries: seq<u64>, histogramPoints: seq<HistogramPoint>)

  datatype DecodedExemplar = DecodedExemplar(traceId: seq<byte>, spanId: seq<byte>, time: u64, value: Option<Number>)
  datatype NumberPoint = NumberPoint(
    start: u64, time: u64, value: Option<Number>, exemplars: seq<DecodedExemplar>, attributes: seq<DecodedKeyValue>)
  datatype DecodedHistogramPoint = DecodedHistogramPoint(
    start: u64, time: u64, count: u64, sum: u64, bucketCounts: seq<u64>, boundaries: seq<u64>,
    attributes: seq<DecodedKeyValue>, exemplars: seq<DecodedExemplar>, min: u64, max: u64)
  datatype MetricData =
    | NoData
    | GaugeData(gauge: seq<NumberPoint>)
    | SumData(sum: seq<NumberPoint>, temporality: u64, monotonic: bool)
    | HistogramData(histogram: seq<DecodedHistogramPoint>, temporality: u64)
  datatype DecodedMetric = DecodedMetric(name: seq<byte>, description: seq<byte>, data: MetricData)

  // --- What is written ---

  function AttrFields(a: (seq<byte>, seq<byte>)): seq<Field> {
    KeyValueFields(KeyValue(a.0, StringValue(a.1)))
  }

  function NumberField(v: Number, asDouble: u32, asInt: u32): Field {
    match v
    case IntNumber(i) => Fixed64Field(asInt, ToU64(i), true)
    case DoubleNumber(bits) => Fixed64Field(asDouble, bits, true)
  }

  function ExemplarFields(e: Exemplar): seq<Field> {
    [Fixed64Field(2, e.time, false), NumberField(e.value, 3, 6), BytesField(4, e.spanId), BytesField(5, e.traceId)]
  }

  function OptExemplar(n: u32, e: Option<Exemplar>): seq<Field> {
    match e
    case None => []
    case Some(e) => [MessageField(n, ExemplarFields(e))]
  }

  function PointTimes(start: u64, time: u64): seq<Field> {
    [Fixed64Field(2, start, false), Fixed64Field(3, time, false)]
  }

  function CounterPointFields(p: CounterPoint, start: u64, time: u64): seq<Field> {
    PointTimes(start, time) + (OptExemplar(5, p.exemplar) + [NumberField(IntNumber(p.value), 4, 6)])
      + Rep(7, p.attrs, AttrFields)
  }

  function GaugePointFields(p: GaugePoint, start: u64, time: u64): seq<Field> {
    PointTimes(start, time) + ([NumberField(DoubleNumber(p.bits), 4, 6)] + OptExemplar(5, p.exemplar))
      + Rep(7, p.attrs, AttrFields)
  }

  function HistogramTotals(p: HistogramPoint): seq<Field> {
    [Fixed64Field(4, p.count, true), Fixed64Field(5, p.sum, true)]
  }

  function HistogramBuckets(p: HistogramPoint, boundaries: seq<u64>): seq<Field> {
    [PackedField(6, p.bucketCounts), PackedField(7, boundaries)]
  }

  function HistogramHead(p: HistogramPoint, boundaries: seq<u64>, start: u64, time: u64): seq<Field> {
    PointTimes(start, time) + HistogramTotals(p) + HistogramBuckets(p, boundaries)
  }

  function HistogramExtremes(p: HistogramPoint): seq<Field> {
    [Fixed64Field(11, p.min, true), Fixed64Field(12, p.max, true)]
  }

  function HistogramTail(p: HistogramPoint): seq<Field> {
    OptExemplar(8, p.exemplar) + HistogramExtremes(p)
  }

  function HistogramPointFields(p: HistogramPoint, boundaries: seq<u64>, start: u64, time: u64): seq<Field> {
    HistogramHead(p, boundaries, start, time) + Rep(9, p.attrs, AttrFields) + HistogramTail(p)
  }

  function CounterPointAt(start: u64, time: u64): CounterPoint -> seq<Field> {
    p => CounterPointFields(p, start, time)
  }

  function GaugePointAt(start: u64, time: u64): GaugePoint -> seq<Field> {
    p => GaugePointFields(p, start, time)
  }

  function HistogramPointAt(boundaries: seq<u64>, start: u64, time: u64): HistogramPoint -> seq<Field> {
    p => HistogramPointFields(p, boundaries, start, time)
  }

  /** Cumulative temporality is 2; a counter is always monotonic. */
  function SumFields(ps: seq<CounterPoint>, start: u64, time: u64): seq<Field> {
    Rep(1, ps, CounterPointAt(start, time)) + [VarintField(2, 2, false), VarintField(3, 1, false)]
  }

  function GaugeFields(ps: seq<GaugePoint>, start: u64, time: u64): seq<Field> {
    Rep(1, ps, GaugePointAt(start, time))
  }

  function HistogramFields(ps: seq<HistogramPoint>, boundaries: seq<u64>, start: u64, time: u64): seq<Field> {
    Rep(1, ps, HistogramPointAt(boundaries, start, time)) + [VarintField(2, 2, false)]
  }

  function DataField(m: Metric, start: u64, time: u64): (f: Field)
    ensures f.MessageField?
  {
    match m
    case Counter(_, _, ps) => MessageField(7, SumFields(ps, start, time))
    case Gauge(_, _, ps) => MessageField(5, GaugeFields(ps, start, time))
    case Histogram(_, _, bs, ps) => MessageField(9, HistogramFields(ps, bs, start, time))
  }

  function MetricFields(m: Metric, start: u64, time: u64): seq<Field> {
    [BytesField(1, m.name), BytesField(2, m.description), DataField(m, start, time)]
  }

  function MetricAt(start: u64, time: u64): Metric -> seq<Field> {
    m => MetricFields(m, start, time)
  }

  // --- The encoders ---

  method EncodeAttrKeyValue(buf: ByteBuffer, key: seq<byte>, value: seq<byte>)
    requires |Emit(AttrFields((key, value)))| < TWO_35
    modifies buf
    ensures buf.bytes == old(buf.bytes) + Emit(AttrFields((key, value)))
  {
    ghost var before, fs := buf.bytes, AttrFields((key, value));
    Ends(before, fs);
    Step(before, fs, 0);
    buf.EncodeBytesField(1, key);
    Step(before, fs, 1);
    var m := buf.OpenMessage(2);
    ghost var inner := [BytesField(1, value)];
    EmitSingle(inner[0]);
    Step(buf.bytes, inner, 0);
    buf.EncodeBytesField(1, value);
    buf.CloseMessage(2, m, before + Emit(fs[..1]), Emit(inner));
  }

  method EncodeAttrs(buf: ByteBuffer, field: u32, attrs: Attrs)
    requires |Emit(Rep(field, attrs, AttrFields))| < TWO_35
    modifies buf
    ensures buf.bytes == old(buf.bytes) + Emit(Rep(field, attrs, AttrFields))
  {
    ghost var before, fs := buf.bytes, Rep(field, attrs, AttrFields);
    Ends(before, fs);
    for i := 0 to |attrs|
      invariant buf.bytes == before + Emit(fs[..i])
    {
      Step(before, fs, i);
      var m := buf.OpenMessage(field);
      EncodeAttrKeyValue(buf, attrs[i].0, attrs[i].1);
      assert attrs[i] == (attrs[i].0, attrs[i].1);
      buf.CloseMessage(field, m, before + Emit(fs[..i]), Emit(AttrFields(attrs[i])));
    }
  }

  method EncodeExemplar(buf: ByteBuffer, e: Exemplar)
    requires |Emit(ExemplarFields(e))| < TWO_35
    modifies buf
    ensures buf.bytes == old(buf.bytes) + Emit(ExemplarFields(e))
  {
    hide Emit, EmitField;
    ghost var before, fs := buf.bytes, ExemplarFields(e);
    Ends(before, fs);
    Step(before, fs, 0);
    buf.EncodeFixed64Field(2, e.time);
    Step(before, fs, 1);
    match e.value {
      case DoubleNumber(bits) => buf.EncodeFixed64FieldAlways(3, bits);
      case IntNumber(i) => buf.EncodeFixed64FieldAlways(6, ToU64(i));
    }
    Step(before, fs, 2);
    buf.EncodeBytesField(4, e.spanId);
    Step(before, fs, 3);
    buf.EncodeBytesField(5, e.traceId);
  }

  method EncodeOptExemplar(buf: ByteBuffer, field: u32, e: Option<Exemplar>)
    requires |Emit(OptExemplar(field, e))| < TWO_35
    modifies buf
    ensures buf.bytes == old(buf.bytes) + Emit(OptExemplar(field, e))
  {
    ghost var before, fs := buf.bytes, OptExemplar(field, e);
    Ends(before, fs);
    if e.Some? {
      Step(before, fs, 0);
      var m := buf.OpenMessage(field);
      EncodeExemplar(buf, e.value);
      buf.CloseMessage(field, m, before, Emit(ExemplarFields(e.value)));
    }
  }

  method EncodePointTimes(buf: ByteBuffer, start: u64, time: u64)
    modifies buf
    ensures buf.bytes == old(buf.bytes) + Emit(PointTimes(start, time))
  {
    ghost var before, fs := buf.bytes, PointTimes(start, time);
    Ends(before, fs);
    Step(before, fs, 0);
    buf.EncodeFixed64Field(2, start);
    Step(before, fs, 1);
    buf.EncodeFixed64Field(3, time);
  }

  method EncodeCounterDataPoint(buf: ByteBuffer, p: CounterPoint, start: u64, time: u64)
    requires |Emit(CounterPointFields(p, start, time))| < TWO_35
    modifies buf
    ensures buf.bytes == old(buf.bytes) + Emit(CounterPointFields(p, start, time))
  {
    ghost var value := NumberField(IntNumber(p.value), 4, 6);
    Parts(buf.bytes, PointTimes(start, time), OptExemplar(5, p.exemplar) + [value], Rep(7, p.attrs, AttrFields));
    EncodePointTimes(buf, start, time);
    Halves(buf.bytes, OptExemplar(5, p.exemplar), [value]);
    EncodeOptExemplar(buf, 5, p.exemplar);
    EmitSingle(value);
    buf.EncodeFixed64FieldAlways(6, ToU64(p.value));
    EncodeAttrs(buf, 7, p.attrs);
  }

  method EncodeGaugeDataPoint(buf: ByteBuffer, p: GaugePoint, start: u64, time: u64)
    requires |Emit(GaugePointFields(p, start, time))| < TWO_35
    modifies buf
    ensures buf.bytes == old(buf.bytes) + Emit(GaugePointFields(p, start, time))
  {
    ghost var value := NumberField(DoubleNumber(p.bits), 4, 6);
    Parts(buf.bytes, PointTimes(start, time), [value] + OptExemplar(5, p.exemplar), Rep(7, p.attrs, AttrFields));
    EncodePointTimes(buf, start, time);
    Halves(buf.bytes, [value], OptExemplar(5, p.exemplar));
    EmitSingle(value);
    buf.EncodeFixed64FieldAlways(4, p.bits);
    EncodeOptExemplar(buf, 5, p.exemplar);
    EncodeAttrs(buf, 7, p.attrs);
  }

  method EncodeHistogramTotals(buf: ByteBuffer, p: HistogramPoint)
    modifies buf
    ensures buf.bytes == old(buf.bytes) + Emit(HistogramTotals(p))
  {
    ghost var before, fs := buf.bytes, HistogramTotals(p);
    Ends(before, fs);
    Step(before, fs, 0);
    buf.EncodeFixed64FieldAlways(4, p.count);
    Step(before, fs, 1);
    buf.EncodeFixed64FieldAlways(5, p.sum);
  }

  method EncodeHistogramBuckets(buf: ByteBuffer, p: HistogramPoint, boundaries: seq<u64>)
    requires |Emit(HistogramBuckets(p, boundaries))| < TWO_35
    modifies buf
    ensures buf.bytes == old(buf.bytes) + Emit(HistogramBuckets(p, boundaries))
  {
    ghost var before, fs := buf.bytes, HistogramBuckets(p, boundaries);
    Ends(before, fs);
    Step(before, fs, 0);
    buf.EncodePackedFixed64Field(6, p.bucketCounts);
    Step(before, fs, 1);
    buf.EncodePackedFixed64Field(7, boundaries);
  }

  method EncodeHistogramExtremes(buf: ByteBuffer, p: HistogramPoint)
    modifies buf
    ensures buf.bytes == old(buf.bytes) + Emit(HistogramExtremes(p))
  {
    ghost var before, fs := buf.bytes, HistogramExtremes(p);
    Ends(before, fs);
    Step(before, fs, 0);
    buf.EncodeFixed64FieldAlways(11, p.min);
    Step(before, fs, 1);
    buf.EncodeFixed64FieldAlways(12, p.max);
  }

  method EncodeHistogramDataPoint(buf: ByteBuffer, p: HistogramPoint, boundaries: seq<u64>, start: u64, time: u64)
    requires |Emit(HistogramPointFields(p, boundaries, start, time))| < TWO_35
    modifies buf
    ensures buf.bytes == old(buf.bytes) + Emit(HistogramPointFields(p, boundaries, start, time))
  {
    Parts(buf.bytes, HistogramHead(p, boundaries, start, time), Rep(9, p.attrs, AttrFields), HistogramTail(p));
    Parts(buf.bytes, PointTimes(start, time), HistogramTotals(p), HistogramBuckets(p, boundaries));
    EncodePointTimes(buf, start, time);
    EncodeHistogramTotals(buf, p);
    EncodeHistogramBuckets(buf, p, boundaries);
    EncodeAttrs(buf, 9, p.attrs);
    Halves(buf.bytes, OptExemplar(8, p.exemplar), HistogramExtremes(p));
    EncodeOptExemplar(buf, 8, p.exemplar);
    EncodeHistogramExtremes(buf, p);
  }

  method EncodeSum(buf: ByteBuffer, ps: seq<CounterPoint>, start: u64, time: u64)
    requires |Emit(SumFields(ps, start, time))| < TWO_35
    modifies buf
    ensures buf.bytes == old(buf.bytes) + Emit(SumFields(ps, start, time))
  {
    ghost var before, fs := buf.bytes, SumFields(ps, start, time);
    Ends(before, fs);
    for i := 0 to |ps|
      invariant buf.bytes == before + Emit(fs[..i])
    {
      Step(before, fs, i);
      assert fs[i] == MessageField(1, CounterPointFields(ps[i], start, time));
      var m := buf.OpenMessage(1);
      EncodeCounterDataPoint(buf, ps[i], start, time);
      buf.CloseMessage(1, m, before + Emit(fs[..i]), Emit(CounterPointFields(ps[i], start, time)));
    }
    Step(before, fs, |ps|);
    buf.EncodeVarintField(2, 2);
    Step(before, fs, |ps| + 1);
    buf.EncodeVarintField(3, 1);
  }

  method EncodeGaugeMsg(buf: ByteBuffer, ps: seq<GaugePoint>, start: u64, time: u64)
    requires |Emit(GaugeFields(ps, start, time))| < TWO_35
    modifies buf
    ensures buf.bytes == old(buf.bytes) + Emit(GaugeFields(ps, start, time))
  {
    ghost var before, fs := buf.bytes, GaugeFields(ps, start, time);
    Ends(before, fs);
    for i := 0 to |ps|
      invariant buf.bytes == before + Emit(fs[..i])
    {
      Step(before, fs, i);
      assert fs[i] == MessageField(1, GaugePointFields(ps[i], start, time));
      var m := buf.OpenMessage(1);
      EncodeGaugeDataPoint(buf, ps[i], start, time);
      buf.CloseMessage(1, m, before + Emit(fs[..i]), Emit(GaugePointFields(ps[i], start, time)));
    }
  }

  method EncodeHistogramMsg(buf: ByteBuffer, ps: seq<HistogramPoint>, boundaries: seq<u64>, start: u64, time: u64)
    requires |Emit(HistogramFields(ps, boundaries, start, time))| < TWO_35
    modifies buf
    ensures buf.bytes == old(buf.bytes) + Emit(HistogramFields(ps, boundaries, start, time))
  {
    ghost var before, fs := buf.bytes, HistogramFields(ps, boundaries, start, time);
    Ends(before, fs);
    for i := 0 to |ps|
      invariant buf.bytes == before + Emit(fs[..i])
    {
      Step(before, fs, i);
      assert fs[i] == MessageField(1, HistogramPointFields(ps[i], boundaries, start, time));
      var m := buf.OpenMessage(1);
      EncodeHistogramDataPoint(buf, ps[i], boundaries, start, time);
      buf.CloseMessage(1, m, before + Emit(fs[..i]), Emit(HistogramPointFields(ps[i], boundaries, start, time)));
    }
    Step(before, fs, |ps|);
    buf.EncodeVarintField(2, 2);
  }

  method EncodeMetric(buf: ByteBuffer, metric: Metric, start: u64, time: u64)
    requires |Emit(MetricFields(metric, start, time))| < TWO_35
    modifies buf
    ensures buf.bytes == old(buf.bytes) + Emit(MetricFields(metric, start, time))
  {
    ghost var before, fs := buf.bytes, MetricFields(metric, start, time);
    Ends(before, fs);
    Step(before, fs, 0);
    buf.EncodeBytesField(1, metric.name);
    Step(before, fs, 1);
    buf.EncodeBytesField(2, metric.description);
    Step(before, fs, 2);
    EncodeData(buf, metric, start, time);
  }

  method EncodeData(buf: ByteBuffer, metric: Metric, start: u64, time: u64)
    requires |Emit(DataField(metric, start, time).body)| < TWO_35
    modifies buf
    ensures buf.bytes == old(buf.bytes) + EmitField(DataField(metric, start, time))
  {
    ghost var before := buf.bytes;
    match metric {
      case Counter(_, _, ps) =>
        var m := buf.OpenMessage(7);
        EncodeSum(buf, ps, start, time);
        buf.CloseMessage(7, m, before, Emit(SumFields(ps, start, time)));
      case Gauge(_, _, ps) =>
        var m := buf.OpenMessage(5);
        EncodeGaugeMsg(buf, ps, start, time);
        buf.CloseMessage(5, m, before, Emit(GaugeFields(ps, start, time)));
      case Histogram(_, _, bs, ps) =>
        var m := buf.OpenMessage(9);
        EncodeHistogramMsg(buf, ps, bs, start, time);
        buf.CloseMessage(9, m, before, Emit(HistogramFields(ps, bs, start, time)));
    }
  }

  method EncodeScopeMetrics(buf: ByteBuffer, name: seq<byte>, version: seq<byte>, ms: seq<Metric>, start: u64,
        time: u64)
    requires |Emit(ScopeGroupFields(name, version, ms, MetricAt(start, time)))| < TWO_35
    modifies buf
    ensures buf.bytes == old(buf.bytes) + Emit(ScopeGroupFields(name, version, ms, MetricAt(start, time)))
  {
    ghost var before, fs := buf.bytes, ScopeGroupFields(name, version, ms, MetricAt(start, time));
    Ends(before, fs);
    Step(before, fs, 0);
    var m := buf.OpenMessage(1);
    EncodeScope(buf, name, version);
    buf.CloseMessage(1, m, before, Emit(ScopeFields(name, version)));
    for i := 0 to |ms|
      invariant buf.bytes == before + Emit(fs[..1 + i])
    {
      Step(before, fs, 1 + i);
      assert fs[1 + i] == MessageField(2, MetricFields(ms[i], start, time));
      var m := buf.OpenMessage(2);
      EncodeMetric(buf, ms[i], start, time);
      buf.CloseMessage(2, m, before + Emit(fs[..1 + i]), Emit(MetricFields(ms[i], start, time)));
    }
  }

  method EncodeResourceMetrics(buf: ByteBuffer, attrs: seq<KeyValue>, name: seq<byte>, version: seq<byte>,
        ms: seq<Metric>, start: u64, time: u64)
    requires |Emit(EnvelopeFields(attrs, name, version, ms, MetricAt(start, time)))| < TWO_35
    modifies buf
    ensures buf.bytes == old(buf.bytes) + Emit(EnvelopeFields(attrs, name, version, ms, MetricAt(start, time)))
  {
    ghost var before, fs := buf.bytes, EnvelopeFields(attrs, name, version, ms, MetricAt(start, time));
    Ends(before, fs);
    Step(before, fs, 0);
    var r := buf.OpenMessage(1);
    EncodeResource(buf, attrs);
    buf.CloseMessage(1, r, before, Emit(ResourceFields(attrs)));
    Step(before, fs, 1);
    var g := buf.OpenMessage(2);
    EncodeScopeMetrics(buf, name, version, ms, start, time);
    buf.CloseMessage(2, g, before + Emit(fs[..1]), Emit(ScopeGroupFields(name, version, ms, MetricAt(start, time))));
  }

  // --- What a reader makes of it ---

  const EXEMPLAR_SCHEMA: Schema := map[2 := KFixed64, 3 := KFixed64, 4 := KBytes, 5 := KBytes, 6 := KFixed64]
  const NUMBER_POINT_SCHEMA: Schema := map[
    2 := KFixed64, 3 := KFixed64, 4 := KFixed64, 5 := KMessage(EXEMPLAR_SCHEMA), 6 := KFixed64,
    7 := KMessage(KEY_VALUE_SCHEMA)]
  const HISTOGRAM_POINT_SCHEMA: Schema := map[
    2 := KFixed64, 3 := KFixed64, 4 := KFixed64, 5 := KFixed64, 6 := KPacked, 7 := KPacked,
    8 := KMessage(EXEMPLAR_SCHEMA), 9 := KMessage(KEY_VALUE_SCHEMA), 11 := KFixed64, 12 := KFixed64]
  const SUM_SCHEMA: Schema := map[1 := KMessage(NUMBER_POINT_SCHEMA), 2 := KVarint, 3 := KVarint]
  const GAUGE_SCHEMA: Schema := map[1 := KMessage(NUMBER_POINT_SCHEMA)]
  const HISTOGRAM_SCHEMA: Schema := map[1 := KMessage(HISTOGRAM_POINT_SCHEMA), 2 := KVarint]
  const METRIC_SCHEMA: Schema := map[
    1 := KBytes, 2 := KBytes, 5 := KMessage(GAUGE_SCHEMA), 7 := KMessage(SUM_SCHEMA), 9 := KMessage(HISTOGRAM_SCHEMA)]

  /** The oneof of a value held as double or as sfixed64: the last member present wins. */
  function ReadNumber(fs: seq<Field>, asDouble: u32, asInt: u32): Option<Number> {
    var p := Pick(fs, {asDouble, asInt});
    if p == [] || !p[|p| - 1].Fixed64Field? then None
    else if p[|p| - 1].num == asInt then Some(IntNumber(ToI64(p[|p| - 1].v)))
    else Some(DoubleNumber(p[|p| - 1].v))
  }

  function ReadExemplar(fs: seq<Field>): DecodedExemplar {
    DecodedExemplar(LastBytes(fs, 5), LastBytes(fs, 4), LastFixed64(fs, 2), ReadNumber(fs, 3, 6))
  }

  function ReadNumberPoint(fs: seq<Field>): NumberPoint {
    NumberPoint(LastFixed64(fs, 2), LastFixed64(fs, 3), ReadNumber(fs, 4, 6),
                Map(Bodies(fs, 5), ReadExemplar), Map(Bodies(fs, 7), ReadKeyValue))
  }

  function ReadHistogramPoint(fs: seq<Field>): DecodedHistogramPoint {
    DecodedHistogramPoint(
      LastFixed64(fs, 2), LastFixed64(fs, 3), LastFixed64(fs, 4), LastFixed64(fs, 5), Elements(fs, 6), Elements(fs, 7),
      Map(Bodies(fs, 9), ReadKeyValue), Map(Bodies(fs, 8), ReadExemplar), LastFixed64(fs, 11), LastFixed64(fs, 12))
  }

  /** The oneof of a metric's data: the last member present wins, its occurrences merged. */
  function ReadData(fs: seq<Field>): MetricData {
    var p := Pick(fs, {5, 7, 9});
    if p == [] then NoData
    else
      DataOf(p[|p| - 1].num, Merged(fs, p[|p| - 1].num))
  }

  function DataOf(n: u32, b: seq<Field>): MetricData {
    if n == 5 then GaugeData(Map(Bodies(b, 1), ReadNumberPoint))
    else if n == 7 then SumData(Map(Bodies(b, 1), ReadNumberPoint), LastVarint(b, 2), LastVarint(b, 3) != 0)
    else HistogramData(Map(Bodies(b, 1), ReadHistogramPoint), LastVarint(b, 2))
  }

  function ReadMetric(fs: seq<Field>): DecodedMetric {
    DecodedMetric(LastBytes(fs, 1), LastBytes(fs, 2), ReadData(fs))
  }

  /** A metrics request as a collector decodes it. */
  function DecodeMetricsRequest(s: seq<byte>): Option<seq<Envelope<DecodedMetric>>> {
    DecodeRequest(METRIC_SCHEMA, ReadMetric, s)
  }

  // --- What survives encoding and decoding ---

  function NormAttr(a: (seq<byte>, seq<byte>)): Option<DecodedKeyValue> {
    NormKeyValue(KeyValue(a.0, StringValue(a.1)))
  }

  function NormExemplar(e: Option<Exemplar>): seq<DecodedExemplar> {
    match e
    case None => []
    case Some(e) => [DecodedExemplar(e.traceId, e.spanId, e.time, Some(e.value))]
  }

  function NormCounterPoint(start: u64, time: u64): CounterPoint -> Option<NumberPoint> {
    (p: CounterPoint) => Some(NumberPoint(start, time, Some(IntNumber(p.value)), NormExemplar(p.exemplar),
      Somes(p.attrs, NormAttr)))
  }

  function NormGaugePoint(start: u64, time: u64): GaugePoint -> Option<NumberPoint> {
    (p: GaugePoint) => Some(NumberPoint(start, time, Some(DoubleNumber(p.bits)), NormExemplar(p.exemplar),
      Somes(p.attrs, NormAttr)))
  }

  function NormHistogramPoint(boundaries: seq<u64>, start: u64,
        time: u64): HistogramPoint -> Option<DecodedHistogramPoint> {
    (p: HistogramPoint) => Some(DecodedHistogramPoint(
      start, time, p.count, p.sum, p.bucketCounts, boundaries,
      Somes(p.attrs, NormAttr), NormExemplar(p.exemplar), p.min, p.max))
  }

  /** Only a gauge without points loses its data. */
  function NormData(m: Metric, start: u64, time: u64): MetricData {
    match m
    case Counter(_, _, ps) => SumData(Somes(ps, NormCounterPoint(start, time)), 2, true)
    case Gauge(_, _, ps) => if ps == [] then NoData else GaugeData(Somes(ps, NormGaugePoint(start, time)))
    case Histogram(_, _, bs, ps) => HistogramData(Somes(ps, NormHistogramPoint(bs, start, time)), 2)
  }

  /** Only a gauge without name, description and points vanishes. */
  function NormMetric(start: u64, time: u64): Metric -> Option<DecodedMetric> {
    (m: Metric) => if m.name == [] && m.description == [] && NormData(m, start, time).NoData? then None
         else Some(DecodedMetric(m.name, m.description, NormData(m, start, time)))
  }

  lemma AttrsRead(attrs: Attrs)
    ensures forall a | a in attrs :: ReadsAs(a, AttrFields, ReadKeyValue, NormAttr)
    ensures forall a | a in attrs :: Conforms(AttrFields(a), KEY_VALUE_SCHEMA)
  {
    forall a | a in attrs
      ensures ReadsAs(a, AttrFields, ReadKeyValue, NormAttr) && Conforms(AttrFields(a), KEY_VALUE_SCHEMA)
    {
      KeyValueReads(KeyValue(a.0, StringValue(a.1)));
    }
  }

  /** A number is the only member of its oneof, so it is the one read back. */
  lemma NumberAt(fs: seq<Field>, k: nat, v: Number, asDouble: u32, asInt: u32)
    requires asDouble != asInt && OnlyAt(fs, {asDouble, asInt}, k) && fs[k] == NumberField(v, asDouble, asInt)
    ensures ReadNumber(Norm(fs), asDouble, asInt) == Some(v)
    ensures Norm(fs) != []
  {
    PickOnly(fs, {asDouble, asInt}, k);
    NeverEmpty(fs, k);
  }

  lemma ExemplarReads(e: Exemplar)
    ensures var b := Norm(ExemplarFields(e));
      b != [] && ReadExemplar(b) == DecodedExemplar(e.traceId, e.spanId, e.time, Some(e.value))
    ensures Conforms(ExemplarFields(e), EXEMPLAR_SCHEMA)
  {
    var fs := ExemplarFields(e);
    ScalarAt(fs, 0);
    NumberAt(fs, 1, e.value, 3, 6);
    ScalarAt(fs, 2);
    ScalarAt(fs, 3);
  }

  /** The optional exemplar at position `k` of a data point, or its absence. */
  lemma OptExemplarAt(fs: seq<Field>, n: u32, e: Option<Exemplar>, k: nat)
    requires e.Some? ==> OnlyAt(fs, {n}, k) && fs[k] == MessageField(n, ExemplarFields(e.value))
    requires e.None? ==> forall j | 0 <= j < |fs| :: fs[j].num != n
    ensures Map(Bodies(Norm(fs), n), ReadExemplar) == NormExemplar(e)
  {
    match e
    case None => PickNothing(fs, {n});
    case Some(x) =>
      MessageAt(fs, k);
      ExemplarReads(x);
      var b := Norm(ExemplarFields(x));
      assert [b][1..] == [] && Map([b], ReadExemplar) == [ReadExemplar(b)] + Map([], ReadExemplar);
  }

  /** The data point of a counter or a gauge, found in a parsed message. */
  ghost predicate IsNumberPoint(b: seq<Field>, start: u64, time: u64, v: Number, e: Option<Exemplar>, attrs: Attrs) {
    && b != []
    && LastFixed64(b, 2) == start && LastFixed64(b, 3) == time && ReadNumber(b, 4, 6) == Some(v)
    && Map(Bodies(b, 5), ReadExemplar) == NormExemplar(e)
    && Map(Bodies(b, 7), ReadKeyValue) == Somes(attrs, NormAttr)
  }

  /** Times first, attributes last, value and exemplar between them in either order. */
  ghost predicate NumberLayout(fs: seq<Field>, k: nat, start: u64, time: u64, v: Number, e: Option<Exemplar>,
        attrs: Attrs) {
    var n := if e.Some? then 4 else 3;
    && |fs| == n + |attrs| && 2 <= k < n
    && fs[0] == Fixed64Field(2, start, false) && fs[1] == Fixed64Field(3, time, false)
    && fs[k] == NumberField(v, 4, 6)
    && (e.Some? ==> fs[5 - k] == MessageField(5, ExemplarFields(e.value)))
    && fs[n..n + |attrs|] == Rep(7, attrs, AttrFields) && (forall j | n <= j < |fs| :: fs[j].num == 7)
  }

  lemma NumberScalars(fs: seq<Field>, k: nat, start: u64, time: u64, v: Number, e: Option<Exemplar>, attrs: Attrs)
    requires NumberLayout(fs, k, start, time, v, e, attrs)
    ensures var b := Norm(fs);
      b != [] && LastFixed64(b, 2) == start && LastFixed64(b, 3) == time && ReadNumber(b, 4, 6) == Some(v)
  {
    ScalarAt(fs, 0);
    ScalarAt(fs, 1);
    NumberAt(fs, k, v, 4, 6);
  }

  lemma NumberPointReads(fs: seq<Field>, k: nat, start: u64, time: u64, v: Number, e: Option<Exemplar>, attrs: Attrs)
    requires NumberLayout(fs, k, start, time, v, e, attrs)
    ensures IsNumberPoint(Norm(fs), start, time, v, e, attrs)
  {
    NumberScalars(fs, k, start, time, v, e, attrs);
    OptExemplarAt(fs, 5, e, 5 - k);
    AttrsRead(attrs);
    RepeatedAt(fs, 7, |fs| - |attrs|, attrs, AttrFields, ReadKeyValue, NormAttr);
  }

  lemma NumberMidConforms(v: Number, e: Option<Exemplar>)
    ensures Conforms(OptExemplar(5, e), NUMBER_POINT_SCHEMA) && Conforms([NumberField(v, 4, 6)], NUMBER_POINT_SCHEMA)
  {
    hide ExemplarFields, Conforms;
    if e.Some? {
      ExemplarReads(e.value);
      SingleConforms(MessageField(5, ExemplarFields(e.value)), NUMBER_POINT_SCHEMA);
    } else {
      NoneConforms(NUMBER_POINT_SCHEMA);
    }
    SingleConforms(NumberField(v, 4, 6), NUMBER_POINT_SCHEMA);
  }

  lemma NoneConforms(sch: Schema)
    ensures Conforms([], sch)
  {
  }

  lemma NumberPointConforms(mid: seq<Field>, start: u64, time: u64, v: Number, e: Option<Exemplar>, attrs: Attrs)
    requires mid == OptExemplar(5, e) + [NumberField(v, 4, 6)] || mid == [NumberField(v, 4, 6)] + OptExemplar(5, e)
    ensures Conforms(PointTimes(start, time) + mid + Rep(7, attrs, AttrFields), NUMBER_POINT_SCHEMA)
  {
    AttrsRead(attrs);
    RepConforms(7, attrs, AttrFields, NUMBER_POINT_SCHEMA, KEY_VALUE_SCHEMA);
    NumberMidConforms(v, e);
    var times, attributes := PointTimes(start, time), Rep(7, attrs, AttrFields);
    assert FieldConforms(times[0], NUMBER_POINT_SCHEMA) && FieldConforms(times[1], NUMBER_POINT_SCHEMA);
    hide Conforms, FieldConforms, OptExemplar, NumberField, Rep, AttrFields, PointTimes;
    ConformsAppend(OptExemplar(5, e), [NumberField(v, 4, 6)], NUMBER_POINT_SCHEMA);
    ConformsAppend([NumberField(v, 4, 6)], OptExemplar(5, e), NUMBER_POINT_SCHEMA);
    PairConforms(times, NUMBER_POINT_SCHEMA);
    ConformsAppend(times, mid, NUMBER_POINT_SCHEMA);
    ConformsAppend(times + mid, attributes, NUMBER_POINT_SCHEMA);
  }

  lemma CounterPointReads(p: CounterPoint, start: u64, time: u64)
    ensures ReadsAs(p, CounterPointAt(start, time), ReadNumberPoint, NormCounterPoint(start, time))
    ensures Conforms(CounterPointFields(p, start, time), NUMBER_POINT_SCHEMA)
  {
    var v := IntNumber(p.value);
    var mid := OptExemplar(5, p.exemplar) + [NumberField(v, 4, 6)];
    NumberPointReads(CounterPointFields(p, start, time), |mid| + 1, start, time, v, p.exemplar, p.attrs);
    NumberPointConforms(mid, start, time, v, p.exemplar, p.attrs);
  }

  lemma GaugePointReads(p: GaugePoint, start: u64, time: u64)
    ensures ReadsAs(p, GaugePointAt(start, time), ReadNumberPoint, NormGaugePoint(start, time))
    ensures Conforms(GaugePointFields(p, start, time), NUMBER_POINT_SCHEMA)
  {
    var v := DoubleNumber(p.bits);
    var mid := [NumberField(v, 4, 6)] + OptExemplar(5, p.exemplar);
    NumberPointReads(GaugePointFields(p, start, time), 2, start, time, v, p.exemplar, p.attrs);
    NumberPointConforms(mid, start, time, v, p.exemplar, p.attrs);
  }

  /** The data point of a histogram, found in a parsed message. */
  ghost predicate HasTotals(b: seq<Field>, p: HistogramPoint, boundaries: seq<u64>, start: u64, time: u64) {
    && b != []
    && LastFixed64(b, 2) == start && LastFixed64(b, 3) == time
    && LastFixed64(b, 4) == p.count && LastFixed64(b, 5) == p.sum
    && Elements(b, 6) == p.bucketCounts && Elements(b, 7) == boundaries
  }

  ghost predicate HasRest(b: seq<Field>, p: HistogramPoint) {
    && Map(Bodies(b, 9), ReadKeyValue) == Somes(p.attrs, NormAttr)
    && Map(Bodies(b, 8), ReadExemplar) == NormExemplar(p.exemplar)
    && LastFixed64(b, 11) == p.min && LastFixed64(b, 12) == p.max
  }

  /** The fields of a histogram data point by position. */
  ghost predicate HistogramLayout(fs: seq<Field>, p: HistogramPoint, boundaries: seq<u64>, start: u64, time: u64) {
    var n, x := 6 + |p.attrs|, if p.exemplar.Some? then 1 else 0;
    && |fs| == n + x + 2
    && fs[0] == Fixed64Field(2, start, false) && fs[1] == Fixed64Field(3, time, false)
    && fs[2] == Fixed64Field(4, p.count, true) && fs[3] == Fixed64Field(5, p.sum, true)
    && fs[4] == PackedField(6, p.bucketCounts) && fs[5] == PackedField(7, boundaries)
    && fs[6..6 + |p.attrs|] == Rep(9, p.attrs, AttrFields) && (forall j | 6 <= j < n :: fs[j].num == 9)
    && (p.exemplar.Some? ==> fs[n] == MessageField(8, ExemplarFields(p.exemplar.value)))
    && fs[n + x] == Fixed64Field(11, p.min, true) && fs[n + x + 1] == Fixed64Field(12, p.max, true)
  }

  lemma TimesRead(fs: seq<Field>, p: HistogramPoint, boundaries: seq<u64>, start: u64, time: u64)
    requires HistogramLayout(fs, p, boundaries, start, time)
    ensures var b := Norm(fs);
      LastFixed64(b, 2) == start && LastFixed64(b, 3) == time
  {
    ScalarAt(fs, 0);
    ScalarAt(fs, 1);
  }

  lemma CountsRead(fs: seq<Field>, p: HistogramPoint, boundaries: seq<u64>, start: u64, time: u64)
    requires HistogramLayout(fs, p, boundaries, start, time)
    ensures var b := Norm(fs);
      b != [] && LastFixed64(b, 4) == p.count && LastFixed64(b, 5) == p.sum
  {
    ScalarAt(fs, 2);
    ScalarAt(fs, 3);
    NeverEmpty(fs, 2);
  }

  lemma TotalsRead(fs: seq<Field>, p: HistogramPoint, boundaries: seq<u64>, start: u64, time: u64)
    requires HistogramLayout(fs, p, boundaries, start, time)
    ensures HasTotals(Norm(fs), p, boundaries, start, time)
  {
    TimesRead(fs, p, boundaries, start, time);
    CountsRead(fs, p, boundaries, start, time);
    ScalarAt(fs, 4);
    ScalarAt(fs, 5);
  }

  lemma RestReads(fs: seq<Field>, p: HistogramPoint, boundaries: seq<u64>, start: u64, time: u64)
    requires HistogramLayout(fs, p, boundaries, start, time)
    ensures HasRest(Norm(fs), p)
  {
    AttrsRead(p.attrs);
    RepeatedAt(fs, 9, 6, p.attrs, AttrFields, ReadKeyValue, NormAttr);
    TailReads(fs, p, boundaries, start, time);
  }

  lemma TailReads(fs: seq<Field>, p: HistogramPoint, boundaries: seq<u64>, start: u64, time: u64)
    requires HistogramLayout(fs, p, boundaries, start, time)
    ensures Map(Bodies(Norm(fs), 8), ReadExemplar) == NormExemplar(p.exemplar)
    ensures LastFixed64(Norm(fs), 11) == p.min && LastFixed64(Norm(fs), 12) == p.max
  {
    hide Norm, LastFixed64, Bodies, Map, Somes;
    OptExemplarAt(fs, 8, p.exemplar, 6 + |p.attrs|);
    ScalarAt(fs, |fs| - 2);
    ScalarAt(fs, |fs| - 1);
  }

  lemma HistogramPointReads(p: HistogramPoint, boundaries: seq<u64>, start: u64, time: u64)
    ensures ReadsAs(p, HistogramPointAt(boundaries, start, time), ReadHistogramPoint,
      NormHistogramPoint(boundaries, start, time))
  {
    var fs := HistogramPointFields(p, boundaries, start, time);
    assert HistogramLayout(fs, p, boundaries, start, time);
    TotalsRead(fs, p, boundaries, start, time);
    RestReads(fs, p, boundaries, start, time);
  }

  lemma HistogramTailConforms(p: HistogramPoint)
    ensures Conforms(HistogramTail(p), HISTOGRAM_POINT_SCHEMA)
  {
    if p.exemplar.Some? {
      ExemplarReads(p.exemplar.value);
    }
    assert Conforms(OptExemplar(8, p.exemplar), HISTOGRAM_POINT_SCHEMA);
    PairConforms(HistogramExtremes(p), HISTOGRAM_POINT_SCHEMA);
    ConformsAppend(OptExemplar(8, p.exemplar), HistogramExtremes(p), HISTOGRAM_POINT_SCHEMA);
  }

  lemma HistogramHeadConforms(p: HistogramPoint, boundaries: seq<u64>, start: u64, time: u64)
    ensures Conforms(HistogramHead(p, boundaries, start, time), HISTOGRAM_POINT_SCHEMA)
  {
    PairConforms(PointTimes(start, time), HISTOGRAM_POINT_SCHEMA);
    PairConforms(HistogramTotals(p), HISTOGRAM_POINT_SCHEMA);
    PairConforms(HistogramBuckets(p, boundaries), HISTOGRAM_POINT_SCHEMA);
    ConformsAppend(PointTimes(start, time), HistogramTotals(p), HISTOGRAM_POINT_SCHEMA);
    ConformsAppend(PointTimes(start, time) + HistogramTotals(p), HistogramBuckets(p, boundaries),
      HISTOGRAM_POINT_SCHEMA);
  }

  lemma HistogramPointConforms(p: HistogramPoint, boundaries: seq<u64>, start: u64, time: u64)
    ensures Conforms(HistogramPointFields(p, boundaries, start, time), HISTOGRAM_POINT_SCHEMA)
  {
    var head, attrs, tail := HistogramHead(p, boundaries, start, time), Rep(9, p.attrs, AttrFields), HistogramTail(p);
    AttrsRead(p.attrs);
    RepConforms(9, p.attrs, AttrFields, HISTOGRAM_POINT_SCHEMA, KEY_VALUE_SCHEMA);
    HistogramHeadConforms(p, boundaries, start, time);
    HistogramTailConforms(p);
    ConformsAppend(head, attrs, HISTOGRAM_POINT_SCHEMA);
    ConformsAppend(head + attrs, tail, HISTOGRAM_POINT_SCHEMA);
  }

  lemma CounterPointsRead(ps: seq<CounterPoint>, start: u64, time: u64)
    ensures forall p | p in ps ::
      ReadsAs(p, CounterPointAt(start, time), ReadNumberPoint, NormCounterPoint(start, time))
    ensures Conforms(Rep(1, ps, CounterPointAt(start, time)), SUM_SCHEMA)
  {
    forall p | p in ps
      ensures ReadsAs(p, CounterPointAt(start, time), ReadNumberPoint, NormCounterPoint(start, time))
      ensures Conforms(CounterPointAt(start, time)(p), NUMBER_POINT_SCHEMA)
    {
      CounterPointReads(p, start, time);
    }
    RepConforms(1, ps, CounterPointAt(start, time), SUM_SCHEMA, NUMBER_POINT_SCHEMA);
  }

  lemma SumReads(ps: seq<CounterPoint>, start: u64, time: u64)
    ensures var b := Norm(SumFields(ps, start, time));
      && b != [] && Map(Bodies(b, 1), ReadNumberPoint) == Somes(ps, NormCounterPoint(start, time))
      && LastVarint(b, 2) == 2 && LastVarint(b, 3) == 1
  {
    hide Norm, LastVarint, Bodies, Map, Somes, CounterPointFields, ReadNumberPoint;
    var fs, n := SumFields(ps, start, time), |ps|;
    CounterPointsRead(ps, start, time);
    assert fs[0..0 + n] == Rep(1, ps, CounterPointAt(start, time));
    RepeatedAt(fs, 1, 0, ps, CounterPointAt(start, time), ReadNumberPoint, NormCounterPoint(start, time));
    ScalarAt(fs, n);
    ScalarAt(fs, n + 1);
    NeverEmpty(fs, n);
  }

  lemma GaugeReads(ps: seq<GaugePoint>, start: u64, time: u64)
    ensures var b := Norm(GaugeFields(ps, start, time));
      && (b == [] <==> ps == [])
      && Map(Bodies(b, 1), ReadNumberPoint) == Somes(ps, NormGaugePoint(start, time))
    ensures Conforms(GaugeFields(ps, start, time), GAUGE_SCHEMA)
  {
    var fs := GaugeFields(ps, start, time);
    forall p | p in ps
      ensures ReadsAs(p, GaugePointAt(start, time), ReadNumberPoint, NormGaugePoint(start, time))
      ensures Conforms(GaugePointAt(start, time)(p), NUMBER_POINT_SCHEMA)
    {
      GaugePointReads(p, start, time);
    }
    assert fs[0..0 + |ps|] == fs;
    RepeatedAt(fs, 1, 0, ps, GaugePointAt(start, time), ReadNumberPoint, NormGaugePoint(start, time));
    RepRoundTrip(1, ps, GaugePointAt(start, time), ReadNumberPoint, NormGaugePoint(start, time));
    RepConforms(1, ps, GaugePointAt(start, time), GAUGE_SCHEMA, NUMBER_POINT_SCHEMA);
  }

  lemma HistogramReads(ps: seq<HistogramPoint>, bs: seq<u64>, start: u64, time: u64)
    ensures var b := Norm(HistogramFields(ps, bs, start, time));
      && b != [] && Map(Bodies(b, 1), ReadHistogramPoint) == Somes(ps, NormHistogramPoint(bs, start, time))
      && LastVarint(b, 2) == 2
    ensures Conforms(HistogramFields(ps, bs, start, time), HISTOGRAM_SCHEMA)
  {
    var fs, n := HistogramFields(ps, bs, start, time), |ps|;
    forall p | p in ps
      ensures ReadsAs(p, HistogramPointAt(bs, start, time), ReadHistogramPoint, NormHistogramPoint(bs, start, time))
      ensures Conforms(HistogramPointAt(bs, start, time)(p), HISTOGRAM_POINT_SCHEMA)
    {
      HistogramPointReads(p, bs, start, time);
      HistogramPointConforms(p, bs, start, time);
    }
    assert fs[0..0 + n] == Rep(1, ps, HistogramPointAt(bs, start, time));
    RepeatedAt(fs, 1, 0, ps, HistogramPointAt(bs, start, time), ReadHistogramPoint,
      NormHistogramPoint(bs, start, time));
    ScalarAt(fs, n);
    NeverEmpty(fs, n);
    RepConforms(1, ps, HistogramPointAt(bs, start, time), HISTOGRAM_SCHEMA, HISTOGRAM_POINT_SCHEMA);
  }

  lemma DataReads(m: Metric, start: u64, time: u64)
    ensures var f := DataField(m, start, time);
      && (Norm(f.body) == [] <==> NormData(m, start, time).NoData?)
      && (Norm(f.body) != [] ==> DataOf(f.num, Norm(f.body)) == NormData(m, start, time))
  {
    match m
    case Counter(_, _, ps) => SumReads(ps, start, time);
    case Gauge(_, _, ps) => GaugeReads(ps, start, time);
    case Histogram(_, _, bs, ps) => HistogramReads(ps, bs, start, time);
  }

  lemma DataConforms(m: Metric, start: u64, time: u64)
    ensures FieldConforms(DataField(m, start, time), METRIC_SCHEMA)
  {
    match m
    case Counter(_, _, ps) =>
      CounterPointsRead(ps, start, time);
      PairConforms([VarintField(2, 2, false), VarintField(3, 1, false)], SUM_SCHEMA);
      ConformsAppend(Rep(1, ps, CounterPointAt(start, time)), [VarintField(2, 2, false), VarintField(3, 1, false)],
        SUM_SCHEMA);
    case Gauge(_, _, ps) => GaugeReads(ps, start, time);
    case Histogram(_, _, bs, ps) => HistogramReads(ps, bs, start, time);
  }

  lemma MetricConforms(m: Metric, start: u64, time: u64)
    ensures Conforms(MetricFields(m, start, time), METRIC_SCHEMA)
  {
    DataConforms(m, start, time);
    assert FieldConforms(BytesField(1, m.name), METRIC_SCHEMA)
      && FieldConforms(BytesField(2, m.description), METRIC_SCHEMA);
  }

  /** A metric with its data at the end, whatever the data. */
  ghost predicate MetricLayout(fs: seq<Field>, name: seq<byte>, description: seq<byte>, data: Field) {
    && |fs| == 3 && fs[0] == BytesField(1, name) && fs[1] == BytesField(2, description) && fs[2] == data
    && data.MessageField? && data.num in {5, 7, 9}
  }

  lemma MetricEmpty(fs: seq<Field>, name: seq<byte>, description: seq<byte>, data: Field)
    requires MetricLayout(fs, name, description, data)
    ensures Norm(fs) == [] <==> name == [] && description == [] && Norm(data.body) == []
  {
    assert fs == [fs[0], fs[1]] + [data];
    NormAppend([fs[0], fs[1]], [data]);
    NormPair(fs[0], fs[1]);
    NormSingle(data);
  }

  lemma MetricParts(fs: seq<Field>, name: seq<byte>, description: seq<byte>, data: Field)
    requires MetricLayout(fs, name, description, data)
    ensures var b := Norm(fs);
      && LastBytes(b, 1) == name && LastBytes(b, 2) == description
      && ReadData(b) == if Norm(data.body) == [] then NoData else DataOf(data.num, Norm(data.body))
  {
    ScalarAt(fs, 0);
    ScalarAt(fs, 1);
    PickOnly(fs, {5, 7, 9}, 2);
    MessageAt(fs, 2);
  }

  lemma MetricReads(m: Metric, start: u64, time: u64)
    ensures ReadsAs(m, MetricAt(start, time), ReadMetric, NormMetric(start, time))
  {
    MetricParts(MetricFields(m, start, time), m.name, m.description, DataField(m, start, time));
    MetricEmpty(MetricFields(m, start, time), m.name, m.description, DataField(m, start, time));
    DataReads(m, start, time);
  }

  /** A metrics request decodes to its input up to the empty values the format cannot carry. */
  lemma MetricsRoundTrip(attrs: seq<KeyValue>, name: seq<byte>, version: seq<byte>, ms: seq<Metric>, start: u64,
        time: u64)
    requires |Emit(RequestFields(attrs, name, version, ms, MetricAt(start, time)))| < TWO_64
    ensures DecodeMetricsRequest(Emit(RequestFields(attrs, name, version, ms, MetricAt(start, time))))
         == Some(NormRequest(attrs, name, version, ms, NormMetric(start, time)))
  {
    forall m | m in ms
      ensures ReadsAs(m, MetricAt(start, time), ReadMetric, NormMetric(start, time))
      ensures Conforms(MetricAt(start, time)(m), METRIC_SCHEMA)
    {
      MetricReads(m, start, time);
      MetricConforms(m, start, time);
    }
    RequestRoundTrip(attrs, name, version, ms, MetricAt(start, time), ReadMetric, NormMetric(start, time),
      METRIC_SCHEMA);
  }

  /** The export call: its bytes decode to the request it was given. */
  method EncodeExportMetricsRequest(attrs: seq<KeyValue>, name: seq<byte>, version: seq<byte>, ms: seq<Metric>,
        start: u64, time: u64)
    returns (request: seq<byte>)
    requires |Emit(EnvelopeFields(attrs, name, version, ms, MetricAt(start, time)))| < TWO_35
    ensures request == Emit(RequestFields(attrs, name, version, ms, MetricAt(start, time)))
    ensures DecodeMetricsRequest(request) == Some(NormRequest(attrs, name, version, ms, NormMetric(start, time)))
  {
    var buf := new ByteBuffer();
    var m := buf.OpenMessage(1);
    EncodeResourceMetrics(buf, attrs, name, version, ms, start, time);
    buf.CloseMessage(1, m, [], Emit(EnvelopeFields(attrs, name, version, ms, MetricAt(start, time))));
    request := buf.bytes;
    RequestBytes(attrs, name, version, ms, MetricAt(start, time));
    MetricsRoundTrip(attrs, name, version, ms, start, time);
  }
}
