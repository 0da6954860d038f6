/**
 One round of the metrics loop: take a snapshot of every instrument, encode all of them in one request, and
 hand it to the exporter. What a collector decodes says, key by key, what was recorded.
 */
module MetricsExport {
  import opened Bytes
  import opened Wire
  import opened WireReader
  import opened OtlpCommon
  import opened Attributes
  import opened Aggregation
  import opened EndToEnd
  import I = Instruments
  import H = Histograms
  import M = OtlpMetrics
  import E = Exporter
  import X = ExporterProperties

  type Ex = M.Exemplar

  /**
   An instrument at a collection: its name, what happened to it so far, and the order in which its
   hash map lists the keys. Only histograms have bounds.
   */
  datatype Series<V> = Series(
    name: seq<byte>, description: seq<byte>, limit: nat, bounds: seq<H.Double>,
    evs: seq<I.Event<V, Ex>>, order: seq<u64>)

  /** How a histogram adds doubles, and the bits of a double and of a sum. */
  datatype Floats<!S> = Floats(zero: S, plus: (S, H.Double) -> S, bits: H.Double -> u64, sumBits: S -> u64)

  // --- The metrics of a snapshot ---

  ghost predicate Lists<V>(order: seq<u64>, m: map<u64, Point<V, Ex>>) {
    && (forall k :: k in m <==> k in order)
    && (forall i, j | 0 <= i < j < |order| :: order[i] != order[j])
  }

  /** The points of a map in the order of its keys. */
  function PointsOf<V, P>(m: map<u64, Point<V, Ex>>, order: seq<u64>, f: Point<V, Ex> -> P): seq<P> {
    if order == [] then []
    else (if order[0] in m then [f(m[order[0]])] else []) + PointsOf(m, order[1..], f)
  }

  lemma {:induction false} PointsListed<V, P>(m: map<u64, Point<V, Ex>>, order: seq<u64>, f: Point<V, Ex> -> P)
    requires forall k | k in order :: k in m
    ensures |PointsOf(m, order, f)| == |order|
    ensures forall i | 0 <= i < |order| :: PointsOf(m, order, f)[i] == f(m[order[i]])
  {
    if order == [] {
    } else {
      PointsListed(m, order[1..], f);
    }
  }

  function CounterPointOf(p: Point<i64, Ex>): M.CounterPoint {
    M.CounterPoint(p.attrs, p.value, p.exemplar)
  }

  function GaugePointOf(p: Point<u64, Ex>): M.GaugePoint {
    M.GaugePoint(p.attrs, p.value, p.exemplar)
  }

  /** Counts as the program's 64-bit words. */
  function Words(counts: seq<nat>): (r: seq<u64>)
    ensures |r| == |counts| && forall i | 0 <= i < |counts| :: r[i] == counts[i] % TWO_64
  {
    if counts == [] then [] else [counts[0] % TWO_64] + Words(counts[1..])
  }

  function HistogramPointOf<S>(fl: Floats<S>): Point<H.HistogramState<S>, Ex> -> M.HistogramPoint {
    (p: Point<H.HistogramState<S>, Ex>) => M.HistogramPoint(
      p.attrs, Words(p.value.counts), fl.sumBits(p.value.sum), p.value.count % TWO_64,
      fl.bits(p.value.min), fl.bits(p.value.max), p.exemplar)
  }

  function BoundBits<S>(fl: Floats<S>, bounds: seq<H.Double>): (r: seq<u64>)
    ensures |r| == |bounds| && forall i | 0 <= i < |bounds| :: r[i] == fl.bits(bounds[i])
  {
    if bounds == [] then [] else [fl.bits(bounds[0])] + BoundBits(fl, bounds[1..])
  }

  function CounterData(c: Series<u64>): map<u64, Point<i64, Ex>> {
    I.After(I.CounterOf(c.limit), c.evs)
  }

  function GaugeData(g: Series<u64>): map<u64, Point<u64, Ex>> {
    I.After(I.GaugeOf(g.limit), g.evs)
  }

  function HistogramInstrument<S>(fl: Floats<S>, h: Series<H.Double>): Instrument<u64, H.HistogramState<S>, H.Double> {
    H.HistogramOf(h.limit, h.bounds, fl.zero, fl.plus)
  }

  function HistogramData<S>(fl: Floats<S>, h: Series<H.Double>): map<u64, Point<H.HistogramState<S>, Ex>> {
    I.After(HistogramInstrument(fl, h), h.evs)
  }

  /** The metric of an instrument, or none if it was never used. */
  function CounterMetric(c: Series<u64>): Option<M.Metric> {
    if CounterData(c) == map[] then None
    else Some(M.Counter(c.name, c.description, PointsOf(CounterData(c), c.order, CounterPointOf)))
  }

  function GaugeMetric(g: Series<u64>): Option<M.Metric> {
    if GaugeData(g) == map[] then None
    else Some(M.Gauge(g.name, g.description, PointsOf(GaugeData(g), g.order, GaugePointOf)))
  }

  function HistogramMetric<S>(fl: Floats<S>): Series<H.Double> -> Option<M.Metric> {
    (h: Series<H.Double>) =>
      if HistogramData(fl, h) == map[] then None
      else
        var points := PointsOf(HistogramData(fl, h), h.order, HistogramPointOf(fl));
        Some(M.Histogram(h.name, h.description, BoundBits(fl, h.bounds), points))
  }

  /** All instruments at one round, and the times of the request. */
  datatype Round = Round(
    counters: seq<Series<u64>>, gauges: seq<Series<u64>>, histograms: seq<Series<H.Double>>, start: u64, time: u64)

  /** The metrics of a round, by kind. */
  function Metrics<S>(fl: Floats<S>, r: Round): seq<M.Metric> {
    Somes(r.counters, CounterMetric) + Somes(r.gauges, GaugeMetric) + Somes(r.histograms, HistogramMetric(fl))
  }

  ghost predicate RoundOk<S>(fl: Floats<S>, r: Round) {
    && (forall c | c in r.counters :: Lists(c.order, CounterData(c)))
    && (forall g | g in r.gauges :: Lists(g.order, GaugeData(g)))
    && (forall h | h in r.histograms :: Lists(h.order, HistogramData(fl, h)) && H.Increasing(h.bounds))
  }

  // --- What a decoded metric says ---

  /** What every decoded point has: the sorted attributes of the first use, and the window's last exemplar. */
  ghost predicate SaysPoint<V>(mine: seq<Update<V, Ex>>, window: seq<Update<V, Ex>>,
      attributes: seq<DecodedKeyValue>, exemplars: seq<M.DecodedExemplar>)
  {
    mine != [] && attributes == Somes(Owned(mine[0].attrs), M.NormAttr)
    && exemplars == M.NormExemplar(LastExemplar(window))
  }

  /** The wrapped sum of the adds, which is the sum itself exactly below 2^63. */
  ghost predicate SaysSum(mine: seq<Update<u64, Ex>>, v: Option<M.Number>) {
    && v.Some? && v.value.IntNumber? && v.value.i == I.Wrapped(I.Total(mine))
    && (v.value.i == I.Total(mine) <==> I.Total(mine) < TWO_63)
  }

  ghost predicate SaysCounterPoint(c: Series<u64>, k: u64, start: u64, time: u64, p: M.NumberPoint) {
    var ins := I.CounterOf(c.limit);
    var mine := Of(ins, I.Updates(c.evs), k);
    && p.start == start && p.time == time && SaysSum(mine, p.value)
    && SaysPoint(mine, Of(ins, I.Since(c.evs), k), p.attributes, p.exemplars)
  }

  ghost predicate SaysCounter(c: Series<u64>, start: u64, time: u64, d: M.DecodedMetric) {
    && d.name == c.name && d.description == c.description
    && d.data.SumData? && d.data.temporality == 2 && d.data.monotonic && |d.data.sum| == |c.order|
    && forall i | 0 <= i < |c.order| :: SaysCounterPoint(c, c.order[i], start, time, d.data.sum[i])
  }

  /** The value set last, bit for bit. */
  ghost predicate SaysGaugePoint(g: Series<u64>, k: u64, start: u64, time: u64, p: M.NumberPoint) {
    var ins := I.GaugeOf(g.limit);
    var mine := Of(ins, I.Updates(g.evs), k);
    && p.start == start && p.time == time
    && SaysPoint(mine, Of(ins, I.Since(g.evs), k), p.attributes, p.exemplars)
    && p.value == Some(M.DoubleNumber(mine[|mine| - 1].value))
  }

  ghost predicate SaysGauge(g: Series<u64>, start: u64, time: u64, d: M.DecodedMetric) {
    && d.name == g.name && d.description == g.description
    && d.data.GaugeData? && |d.data.gauge| == |g.order|
    && forall i | 0 <= i < |g.order| :: SaysGaugePoint(g, g.order[i], start, time, d.data.gauge[i])
  }

  /** The state of a key, which summarises all its observations, in words and bits. */
  ghost predicate SaysState<S>(fl: Floats<S>, h: Series<H.Double>, mine: seq<Update<H.Double, Ex>>,
      p: M.DecodedHistogramPoint)
  {
    var st := Value(HistogramInstrument(fl, h), mine);
    && H.Summarises(h.bounds, fl.zero, fl.plus, mine, st)
    && p.bucketCounts == Words(st.counts) && p.count == st.count % TWO_64 && p.sum == fl.sumBits(st.sum)
    && p.min == fl.bits(st.min) && p.max == fl.bits(st.max)
  }

  ghost predicate SaysHistogramPoint<S>(fl: Floats<S>, h: Series<H.Double>, k: u64, start: u64, time: u64,
      p: M.DecodedHistogramPoint)
  {
    var ins := HistogramInstrument(fl, h);
    var mine := Of(ins, I.Updates(h.evs), k);
    && p.start == start && p.time == time && p.boundaries == BoundBits(fl, h.bounds)
    && SaysState(fl, h, mine, p)
    && SaysPoint(mine, Of(ins, I.Since(h.evs), k), p.attributes, p.exemplars)
  }

  ghost predicate SaysHistogram<S>(fl: Floats<S>, h: Series<H.Double>, start: u64, time: u64, d: M.DecodedMetric) {
    && d.name == h.name && d.description == h.description
    && d.data.HistogramData? && d.data.temporality == 2 && |d.data.histogram| == |h.order|
    && forall i | 0 <= i < |h.order| :: SaysHistogramPoint(fl, h, h.order[i], start, time, d.data.histogram[i])
  }

  /** Something was recorded, and not all of it refused. */
  predicate WasUsed<V>(x: Series<V>) {
    x.limit > 0 && I.Updates(x.evs) != []
  }

  /** The instruments used, in order. */
  function Used<V>(xs: seq<Series<V>>): seq<Series<V>> {
    if xs == [] then []
    else (if WasUsed(xs[0]) then [xs[0]] else []) + Used(xs[1..])
  }

  /** The decoded metrics are, kind by kind and in order, those of the instruments used. */
  ghost predicate SaysRound<S>(fl: Floats<S>, r: Round, ds: seq<M.DecodedMetric>) {
    var cs, gs, hs := Used(r.counters), Used(r.gauges), Used(r.histograms);
    && |ds| == |cs| + |gs| + |hs|
    && (forall i | 0 <= i < |cs| :: SaysCounter(cs[i], r.start, r.time, ds[i]))
    && (forall i | 0 <= i < |gs| :: SaysGauge(gs[i], r.start, r.time, ds[|cs| + i]))
    && (forall i | 0 <= i < |hs| :: SaysHistogram(fl, hs[i], r.start, r.time, ds[|cs| + |gs| + i]))
  }

  // --- Why it says that ---

  lemma {:induction false} SomesOfAll<T, D>(xs: seq<T>, norm: T -> Option<D>)
    requires forall i | 0 <= i < |xs| :: norm(xs[i]).Some?
    ensures |Somes(xs, norm)| == |xs| && forall i | 0 <= i < |xs| :: Some(Somes(xs, norm)[i]) == norm(xs[i])
  {
    if xs == [] {
    } else {
      SomesOfAll(xs[1..], norm);
    }
  }

  lemma {:induction false} SomesAppend<T, D>(a: seq<T>, b: seq<T>, norm: T -> Option<D>)
    ensures Somes(a + b, norm) == Somes(a, norm) + Somes(b, norm)
  {
    if a == [] {
      assert a + b == b;
    } else {
      assert (a + b)[0] == a[0] && (a + b)[1..] == a[1..] + b;
      SomesAppend(a[1..], b, norm);
      Assoc3(if norm(a[0]).Some? then [norm(a[0]).value] else [], Somes(a[1..], norm), Somes(b, norm));
    }
  }

  lemma {:induction false} UsedMetrics<V>(xs: seq<Series<V>>, metric: Series<V> -> Option<M.Metric>)
    requires forall x | x in xs :: metric(x).Some? <==> WasUsed(x)
    ensures var us := Used(xs);
      && |Somes(xs, metric)| == |us|
      && forall i | 0 <= i < |us| :: us[i] in xs && metric(us[i]) == Some(Somes(xs, metric)[i])
  {
    if xs == [] {
    } else {
      UsedMetrics(xs[1..], metric);
      assert xs == [xs[0]] + xs[1..];
    }
  }

  /** A map is empty exactly if nothing was recorded or nothing admitted. */
  lemma EmptyIff<V, X>(limit: nat, init: V, step: (V, X) -> V, evs: seq<I.Event<X, Ex>>)
    ensures I.After(ByHash(limit, init, step), evs) == map[] <==> limit == 0 || I.Updates(evs) == []
  {
    var ins, us := ByHash(limit, init, step), I.Updates(evs);
    I.CollectSees(ins, evs);
    AggregationIsFold(ins, us);
    AdmittedAreFirst(limit, init, step, us);
    NoneFirstIff(limit, us);
    hide I.After, I.Updates, I.Since, Fold, FirstKeys, Admitted, Of, LastExemplar;
    assert I.After(ins, evs) == map[] <==> I.After(ins, evs).Keys == {};
    assert |Fold(ins, us)| == |Fold(ins, us).Keys|;
  }

  lemma NoneFirstIff<V>(limit: nat, us: seq<Update<V, Ex>>)
    ensures FirstKeys(limit, us) == [] <==> limit == 0 || us == []
  {
    if us != [] {
      var ks := FirstKeys(limit, us[..|us| - 1]);
    }
  }

  lemma CounterUsed(c: Series<u64>)
    ensures CounterMetric(c).Some? <==> WasUsed(c)
  {
    EmptyIff(c.limit, 0, I.AddStep, c.evs);
  }

  lemma GaugeUsed(g: Series<u64>)
    ensures GaugeMetric(g).Some? <==> WasUsed(g)
  {
    EmptyIff(g.limit, 0, I.SetStep, g.evs);
  }

  lemma HistogramUsed<S>(fl: Floats<S>, h: Series<H.Double>)
    ensures HistogramMetric(fl)(h).Some? <==> WasUsed(h)
  {
    var ins := HistogramInstrument(fl, h);
    EmptyIff(h.limit, ins.init, ins.step, h.evs);
  }

  lemma CounterPointSays(c: Series<u64>, k: u64, start: u64, time: u64)
    requires k in CounterData(c)
    ensures var p := CounterPointOf(CounterData(c)[k]);
      SaysCounterPoint(c, k, start, time, M.NormCounterPoint(start, time)(p).value)
  {
    hide I.After, I.Updates, I.Since, I.Total, I.Wrapped, Of, Owned, Value, LastExemplar, I.CounterOf;
    var ins := I.CounterOf(c.limit);
    I.PointAfter(ins, c.evs, k);
    I.ValueIsWrapped(c.limit, Of(ins, I.Updates(c.evs), k));
    I.CounterValue(c.limit, Of(ins, I.Updates(c.evs), k));
  }

  lemma CounterSays(c: Series<u64>, start: u64, time: u64)
    requires Lists(c.order, CounterData(c)) && CounterMetric(c).Some?
    ensures var d := M.NormMetric(start, time)(CounterMetric(c).value); d.Some? && SaysCounter(c, start, time, d.value)
  {
    hide CounterData, SaysCounterPoint, PointsOf, Somes;
    var m := CounterData(c);
    var ps := PointsOf(m, c.order, CounterPointOf);
    PointsListed(m, c.order, CounterPointOf);
    SomesOfAll(ps, M.NormCounterPoint(start, time));
    forall i | 0 <= i < |c.order|
      ensures SaysCounterPoint(c, c.order[i], start, time, Somes(ps, M.NormCounterPoint(start, time))[i])
    {
      CounterPointSays(c, c.order[i], start, time);
    }
  }

  lemma GaugePointSays(g: Series<u64>, k: u64, start: u64, time: u64)
    requires k in GaugeData(g)
    ensures SaysGaugePoint(g, k, start, time, M.NormGaugePoint(start, time)(GaugePointOf(GaugeData(g)[k])).value)
  {
    hide I.After, I.Updates, I.Since, Of, Owned, Value, LastExemplar, I.GaugeOf;
    var ins := I.GaugeOf(g.limit);
    I.PointAfter(ins, g.evs, k);
    LastSet(g.limit, Of(ins, I.Updates(g.evs), k));
  }

  lemma LastSet(limit: nat, us: seq<Update<u64, Ex>>)
    requires us != []
    ensures Value(I.GaugeOf(limit), us) == us[|us| - 1].value
  {
  }

  lemma GaugeSays(g: Series<u64>, start: u64, time: u64)
    requires Lists(g.order, GaugeData(g)) && GaugeMetric(g).Some?
    ensures var d := M.NormMetric(start, time)(GaugeMetric(g).value); d.Some? && SaysGauge(g, start, time, d.value)
  {
    hide GaugeData, SaysGaugePoint, PointsOf, Somes;
    var m := GaugeData(g);
    var ps := PointsOf(m, g.order, GaugePointOf);
    PointsListed(m, g.order, GaugePointOf);
    SomesOfAll(ps, M.NormGaugePoint(start, time));
    assert g.order != [] by {
      var k :| k in m;
      assert k in g.order;
    }
    forall i | 0 <= i < |g.order|
      ensures SaysGaugePoint(g, g.order[i], start, time, Somes(ps, M.NormGaugePoint(start, time))[i])
    {
      GaugePointSays(g, g.order[i], start, time);
    }
  }

  lemma HistogramPointSays<S>(fl: Floats<S>, h: Series<H.Double>, k: u64, start: u64, time: u64)
    requires k in HistogramData(fl, h) && H.Increasing(h.bounds)
    ensures var p := HistogramPointOf(fl)(HistogramData(fl, h)[k]);
      SaysHistogramPoint(fl, h, k, start, time, M.NormHistogramPoint(BoundBits(fl, h.bounds), start, time)(p).value)
  {
    hide I.After, I.Updates, I.Since, Of, Owned, Value, LastExemplar, H.HistogramOf, H.Summarises, H.Increasing;
    hide Words, BoundBits;
    var ins := HistogramInstrument(fl, h);
    I.PointAfter(ins, h.evs, k);
    H.StateSummarises(h.limit, h.bounds, fl.zero, fl.plus, Of(ins, I.Updates(h.evs), k));
  }

  lemma HistogramSays<S>(fl: Floats<S>, h: Series<H.Double>, start: u64, time: u64)
    requires Lists(h.order, HistogramData(fl, h)) && H.Increasing(h.bounds) && HistogramMetric(fl)(h).Some?
    ensures var d := M.NormMetric(start, time)(HistogramMetric(fl)(h).value);
      d.Some? && SaysHistogram(fl, h, start, time, d.value)
  {
    hide HistogramData, SaysHistogramPoint, PointsOf, Somes, BoundBits, HistogramPointOf, H.Increasing;
    var m, bs := HistogramData(fl, h), BoundBits(fl, h.bounds);
    var ps := PointsOf(m, h.order, HistogramPointOf(fl));
    PointsListed(m, h.order, HistogramPointOf(fl));
    SomesOfAll(ps, M.NormHistogramPoint(bs, start, time));
    forall i | 0 <= i < |h.order|
      ensures SaysHistogramPoint(fl, h, h.order[i], start, time, Somes(ps, M.NormHistogramPoint(bs, start, time))[i])
    {
      HistogramPointSays(fl, h, h.order[i], start, time);
    }
  }

  lemma CountersSay(cs: seq<Series<u64>>, start: u64, time: u64)
    requires forall c | c in cs :: Lists(c.order, CounterData(c))
    ensures var us, ms := Used(cs), Somes(cs, CounterMetric);
      var ds := Somes(ms, M.NormMetric(start, time));
      |us| == |ms| == |ds| && forall i | 0 <= i < |us| :: SaysCounter(us[i], start, time, ds[i])
  {
    hide CounterMetric, SaysCounter, Used, Somes, Lists;
    var us, ms := Used(cs), Somes(cs, CounterMetric);
    forall c | c in cs ensures CounterMetric(c).Some? <==> WasUsed(c) {
      CounterUsed(c);
    }
    UsedMetrics(cs, CounterMetric);
    forall i | 0 <= i < |us|
      ensures var d := M.NormMetric(start, time)(ms[i]); d.Some? && SaysCounter(us[i], start, time, d.value)
    {
      CounterSays(us[i], start, time);
    }
    SomesOfAll(ms, M.NormMetric(start, time));
  }

  lemma GaugesSay(gs: seq<Series<u64>>, start: u64, time: u64)
    requires forall g | g in gs :: Lists(g.order, GaugeData(g))
    ensures var us, ms := Used(gs), Somes(gs, GaugeMetric);
      var ds := Somes(ms, M.NormMetric(start, time));
      |us| == |ms| == |ds| && forall i | 0 <= i < |us| :: SaysGauge(us[i], start, time, ds[i])
  {
    hide GaugeMetric, SaysGauge, Used, Somes, Lists;
    var us, ms := Used(gs), Somes(gs, GaugeMetric);
    forall g | g in gs ensures GaugeMetric(g).Some? <==> WasUsed(g) {
      GaugeUsed(g);
    }
    UsedMetrics(gs, GaugeMetric);
    forall i | 0 <= i < |us|
      ensures var d := M.NormMetric(start, time)(ms[i]); d.Some? && SaysGauge(us[i], start, time, d.value)
    {
      GaugeSays(us[i], start, time);
    }
    SomesOfAll(ms, M.NormMetric(start, time));
  }

  lemma HistogramsSay<S>(fl: Floats<S>, hs: seq<Series<H.Double>>, start: u64, time: u64)
    requires forall h | h in hs :: Lists(h.order, HistogramData(fl, h)) && H.Increasing(h.bounds)
    ensures var us, ms := Used(hs), Somes(hs, HistogramMetric(fl));
      var ds := Somes(ms, M.NormMetric(start, time));
      |us| == |ms| == |ds| && forall i | 0 <= i < |us| :: SaysHistogram(fl, us[i], start, time, ds[i])
  {
    hide HistogramMetric, SaysHistogram, Used, Somes, Lists, H.Increasing;
    var us, ms := Used(hs), Somes(hs, HistogramMetric(fl));
    forall h | h in hs ensures HistogramMetric(fl)(h).Some? <==> WasUsed(h) {
      HistogramUsed(fl, h);
    }
    UsedMetrics(hs, HistogramMetric(fl));
    forall i | 0 <= i < |us|
      ensures var d := M.NormMetric(start, time)(ms[i]); d.Some? && SaysHistogram(fl, us[i], start, time, d.value)
    {
      HistogramSays(fl, us[i], start, time);
    }
    SomesOfAll(ms, M.NormMetric(start, time));
  }

  /** Every metric of a round survives encoding, and says what its instrument holds. */
  lemma MetricsSay<S>(fl: Floats<S>, r: Round)
    requires RoundOk(fl, r)
    ensures var ms := Metrics(fl, r);
      var ds := Somes(ms, M.NormMetric(r.start, r.time));
      |ds| == |ms| && SaysRound(fl, r, ds)
  {
    hide SaysCounter, SaysGauge, SaysHistogram, Used, Somes, Lists, H.Increasing;
    var norm := M.NormMetric(r.start, r.time);
    var cs, gs := Somes(r.counters, CounterMetric), Somes(r.gauges, GaugeMetric);
    var hs := Somes(r.histograms, HistogramMetric(fl));
    CountersSay(r.counters, r.start, r.time);
    GaugesSay(r.gauges, r.start, r.time);
    HistogramsSay(fl, r.histograms, r.start, r.time);
    SomesAppend(cs + gs, hs, norm);
    SomesAppend(cs, gs, norm);
    hide CounterMetric, GaugeMetric, HistogramMetric, M.NormMetric;
  }

  lemma NoMetricsIff<S>(fl: Floats<S>, r: Round)
    requires RoundOk(fl, r)
    ensures Metrics(fl, r) == [] <==> Used(r.counters) == [] && Used(r.gauges) == [] && Used(r.histograms) == []
  {
    hide SaysCounter, SaysGauge, SaysHistogram, Used, Somes, CounterMetric, GaugeMetric, HistogramMetric;
    MetricsSay(fl, r);
  }

  // --- The request of a round ---

  /** Who exports: the resource and the scope of every request. */
  datatype Source = Source(attrs: seq<KeyValue>, scope: seq<byte>, version: seq<byte>)

  function RequestBytesOf<S>(src: Source, fl: Floats<S>, r: Round): seq<byte> {
    Emit(RequestFields(src.attrs, src.scope, src.version, Metrics(fl, r), M.MetricAt(r.start, r.time)))
  }

  ghost predicate Fits<S>(src: Source, fl: Floats<S>, r: Round) {
    |Emit(EnvelopeFields(src.attrs, src.scope, src.version, Metrics(fl, r), M.MetricAt(r.start, r.time)))| < TWO_35
  }

  function EntriesOf<S>(src: Source, fl: Floats<S>, r: Round): seq<Envelope<M.DecodedMetric>> {
    NormRequest(src.attrs, src.scope, src.version, Metrics(fl, r), M.NormMetric(r.start, r.time))
  }

  /** A request of a round in which something was used: one entry, with one group that says the round. */
  ghost predicate EntriesSay<S>(fl: Floats<S>, r: Round, es: seq<Envelope<M.DecodedMetric>>) {
    |es| == 1 && |es[0].groups| == 1 && SaysRound(fl, r, es[0].groups[0].items)
  }

  lemma RoundSays<S>(src: Source, fl: Floats<S>, r: Round)
    requires RoundOk(fl, r) && Metrics(fl, r) != []
    ensures EntriesSay(fl, r, EntriesOf(src, fl, r))
  {
    hide Metrics, SaysRound, RoundOk, Somes;
    MetricsSay(fl, r);
  }

  lemma RoundDecodes<S>(src: Source, fl: Floats<S>, r: Round)
    requires Fits(src, fl, r)
    ensures M.DecodeMetricsRequest(RequestBytesOf(src, fl, r)) == Some(EntriesOf(src, fl, r))
  {
    hide M.DecodeMetricsRequest, Emit, Metrics, NormRequest;
    RequestBytes(src.attrs, src.scope, src.version, Metrics(fl, r), M.MetricAt(r.start, r.time));
    M.MetricsRoundTrip(src.attrs, src.scope, src.version, Metrics(fl, r), r.start, r.time);
  }

  // --- The loop, in place ---

  /** A registered instrument, and the order in which its hash map lists the keys. */
  datatype Named<C> = Named(name: seq<byte>, description: seq<byte>, instrument: C, order: seq<u64>)

  ghost function CounterSeries(n: Named<I.Counter<Ex>>): Series<u64>
    reads n.instrument
  {
    Series(n.name, n.description, n.instrument.limit, [], n.instrument.history, n.order)
  }

  ghost function GaugeSeries(n: Named<I.Gauge<Ex>>): Series<u64>
    reads n.instrument
  {
    Series(n.name, n.description, n.instrument.limit, [], n.instrument.history, n.order)
  }

  ghost function HistogramSeries<S>(n: Named<H.Histogram<S, Ex>>): Series<H.Double>
    reads n.instrument
  {
    Series(n.name, n.description, n.instrument.limit, n.instrument.boundaries, n.instrument.history, n.order)
  }

  ghost predicate CounterIs(c: Named<I.Counter<Ex>>, before: Series<u64>)
    reads c.instrument
  {
    c.instrument.Valid() && before == CounterSeries(c)
  }

  ghost predicate CounterTaken(c: Named<I.Counter<Ex>>, before: Series<u64>)
    reads c.instrument
  {
    c.instrument.Valid() && c.instrument.history == before.evs + [I.Collect]
  }

  /** The snapshot of one counter, if it was ever used. */
  method TakeCounter(c: Named<I.Counter<Ex>>, ghost before: Series<u64>) returns (m: Option<M.Metric>)
    requires CounterIs(c, before)
    modifies c.instrument
    ensures CounterTaken(c, before)
    ensures m == CounterMetric(before)
  {
    hide I.After, PointsOf, H.HistogramOf, H.Increasing, I.Sees;
    var points := c.instrument.TakeSnapshot();
    if points.None? {
      return None;
    }
    m := Some(M.Counter(c.name, c.description, PointsOf(points.value, c.order, CounterPointOf)));
  }

  /** Snapshots of all counters; unused ones are passed over. */
  method TakeCounters(cs: seq<Named<I.Counter<Ex>>>, ghost before: seq<Series<u64>>) returns (ms: seq<M.Metric>)
    requires |before| == |cs|
    requires forall i | 0 <= i < |cs| :: CounterIs(cs[i], before[i])
    requires forall i, j | 0 <= i < j < |cs| :: cs[i].instrument != cs[j].instrument
    modifies set c | c in cs :: c.instrument
    ensures ms == Somes(before, CounterMetric)
    ensures forall i | 0 <= i < |cs| :: CounterTaken(cs[i], before[i])
  {
    hide Somes, CounterMetric, GaugeMetric, CounterIs, CounterTaken, GaugeIs, GaugeTaken;
    NoMetric(before, CounterMetric);
    ms := [];
    for j := 0 to |cs|
      invariant ms + Somes(before[j..], CounterMetric) == Somes(before, CounterMetric)
      invariant forall i | 0 <= i < j :: CounterTaken(cs[i], before[i])
      invariant forall i | j <= i < |cs| :: CounterIs(cs[i], before[i])
    {
      NextMetric(before, j, CounterMetric);
      Assoc3(ms, if CounterMetric(before[j]).Some? then [CounterMetric(before[j]).value] else [],
        Somes(before[j + 1..], CounterMetric));
      var m := TakeCounter(cs[j], before[j]);
      if m.Some? {
        ms := ms + [m.value];
      }
    }
  }

  lemma NoMetric<A>(xs: seq<A>, metric: A -> Option<M.Metric>)
    ensures Somes(xs[|xs|..], metric) == [] && [] + Somes(xs[0..], metric) == Somes(xs, metric)
  {
    assert xs[0..] == xs;
  }

  lemma NextMetric<A>(xs: seq<A>, j: nat, metric: A -> Option<M.Metric>)
    requires j < |xs|
    ensures Somes(xs[j..], metric)
      == (if metric(xs[j]).Some? then [metric(xs[j]).value] else []) + Somes(xs[j + 1..], metric)
  {
    assert xs[j..][0] == xs[j] && xs[j..][1..] == xs[j + 1..];
  }

  ghost predicate GaugeIs(g: Named<I.Gauge<Ex>>, before: Series<u64>)
    reads g.instrument
  {
    g.instrument.Valid() && before == GaugeSeries(g)
  }

  ghost predicate GaugeTaken(g: Named<I.Gauge<Ex>>, before: Series<u64>)
    reads g.instrument
  {
    g.instrument.Valid() && g.instrument.history == before.evs + [I.Collect]
  }

  method TakeGauge(g: Named<I.Gauge<Ex>>, ghost before: Series<u64>) returns (m: Option<M.Metric>)
    requires GaugeIs(g, before)
    modifies g.instrument
    ensures GaugeTaken(g, before)
    ensures m == GaugeMetric(before)
  {
    hide I.After, PointsOf, H.HistogramOf, H.Increasing, I.Sees;
    var points := g.instrument.TakeSnapshot();
    if points.None? {
      return None;
    }
    m := Some(M.Gauge(g.name, g.description, PointsOf(points.value, g.order, GaugePointOf)));
  }

  method TakeGauges(gs: seq<Named<I.Gauge<Ex>>>, ghost before: seq<Series<u64>>) returns (ms: seq<M.Metric>)
    requires |before| == |gs|
    requires forall i | 0 <= i < |gs| :: GaugeIs(gs[i], before[i])
    requires forall i, j | 0 <= i < j < |gs| :: gs[i].instrument != gs[j].instrument
    modifies set g | g in gs :: g.instrument
    ensures ms == Somes(before, GaugeMetric)
    ensures forall i | 0 <= i < |gs| :: GaugeTaken(gs[i], before[i])
  {
    hide Somes, CounterMetric, GaugeMetric, CounterIs, CounterTaken, GaugeIs, GaugeTaken;
    NoMetric(before, GaugeMetric);
    ms := [];
    for j := 0 to |gs|
      invariant ms + Somes(before[j..], GaugeMetric) == Somes(before, GaugeMetric)
      invariant forall i | 0 <= i < j :: GaugeTaken(gs[i], before[i])
      invariant forall i | j <= i < |gs| :: GaugeIs(gs[i], before[i])
    {
      NextMetric(before, j, GaugeMetric);
      Assoc3(ms, if GaugeMetric(before[j]).Some? then [GaugeMetric(before[j]).value] else [],
        Somes(before[j + 1..], GaugeMetric));
      var m := TakeGauge(gs[j], before[j]);
      if m.Some? {
        ms := ms + [m.value];
      }
    }
  }

  ghost predicate HistogramIs<S>(fl: Floats<S>, h: Named<H.Histogram<S, Ex>>, before: Series<H.Double>)
    reads h.instrument
  {
    h.instrument.Valid() && before == HistogramSeries(h) && h.instrument.zero == fl.zero && h.instrument.plus == fl.plus
  }

  ghost predicate HistogramTaken<S>(h: Named<H.Histogram<S, Ex>>, before: Series<H.Double>)
    reads h.instrument
  {
    h.instrument.Valid() && h.instrument.history == before.evs + [I.Collect]
  }

  method TakeHistogram<S>(fl: Floats<S>, h: Named<H.Histogram<S, Ex>>, ghost before: Series<H.Double>)
    returns (m: Option<M.Metric>)
    requires HistogramIs(fl, h, before)
    modifies h.instrument
    ensures HistogramTaken(h, before)
    ensures m == HistogramMetric(fl)(before)
  {
    hide I.After, PointsOf, H.HistogramOf, H.Increasing, I.Sees;
    var points := h.instrument.TakeSnapshot();
    if points.None? {
      return None;
    }
    m := Some(M.Histogram(h.name, h.description, BoundBits(fl, h.instrument.boundaries),
      PointsOf(points.value, h.order, HistogramPointOf(fl))));
  }

  method TakeHistograms<S>(fl: Floats<S>, hs: seq<Named<H.Histogram<S, Ex>>>, ghost before: seq<Series<H.Double>>)
    returns (ms: seq<M.Metric>)
    requires |before| == |hs|
    requires forall i | 0 <= i < |hs| :: HistogramIs(fl, hs[i], before[i])
    requires forall i, j | 0 <= i < j < |hs| :: hs[i].instrument != hs[j].instrument
    modifies set h | h in hs :: h.instrument
    ensures ms == Somes(before, HistogramMetric(fl))
    ensures forall i | 0 <= i < |hs| :: HistogramTaken(hs[i], before[i])
  {
    hide Somes, HistogramMetric, HistogramIs, HistogramTaken;
    NoMetric(before, HistogramMetric(fl));
    ms := [];
    for j := 0 to |hs|
      invariant ms + Somes(before[j..], HistogramMetric(fl)) == Somes(before, HistogramMetric(fl))
      invariant forall i | 0 <= i < j :: HistogramTaken(hs[i], before[i])
      invariant forall i | j <= i < |hs| :: HistogramIs(fl, hs[i], before[i])
    {
      NextMetric(before, j, HistogramMetric(fl));
      Assoc3(ms, if HistogramMetric(fl)(before[j]).Some? then [HistogramMetric(fl)(before[j]).value] else [],
        Somes(before[j + 1..], HistogramMetric(fl)));
      var m := TakeHistogram(fl, hs[j], before[j]);
      if m.Some? {
        ms := ms + [m.value];
      }
    }
  }

  /** The round `r` is what the registered instruments have seen. */
  ghost predicate Registered<S>(fl: Floats<S>, cs: seq<Named<I.Counter<Ex>>>, gs: seq<Named<I.Gauge<Ex>>>,
      hs: seq<Named<H.Histogram<S, Ex>>>, r: Round)
    reads set c | c in cs :: c.instrument
    reads set g | g in gs :: g.instrument
    reads set h | h in hs :: h.instrument
  {
    && |r.counters| == |cs| && |r.gauges| == |gs| && |r.histograms| == |hs|
    && (forall i | 0 <= i < |cs| :: CounterIs(cs[i], r.counters[i]))
    && (forall i | 0 <= i < |gs| :: GaugeIs(gs[i], r.gauges[i]))
    && (forall i | 0 <= i < |hs| :: HistogramIs(fl, hs[i], r.histograms[i]))
    && (forall i, j | 0 <= i < j < |cs| :: cs[i].instrument != cs[j].instrument)
    && (forall i, j | 0 <= i < j < |gs| :: gs[i].instrument != gs[j].instrument)
    && (forall i, j | 0 <= i < j < |hs| :: hs[i].instrument != hs[j].instrument)
  }

  /** No request for no metrics, else one for all of them. */
  method RoundRequest<S>(src: Source, fl: Floats<S>, metrics: seq<M.Metric>, start: u64, time: u64, ghost r: Round)
    returns (request: Option<seq<byte>>)
    requires metrics == Metrics(fl, r) && r.start == start && r.time == time && RoundOk(fl, r) && Fits(src, fl, r)
    ensures request == if Metrics(fl, r) == [] then None else Some(RequestBytesOf(src, fl, r))
    ensures request.None? <==> Used(r.counters) == [] && Used(r.gauges) == [] && Used(r.histograms) == []
    ensures request.Some? ==>
      var es := M.DecodeMetricsRequest(request.value); es.Some? && EntriesSay(fl, r, es.value)
  {
    hide Emit, M.DecodeMetricsRequest, EntriesSay, Used, RoundOk, Metrics;
    NoMetricsIff(fl, r);
    if metrics == [] {
      return None;
    }
    var data := M.EncodeExportMetricsRequest(src.attrs, src.scope, src.version, metrics, start, time);
    RoundDecodes(src, fl, r);
    RoundSays(src, fl, r);
    request := Some(data);
  }

  /**
   One round of the metrics loop: nothing if no instrument was used, else one request. It decodes to one
   metric for each instrument used, which says key by key what was recorded.
   */
  method ExportRound<S>(src: Source, fl: Floats<S>, cs: seq<Named<I.Counter<Ex>>>, gs: seq<Named<I.Gauge<Ex>>>,
      hs: seq<Named<H.Histogram<S, Ex>>>, start: u64, time: u64, ghost r: Round)
    returns (request: Option<seq<byte>>)
    requires Registered(fl, cs, gs, hs, r) && r.start == start && r.time == time
    requires RoundOk(fl, r) && Fits(src, fl, r)
    modifies set c | c in cs :: c.instrument
    modifies set g | g in gs :: g.instrument
    modifies set h | h in hs :: h.instrument
    ensures request == if Metrics(fl, r) == [] then None else Some(RequestBytesOf(src, fl, r))
    ensures request.None? <==> Used(r.counters) == [] && Used(r.gauges) == [] && Used(r.histograms) == []
    ensures request.Some? ==>
      var es := M.DecodeMetricsRequest(request.value); es.Some? && EntriesSay(fl, r, es.value)
    ensures forall c | c in cs ::
      c.instrument.Valid() && c.instrument.history == old(c.instrument.history) + [I.Collect]
    ensures forall g | g in gs ::
      g.instrument.Valid() && g.instrument.history == old(g.instrument.history) + [I.Collect]
    ensures forall h | h in hs ::
      h.instrument.Valid() && h.instrument.history == old(h.instrument.history) + [I.Collect]
  {
    hide Emit, M.DecodeMetricsRequest, EntriesSay, Somes, Used, RoundOk, Fits, RequestBytesOf;
    hide CounterMetric, GaugeMetric, HistogramMetric;
    var counters := TakeCounters(cs, r.counters);
    var gauges := TakeGauges(gs, r.gauges);
    var histograms := TakeHistograms(fl, hs, r.histograms);
    request := RoundRequest(src, fl, counters + gauges + histograms, start, time, r);
  }

  // --- To the collector ---

  function AllEntries<S>(src: Source, fl: Floats<S>, rounds: seq<Round>): seq<seq<Envelope<M.DecodedMetric>>> {
    seq(|rounds|, i requires 0 <= i < |rounds| => EntriesOf(src, fl, rounds[i]))
  }

  /**
   From the loop to the collector: if the metrics handed to the exporter are the requests of `rounds`, then the
   entries of those that found room arrive, in order, as far as spawned; and the entry of each says its round.
   */
  lemma RoundsArrive<S>(src: Source, fl: Floats<S>, rounds: seq<Round>, ecfg: E.Config, ees: seq<E.Event>, s: E.State)
    requires X.Reachable(ecfg, ees, s) && ecfg.url.Get(E.Metrics)
    requires forall r | r in rounds :: RoundOk(fl, r) && Fits(src, fl, r) && Metrics(fl, r) != []
    requires var sent := X.Sends(ees, E.Metrics);
      |sent| == |rounds| && forall i | 0 <= i < |sent| :: sent[i] == RequestBytesOf(src, fl, rounds[i])
    ensures forall i | 0 <= i < |rounds| :: EntriesSay(fl, rounds[i], AllEntries(src, fl, rounds)[i])
    ensures var entries, keep := AllEntries(src, fl, rounds), X.Kept(ecfg, E.INIT, ees, E.Metrics);
      && |keep| == |entries|
      && var arrived, n := X.Select(entries, keep), |E.Spawned(s.work.tasks, E.Metrics)|;
         && n <= |arrived| == |entries| - s.dropped.Get(E.Metrics)
         && Arrives(M.METRIC_SCHEMA, M.ReadMetric, s.work.tasks, E.Metrics, arrived[..n])
  {
    hide X.Sends, X.Kept, X.Select, E.Spawned, E.Run, DecodeRequest, Arrives;
    hide RequestBytesOf, EntriesOf, EntriesSay, RoundOk, Fits, Metrics;
    var sent, entries := X.Sends(ees, E.Metrics), AllEntries(src, fl, rounds);
    forall i | 0 <= i < |rounds|
      ensures DecodeRequest(M.METRIC_SCHEMA, M.ReadMetric, sent[i]) == Some(entries[i])
      ensures EntriesSay(fl, rounds[i], entries[i])
    {
      RoundDecodes(src, fl, rounds[i]);
      RoundSays(src, fl, rounds[i]);
    }
    SentEntriesArrive(ecfg, ees, s, E.Metrics, M.METRIC_SCHEMA, M.ReadMetric, entries);
  }
}
