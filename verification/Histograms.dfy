/**
 Histograms: boundaries are sorted and deduplicated at creation, and a data point counts,
 for every bucket, exactly the observations that fall into it.
 */
module Histograms {
  import opened Bytes
  import opened Sorting
  import opened Attributes
  import opened Aggregation
  import opened Instruments

  /** A double that is not NaN, up to rounding and the sign of zero. */
  datatype Double = NegInf | Fin(r: real) | PosInf

  predicate Le(a: Double, b: Double) {
    a.NegInf? || b.PosInf? || (a.Fin? && b.Fin? && a.r <= b.r)
  }

  predicate Lt(a: Double, b: Double) {
    !Le(b, a)
  }

  // --- Boundaries ---

  /** `Vec::dedup`: of each run of equal elements only the first stays. */
  function Dedup(s: seq<Double>): seq<Double> {
    if |s| <= 1 then s
    else if s[0] == s[1] then Dedup(s[1..])
    else [s[0]] + Dedup(s[1..])
  }

  /** What creation makes of the boundaries it is given. */
  function Boundaries(given: seq<Double>): seq<Double> {
    Dedup(Sort(Le, given))
  }

  ghost predicate Increasing(s: seq<Double>) {
    forall i, j | 0 <= i < j < |s| :: Lt(s[i], s[j])
  }

  lemma LeIsTotal()
    ensures TotalOrder(Le)
  {
  }

  lemma {:induction false} DedupIncreases(s: seq<Double>)
    requires IsSorted(Le, s)
    ensures Increasing(Dedup(s)) && forall y :: y in Dedup(s) <==> y in s
  {
    if |s| > 1 {
      DedupIncreases(s[1..]);
      assert s == [s[0]] + s[1..];
      forall y | s[0] != s[1] && y in Dedup(s[1..]) ensures Lt(s[0], y) {
        var i :| 0 <= i < |s[1..]| && s[1..][i] == y;
        assert Le(s[0], s[1]) && (i > 0 ==> Le(s[1], s[i + 1]));
      }
    }
  }

  /** Creation yields strictly increasing boundaries with the same values as given. */
  lemma BoundariesIncrease(given: seq<Double>)
    ensures Increasing(Boundaries(given)) && forall y :: y in Boundaries(given) <==> y in given
  {
    LeIsTotal();
    SortSorts(Le, given);
    ElementsOf(Sort(Le, given), given);
    DedupIncreases(Sort(Le, given));
  }

  lemma IncreasingIsSorted(s: seq<Double>)
    requires Increasing(s)
    ensures IsSorted(Le, s)
  {
  }

  lemma TailElements(s: seq<Double>)
    requires Increasing(s) && s != []
    ensures Increasing(s[1..]) && forall y :: y in s[1..] <==> y in s && y != s[0]
  {
    assert s == [s[0]] + s[1..];
    forall y | y in s[1..] ensures y != s[0] {
      var i :| 0 <= i < |s[1..]| && s[1..][i] == y;
      assert Lt(s[0], s[i + 1]);
    }
  }

  lemma {:induction false} IncreasingIsUnique(a: seq<Double>, b: seq<Double>)
    requires Increasing(a) && Increasing(b) && forall y :: y in a <==> y in b
    ensures a == b
  {
    hide Increasing, IsSorted, TotalOrder;
    LeIsTotal();
    IncreasingIsSorted(a);
    IncreasingIsSorted(b);
    if a == [] {
      if b != [] {
        SameLeast(Le, b, a);
      }
    } else {
      SameLeast(Le, a, b);
      TailElements(a);
      TailElements(b);
      IncreasingIsUnique(a[1..], b[1..]);
      assert a == [a[0]] + a[1..] && b == [b[0]] + b[1..];
    }
  }

  /** The boundaries depend on nothing but the set of values given. */
  lemma BoundariesAreTheSet(a: seq<Double>, b: seq<Double>)
    ensures Boundaries(a) == Boundaries(b) <==> (forall y :: y in a <==> y in b)
  {
    BoundariesIncrease(a);
    BoundariesIncrease(b);
    if forall y :: y in a <==> y in b {
      IncreasingIsUnique(Boundaries(a), Boundaries(b));
    }
  }

  // --- Buckets ---

  /** `partition_point(|b| b <= value)`: how many boundaries come before the first greater one. */
  function PartitionPoint(bounds: seq<Double>, v: Double): (i: nat)
    ensures i <= |bounds|
  {
    if bounds == [] || !Le(bounds[0], v) then 0 else 1 + PartitionPoint(bounds[1..], v)
  }

  /** Bucket `i` is closed below and open above. */
  predicate InBucket(bounds: seq<Double>, i: nat, v: Double)
    requires i <= |bounds|
  {
    (i == 0 || Le(bounds[i - 1], v)) && (i == |bounds| || Lt(v, bounds[i]))
  }

  lemma {:induction false} PartitionPointIsBucket(bounds: seq<Double>, v: Double)
    ensures InBucket(bounds, PartitionPoint(bounds, v), v)
  {
    if bounds != [] && Le(bounds[0], v) {
      PartitionPointIsBucket(bounds[1..], v);
    }
  }

  lemma BoundsAscend(bounds: seq<Double>, i: nat, j: nat)
    requires Increasing(bounds) && i <= j < |bounds|
    ensures Le(bounds[i], bounds[j])
  {
    assert i == j || Lt(bounds[i], bounds[j]);
  }

  /** Each value is in exactly one bucket, the one the program finds. */
  lemma BucketIsUnique(bounds: seq<Double>, i: nat, v: Double)
    requires Increasing(bounds) && i <= |bounds|
    ensures InBucket(bounds, i, v) <==> i == PartitionPoint(bounds, v)
  {
    var p := PartitionPoint(bounds, v);
    PartitionPointIsBucket(bounds, v);
    if i < p {
      BoundsAscend(bounds, i, p - 1);
    } else if p < i {
      BoundsAscend(bounds, p, i - 1);
    }
  }

  // --- The upper-inclusive convention ---

  /** OTLP's explicit bounds: bucket `i` is open below and closed above. */
  predicate UpperInclusive(bounds: seq<Double>, i: nat, v: Double)
    requires i <= |bounds|
  {
    (i == 0 || Lt(bounds[i - 1], v)) && (i == |bounds| || Le(v, bounds[i]))
  }

  /** The bucket found is the upper-inclusive one exactly if the value is no boundary. */
  lemma UpperInclusiveIff(bounds: seq<Double>, v: Double)
    requires Increasing(bounds)
    ensures UpperInclusive(bounds, PartitionPoint(bounds, v), v) <==> v !in bounds
  {
    var p := PartitionPoint(bounds, v);
    PartitionPointIsBucket(bounds, v);
    if v in bounds {
      var k :| 0 <= k < |bounds| && bounds[k] == v;
      BoundaryGoesUp(bounds, k);
    } else if p > 0 {
      assert bounds[p - 1] in bounds;
    }
  }

  /** An observation that equals a boundary goes one bucket above the upper-inclusive one. */
  lemma BoundaryGoesUp(bounds: seq<Double>, k: nat)
    requires Increasing(bounds) && k < |bounds|
    ensures PartitionPoint(bounds, bounds[k]) == k + 1
    ensures UpperInclusive(bounds, k, bounds[k]) && !UpperInclusive(bounds, k + 1, bounds[k])
  {
    BucketIsUnique(bounds, k + 1, bounds[k]);
    assert k + 1 < |bounds| ==> Lt(bounds[k], bounds[k + 1]);
    assert k > 0 ==> Lt(bounds[k - 1], bounds[k]);
  }

  // --- Observations ---

  /** The sum has its own type: adding doubles is left open. */
  datatype HistogramState<S> = HistogramState(counts: seq<nat>, sum: S, count: nat, min: Double, max: Double)

  function Bump(counts: seq<nat>, i: nat): (r: seq<nat>)
    ensures |r| == |counts|
  {
    seq(|counts|, j requires 0 <= j < |counts| => if j == i then counts[j] + 1 else counts[j])
  }

  function Observed<S>(bounds: seq<Double>, plus: (S, Double) -> S, st: HistogramState<S>,
        v: Double): HistogramState<S> {
    HistogramState(Bump(st.counts, PartitionPoint(bounds, v)), plus(st.sum, v), st.count + 1,
      if Lt(v, st.min) then v else st.min, if Lt(st.max, v) then v else st.max)
  }

  function Empty<S>(bounds: seq<Double>, zero: S): HistogramState<S> {
    HistogramState(seq(|bounds| + 1, _ => 0), zero, 0, PosInf, NegInf)
  }

  function HistogramOf<S>(limit: nat, bounds: seq<Double>, zero: S, plus: (S, Double) -> S): Instrument<u64,
        HistogramState<S>, Double> {
    ByHash(limit, Empty(bounds, zero), (st: HistogramState<S>, v: Double) => Observed(bounds, plus, st, v))
  }

  // --- The simple description of a list of observations ---

  /** How many observations lie in bucket `i`. */
  function CountIn<E>(bounds: seq<Double>, i: nat, us: seq<Update<Double, E>>): nat
    requires i <= |bounds|
  {
    if us == [] then 0
    else CountIn(bounds, i, us[..|us| - 1]) + if InBucket(bounds, i, us[|us| - 1].value) then 1 else 0
  }

  function SumOf<S, E>(zero: S, plus: (S, Double) -> S, us: seq<Update<Double, E>>): S {
    if us == [] then zero else plus(SumOf(zero, plus, us[..|us| - 1]), us[|us| - 1].value)
  }

  function Total(counts: seq<nat>): nat {
    if counts == [] then 0 else counts[0] + Total(counts[1..])
  }

  predicate Occurs<E>(us: seq<Update<Double, E>>, v: Double) {
    exists i | 0 <= i < |us| :: us[i].value == v
  }

  /** The extremes bound every observation and, if there is one, are observations themselves. */
  ghost predicate Extremes<E>(us: seq<Update<Double, E>>, min: Double, max: Double) {
    && (forall i | 0 <= i < |us| :: Le(min, us[i].value) && Le(us[i].value, max))
    && (if us == [] then min == PosInf && max == NegInf else Occurs(us, min) && Occurs(us, max))
  }

  ghost predicate Counts<E>(bounds: seq<Double>, us: seq<Update<Double, E>>, counts: seq<nat>) {
    |counts| == |bounds| + 1 && forall i | 0 <= i <= |bounds| :: counts[i] == CountIn(bounds, i, us)
  }

  /** `st` is what the observations `us` amount to. */
  ghost predicate Summarises<S, E>(bounds: seq<Double>, zero: S, plus: (S, Double) -> S, us: seq<Update<Double,
        E>>, st: HistogramState<S>) {
    && Counts(bounds, us, st.counts)
    && Total(st.counts) == st.count == |us|
    && st.sum == SumOf(zero, plus, us)
    && Extremes(us, st.min, st.max)
  }

  // --- Counting by the other convention ---

  /** How many observations satisfy a predicate. */
  function Having<E>(us: seq<Update<Double, E>>, p: Double -> bool): nat {
    if us == [] then 0 else Having(us[..|us| - 1], p) + if p(us[|us| - 1].value) then 1 else 0
  }

  /** The bucket counts OTLP asks for. */
  function CountUpper<E>(bounds: seq<Double>, i: nat, us: seq<Update<Double, E>>): nat
    requires i <= |bounds|
  {
    Having(us, v => UpperInclusive(bounds, i, v))
  }

  lemma {:induction false} HavingSplits<E>(us: seq<Update<Double, E>>, p: Double -> bool, q: Double -> bool,
      r: Double -> bool)
    requires forall v :: p(v) <==> q(v) || r(v)
    requires forall v :: !(q(v) && r(v))
    ensures Having(us, p) == Having(us, q) + Having(us, r)
  {
    if us == [] {
    } else {
      HavingSplits(us[..|us| - 1], p, q, r);
      var v := us[|us| - 1].value;
      assert p(v) <==> q(v) || r(v);
    }
  }

  lemma {:induction false} HavingNone<E>(us: seq<Update<Double, E>>, p: Double -> bool)
    ensures Having(us, p) == 0 <==> forall i | 0 <= i < |us| :: !p(us[i].value)
  {
    if us == [] {
    } else {
      var n := |us| - 1;
      HavingNone(us[..n], p);
      assert forall i | 0 <= i < n :: us[..n][i] == us[i];
    }
  }

  lemma {:induction false} CountInIsHaving<E>(bounds: seq<Double>, i: nat, us: seq<Update<Double, E>>)
    requires i <= |bounds|
    ensures CountIn(bounds, i, us) == Having(us, v => InBucket(bounds, i, v))
  {
    if us == [] {
    } else {
      CountInIsHaving(bounds, i, us[..|us| - 1]);
    }
  }

  /** Below boundary `i` by either convention: the buckets up to `i`. */
  function Below(bounds: seq<Double>, i: nat): Double -> bool
    requires i < |bounds|
  {
    v => Lt(v, bounds[i])
  }

  function UpTo(bounds: seq<Double>, i: nat): Double -> bool
    requires i < |bounds|
  {
    v => Le(v, bounds[i])
  }

  lemma CumulativeSplits<E>(bounds: seq<Double>, i: nat, us: seq<Update<Double, E>>)
    requires Increasing(bounds) && i < |bounds|
    ensures Having(us, Below(bounds, i))
      == CountIn(bounds, i, us) + if i == 0 then 0 else Having(us, Below(bounds, i - 1))
    ensures Having(us, UpTo(bounds, i))
      == CountUpper(bounds, i, us) + if i == 0 then 0 else Having(us, UpTo(bounds, i - 1))
    ensures Having(us, UpTo(bounds, i)) == Having(us, Below(bounds, i)) + Having(us, v => v == bounds[i])
  {
    CountInIsHaving(bounds, i, us);
    var none: Double -> bool := v => false;
    HavingNone(us, none);
    var lower, upper := if i == 0 then none else Below(bounds, i - 1), if i == 0 then none else UpTo(bounds, i - 1);
    assert i > 0 ==> Lt(bounds[i - 1], bounds[i]);
    HavingSplits(us, Below(bounds, i), v => InBucket(bounds, i, v), lower);
    HavingSplits(us, UpTo(bounds, i), v => UpperInclusive(bounds, i, v), upper);
    HavingSplits(us, UpTo(bounds, i), Below(bounds, i), v => v == bounds[i]);
  }

  /** Equal bucket counts up to `i` mean equal cumulative counts. */
  lemma {:induction false} CumulativeAgrees<E>(bounds: seq<Double>, i: nat, us: seq<Update<Double, E>>)
    requires Increasing(bounds) && i < |bounds|
    requires forall j | 0 <= j <= i :: CountIn(bounds, j, us) == CountUpper(bounds, j, us)
    ensures Having(us, Below(bounds, i)) == Having(us, UpTo(bounds, i))
  {
    CumulativeSplits(bounds, i, us);
    if i == 0 {
    } else {
      CumulativeAgrees(bounds, i - 1, us);
    }
  }

  /** No observation equals a boundary. */
  ghost predicate OffBoundaries<E>(bounds: seq<Double>, us: seq<Update<Double, E>>) {
    forall k | 0 <= k < |us| :: us[k].value !in bounds
  }

  lemma SameCountsOffBoundaries<E>(bounds: seq<Double>, us: seq<Update<Double, E>>, i: nat)
    requires Increasing(bounds) && OffBoundaries(bounds, us) && i <= |bounds|
    ensures CountIn(bounds, i, us) == CountUpper(bounds, i, us)
  {
    CountInIsHaving(bounds, i, us);
    HavingSame(us, v => InBucket(bounds, i, v), v => UpperInclusive(bounds, i, v));
  }

  lemma {:induction false} HavingSame<E>(us: seq<Update<Double, E>>, p: Double -> bool, q: Double -> bool)
    requires forall k | 0 <= k < |us| :: p(us[k].value) == q(us[k].value)
    ensures Having(us, p) == Having(us, q)
  {
    if us == [] {
    } else {
      HavingSame(us[..|us| - 1], p, q);
    }
  }

  /**
   The bucket counts of a data point are those of the upper-inclusive convention if and only if
   no observation equals a boundary.
   */
  lemma CountsAreUpperIff<S, E>(limit: nat, bounds: seq<Double>, zero: S, plus: (S, Double) -> S,
      us: seq<Update<Double, E>>)
    requires Increasing(bounds)
    ensures var st := Value(HistogramOf(limit, bounds, zero, plus), us);
      |st.counts| == |bounds| + 1
      && ((forall i | 0 <= i <= |bounds| :: st.counts[i] == CountUpper(bounds, i, us)) <==> OffBoundaries(bounds, us))
  {
    StateSummarises(limit, bounds, zero, plus, us);
    hide Value, HistogramOf, CountIn, CountUpper, Increasing;
    var st := Value(HistogramOf(limit, bounds, zero, plus), us);
    if OffBoundaries(bounds, us) {
      forall i | 0 <= i <= |bounds| ensures st.counts[i] == CountUpper(bounds, i, us) {
        SameCountsOffBoundaries(bounds, us, i);
      }
    }
    if forall i | 0 <= i <= |bounds| :: st.counts[i] == CountUpper(bounds, i, us) {
      forall b | 0 <= b < |bounds| ensures forall k | 0 <= k < |us| :: us[k].value != bounds[b] {
        CumulativeAgrees(bounds, b, us);
        CumulativeSplits(bounds, b, us);
        HavingNone(us, v => v == bounds[b]);
      }
    }
  }

  lemma {:induction false} TotalBump(counts: seq<nat>, i: nat)
    requires i < |counts|
    ensures Total(Bump(counts, i)) == Total(counts) + 1
  {
    if i == 0 {
      assert Bump(counts, 0)[1..] == counts[1..];
    } else {
      TotalBump(counts[1..], i - 1);
      assert Bump(counts, i)[1..] == Bump(counts[1..], i - 1);
    }
  }

  lemma {:induction false} TotalZeros(n: nat)
    ensures Total(seq(n, _ => 0)) == 0
  {
    if n == 0 {
    } else {
      TotalZeros(n - 1);
      assert seq(n, _ => 0)[1..] == seq(n - 1, _ => 0);
    }
  }

  lemma CountsNext<E>(bounds: seq<Double>, us: seq<Update<Double, E>>, u: Update<Double, E>, counts: seq<nat>)
    requires Increasing(bounds) && Counts(bounds, us, counts)
    ensures Counts(bounds, us + [u], Bump(counts, PartitionPoint(bounds, u.value)))
  {
    hide Increasing, InBucket;
    assert (us + [u])[..|us|] == us;
    forall i: nat | i <= |bounds|
      ensures Bump(counts, PartitionPoint(bounds, u.value))[i] == CountIn(bounds, i, us + [u])
    {
      BucketIsUnique(bounds, i, u.value);
    }
  }

  lemma OccursNext<E>(us: seq<Update<Double, E>>, u: Update<Double, E>, v: Double)
    requires v == u.value || Occurs(us, v)
    ensures Occurs(us + [u], v)
  {
    if v == u.value {
      assert (us + [u])[|us|].value == v;
    } else {
      var i :| 0 <= i < |us| && us[i].value == v;
      assert (us + [u])[i].value == v;
    }
  }

  lemma ExtremesNext<E>(us: seq<Update<Double, E>>, u: Update<Double, E>, min: Double, max: Double)
    requires Extremes(us, min, max)
    ensures Extremes(us + [u], if Lt(u.value, min) then u.value else min, if Lt(max, u.value) then u.value else max)
  {
    var lo, hi := if Lt(u.value, min) then u.value else min, if Lt(max, u.value) then u.value else max;
    OccursNext(us, u, lo);
    OccursNext(us, u, hi);
    hide Occurs;
    forall i | 0 <= i < |us + [u]| ensures Le(lo, (us + [u])[i].value) && Le((us + [u])[i].value, hi) {
      if i < |us| {
        assert (us + [u])[i] == us[i];
      }
    }
  }

  /**
   Whatever is observed, the state says it exactly: bucket by bucket the number of
   observations, their number, the true extremes, and the sum added up from the left.
   */
  lemma {:induction false} StateSummarises<S, E>(limit: nat, bounds: seq<Double>, zero: S, plus: (S, Double) -> S,
        us: seq<Update<Double, E>>)
    requires Increasing(bounds)
    ensures Summarises(bounds, zero, plus, us, Value(HistogramOf(limit, bounds, zero, plus), us))
  {
    hide Increasing, Bump, Extremes;
    var ins := HistogramOf(limit, bounds, zero, plus);
    if us == [] {
      TotalZeros(|bounds| + 1);
      NoObservation(us);
    } else {
      var front, u := us[..|us| - 1], us[|us| - 1];
      assert us == front + [u];
      var st := Value(ins, front);
      StateSummarises(limit, bounds, zero, plus, front);
      CountsNext(bounds, front, u, st.counts);
      TotalBump(st.counts, PartitionPoint(bounds, u.value));
      ExtremesNext(front, u, st.min, st.max);
    }
  }

  // --- In plain numbers ---

  function Finite(rs: seq<real>): (r: seq<Double>)
    ensures |r| == |rs| && forall i | 0 <= i < |rs| :: r[i] == Fin(rs[i])
  {
    if rs == [] then [] else [Fin(rs[0])] + Finite(rs[1..])
  }

  /** The different numbers given that are at most `v`. */
  function AtMost(given: seq<real>, v: real): set<real> {
    set r | r in given && r <= v
  }

  /** Finite, with `i` of the different numbers given at or below it. */
  function Ranked(given: seq<real>, i: nat): Double -> bool {
    (v: Double) => v.Fin? && |AtMost(given, v.r)| == i
  }

  lemma NoElements<T(!new)>(s: set<T>)
    requires forall x :: x !in s
    ensures s == {}
  {
  }

  /** The numbers of a stretch of strictly increasing boundaries. */
  lemma {:induction false} NumbersOf(bounds: seq<Double>, rs: set<real>)
    requires Increasing(bounds) && forall r :: r in rs <==> Fin(r) in bounds
    requires forall y | y in bounds :: y.Fin?
    ensures |rs| == |bounds|
  {
    if bounds == [] {
      forall r ensures r !in rs {
        assert Fin(r) !in bounds;
      }
      NoElements(rs);
    } else {
      var n := |bounds| - 1;
      var last := bounds[n];
      assert last in bounds;
      forall r ensures r in rs - {last.r} <==> Fin(r) in bounds[..n] {
        assert bounds == bounds[..n] + [last];
        assert forall i | 0 <= i < n :: Lt(bounds[i], last);
      }
      NumbersOf(bounds[..n], rs - {last.r});
    }
  }

  /** A finite value is counted in the bucket whose number is that of the different boundaries given at or below it. */
  lemma BucketIsRank(given: seq<real>, v: real)
    ensures PartitionPoint(Boundaries(Finite(given)), Fin(v)) == |AtMost(given, v)|
  {
    hide Boundaries, PartitionPoint, Finite;
    var bounds := Boundaries(Finite(given));
    var p := PartitionPoint(bounds, Fin(v));
    BoundariesIncrease(Finite(given));
    PartitionPointIsBucket(bounds, Fin(v));
    FiniteElements(given);
    forall r ensures r in AtMost(given, v) <==> Fin(r) in bounds[..p] {
      if Fin(r) in bounds {
        var i :| 0 <= i < |bounds| && bounds[i] == Fin(r);
        if i < p {
          BoundsAscend(bounds, i, p - 1);
          assert bounds[..p][i] == Fin(r);
        } else {
          BoundsAscend(bounds, p, i);
          assert !(r <= v);
        }
      }
    }
    NumbersOf(bounds[..p], AtMost(given, v));
  }

  lemma FiniteElements(given: seq<real>)
    ensures forall y: Double :: y in Finite(given) <==> y.Fin? && y.r in given
  {
    forall y: Double | y.Fin? && y.r in given ensures y in Finite(given) {
      var i :| 0 <= i < |given| && given[i] == y.r;
      assert Finite(given)[i] == y;
    }
  }

  /**
   The data point of finite observations: bucket `i` counts those with `i` of the numbers given at or below them, and
   the extremes are the least and the greatest observation.
   */
  lemma FiniteObservations<S, E>(limit: nat, given: seq<real>, zero: S, plus: (S, Double) -> S,
        us: seq<Update<Double, E>>)
    requires us != [] && forall k | 0 <= k < |us| :: us[k].value.Fin?
    ensures var bounds := Boundaries(Finite(given));
      var st := Value(HistogramOf(limit, bounds, zero, plus), us);
      && |st.counts| == |bounds| + 1
      && (forall i | 0 <= i < |st.counts| ::
             st.counts[i] == Having(us, Ranked(given, i)))
      && st.min.Fin? && st.max.Fin? && Occurs(us, st.min) && Occurs(us, st.max)
      && forall k | 0 <= k < |us| :: st.min.r <= us[k].value.r <= st.max.r
  {
    hide Boundaries, Finite, Value, HistogramOf, AtMost, PartitionPoint, CountIn, Having, InBucket;
    var bounds := Boundaries(Finite(given));
    BoundariesIncrease(Finite(given));
    StateSummarises(limit, bounds, zero, plus, us);
    forall i | 0 <= i <= |bounds|
      ensures CountIn(bounds, i, us) == Having(us, Ranked(given, i))
    {
      CountInIsHaving(bounds, i, us);
      forall k | 0 <= k < |us|
        ensures InBucket(bounds, i, us[k].value) == Ranked(given, i)(us[k].value)
      {
        BucketIsUnique(bounds, i, us[k].value);
        BucketIsRank(given, us[k].value.r);
      }
      HavingSame(us, v => InBucket(bounds, i, v), Ranked(given, i));
    }
  }

  lemma NoObservation<E>(us: seq<Update<Double, E>>)
    requires us == []
    ensures Extremes(us, PosInf, NegInf)
  {
  }

  /**
   A histogram after any history: its points are those of the first `limit` distinct
   keys, and each summarises all observations ever made with its key.
   */
  lemma HistogramIsFold<S, E>(limit: nat, bounds: seq<Double>, zero: S, plus: (S, Double) -> S,
        us: seq<Update<Double, E>>)
    requires Increasing(bounds)
    ensures var ins, m := HistogramOf(limit, bounds, zero, plus), Fold(HistogramOf(limit, bounds, zero, plus), us);
      && |m| == |FirstKeys(limit, us)| && (forall k :: k in m <==> k in FirstKeys(limit, us))
      && (forall k | k in m :: Of(ins, us, k) != [] && Summarises(bounds, zero, plus, Of(ins, us, k), m[k].value))
  {
    var ins := HistogramOf(limit, bounds, zero, plus);
    var m := Fold(ins, us);
    AdmittedAreFirst(limit, ins.init, ins.step, us);
    AggregationIsFold(ins, us);
    hide HistogramOf, FirstKeys, Fold, Admitted, Of, Summarises, Increasing;
    forall k | k in m ensures Of(ins, us, k) != [] && Summarises(bounds, zero, plus, Of(ins, us, k), m[k].value) {
      StateSummarises(limit, bounds, zero, plus, Of(ins, us, k));
      assert IsPoint(ins, Of(ins, us, k), m[k]);
    }
  }

  /** An observation as one step of the aggregation. */
  lemma ApplyObservation<S, E>(limit: nat, bounds: seq<Double>, zero: S, plus: (S, Double) -> S, m: map<u64,
        Point<HistogramState<S>, E>>, u: Update<Double, E>)
    ensures var k := Key(u.attrs);
      Apply(HistogramOf(limit, bounds, zero, plus), m, u)
      == if k !in m && |m| >= limit then m
         else
           var p := if k in m then m[k] else Point(Owned(u.attrs), Empty(bounds, zero), None);
           m[k := Point(p.attrs, Observed(bounds, plus, p.value, u.value),
             if u.exemplar.Some? then u.exemplar else p.exemplar)]
  {
    hide Key, Owned, Observed, Empty;
  }

  /** Every stored state has one bucket more than there are boundaries. */
  lemma {:induction false} BucketsFit<S, E>(limit: nat, bounds: seq<Double>, zero: S, plus: (S, Double) -> S,
        evs: seq<Event<Double, E>>)
    ensures var m := After(HistogramOf(limit, bounds, zero, plus), evs);
      forall k | k in m :: |m[k].value.counts| == |bounds| + 1
  {
    if evs == [] {
    } else {
      var ins, front, ev := HistogramOf(limit, bounds, zero, plus), evs[..|evs| - 1], evs[|evs| - 1];
      BucketsFit(limit, bounds, zero, plus, front);
      assert evs == front + [ev];
      AfterSnoc(ins, front, ev);
      hide After, Apply, Owned;
      if ev.Upd? {
        forall k | k in After(ins, evs) ensures |After(ins, evs)[k].value.counts| == |bounds| + 1 {
          ApplyAt(ins, After(ins, front), ev.u, k);
        }
      }
    }
  }

  class Histogram<S, E> {
    const limit: nat
    const boundaries: seq<Double>
    const zero: S
    const plus: (S, Double) -> S
    var data: map<u64, Point<HistogramState<S>, E>>
    var warned: bool
    ghost var history: seq<Event<Double, E>>

    ghost function Spec(): Instrument<u64, HistogramState<S>, Double> {
      HistogramOf(limit, boundaries, zero, plus)
    }

    ghost predicate Valid()
      reads this
    {
      data == After(Spec(), history) && Increasing(boundaries)
    }

    constructor (limit: nat, given: seq<Double>, zero: S, plus: (S, Double) -> S)
      ensures Valid() && this.limit == limit && boundaries == Boundaries(given) && history == [] && !warned
      ensures this.zero == zero && this.plus == plus
    {
      BoundariesIncrease(given);
      this.limit, boundaries, this.zero, this.plus := limit, Boundaries(given), zero, plus;
      data, warned, history := map[], false, [];
    }

    /** The updates of one state; the bucket index is in range. */
    method Record(before: HistogramState<S>, value: Double, bucket: nat) returns (st: HistogramState<S>)
      requires |before.counts| == |boundaries| + 1 && bucket == PartitionPoint(boundaries, value)
      ensures st == Observed(boundaries, plus, before, value)
    {
      hide PartitionPoint, Lt;
      st := before;
      st := st.(counts := st.counts[bucket := st.counts[bucket] + 1]);
      assert st.counts == Bump(before.counts, bucket);
      st := st.(sum := plus(st.sum, value));
      st := st.(count := st.count + 1);
      if Lt(value, st.min) {
        st := st.(min := value);
      }
      if Lt(st.max, value) {
        st := st.(max := value);
      }
    }

    method Observe(value: Double, attrs: Attrs, exemplar: Option<E>)
      requires Valid()
      modifies this
      ensures Valid() && history == old(history) + [Upd(Update(attrs, value, exemplar))]
      ensures data == Apply(Spec(), old(data), Update(attrs, value, exemplar))
      ensures warned == (old(warned) || (Key(attrs) !in old(data) && |old(data)| >= limit))
    {
      hide After, Hash, Owned, Increasing, Lt, PartitionPoint, HistogramOf, Apply, Observed;
      BucketsFit(limit, boundaries, zero, plus, history);
      AfterSnoc(Spec(), history, Upd(Update(attrs, value, exemplar)));
      ApplyObservation(limit, boundaries, zero, plus, data, Update(attrs, value, exemplar));
      history := history + [Upd(Update(attrs, value, exemplar))];
      var bucket := PartitionPoint(boundaries, value);
      var key: u64 := 0;
      if attrs != [] {
        key := AttrsHashUnordered(attrs);
      }
      if key !in data && |data| >= limit {
        warned := true;
        return;
      }
      var entry := Point(Owned(attrs), Empty(boundaries, zero), None);
      if key in data {
        entry := data[key];
      }
      var st := Record(entry.value, value, bucket);
      entry := entry.(value := st);
      if exemplar.Some? {
        entry := entry.(exemplar := exemplar);
      }
      data := data[key := entry];
    }

    /** The points of a snapshot, or none for an unused histogram; exemplars are taken out. */
    method TakeSnapshot() returns (points: Option<map<u64, Point<HistogramState<S>, E>>>)
      requires Valid()
      modifies this
      ensures Valid() && history == old(history) + [Collect] && warned == old(warned)
      ensures points == if old(data) == map[] then None else Some(old(data))
      ensures Sees(Spec(), Updates(old(history)), Since(old(history)), old(data))
    {
      hide After, Sees, Increasing;
      CollectSees(Spec(), history);
      AfterSnoc(Spec(), history, Collect);
      history := history + [Collect];
      if data == map[] {
        assert Consume(data) == data;
        return None;
      }
      points := Some(data);
      data := map k | k in data :: data[k].(exemplar := None);
    }
  }
}
