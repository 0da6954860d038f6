/** The sampling decision for a trace id: its hash has a place between zero and one, and the rate is a threshold. */
module Sampling {
  import opened Bytes
  import T = OtlpTrace

  /** `ratio` maps a hash to its place between zero and one; how it rounds is left open. */
  function ShouldSample(ratio: u64 -> real, id: T.TraceId, rate: real): bool {
    if rate >= 1.0 then true
    else if rate <= 0.0 then false
    else ratio(FromLe64(id[..8])) < rate
  }

  /** What is sampled at some rate is sampled at every higher one. */
  lemma DecisionIsMonotone(ratio: u64 -> real, id: T.TraceId, low: real, high: real)
    requires low <= high && ShouldSample(ratio, id, low)
    ensures ShouldSample(ratio, id, high)
  {
  }

  /** An id's place is its threshold: it is kept at exactly the rates above it, at one and more, and never at zero. */
  lemma ThresholdIff(ratio: u64 -> real, id: T.TraceId, rate: real)
    ensures rate >= 1.0 ==> ShouldSample(ratio, id, rate)
    ensures rate <= 0.0 ==> !ShouldSample(ratio, id, rate)
    ensures var q := ratio(FromLe64(id[..8]));
      0.0 <= q ==> (ShouldSample(ratio, id, rate) <==> q < rate || rate >= 1.0)
  {
  }

  /** The place of a hash without rounding. */
  function ExactRatio(): u64 -> real {
    (h: u64) => h as real / 18_446_744_073_709_551_615.0
  }

  /** Without rounding, the ids kept are those whose hash is below the rate's share of the greatest hash. */
  lemma KeptBelow(id: T.TraceId, rate: real)
    requires 0.0 < rate < 1.0
    ensures ShouldSample(ExactRatio(), id, rate)
       <==> FromLe64(id[..8]) as real < rate * 18_446_744_073_709_551_615.0
  {
    var h, max := FromLe64(id[..8]) as real, 18_446_744_073_709_551_615.0;
    assert h / max < rate <==> h < rate * max;
  }

  /** The hashes kept, among all ids that differ in nothing else. */
  ghost function KeptHashes(rate: real, rest: seq<byte>): set<u64>
    requires |rest| == 8
  {
    set h: u64 | 0 <= h < TWO_64 && ShouldSample(ExactRatio(), Le64(h) + rest, rate)
  }

  ghost function HashesBelow(n: nat): (r: set<u64>)
    requires n <= TWO_64
    ensures |r| == n && forall h: u64 :: h in r <==> h < n
  {
    if n == 0 then {} else HashesBelow(n - 1) + {n - 1}
  }

  /** Without rounding, the share of hashes kept is the rate, up to less than one hash. */
  lemma KeptShareIsRate(rate: real, rest: seq<byte>)
    requires 0.0 < rate < 1.0 && |rest| == 8
    ensures -1.0 < |KeptHashes(rate, rest)| as real - rate * TWO_64 as real < 1.0
  {
    hide ShouldSample;
    var x := rate * 18_446_744_073_709_551_615.0;
    var n := if x.Floor as real == x then x.Floor else x.Floor + 1;
    assert n as real - 1.0 < x <= n as real;
    forall h: u64 ensures ShouldSample(ExactRatio(), Le64(h) + rest, rate) <==> h < n {
      assert (Le64(h) + rest)[..8] == Le64(h);
      Le64RoundTrip(h);
      KeptBelow(Le64(h) + rest, rate);
    }
    assert KeptHashes(rate, rest) == HashesBelow(n);
    assert rate * TWO_64 as real == x + rate;
  }

  /** Two ids are decided alike at every rate exactly when their hashes have the same place. */
  lemma SameDecisionIff(ratio: u64 -> real, a: T.TraceId, b: T.TraceId)
    requires 0.0 <= ratio(FromLe64(a[..8])) <= 1.0 && 0.0 <= ratio(FromLe64(b[..8])) <= 1.0
    ensures (forall rate :: ShouldSample(ratio, a, rate) == ShouldSample(ratio, b, rate))
       <==> ratio(FromLe64(a[..8])) == ratio(FromLe64(b[..8]))
  {
    var x, y := ratio(FromLe64(a[..8])), ratio(FromLe64(b[..8]));
    if x != y {
      assert ShouldSample(ratio, a, (x + y) / 2.0) != ShouldSample(ratio, b, (x + y) / 2.0);
    }
  }
}
