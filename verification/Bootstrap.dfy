/**
 Comparing one metric between two sets of runs: the percentile bootstrap of the difference of the
 means, and the regression gate on its confidence interval.

 Floating-point numbers are exact reals, and the pseudo-random generator is arbitrary: draw(k, i)
 is the i-th number resample k takes from it.
 */
module Bootstrap {
  import Division
  import opened Outcome
  import opened Reals

  datatype Metric = Rate | P50 | P90 | P99 | P99_9 | P99_99 | Max | ErrorRate
  {
    predicate IncreaseIsBad() {
      !Rate?
    }
  }

  datatype Strategy = RunBootstrap | RawDelta
  datatype Significance = Significant | NotSignificant | NotApplicable
  datatype Interval = Interval(lo: real, hi: real)

  /** One side of a comparison: the metric's value in each run, and in the aggregate. */
  datatype Side = Side(perRun: seq<real>, aggregate: real)

  datatype Options = Options(resamples: nat, confidence: real)

  datatype Comparison = Comparison(
    metric: Metric, a: real, b: real, delta: real, deltaPct: Option<real>, ci: Option<Interval>,
    nA: nat, nB: nat, strategy: Strategy, significance: Significance)

  /** The fractional change; undefined when only a is (numerically) zero. */
  function PctDelta(a: real, b: real): Option<real> {
    if Abs(a) < EPSILON then
      if Abs(b - a) < EPSILON then Some(0.0) else None
    else Some((b - a) / a)
  }

  // A relative difference is one of the baseline; without a baseline there is none but that of no difference.
  lemma PctDeltaMeans(a: real, b: real)
    ensures PctDelta(a, b).None? <==>
      -1.0 < a * 4503599627370496.0 < 1.0 && !(-1.0 < (b - a) * 4503599627370496.0 < 1.0)
    ensures PctDelta(a, b).Some? ==>
      PctDelta(a, b).value * a == if -1.0 < a * 4503599627370496.0 < 1.0 then 0.0 else b - a
    ensures -1.0 < a * 4503599627370496.0 < 1.0 && PctDelta(a, b).Some? ==> PctDelta(a, b).value == 0.0
  {
    if Abs(a) >= EPSILON {
      TimesQuotient(b - a, a);
    }
  }

  // --- means ---

  function Sum(xs: seq<real>): real {
    if xs == [] then 0.0 else Sum(xs[..|xs| - 1]) + xs[|xs| - 1]
  }

  function Mean(xs: seq<real>): real {
    if xs == [] then 0.0 else Sum(xs) / |xs| as real
  }

  /** The values picked by resample k, one per run, by its draws from number pos on. */
  function Picked(values: seq<real>, draw: (nat, nat) -> nat, k: nat, pos: nat): (r: seq<real>)
    requires |values| > 0
    ensures |r| == |values| && forall i :: 0 <= i < |r| ==> r[i] in values
  {
    seq(|values|, i requires 0 <= i < |values| => values[draw(k, pos + i) % |values|])
  }

  method MeanResample(values: seq<real>, draw: (nat, nat) -> nat, k: nat, pos: nat) returns (mean: real)
    requires |values| > 0
    ensures mean == Mean(Picked(values, draw, k, pos))
  {
    var n := |values|;
    var sum := 0.0;
    ghost var picked := Picked(values, draw, k, pos);
    for i := 0 to n
      invariant sum == Sum(picked[..i])
    {
      var idx := draw(k, pos + i) % n;
      sum := sum + values[idx];
      assert picked[..i + 1][..i] == picked[..i];
    }
    assert picked[..n] == picked;
    mean := sum / n as real;
  }

  // The mean is the sum of all values over their number.
  lemma {:induction false} SumAdds(xs: seq<real>, ys: seq<real>)
    ensures Sum(xs + ys) == Sum(xs) + Sum(ys)
    decreases |ys|
  {
    if ys == [] {
      assert xs + ys == xs;
    } else {
      var n := |ys| - 1;
      assert (xs + ys)[..|xs| + n] == xs + ys[..n];
      SumAdds(xs, ys[..n]);
    }
  }

  lemma MeanTimesCount(xs: seq<real>, x: real)
    ensures Mean(xs) * |xs| as real == Sum(xs) && Sum([x]) == x && Sum([]) == 0.0
  {
    assert [x][..0] == [];
    if xs != [] {
      TimesQuotient(Sum(xs), |xs| as real);
    }
  }

  lemma TimesQuotient(x: real, n: real)
    requires n != 0.0
    ensures x / n * n == x
  {}

  // Resample k of a side uses its own draws in order, one per run: a draw of any multiple of the number of
  // runs plus an index picks the run of that index.
  lemma PicksFollowDraws(values: seq<real>, draw: (nat, nat) -> nat, k: nat, pos: nat, index: seq<nat>, times: seq<nat>)
    requires |values| > 0 && |index| == |times| == |values| && forall i :: 0 <= i < |index| ==> index[i] < |values|
    requires forall i :: 0 <= i < |index| ==> draw(k, pos + i) == index[i] + |values| * times[i]
    ensures forall i :: 0 <= i < |index| ==> Picked(values, draw, k, pos)[i] == values[index[i]]
  {
    forall i | 0 <= i < |index|
      ensures Picked(values, draw, k, pos)[i] == values[index[i]]
    {
      Division.Remainder(index[i], |values|, times[i]);
      SmallRemainder(index[i], |values|);
    }
  }

  lemma SmallRemainder(a: nat, n: nat)
    requires a < n
    ensures a % n == a
  {}

  // All runs of one side lie in [lo, hi].
  ghost predicate Within(xs: seq<real>, lo: real, hi: real) {
    forall i :: 0 <= i < |xs| ==> lo <= xs[i] <= hi
  }

  lemma {:induction false} SumWithin(xs: seq<real>, lo: real, hi: real)
    requires Within(xs, lo, hi)
    ensures lo * |xs| as real <= Sum(xs) <= hi * |xs| as real
  {
    if xs != [] {
      var n := |xs| - 1;
      SumWithin(xs[..n], lo, hi);
      assert lo * |xs| as real == lo * n as real + lo && hi * |xs| as real == hi * n as real + hi;
    }
  }

  lemma QuotientWithin(s: real, n: real, lo: real, hi: real)
    requires n > 0.0 && lo * n <= s <= hi * n
    ensures lo <= s / n <= hi
  {
    var q := s / n;
    assert q * n == s;
    PositiveFactor(q - lo, n);
    PositiveFactor(hi - q, n);
  }

  lemma PositiveFactor(x: real, n: real)
    requires n > 0.0
    ensures x * n >= 0.0 <==> x >= 0.0
    ensures x * n > 0.0 <==> x > 0.0
  {}

  lemma MeanWithin(xs: seq<real>, lo: real, hi: real)
    requires |xs| > 0 && Within(xs, lo, hi)
    ensures lo <= Mean(xs) <= hi
  {
    SumWithin(xs, lo, hi);
    QuotientWithin(Sum(xs), |xs| as real, lo, hi);
  }

  // --- the bootstrap ---

  /** The difference of the means in resample k. */
  function Delta(a: seq<real>, b: seq<real>, draw: (nat, nat) -> nat, k: nat): real
    requires |a| > 0 && |b| > 0
  {
    Mean(Picked(b, draw, k, |a|)) - Mean(Picked(a, draw, k, 0))
  }

  function Deltas(a: seq<real>, b: seq<real>, draw: (nat, nat) -> nat, n: nat): (r: seq<real>)
    requires |a| > 0 && |b| > 0
    ensures |r| == n
  {
    if n == 0 then [] else Deltas(a, b, draw, n - 1) + [Delta(a, b, draw, n - 1)]
  }

  // Resample r draws first for every position of A and then for every position of B, and takes the mean
  // of B less the mean of A; stated on the values picked, without a division.
  lemma DeltaFromDraws(a: seq<real>, b: seq<real>, draw: (nat, nat) -> nat, n: nat, r: nat, d: real,
      pickedA: seq<real>, pickedB: seq<real>, nA: real, nB: real)
    requires r < n && |a| > 0 && |b| > 0 && d == Deltas(a, b, draw, n)[r] && nA == |a| as real && nB == |b| as real
    requires pickedA == Picked(a, draw, r, 0) && pickedB == Picked(b, draw, r, |a|)
    ensures d * nA * nB == Sum(pickedB) * nA - Sum(pickedA) * nB
  {
    DeltasAt(a, b, draw, n, r);
    MeansDiffer(pickedA, pickedB, d, nA, nB);
  }

  lemma MeansDiffer(xs: seq<real>, ys: seq<real>, d: real, n: real, m: real)
    requires xs != [] && ys != [] && n == |xs| as real && m == |ys| as real && d == Mean(ys) - Mean(xs)
    ensures d * n * m == Sum(ys) * n - Sum(xs) * m
  {
    DifferenceOfMeans(Sum(xs), n, Sum(ys), m);
  }

  lemma {:induction false} DeltasAt(a: seq<real>, b: seq<real>, draw: (nat, nat) -> nat, n: nat, r: nat)
    requires r < n && |a| > 0 && |b| > 0
    ensures Deltas(a, b, draw, n)[r] == Delta(a, b, draw, r)
    decreases n
  {
    if r + 1 < n {
      DeltasAt(a, b, draw, n - 1, r);
    }
  }

  lemma DifferenceOfMeans(x: real, n: real, y: real, m: real)
    requires n > 0.0 && m > 0.0
    ensures (y / m - x / n) * n * m == y * n - x * m
  {
    TimesQuotient(x, n);
    TimesQuotient(y, m);
    Expand(y / m, x / n, n, m);
  }

  lemma Expand(p: real, q: real, n: real, m: real)
    ensures (p - q) * n * m == p * m * n - q * n * m
  {}

  lemma {:induction false} DeltasWithin(a: seq<real>, b: seq<real>, draw: (nat, nat) -> nat, n: nat,
                                        minA: real, maxA: real, minB: real, maxB: real)
    requires |a| > 0 && |b| > 0 && Within(a, minA, maxA) && Within(b, minB, maxB)
    ensures Within(Deltas(a, b, draw, n), minB - maxA, maxB - minA)
  {
    if n > 0 {
      DeltasWithin(a, b, draw, n - 1, minA, maxA, minB, maxB);
      MeanWithin(Picked(b, draw, n - 1, |a|), minB, maxB);
      MeanWithin(Picked(a, draw, n - 1, 0), minA, maxA);
    }
  }

  ghost predicate Sorted(xs: seq<real>) {
    forall i, j :: 0 <= i < j < |xs| ==> xs[i] <= xs[j]
  }

  method Sort(xs: seq<real>) returns (sorted: seq<real>)
    ensures Sorted(sorted) && multiset(sorted) == multiset(xs)
  {
    sorted := [];
    for i := 0 to |xs|
      invariant Sorted(sorted) && multiset(sorted) == multiset(xs[..i])
    {
      assert xs[..i + 1] == xs[..i] + [xs[i]];
      sorted := Insert(sorted, xs[i]);
    }
    assert xs[..|xs|] == xs;
  }

  method Insert(sorted: seq<real>, x: real) returns (longer: seq<real>)
    requires Sorted(sorted)
    ensures Sorted(longer) && multiset(longer) == multiset(sorted) + multiset{x}
  {
    var k := |sorted|;
    while k > 0 && sorted[k - 1] > x
      invariant 0 <= k <= |sorted|
      invariant forall i :: k <= i < |sorted| ==> sorted[i] > x
    {
      k := k - 1;
    }
    longer := sorted[..k] + [x] + sorted[k..];
    InsertedElements(sorted, k, x);
  }

  lemma InsertedElements(xs: seq<real>, k: nat, x: real)
    requires k <= |xs|
    ensures multiset(xs[..k] + [x] + xs[k..]) == multiset(xs) + multiset{x}
  {
    assert xs == xs[..k] + xs[k..];
  }

  /** Round half away from zero, then cast: a negative value saturates at zero. */
  function RoundToIndex(x: real): nat {
    if x < 0.0 then 0 else (x + 0.5).Floor
  }

  function LowIndex(confidence: real, n: nat): nat {
    RoundToIndex((1.0 - confidence) / 2.0 * n as real)
  }

  function HighIndex(confidence: real, n: nat): nat {
    RoundToIndex((1.0 - (1.0 - confidence) / 2.0) * n as real)
  }

  lemma IndicesInOrder(confidence: real, n: nat)
    requires confidence >= 0.0
    ensures LowIndex(confidence, n) <= HighIndex(confidence, n)
  {
    var alpha := 1.0 - confidence;
    var x, y := alpha / 2.0 * n as real, (1.0 - alpha / 2.0) * n as real;
    assert y - x == confidence * n as real;
    assert confidence * n as real >= 0.0;
    FloorMonotone(x, y);
  }

  // The low index is (1 - confidence) / 2 of the number of resamples, rounded half up; the high one is as
  // far from the end.
  lemma IndicesAreQuantiles(confidence: real, n: nat)
    requires 0.0 <= confidence <= 1.0
    ensures 2.0 * LowIndex(confidence, n) as real - 1.0 <= (1.0 - confidence) * n as real
    ensures (1.0 - confidence) * n as real < 2.0 * LowIndex(confidence, n) as real + 1.0
    ensures 2.0 * HighIndex(confidence, n) as real - 1.0 <= (1.0 + confidence) * n as real
    ensures (1.0 + confidence) * n as real < 2.0 * HighIndex(confidence, n) as real + 1.0
  {
    var x, y := (1.0 - confidence) / 2.0 * n as real, (1.0 - (1.0 - confidence) / 2.0) * n as real;
    assert 1.0 - (1.0 - confidence) / 2.0 == (1.0 + confidence) / 2.0;
    Doubled(1.0 - confidence, n as real);
    Doubled(1.0 + confidence, n as real);
    RoundsHalfUp(x);
    RoundsHalfUp(y);
  }

  lemma Doubled(x: real, n: real)
    requires x >= 0.0 && n >= 0.0
    ensures 2.0 * (x / 2.0 * n) == x * n >= 0.0
  {}

  lemma RoundsHalfUp(x: real)
    requires x >= 0.0
    ensures RoundToIndex(x) as real - 0.5 <= x < RoundToIndex(x) as real + 0.5
  {}

  lemma FloorMonotone(x: real, y: real)
    requires x <= y
    ensures RoundToIndex(x) <= RoundToIndex(y)
  {}

  function AtMost(i: nat, n: nat): nat {
    if i < n then i else n
  }

  // Of ten thousand resamples, the default, the interval takes numbers 250 and 9750, of ten the first and the last.
  lemma DefaultRanks()
    ensures AtMost(LowIndex(0.95, 10_000), 9_999) == 250 && AtMost(HighIndex(0.95, 10_000), 9_999) == 9_750
    ensures AtMost(LowIndex(0.95, 10), 9) == 0 && AtMost(HighIndex(0.95, 10), 9) == 9
  {
    IndicesAreQuantiles(0.95, 10_000);
    IndicesAreQuantiles(0.95, 10);
  }

  // The interval is made of two order statistics of the resampled differences.
  ghost predicate IsPercentileInterval(deltas: seq<real>, confidence: real, ci: Interval)
    requires |deltas| > 0
  {
    exists sorted :: Sorted(sorted) && multiset(sorted) == multiset(deltas) && |sorted| == |deltas|
      && ci.lo == sorted[AtMost(LowIndex(confidence, |deltas|), |deltas| - 1)]
      && ci.hi == sorted[AtMost(HighIndex(confidence, |deltas|), |deltas| - 1)]
  }

  lemma IntervalWithin(deltas: seq<real>, confidence: real, ci: Interval, lo: real, hi: real)
    requires |deltas| > 0 && IsPercentileInterval(deltas, confidence, ci) && Within(deltas, lo, hi)
    ensures lo <= ci.lo <= hi && lo <= ci.hi <= hi
    ensures confidence >= 0.0 ==> ci.lo <= ci.hi
  {
    var sorted :| Sorted(sorted) && multiset(sorted) == multiset(deltas) && |sorted| == |deltas|
      && ci.lo == sorted[AtMost(LowIndex(confidence, |deltas|), |deltas| - 1)]
      && ci.hi == sorted[AtMost(HighIndex(confidence, |deltas|), |deltas| - 1)];
    forall i | 0 <= i < |sorted|
      ensures lo <= sorted[i] <= hi
    {
      assert sorted[i] in multiset(sorted);
      assert sorted[i] in deltas;
    }
    if confidence >= 0.0 {
      IndicesInOrder(confidence, |deltas|);
    }
  }

  method ResampledDeltas(a: seq<real>, b: seq<real>, draw: (nat, nat) -> nat, n: nat) returns (deltas: seq<real>)
    requires |a| > 0 && |b| > 0
    ensures deltas == Deltas(a, b, draw, n)
  {
    deltas := [];
    for k := 0 to n
      invariant deltas == Deltas(a, b, draw, k)
    {
      var aRs := MeanResample(a, draw, k, 0);
      var bRs := MeanResample(b, draw, k, |a|);
      deltas := deltas + [bRs - aRs];
    }
  }

  method PercentileInterval(deltas: seq<real>, confidence: real) returns (ci: Interval)
    requires |deltas| > 0
    ensures IsPercentileInterval(deltas, confidence, ci)
  {
    var sorted := Sort(deltas);
    assert |multiset(sorted)| == |sorted| && |multiset(deltas)| == |deltas|;
    var lo := sorted[AtMost(LowIndex(confidence, |sorted|), |sorted| - 1)];
    var hi := sorted[AtMost(HighIndex(confidence, |sorted|), |sorted| - 1)];
    ci := Interval(lo, hi);
  }

  method CompareBootstrap(a: seq<real>, b: seq<real>, metric: Metric, opts: Options, draw: (nat, nat) -> nat)
    returns (r: Comparison)
    requires |a| > 0 && |b| > 0 && opts.resamples > 0
    ensures IsBootstrap(a, b, metric, opts, draw, r)
  {
    var aMean, bMean := Mean(a), Mean(b);
    var deltas := ResampledDeltas(a, b, draw, opts.resamples);
    var ci := PercentileInterval(deltas, opts.confidence);
    r := Comparison(metric, aMean, bMean, bMean - aMean, PctDelta(aMean, bMean), Some(ci), |a|, |b|,
      RunBootstrap, if ci.lo > 0.0 || ci.hi < 0.0 then Significant else NotSignificant);
  }

  ghost predicate IsBootstrap(a: seq<real>, b: seq<real>, metric: Metric, opts: Options, draw: (nat, nat) -> nat,
      r: Comparison)
    requires |a| > 0 && |b| > 0 && opts.resamples > 0
  {
    && r.metric == metric && r.strategy == RunBootstrap
    && r.a == Mean(a) && r.b == Mean(b) && r.delta == r.b - r.a && r.deltaPct == PctDelta(r.a, r.b)
    && r.nA == |a| && r.nB == |b|
    && r.ci.Some? && IsPercentileInterval(Deltas(a, b, draw, opts.resamples), opts.confidence, r.ci.value)
    && r.significance == if r.ci.value.lo > 0.0 || r.ci.value.hi < 0.0 then Significant else NotSignificant
  }

  // A difference is significant exactly when the interval excludes zero.
  lemma SignificantIff(a: seq<real>, b: seq<real>, metric: Metric, opts: Options, draw: (nat, nat) -> nat,
      r: Comparison)
    requires |a| > 0 && |b| > 0 && opts.resamples > 0 && IsBootstrap(a, b, metric, opts, draw, r)
    ensures r.ci.Some? && (r.significance == Significant <==> !(r.ci.value.lo <= 0.0 <= r.ci.value.hi))
  {
    var ci := r.ci.value;
    assert !(ci.lo <= 0.0 <= ci.hi) <==> ci.lo > 0.0 || ci.hi < 0.0;
  }

  function CompareRaw(a: Side, b: Side, metric: Metric): Comparison {
    Comparison(metric, a.aggregate, b.aggregate, b.aggregate - a.aggregate, PctDelta(a.aggregate, b.aggregate), None,
      |a.perRun|, |b.perRun|, RawDelta, NotApplicable)
  }

  /** Bootstrap with at least three runs on both sides, the raw difference otherwise. */
  method CompareMetric(a: Side, b: Side, metric: Metric, opts: Options, draw: (nat, nat) -> nat) returns (r: Comparison)
    requires |a.perRun| >= 3 && |b.perRun| >= 3 ==> opts.resamples > 0
    ensures if |a.perRun| >= 3 && |b.perRun| >= 3 then IsBootstrap(a.perRun, b.perRun, metric, opts, draw, r)
            else r == CompareRaw(a, b, metric)
    ensures r.metric == metric && r.nA == |a.perRun| && r.nB == |b.perRun| && r.delta == r.b - r.a
    ensures |a.perRun| < 3 || |b.perRun| < 3 ==>
      r.a == a.aggregate && r.b == b.aggregate && r.ci == None && r.significance == NotApplicable
    ensures r.ci.Some? ==> (r.significance == Significant <==> !(r.ci.value.lo <= 0.0 <= r.ci.value.hi))
  {
    if |a.perRun| >= 3 && |b.perRun| >= 3 {
      r := CompareBootstrap(a.perRun, b.perRun, metric, opts, draw);
      SignificantIff(a.perRun, b.perRun, metric, opts, draw, r);
    } else {
      r := CompareRaw(a, b, metric);
    }
  }

  // Whatever the generator draws, the interval is ordered and as wide as the runs allow at most.
  lemma IntervalBounds(a: seq<real>, b: seq<real>, metric: Metric, opts: Options,
      draw: (nat, nat) -> nat, r: Comparison, minA: real, maxA: real, minB: real, maxB: real)
    requires |a| > 0 && |b| > 0 && opts.resamples > 0 && IsBootstrap(a, b, metric, opts, draw, r)
    requires Within(a, minA, maxA) && Within(b, minB, maxB)
    ensures opts.confidence >= 0.0 ==> r.ci.value.lo <= r.ci.value.hi
    ensures minB - maxA <= r.ci.value.lo <= maxB - minA
    ensures minB - maxA <= r.ci.value.hi <= maxB - minA
    ensures minA <= r.a <= maxA && minB <= r.b <= maxB
  {
    DeltasWithin(a, b, draw, opts.resamples, minA, maxA, minB, maxB);
    IntervalWithin(Deltas(a, b, draw, opts.resamples), opts.confidence, r.ci.value, minB - maxA, maxB - minA);
    MeanWithin(a, minA, maxA);
    MeanWithin(b, minB, maxB);
  }

  // --- the gate ---

  /** Whether a result crosses the regression threshold. */
  predicate RegressedBeyond(r: Comparison, threshold: real) {
    var t := Abs(threshold);
    if r.strategy == RunBootstrap && r.ci.Some? && r.deltaPct.Some? then
      if r.metric.IncreaseIsBad() then
        if Abs(r.a) < EPSILON then r.deltaPct.value > t else r.ci.value.lo / r.a > t
      else
        if Abs(r.a) < EPSILON then r.deltaPct.value < -t else r.ci.value.hi / r.a < -t
    else if r.deltaPct.Some? then
      if r.metric.IncreaseIsBad() then r.deltaPct.value > t else r.deltaPct.value < -t
    else
      false
  }

  lemma AboveQuotient(x: real, y: real, t: real)
    requires y > 0.0
    ensures x / y > t <==> x > t * y
    ensures x / y < -t <==> x < -(t * y)
  {
    var q := x / y;
    assert q * y == x;
    PositiveFactor(q - t, y);
    PositiveFactor(-t - q, y);
  }

  // What both paths guarantee of their result.
  ghost predicate IsResult(r: Comparison) {
    && r.delta == r.b - r.a && r.deltaPct == PctDelta(r.a, r.b)
    && (r.strategy == RunBootstrap <==> r.ci.Some?)
  }

  /** The figure that is documented to be compared with the threshold. */
  function Compared(r: Comparison): real {
    if r.ci.None? then r.delta else if r.metric.IncreaseIsBad() then r.ci.value.lo else r.ci.value.hi
  }

  // The documented rule: that figure is worse than the threshold times |a|.
  predicate Crosses(r: Comparison, threshold: real) {
    var limit := Abs(threshold) * Abs(r.a);
    if r.metric.IncreaseIsBad() then Compared(r) > limit else Compared(r) < -limit
  }

  predicate IsWorse(r: Comparison) {
    if r.metric.IncreaseIsBad() then Compared(r) > 0.0 else Compared(r) < 0.0
  }

  // Whatever produced the result: with a baseline below the epsilon nothing trips, a baseline of zero
  // included; from there on the gate compares the quotient.
  lemma GateOutcome(r: Comparison, t: real)
    requires IsResult(r)
    ensures Abs(r.a) < EPSILON ==> !RegressedBeyond(r, t)
    ensures Abs(r.a) >= EPSILON ==>
      (RegressedBeyond(r, t) <==>
        if r.metric.IncreaseIsBad() then Compared(r) / r.a > Abs(t) else Compared(r) / r.a < -Abs(t))
  {}

  // So it follows the documented rule, except that it also wants the baseline to reach the epsilon.
  lemma GateIsGuarded(r: Comparison, t: real)
    requires IsResult(r) && r.a >= 0.0
    ensures RegressedBeyond(r, t) <==> r.a >= EPSILON && Crosses(r, t)
  {
    GateOutcome(r, t);
    if r.a >= EPSILON {
      AboveQuotient(Compared(r), r.a, Abs(t));
    }
  }

  lemma Scaled(t: real, x: real, y: real)
    requires t >= 0.0 && x <= y
    ensures t * x <= t * y
  {}

  lemma CrossesIsWorse(r: Comparison, t: real)
    requires Crosses(r, t)
    ensures IsWorse(r)
  {
    Scaled(Abs(t), 0.0, Abs(r.a));
  }

  lemma SeparatedTrips(r: Comparison, t: real, maxA: real)
    requires IsResult(r) && t >= 0.0 && 0.0 <= r.a <= maxA
    requires if r.metric.IncreaseIsBad() then Compared(r) > t * maxA else Compared(r) < -(t * maxA)
    ensures RegressedBeyond(r, t) <==> r.a >= EPSILON
  {
    Scaled(t, r.a, maxA);
    FarApartTrips(r, t, t * maxA);
  }

  lemma FarApartTrips(r: Comparison, t: real, limit: real)
    requires IsResult(r) && t >= 0.0 && r.a >= 0.0 && t * r.a <= limit
    requires if r.metric.IncreaseIsBad() then Compared(r) > limit else Compared(r) < -limit
    ensures RegressedBeyond(r, t) <==> r.a >= EPSILON
  {
    GateIsGuarded(r, t);
  }

  // It follows the rule at every threshold exactly when the baseline reaches the epsilon, or nothing
  // got worse.
  lemma GateIsDocumentedIff(r: Comparison)
    requires IsResult(r) && r.a >= 0.0
    ensures (forall t :: RegressedBeyond(r, t) <==> Crosses(r, t)) <==> r.a >= EPSILON || !IsWorse(r)
  {
    GateIsGuarded(r, 0.0);
    forall t
      ensures RegressedBeyond(r, t) <==> r.a >= EPSILON && Crosses(r, t)
      ensures Crosses(r, t) ==> IsWorse(r)
    {
      GateIsGuarded(r, t);
      if Crosses(r, t) {
        CrossesIsWorse(r, t);
      }
    }
    assert Crosses(r, 0.0) == IsWorse(r);
  }

  lemma SeparatedIntervals(a: seq<real>, b: seq<real>, metric: Metric, opts: Options,
      draw: (nat, nat) -> nat, r: Comparison, limit: real, minA: real, maxA: real, minB: real, maxB: real)
    requires |a| > 0 && |b| > 0 && opts.resamples > 0 && IsBootstrap(a, b, metric, opts, draw, r)
    requires Within(a, minA, maxA) && Within(b, minB, maxB)
    requires if metric.IncreaseIsBad() then minB - maxA > limit else maxB - minA < -limit
    ensures IsResult(r) && minA <= r.a <= maxA
    ensures if r.metric.IncreaseIsBad() then Compared(r) > limit else Compared(r) < -limit
  {
    IntervalBounds(a, b, metric, opts, draw, r, minA, maxA, minB, maxB);
  }

  // With A runs separated by more than the threshold in the bad direction, the gate trips exactly when
  // A's mean is not below the machine epsilon.
  lemma SeparatedRunsTrip(a: seq<real>, b: seq<real>, metric: Metric, opts: Options,
      draw: (nat, nat) -> nat, r: Comparison, t: real, minA: real, maxA: real, minB: real, maxB: real)
    requires |a| > 0 && |b| > 0 && opts.resamples > 0 && IsBootstrap(a, b, metric, opts, draw, r)
    requires Within(a, minA, maxA) && Within(b, minB, maxB) && minA >= 0.0 && t >= 0.0
    requires if metric.IncreaseIsBad() then minB - maxA > t * maxA else maxB - minA < -(t * maxA)
    ensures RegressedBeyond(r, t) <==> Mean(a) >= EPSILON
  {
    SeparatedIntervals(a, b, metric, opts, draw, r, t * maxA, minA, maxA, minB, maxB);
    SeparatedTrips(r, t, maxA);
  }

  // In particular it trips whenever no A run is below 1, as for every latency in whole nanoseconds.
  lemma SeparatedLatenciesTrip(a: seq<real>, b: seq<real>, metric: Metric, opts: Options,
      draw: (nat, nat) -> nat, r: Comparison, t: real, minA: real, maxA: real, minB: real, maxB: real)
    requires |a| > 0 && |b| > 0 && opts.resamples > 0 && IsBootstrap(a, b, metric, opts, draw, r)
    requires Within(a, minA, maxA) && Within(b, minB, maxB) && minA >= 1.0 && t >= 0.0
    requires if metric.IncreaseIsBad() then minB - maxA > t * maxA else maxB - minA < -(t * maxA)
    ensures RegressedBeyond(r, t)
  {
    SeparatedRunsTrip(a, b, metric, opts, draw, r, t, minA, maxA, minB, maxB);
    MeanWithin(a, minA, maxA);
  }

  // Runs separated in the good direction, or touching, never trip it.
  lemma ImprovedRunsNeverTrip(a: seq<real>, b: seq<real>, metric: Metric, opts: Options,
      draw: (nat, nat) -> nat, r: Comparison, t: real, minA: real, maxA: real, minB: real, maxB: real)
    requires |a| > 0 && |b| > 0 && opts.resamples > 0 && IsBootstrap(a, b, metric, opts, draw, r)
    requires Within(a, minA, maxA) && Within(b, minB, maxB) && minA >= 0.0
    requires if metric.IncreaseIsBad() then maxB <= minA else minB >= maxA
    ensures !RegressedBeyond(r, t)
  {
    IntervalBounds(a, b, metric, opts, draw, r, minA, maxA, minB, maxB);
    if RegressedBeyond(r, t) {
      GateIsGuarded(r, t);
      CrossesIsWorse(r, t);
      assert false;
    }
  }

  // Without an interval: the raw difference is gated in the same way, with the same blind spot.
  lemma RawGateOutcome(a: Side, b: Side, metric: Metric, t: real)
    requires a.aggregate >= 0.0 && t >= 0.0
    ensures RegressedBeyond(CompareRaw(a, b, metric), t) <==>
      && a.aggregate >= EPSILON
      && if metric.IncreaseIsBad() then b.aggregate - a.aggregate > t * a.aggregate
         else b.aggregate - a.aggregate < -(t * a.aggregate)
  {
    GateIsGuarded(CompareRaw(a, b, metric), t);
  }

  // --- which direction is the bad one ---

  // The rate: runs that are lower by more than the threshold trip the gate, and runs that are as high never do.
  lemma RateGatesDrops(a: seq<real>, b: seq<real>, opts: Options, draw: (nat, nat) -> nat, r: Comparison, t: real,
      minA: real, maxA: real, minB: real, maxB: real)
    requires |a| > 0 && |b| > 0 && opts.resamples > 0 && IsBootstrap(a, b, Rate, opts, draw, r)
    requires Within(a, minA, maxA) && Within(b, minB, maxB) && minA >= 0.0 && t >= 0.0
    ensures maxB - minA < -(t * maxA) ==> (RegressedBeyond(r, t) <==> Mean(a) >= EPSILON)
    ensures minB >= maxA ==> !RegressedBeyond(r, t)
  {
    if maxB - minA < -(t * maxA) {
      SeparatedRunsTrip(a, b, Rate, opts, draw, r, t, minA, maxA, minB, maxB);
    }
    if minB >= maxA {
      ImprovedRunsNeverTrip(a, b, Rate, opts, draw, r, t, minA, maxA, minB, maxB);
    }
  }

  // Every latency and the error rate: the other way round.
  lemma OthersGateRises(a: seq<real>, b: seq<real>, metric: Metric, opts: Options, draw: (nat, nat) -> nat,
      r: Comparison, t: real, minA: real, maxA: real, minB: real, maxB: real)
    requires metric in [P50, P90, P99, P99_9, P99_99, Metric.Max, ErrorRate]
    requires |a| > 0 && |b| > 0 && opts.resamples > 0 && IsBootstrap(a, b, metric, opts, draw, r)
    requires Within(a, minA, maxA) && Within(b, minB, maxB) && minA >= 0.0 && t >= 0.0
    ensures minB - maxA > t * maxA ==> (RegressedBeyond(r, t) <==> Mean(a) >= EPSILON)
    ensures maxB <= minA ==> !RegressedBeyond(r, t)
  {
    if minB - maxA > t * maxA {
      SeparatedRunsTrip(a, b, metric, opts, draw, r, t, minA, maxA, minB, maxB);
    }
    if maxB <= minA {
      ImprovedRunsNeverTrip(a, b, metric, opts, draw, r, t, minA, maxA, minB, maxB);
    }
  }

  lemma RawGatesLikewise(a: Side, b: Side, metric: Metric, t: real)
    requires a.aggregate >= 0.0 && t >= 0.0
    ensures RegressedBeyond(CompareRaw(a, b, Rate), t) <==>
      a.aggregate >= EPSILON && a.aggregate - b.aggregate > t * a.aggregate
    ensures metric != Rate ==> (RegressedBeyond(CompareRaw(a, b, metric), t) <==>
      a.aggregate >= EPSILON && b.aggregate - a.aggregate > t * a.aggregate)
  {
    RawGateOutcome(a, b, Rate, t);
    RawGateOutcome(a, b, metric, t);
  }

  // Three runs of 10 ms against three of 20 ms trip a gate of five per cent on p99; a rate that doubles
  // does not trip one on the rate, and a rate that halves does.
  lemma DoubledLatencyTrips(opts: Options, draw: (nat, nat) -> nat, r: Comparison)
    requires opts.resamples > 0
    requires IsBootstrap([10_000_000.0, 10_000_000.0, 10_000_000.0], [20_000_000.0, 20_000_000.0, 20_000_000.0],
                         P99, opts, draw, r)
    ensures RegressedBeyond(r, 0.05)
  {
    var a, b := [10_000_000.0, 10_000_000.0, 10_000_000.0], [20_000_000.0, 20_000_000.0, 20_000_000.0];
    OthersGateRises(a, b, P99, opts, draw, r, 0.05, 10_000_000.0, 10_000_000.0, 20_000_000.0, 20_000_000.0);
    MeanWithin(a, 10_000_000.0, 10_000_000.0);
  }

  lemma DoubledRateDoesNotTrip(opts: Options, draw: (nat, nat) -> nat, r: Comparison)
    requires opts.resamples > 0
    requires IsBootstrap([1000.0, 1000.0, 1000.0], [2000.0, 2000.0, 2000.0], Rate, opts, draw, r)
    ensures !RegressedBeyond(r, 0.05)
  {
    RateGatesDrops([1000.0, 1000.0, 1000.0], [2000.0, 2000.0, 2000.0], opts, draw, r, 0.05,
                   1000.0, 1000.0, 2000.0, 2000.0);
  }

  lemma HalvedRateTrips(opts: Options, draw: (nat, nat) -> nat, r: Comparison)
    requires opts.resamples > 0
    requires IsBootstrap([2000.0, 2000.0, 2000.0], [1000.0, 1000.0, 1000.0], Rate, opts, draw, r)
    ensures RegressedBeyond(r, 0.05)
  {
    var a := [2000.0, 2000.0, 2000.0];
    RateGatesDrops(a, [1000.0, 1000.0, 1000.0], opts, draw, r, 0.05, 2000.0, 2000.0, 1000.0, 1000.0);
    MeanWithin(a, 2000.0, 2000.0);
  }

  // A clean baseline defeats the gate: three runs without an error against three runs of errors only
  // differ significantly, and yet no threshold trips, with an interval or without one.
  lemma CleanBaselineNeverTrips(opts: Options, draw: (nat, nat) -> nat, r: Comparison, t: real)
    requires opts.resamples > 0
    requires IsBootstrap([0.0, 0.0, 0.0], [1.0, 1.0, 1.0], ErrorRate, opts, draw, r)
    ensures r.ci == Some(Interval(1.0, 1.0)) && r.significance == Significant && !RegressedBeyond(r, t)
    ensures !RegressedBeyond(CompareRaw(Side([], 0.0), Side([], 1.0), ErrorRate), t)
  {
    var a, b := [0.0, 0.0, 0.0], [1.0, 1.0, 1.0];
    IntervalBounds(a, b, ErrorRate, opts, draw, r, 0.0, 0.0, 1.0, 1.0);
    GateOutcome(r, t);
    GateOutcome(CompareRaw(Side([], 0.0), Side([], 1.0), ErrorRate), t);
  }

  // So does a positive error rate below the machine epsilon: with every run of A at half the epsilon
  // and every run of B at 1, the runs differ significantly and no threshold trips.
  lemma TinyBaselineNeverTrips(opts: Options, draw: (nat, nat) -> nat, r: Comparison, t: real)
    requires opts.resamples > 0
    requires var tiny := EPSILON / 2.0;
      IsBootstrap([tiny, tiny, tiny], [1.0, 1.0, 1.0], ErrorRate, opts, draw, r)
    ensures r.significance == Significant && !RegressedBeyond(r, t)
    ensures 0.0 <= t <= 1.0 ==> 1.0 - EPSILON / 2.0 > t * (EPSILON / 2.0)
  {
    var tiny := EPSILON / 2.0;
    var a, b := [tiny, tiny, tiny], [1.0, 1.0, 1.0];
    IntervalBounds(a, b, ErrorRate, opts, draw, r, tiny, tiny, 1.0, 1.0);
    GateOutcome(r, t);
  }
}
