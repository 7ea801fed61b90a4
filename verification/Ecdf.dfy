/**
 Empirical distributions of two recorded histograms: the merge-walk shared by the two-sample tests,
 the Kolmogorov-Smirnov D statistic and the Anderson-Darling statistic.

 A histogram is what iter_recorded yields: its non-empty buckets in ascending order. Floating-point
 numbers are exact reals.
 */
module Ecdf {
  import opened Reals

  datatype Bucket = Bucket(value: nat, count: nat)

  // What a histogram iterator yields: distinct values in ascending order, none of them empty.
  ghost predicate Recorded(ps: seq<Bucket>) {
    && (forall i, j :: 0 <= i < j < |ps| ==> ps[i].value < ps[j].value)
    && (forall i :: 0 <= i < |ps| ==> ps[i].count > 0)
  }

  /** Samples in the first n buckets. */
  function Sum(ps: seq<Bucket>, n: nat): nat
    requires n <= |ps|
  {
    if n == 0 then 0 else Sum(ps, n - 1) + ps[n - 1].count
  }

  function Total(ps: seq<Bucket>): nat {
    Sum(ps, |ps|)
  }

  ghost function Below(ps: seq<Bucket>, n: nat, v: int): nat
    requires n <= |ps|
  {
    if n == 0 then 0 else Below(ps, n - 1, v) + if ps[n - 1].value <= v then ps[n - 1].count else 0
  }

  /** Samples at or below v, whatever the order of the buckets. */
  ghost function CountUpTo(ps: seq<Bucket>, v: int): nat {
    Below(ps, |ps|, v)
  }

  ghost function Cdf(ps: seq<Bucket>, v: int): real
    requires Total(ps) > 0
  {
    CountUpTo(ps, v) as real / Total(ps) as real
  }

  ghost predicate SameCdf(a: seq<Bucket>, b: seq<Bucket>)
    requires Total(a) > 0 && Total(b) > 0
  {
    forall v: int :: Cdf(a, v) == Cdf(b, v)
  }

  // v falls between bucket i - 1 and bucket i.
  ghost predicate Cuts(ps: seq<Bucket>, i: nat, v: int) {
    i <= |ps| && (i > 0 ==> ps[i - 1].value <= v) && (i < |ps| ==> v < ps[i].value)
  }

  lemma {:induction false} BelowAtCut(ps: seq<Bucket>, i: nat, n: nat, v: int)
    requires Recorded(ps) && Cuts(ps, i, v) && n <= |ps|
    ensures Below(ps, n, v) == Sum(ps, if n <= i then n else i)
  {
    if n > 0 {
      BelowAtCut(ps, i, n - 1, v);
    }
  }

  lemma CountAtCut(ps: seq<Bucket>, i: nat, v: int)
    requires Recorded(ps) && Cuts(ps, i, v)
    ensures CountUpTo(ps, v) == Sum(ps, i)
  {
    BelowAtCut(ps, i, |ps|, v);
  }

  lemma {:induction false} BelowGrows(ps: seq<Bucket>, n: nat, v: int, w: int)
    requires n <= |ps| && v <= w
    ensures Below(ps, n, v) <= Below(ps, n, w) <= Sum(ps, n)
  {
    if n > 0 {
      BelowGrows(ps, n - 1, v, w);
    }
  }

  // A count moves between v - 1 and v exactly when v is recorded.
  lemma {:induction false} BelowStep(ps: seq<Bucket>, n: nat, v: int)
    requires Recorded(ps) && n <= |ps|
    ensures Below(ps, n, v - 1) <= Below(ps, n, v)
    ensures Below(ps, n, v - 1) < Below(ps, n, v) <==> exists i :: 0 <= i < n && ps[i].value == v
  {
    if n > 0 {
      BelowStep(ps, n - 1, v);
    }
  }

  /** Move past every bucket at the step value, counting the samples passed. */
  method AdvancePast(ps: seq<Bucket>, start: nat, step: int) returns (i: nat, passed: nat)
    requires Recorded(ps) && start <= |ps|
    requires start < |ps| ==> step <= ps[start].value
    requires start > 0 ==> ps[start - 1].value < step
    ensures start <= i <= start + 1 && Cuts(ps, i, step) && Sum(ps, i) == Sum(ps, start) + passed
    ensures i == start + 1 <==> start < |ps| && ps[start].value == step
  {
    i, passed := start, 0;
    while i < |ps| && ps[i].value == step
      invariant start <= i <= |ps| && i <= start + 1 && Sum(ps, i) == Sum(ps, start) + passed
      invariant i == start + 1 ==> ps[start].value == step
    {
      passed := passed + ps[i].count;
      i := i + 1;
    }
  }

  /** The least value not yet walked past. */
  method NextValue(a: seq<Bucket>, b: seq<Bucket>, ia: nat, ib: nat) returns (step: int)
    requires ia <= |a| && ib <= |b| && (ia < |a| || ib < |b|)
    ensures ia < |a| ==> step <= a[ia].value
    ensures ib < |b| ==> step <= b[ib].value
    ensures (ia < |a| && step == a[ia].value) || (ib < |b| && step == b[ib].value)
  {
    if ia < |a| && ib < |b| {
      step := if a[ia].value < b[ib].value then a[ia].value else b[ib].value;
    } else if ia < |a| {
      step := a[ia].value;
    } else {
      step := b[ib].value;
    }
  }

  // --- Kolmogorov-Smirnov ---

  ghost function Gap(a: seq<Bucket>, b: seq<Bucket>, v: int): real
    requires Total(a) > 0 && Total(b) > 0
  {
    Abs(Cdf(a, v) - Cdf(b, v))
  }

  // d is the greatest distance between the two distributions, over all values, recorded or not.
  ghost predicate IsKs(a: seq<Bucket>, b: seq<Bucket>, d: real)
    requires Total(a) > 0 && Total(b) > 0
  {
    (forall v: int :: Gap(a, b, v) <= d) && exists v: int :: Gap(a, b, v) == d
  }

  // v lies strictly below everything not yet walked past.
  ghost predicate Walked(a: seq<Bucket>, b: seq<Bucket>, ia: nat, ib: nat, v: int)
    requires ia <= |a| && ib <= |b|
  {
    (ia < |a| ==> v < a[ia].value) && (ib < |b| ==> v < b[ib].value)
  }

  // Everything walked past lies strictly below everything that is not.
  ghost predicate Split(a: seq<Bucket>, b: seq<Bucket>, ia: nat, ib: nat)
    requires ia <= |a| && ib <= |b|
  {
    && (ia > 0 && ib < |b| ==> a[ia - 1].value < b[ib].value)
    && (ib > 0 && ia < |a| ==> b[ib - 1].value < a[ia].value)
  }

  method KsStatistic(a: seq<Bucket>, b: seq<Bucket>) returns (d: real)
    requires Recorded(a) && Recorded(b) && Total(a) > 0 && Total(b) > 0
    ensures IsKs(a, b, d)
  {
    var nA, nB := Total(a) as real, Total(b) as real;
    var ia, ib, cumA, cumB := 0, 0, 0, 0;
    d := 0.0;
    ghost var at := -1;
    forall v: int | Walked(a, b, 0, 0, v) || v == at
      ensures Gap(a, b, v) == 0.0
    {
      FlatGap(a, b, 0, 0, v);
    }
    while ia < |a| || ib < |b|
      invariant ia <= |a| && ib <= |b| && Split(a, b, ia, ib)
      invariant cumA == Sum(a, ia) && cumB == Sum(b, ib)
      invariant Gap(a, b, at) == d
      invariant forall v: int :: Walked(a, b, ia, ib, v) ==> Gap(a, b, v) <= d
      decreases |a| - ia + |b| - ib
    {
      var step := NextValue(a, b, ia, ib);
      ghost var oa, ob := ia, ib;
      var fromA, fromB;
      ia, fromA := AdvancePast(a, ia, step);
      ib, fromB := AdvancePast(b, ib, step);
      cumA, cumB := cumA + fromA, cumB + fromB;
      var gap := Abs(cumA as real / nA - cumB as real / nB);
      forall v: int | step <= v && Walked(a, b, ia, ib, v)
        ensures Gap(a, b, v) == gap
      {
        FlatGap(a, b, ia, ib, v);
      }
      FlatGap(a, b, ia, ib, step);
      assert forall v: int :: v < step ==> Walked(a, b, oa, ob, v);
      if gap > d {
        d, at := gap, step;
      }
    }
  }

  // Between two steps both counts stand still.
  lemma FlatGap(a: seq<Bucket>, b: seq<Bucket>, ia: nat, ib: nat, v: int)
    requires Recorded(a) && Recorded(b) && Total(a) > 0 && Total(b) > 0
    requires Cuts(a, ia, v) && Cuts(b, ib, v)
    ensures Gap(a, b, v) == Abs(Sum(a, ia) as real / Total(a) as real - Sum(b, ib) as real / Total(b) as real)
  {
    CountAtCut(a, ia, v);
    CountAtCut(b, ib, v);
  }

  lemma KsIsUnique(a: seq<Bucket>, b: seq<Bucket>, d: real, e: real)
    requires Total(a) > 0 && Total(b) > 0 && IsKs(a, b, d) && IsKs(a, b, e)
    ensures d == e
  {
    var v: int :| Gap(a, b, v) == d;
    var w: int :| Gap(a, b, w) == e;
    assert Gap(a, b, v) <= e && Gap(a, b, w) <= d;
  }

  lemma KsIsSymmetric(a: seq<Bucket>, b: seq<Bucket>, d: real)
    requires Total(a) > 0 && Total(b) > 0 && IsKs(a, b, d)
    ensures IsKs(b, a, d)
  {
    assert forall v: int :: Gap(b, a, v) == Gap(a, b, v);
    var v: int :| Gap(a, b, v) == d;
    assert Gap(b, a, v) == d;
  }

  lemma CdfInUnit(ps: seq<Bucket>, v: int)
    requires Total(ps) > 0
    ensures 0.0 <= Cdf(ps, v) <= 1.0
  {
    BelowGrows(ps, |ps|, v, v);
    FractionInUnit(CountUpTo(ps, v) as real, Total(ps) as real);
  }

  lemma FractionInUnit(x: real, n: real)
    requires 0.0 <= x <= n && n > 0.0
    ensures 0.0 <= x / n <= 1.0
  {}

  lemma KsInUnit(a: seq<Bucket>, b: seq<Bucket>, d: real)
    requires Total(a) > 0 && Total(b) > 0 && IsKs(a, b, d)
    ensures 0.0 <= d <= 1.0
  {
    var v: int :| Gap(a, b, v) == d;
    CdfInUnit(a, v);
    CdfInUnit(b, v);
  }

  lemma KsZeroIff(a: seq<Bucket>, b: seq<Bucket>, d: real)
    requires Total(a) > 0 && Total(b) > 0 && IsKs(a, b, d)
    ensures d == 0.0 <==> SameCdf(a, b)
  {
    if d == 0.0 {
      forall v: int
        ensures Cdf(a, v) == Cdf(b, v)
      {
        assert Gap(a, b, v) <= 0.0;
      }
    } else {
      var v: int :| Gap(a, b, v) == d;
      assert Cdf(a, v) != Cdf(b, v);
    }
  }

  // --- Anderson-Darling ---

  /** One step of the merge-walk: samples at the value, A's samples up to it, all samples up to it. */
  datatype Step = Step(h: nat, m: nat, cum: nat)

  ghost function StepAt(a: seq<Bucket>, b: seq<Bucket>, v: int): Step {
    BelowGrows(a, |a|, v - 1, v);
    BelowGrows(b, |b|, v - 1, v);
    var cum := CountUpTo(a, v) + CountUpTo(b, v);
    Step(cum - CountUpTo(a, v - 1) - CountUpTo(b, v - 1), CountUpTo(a, v), cum)
  }

  ghost predicate IsRecorded(ps: seq<Bucket>, n: nat, v: int)
    requires n <= |ps|
  {
    exists i :: 0 <= i < n && ps[i].value == v
  }

  // The recorded values of both histograms, each exactly once, in increasing order.
  ghost predicate IsUnion(a: seq<Bucket>, b: seq<Bucket>, ia: nat, ib: nat, values: seq<int>)
    requires ia <= |a| && ib <= |b|
  {
    && (forall i, j :: 0 <= i < j < |values| ==> values[i] < values[j])
    && (forall v: int :: v in values <==> IsRecorded(a, ia, v) || IsRecorded(b, ib, v))
  }

  ghost predicate StepsFor(a: seq<Bucket>, b: seq<Bucket>, values: seq<int>, steps: seq<Step>) {
    |steps| == |values| && forall j :: 0 <= j < |steps| ==> steps[j] == StepAt(a, b, values[j])
  }

  lemma UnionGrows(a: seq<Bucket>, b: seq<Bucket>, oa: nat, ob: nat, ia: nat, ib: nat, step: int,
      values: seq<int>)
    requires oa <= ia <= |a| && ob <= ib <= |b| && IsUnion(a, b, oa, ob, values)
    requires (ia == oa || (ia == oa + 1 && a[oa].value == step)) && (ib == ob || (ib == ob + 1 && b[ob].value == step))
    requires ia > oa || ib > ob
    requires (forall i :: 0 <= i < oa ==> a[i].value < step) && (forall i :: 0 <= i < ob ==> b[i].value < step)
    ensures IsUnion(a, b, ia, ib, values + [step])
  {
    forall i | 0 <= i < |values|
      ensures values[i] < step
    {
      assert values[i] in values;
    }
    forall v: int
      ensures v in values + [step] <==> IsRecorded(a, ia, v) || IsRecorded(b, ib, v)
    {
      if v == step {
        if ia > oa {
          assert a[oa].value == v;
        } else {
          assert b[ob].value == v;
        }
      }
    }
  }

  // A step that moves from one pair of cuts to the next.
  lemma {:induction false} StepBetweenCuts(a: seq<Bucket>, b: seq<Bucket>, oa: nat, ob: nat, ia: nat, ib: nat, v: int)
    requires Recorded(a) && Recorded(b) && Cuts(a, oa, v - 1) && Cuts(b, ob, v - 1) && Cuts(a, ia, v) && Cuts(b, ib, v)
    ensures Sum(a, oa) <= Sum(a, ia) && Sum(b, ob) <= Sum(b, ib)
    ensures StepAt(a, b, v)
      == Step(Sum(a, ia) - Sum(a, oa) + Sum(b, ib) - Sum(b, ob), Sum(a, ia), Sum(a, ia) + Sum(b, ib))
  {
    CountAtCut(a, ia, v);
    CountAtCut(b, ib, v);
    CountAtCut(a, oa, v - 1);
    CountAtCut(b, ob, v - 1);
    BelowGrows(a, |a|, v - 1, v);
    BelowGrows(b, |b|, v - 1, v);
  }

  method AdSteps(a: seq<Bucket>, b: seq<Bucket>) returns (steps: seq<Step>)
    requires Recorded(a) && Recorded(b)
    ensures exists values :: IsUnion(a, b, |a|, |b|, values) && StepsFor(a, b, values, steps)
  {
    steps := [];
    ghost var values: seq<int> := [];
    var ia, ib, cumA, cumAll := 0, 0, 0, 0;
    while ia < |a| || ib < |b|
      invariant ia <= |a| && ib <= |b| && Split(a, b, ia, ib)
      invariant cumA == Sum(a, ia) && cumAll == Sum(a, ia) + Sum(b, ib)
      invariant IsUnion(a, b, ia, ib, values) && StepsFor(a, b, values, steps)
      decreases |a| - ia + |b| - ib
    {
      var step := NextValue(a, b, ia, ib);
      ghost var oa, ob := ia, ib;
      var fromA, fromB;
      ia, fromA := AdvancePast(a, ia, step);
      ib, fromB := AdvancePast(b, ib, step);
      var h := fromA + fromB;
      cumA, cumAll := cumA + fromA, cumAll + h;
      UnionGrows(a, b, oa, ob, ia, ib, step, values);
      StepBetweenCuts(a, b, oa, ob, ia, ib, step);
      steps := steps + [Step(h, cumA, cumAll)];
      values := values + [step];
    }
  }

  /** The contribution of one step; n is A's sample count and total the count of both. */
  function AdTerm(s: Step, n: nat, total: nat): real {
    var denom := s.cum * (total - s.cum);
    var num := total * s.m - n * s.cum;
    if denom <= 0 then 0.0 else s.h as real * (num * num) as real / denom as real
  }

  ghost function TermAt(a: seq<Bucket>, b: seq<Bucket>, v: int): real {
    AdTerm(StepAt(a, b, v), Total(a), Total(a) + Total(b))
  }

  /** The sum over every value up to v, recorded or not. */
  ghost function Integral(a: seq<Bucket>, b: seq<Bucket>, v: int): real
    decreases v
  {
    if v < 0 then 0.0 else Integral(a, b, v - 1) + TermAt(a, b, v)
  }

  ghost function LastValue(ps: seq<Bucket>): nat {
    if ps == [] then 0 else ps[|ps| - 1].value
  }

  ghost function Top(a: seq<Bucket>, b: seq<Bucket>): nat {
    if LastValue(a) < LastValue(b) then LastValue(b) else LastValue(a)
  }

  function Scaled(n: nat, m: nat, acc: real): real
    requires n > 0 && m > 0
  {
    (n + m - 1) as real / (n * m * (n + m)) as real * acc
  }

  /** A squared as a sum over all values, without reference to how the walk enumerates them. */
  ghost function AndersonDarling(a: seq<Bucket>, b: seq<Bucket>): real
    requires Total(a) > 0 && Total(b) > 0
  {
    Scaled(Total(a), Total(b), Integral(a, b, Top(a, b)))
  }

  lemma StepMonotone(a: seq<Bucket>, b: seq<Bucket>, v: int, w: int)
    requires v <= w
    ensures StepAt(a, b, v).m <= StepAt(a, b, w).m <= Total(a)
    ensures StepAt(a, b, v).cum <= StepAt(a, b, w).cum <= Total(a) + Total(b)
    ensures StepAt(a, b, v).m <= StepAt(a, b, v).cum
  {
    BelowGrows(a, |a|, v, w);
    BelowGrows(b, |b|, v, w);
  }

  // Only a recorded value carries samples.
  lemma StepHeight(a: seq<Bucket>, b: seq<Bucket>, v: int)
    requires Recorded(a) && Recorded(b)
    ensures StepAt(a, b, v).h == StepAt(a, b, v).cum - StepAt(a, b, v - 1).cum
    ensures StepAt(a, b, v).h > 0 <==> IsRecorded(a, |a|, v) || IsRecorded(b, |b|, v)
    ensures StepAt(a, b, v).h == 0 ==> CountUpTo(a, v) == CountUpTo(a, v - 1) && CountUpTo(b, v) == CountUpTo(b, v - 1)
  {
    BelowStep(a, |a|, v);
    BelowStep(b, |b|, v);
  }

  // Before the last value the denominator is positive, so no step is ever skipped.
  lemma DenominatorPositive(a: seq<Bucket>, b: seq<Bucket>, values: seq<int>, j: nat)
    requires Recorded(a) && Recorded(b) && IsUnion(a, b, |a|, |b|, values) && j + 1 < |values|
    ensures var s := StepAt(a, b, values[j]);
      s.h > 0 && 0 < s.cum < Total(a) + Total(b) && s.cum * (Total(a) + Total(b) - s.cum) > 0
  {
    var v, w := values[j], values[j + 1];
    assert v in values && w in values;
    StepHeight(a, b, v);
    StepHeight(a, b, w);
    StepMonotone(a, b, v, w - 1);
    StepMonotone(a, b, w, w);
    PositiveProduct(StepAt(a, b, v).cum, Total(a) + Total(b) - StepAt(a, b, v).cum);
  }

  lemma PositiveProduct(x: int, y: int)
    requires x >= 0 && y >= 0
    ensures x * y > 0 <==> x > 0 && y > 0
  {}

  lemma FlatTerm(s: Step, n: nat, total: nat)
    requires s.h == 0 || s.cum == total
    ensures AdTerm(s, n, total) == 0.0
  {
    if s.cum == total {
      assert s.cum * (total - s.cum) == 0;
    } else {
      var num := total * s.m - n * s.cum;
      assert s.h as real * (num * num) as real == 0.0;
    }
  }

  // Nothing accrues over a stretch of unrecorded values.
  lemma {:induction false} IntegralFlat(a: seq<Bucket>, b: seq<Bucket>, lo: int, hi: int)
    requires Recorded(a) && Recorded(b) && lo <= hi
    requires forall v :: lo < v <= hi ==> !IsRecorded(a, |a|, v) && !IsRecorded(b, |b|, v)
    ensures Integral(a, b, lo) == Integral(a, b, hi)
    decreases hi - lo
  {
    if lo < hi {
      IntegralFlat(a, b, lo, hi - 1);
      StepHeight(a, b, hi);
      FlatTerm(StepAt(a, b, hi), Total(a), Total(a) + Total(b));
    }
  }

  // Nothing is left once every sample has been counted.
  lemma CountAll(ps: seq<Bucket>, v: int)
    requires Recorded(ps) && v >= LastValue(ps)
    ensures CountUpTo(ps, v) == Total(ps)
  {
    CountAtCut(ps, |ps|, v);
  }

  method AdSquared(a: seq<Bucket>, b: seq<Bucket>) returns (aSquared: real)
    requires Recorded(a) && Recorded(b)
    ensures aSquared == if Total(a) == 0 || Total(b) == 0 then 0.0 else AndersonDarling(a, b)
  {
    var n, m := Total(a), Total(b);
    if n == 0 || m == 0 {
      return 0.0;
    }
    var total := n + m;
    var steps := AdSteps(a, b);
    ghost var values :| IsUnion(a, b, |a|, |b|, values) && StepsFor(a, b, values, steps);
    var acc := AdSum(a, b, steps, values);
    aSquared := Scaled(n, m, acc);
  }

  /** The sum over all steps but the last. */
  method AdSum(a: seq<Bucket>, b: seq<Bucket>, steps: seq<Step>, ghost values: seq<int>) returns (acc: real)
    requires Recorded(a) && Recorded(b) && Total(a) > 0 && Total(b) > 0
    requires IsUnion(a, b, |a|, |b|, values) && StepsFor(a, b, values, steps)
    ensures acc == Integral(a, b, Top(a, b))
  {
    var n, total := Total(a), Total(a) + Total(b);
    LastIsTop(a, b, values);
    IntegralFlat(a, b, -1, values[0] - 1);
    acc := 0.0;
    for j := 0 to |steps| - 1
      invariant acc == Integral(a, b, values[j] - 1)
    {
      acc := AddTerm(acc, steps[j], n, total);
      assert values[j] in values;
      NoneBetween(a, b, values, j);
      IntegralFlat(a, b, values[j], values[j + 1] - 1);
    }
    CountAll(a, Top(a, b));
    CountAll(b, Top(a, b));
    FlatTerm(StepAt(a, b, Top(a, b)), n, total);
  }

  method AddTerm(acc: real, s: Step, n: nat, total: nat) returns (sum: real)
    ensures sum == acc + AdTerm(s, n, total)
  {
    var denom := s.cum * (total - s.cum);
    if denom <= 0 {
      return acc;
    }
    var num := total * s.m - n * s.cum;
    sum := acc + s.h as real * (num * num) as real / denom as real;
  }

  lemma NoneBetween(a: seq<Bucket>, b: seq<Bucket>, values: seq<int>, j: nat)
    requires IsUnion(a, b, |a|, |b|, values) && j + 1 < |values|
    ensures forall v :: values[j] < v < values[j + 1] ==> !IsRecorded(a, |a|, v) && !IsRecorded(b, |b|, v)
  {
    forall i | 0 <= i < |values|
      ensures values[i] <= values[j] || values[j + 1] <= values[i]
    {
      if i <= j {
        assert values[i] <= values[j];
      } else {
        assert values[j + 1] <= values[i];
      }
    }
    assert forall v :: v in values ==> v <= values[j] || values[j + 1] <= v;
  }

  lemma LastIsTop(a: seq<Bucket>, b: seq<Bucket>, values: seq<int>)
    requires Recorded(a) && Recorded(b) && IsUnion(a, b, |a|, |b|, values) && Total(a) > 0 && Total(b) > 0
    ensures |values| > 0 && values[|values| - 1] == Top(a, b) && values[0] >= 0
    ensures forall v :: -1 < v < values[0] ==> !IsRecorded(a, |a|, v) && !IsRecorded(b, |b|, v)
  {
    assert |a| > 0 && |b| > 0;
    assert IsRecorded(a, |a|, a[|a| - 1].value) && IsRecorded(b, |b|, b[|b| - 1].value);
    assert Top(a, b) in values && values[0] in values && values[|values| - 1] in values;
    forall v | v < values[0]
      ensures v !in values
    {}
  }

  // --- properties of the statistic ---

  lemma TermNonNegative(s: Step, n: nat, total: nat)
    ensures AdTerm(s, n, total) >= 0.0
  {
    var denom := s.cum * (total - s.cum);
    var num := total * s.m - n * s.cum;
    if denom > 0 {
      assert num * num >= 0;
      ProductOverPositive(s.h as real, (num * num) as real, denom as real);
    }
  }

  lemma ProductOverPositive(x: real, y: real, z: real)
    requires x >= 0.0 && y >= 0.0 && z > 0.0
    ensures x * y / z >= 0.0
    ensures x > 0.0 ==> (x * y / z == 0.0 <==> y == 0.0)
  {
    assert x * y >= 0.0;
  }

  lemma {:induction false} IntegralNonNegative(a: seq<Bucket>, b: seq<Bucket>, v: int)
    ensures Integral(a, b, v) >= 0.0
    decreases v
  {
    if v >= 0 {
      IntegralNonNegative(a, b, v - 1);
      TermNonNegative(StepAt(a, b, v), Total(a), Total(a) + Total(b));
    }
  }

  lemma ScaleProperties(n: nat, m: nat, acc: real)
    requires n > 0 && m > 0 && acc >= 0.0
    ensures Scaled(n, m, acc) >= 0.0 && (Scaled(n, m, acc) == 0.0 <==> acc == 0.0)
    ensures Scaled(n, m, acc) == Scaled(m, n, acc)
  {
    PositiveProduct(n, m);
    PositiveProduct(n * m, n + m);
    assert n * m * (n + m) == m * n * (m + n);
    var scale := (n + m - 1) as real / (n * m * (n + m)) as real;
    assert scale > 0.0;
    ProductOverPositive(scale, acc, 1.0);
  }

  lemma AdNonNegative(a: seq<Bucket>, b: seq<Bucket>)
    requires Total(a) > 0 && Total(b) > 0
    ensures AndersonDarling(a, b) >= 0.0
  {
    IntegralNonNegative(a, b, Top(a, b));
    ScaleProperties(Total(a), Total(b), Integral(a, b, Top(a, b)));
  }

  lemma TermSymmetric(h: nat, x: nat, y: nat, n: nat, m: nat)
    ensures AdTerm(Step(h, x, x + y), n, n + m) == AdTerm(Step(h, y, x + y), m, n + m)
  {
    var p, q := (n + m) * x - n * (x + y), (n + m) * y - m * (x + y);
    assert p == m * x - n * y && q == n * y - m * x;
    assert p * p == q * q;
  }

  lemma {:induction false} IntegralSymmetric(a: seq<Bucket>, b: seq<Bucket>, v: int)
    ensures Integral(a, b, v) == Integral(b, a, v)
    decreases v
  {
    if v >= 0 {
      IntegralSymmetric(a, b, v - 1);
      TermSymmetric(StepAt(a, b, v).h, CountUpTo(a, v), CountUpTo(b, v), Total(a), Total(b));
    }
  }

  lemma AdSymmetric(a: seq<Bucket>, b: seq<Bucket>)
    requires Total(a) > 0 && Total(b) > 0
    ensures AndersonDarling(a, b) == AndersonDarling(b, a)
  {
    IntegralSymmetric(a, b, Top(a, b));
    IntegralNonNegative(a, b, Top(a, b));
    ScaleProperties(Total(a), Total(b), Integral(a, b, Top(a, b)));
  }

  // The two distributions agree at v.
  ghost predicate Level(a: seq<Bucket>, b: seq<Bucket>, v: int) {
    CountUpTo(a, v) * Total(b) == CountUpTo(b, v) * Total(a)
  }

  lemma LevelIsEqualCdf(a: seq<Bucket>, b: seq<Bucket>, v: int)
    requires Total(a) > 0 && Total(b) > 0
    ensures Level(a, b, v) <==> Cdf(a, v) == Cdf(b, v)
  {
    SameFraction(CountUpTo(a, v), Total(a), CountUpTo(b, v), Total(b));
  }

  lemma SameFraction(x: nat, n: nat, y: nat, m: nat)
    requires n > 0 && m > 0
    ensures x * m == y * n <==> x as real / n as real == y as real / m as real
  {
    var p, q := x as real / n as real, y as real / m as real;
    assert x as real == p * n as real && y as real == q * m as real;
    assert (x * m) as real == p * (n as real * m as real);
    assert (y * n) as real == q * (n as real * m as real);
    assert n as real * m as real > 0.0;
  }

  lemma AdTermZeroIff(s: Step, n: nat, total: nat)
    requires s.h <= s.cum <= total
    ensures AdTerm(s, n, total) == 0.0 <==> s.h == 0 || s.cum == total || total * s.m == n * s.cum
  {
    PositiveProduct(s.cum, total - s.cum);
    var num := total * s.m - n * s.cum;
    if s.h == 0 || s.cum == total {
      FlatTerm(s, n, total);
    } else {
      SquareZeroIff(num);
      ProductOverPositive(s.h as real, (num * num) as real, (s.cum * (total - s.cum)) as real);
    }
  }

  lemma SquareZeroIff(x: int)
    ensures x * x >= 0 && (x * x == 0 <==> x == 0)
  {}

  lemma LevelIff(x: nat, y: nat, n: nat, m: nat)
    ensures (n + m) * x == n * (x + y) <==> x * m == y * n
  {
    assert (n + m) * x - n * (x + y) == m * x - n * y;
  }

  // A step contributes nothing exactly when it carries no samples or the distributions agree there.
  lemma TermZeroIff(a: seq<Bucket>, b: seq<Bucket>, v: int)
    requires Total(a) > 0 && Total(b) > 0
    ensures TermAt(a, b, v) == 0.0 <==> StepAt(a, b, v).h == 0 || Level(a, b, v)
  {
    BelowGrows(a, |a|, v - 1, v);
    BelowGrows(b, |b|, v - 1, v);
    AdTermLevel(StepAt(a, b, v).h, CountUpTo(a, v), CountUpTo(b, v), Total(a), Total(b));
  }

  lemma AdTermLevel(h: nat, x: nat, y: nat, n: nat, m: nat)
    requires h <= x + y && x <= n && y <= m
    ensures AdTerm(Step(h, x, x + y), n, n + m) == 0.0 <==> h == 0 || x * m == y * n
  {
    AdTermZeroIff(Step(h, x, x + y), n, n + m);
    LevelIff(x, y, n, m);
    if x + y == n + m {
      assert x == n && y == m;
    }
  }

  lemma {:induction false} ZeroIntegralIsLevel(a: seq<Bucket>, b: seq<Bucket>, v: int)
    requires Recorded(a) && Recorded(b) && Total(a) > 0 && Total(b) > 0
    ensures Integral(a, b, v) == 0.0 <==> forall w :: w <= v ==> Level(a, b, w)
    decreases v
  {
    if v < 0 {
      forall w | w <= v
        ensures Level(a, b, w)
      {
        CountAtCut(a, 0, w);
        CountAtCut(b, 0, w);
      }
    } else {
      ZeroIntegralIsLevel(a, b, v - 1);
      IntegralNonNegative(a, b, v - 1);
      TermNonNegative(StepAt(a, b, v), Total(a), Total(a) + Total(b));
      TermZeroIff(a, b, v);
      StepHeight(a, b, v);
      assert Level(a, b, v - 1) && StepAt(a, b, v).h == 0 ==> Level(a, b, v);
    }
  }

  // A squared vanishes exactly when the two empirical distributions coincide.
  lemma AdZeroIff(a: seq<Bucket>, b: seq<Bucket>)
    requires Recorded(a) && Recorded(b) && Total(a) > 0 && Total(b) > 0
    ensures AndersonDarling(a, b) == 0.0 <==> SameCdf(a, b)
  {
    IntegralNonNegative(a, b, Top(a, b));
    ScaleProperties(Total(a), Total(b), Integral(a, b, Top(a, b)));
    ZeroIntegralIsLevel(a, b, Top(a, b));
    forall v: int
      ensures v > Top(a, b) ==> Level(a, b, v)
      ensures Level(a, b, v) <==> Cdf(a, v) == Cdf(b, v)
    {
      LevelIsEqualCdf(a, b, v);
      if v > Top(a, b) {
        CountAll(a, v);
        CountAll(b, v);
      }
    }
  }

  lemma KsZeroIffAdZero(a: seq<Bucket>, b: seq<Bucket>, d: real)
    requires Recorded(a) && Recorded(b) && Total(a) > 0 && Total(b) > 0 && IsKs(a, b, d)
    ensures d == 0.0 <==> AndersonDarling(a, b) == 0.0
  {
    KsZeroIff(a, b, d);
    AdZeroIff(a, b);
  }

  // --- A squared through the distributions ---

  /** Samples of both sides at or below v. */
  ghost function Pooled(a: seq<Bucket>, b: seq<Bucket>, v: int): nat {
    CountUpTo(a, v) + CountUpTo(b, v)
  }

  /** The squared distance of the distributions at v, weighted by the samples at v and by the tails. */
  ghost function Discrepancy(a: seq<Bucket>, b: seq<Bucket>, v: int): real
    requires Total(a) > 0 && Total(b) > 0
  {
    OverTails(Pooled(a, b, v) - Pooled(a, b, v - 1), Cdf(a, v) - Cdf(b, v), Pooled(a, b, v),
              Total(a) + Total(b) - Pooled(a, b, v))
  }

  function OverTails(h: int, gap: real, c: int, rest: int): real {
    if c > 0 && rest > 0 then h as real * (gap * gap) / (c as real * rest as real) else 0.0
  }

  ghost function DiscrepancyOf(a: seq<Bucket>, b: seq<Bucket>): int -> real
    requires Total(a) > 0 && Total(b) > 0
  {
    u => Discrepancy(a, b, u)
  }

  ghost function TermOf(a: seq<Bucket>, b: seq<Bucket>): int -> real {
    u => TermAt(a, b, u)
  }

  /** The sum over every value up to v. */
  ghost function SumUpTo(f: int -> real, v: int): real
    decreases v
  {
    if v < 0 then 0.0 else SumUpTo(f, v - 1) + f(v)
  }

  /** A product that is not to be multiplied out. */
  function Times(x: real, y: real): real {
    x * y
  }

  function Sizes(n: nat, m: nat): real {
    n as real * m as real
  }

  function SquaredSizes(n: nat, m: nat): real {
    Times(Sizes(n, m), Sizes(n, m))
  }

  /** (N - 1) n m / N. */
  function PooledFactor(n: nat, m: nat): real
    requires n > 0 && m > 0
  {
    (n as real + m as real - 1.0) * (n as real * m as real) / (n as real + m as real)
  }

  // The numerator of a step is the distance of the distributions times both sample counts.
  lemma NumeratorIsGap(x: nat, y: nat, n: nat, m: nat)
    requires n > 0 && m > 0
    ensures ((n + m) * x - n * (x + y)) as real
      == Times(Sizes(n, m), x as real / n as real - y as real / m as real)
  {
    var p, q := x as real / n as real, y as real / m as real;
    assert p * n as real == x as real && q * m as real == y as real;
    assert (n + m) * x - n * (x + y) == m * x - n * y;
    assert (m * x - n * y) as real == m as real * x as real - n as real * y as real;
    ScaledGap(n as real, m as real, p, q);
  }

  lemma ScaledGap(n: real, m: real, p: real, q: real)
    ensures m * (p * n) - n * (q * m) == n * m * (p - q)
  {}

  lemma SquaredProduct(k: real, g: real)
    ensures (k * g) * (k * g) == k * k * (g * g)
  {}

  lemma QuotientScales(h: real, k: real, g: real, d: real)
    requires d > 0.0
    ensures h * (k * g) / d == k * (h * g / d)
  {
    var q := h * g / d;
    assert q * d == h * g;
    assert h * (k * g) == k * q * d;
  }

  lemma TermOverTails(s: Step, n: nat, m: nat, k: real, gap: real)
    requires s.cum <= n + m && ((n + m) * s.m - n * s.cum) as real == Times(k, gap)
    ensures AdTerm(s, n, n + m) == Times(Times(k, k), OverTails(s.h, gap, s.cum, n + m - s.cum))
  {
    var c, rest, num := s.cum, n + m - s.cum, (n + m) * s.m - n * s.cum;
    PositiveProduct(c, rest);
    if c > 0 && rest > 0 {
      RealProduct(c, rest);
      SquaredProduct(k, gap);
      RealSquare(num, k * gap);
      QuotientScales(s.h as real, k * k, gap * gap, (c * rest) as real);
    }
  }

  lemma RealProduct(x: nat, y: nat)
    ensures (x * y) as real == x as real * y as real
  {}

  lemma RealSquare(x: int, r: real)
    requires x as real == r
    ensures (x * x) as real == r * r
  {}

  lemma TermLaw(h: nat, x: nat, y: nat, n: nat, m: nat)
    requires n > 0 && m > 0 && x <= n && y <= m
    ensures AdTerm(Step(h, x, x + y), n, n + m) == Times(SquaredSizes(n, m),
      OverTails(h, x as real / n as real - y as real / m as real, x + y, n + m - (x + y)))
  {
    NumeratorIsGap(x, y, n, m);
    TermOverTails(Step(h, x, x + y), n, m, Sizes(n, m), x as real / n as real - y as real / m as real);
  }

  lemma TermIsDiscrepancy(a: seq<Bucket>, b: seq<Bucket>, v: int)
    requires Total(a) > 0 && Total(b) > 0
    ensures TermAt(a, b, v) == Times(SquaredSizes(Total(a), Total(b)), Discrepancy(a, b, v))
  {
    BelowGrows(a, |a|, v, v);
    BelowGrows(b, |b|, v, v);
    TermLaw(StepAt(a, b, v).h, CountUpTo(a, v), CountUpTo(b, v), Total(a), Total(b));
  }

  lemma {:induction false} SumScales(f: int -> real, g: int -> real, w: real, v: int)
    requires forall u :: f(u) == Times(w, g(u))
    ensures SumUpTo(f, v) == Times(w, SumUpTo(g, v))
    decreases v
  {
    if v >= 0 {
      SumScales(f, g, w, v - 1);
      Distributes(w, SumUpTo(g, v - 1), g(v));
    }
  }

  lemma Distributes(x: real, y: real, z: real)
    ensures Times(x, y + z) == Times(x, y) + Times(x, z)
  {}

  lemma {:induction false} IntegralIsSum(a: seq<Bucket>, b: seq<Bucket>, f: int -> real, v: int)
    requires f == TermOf(a, b)
    ensures Integral(a, b, v) == SumUpTo(f, v)
    decreases v
  {
    if v >= 0 {
      IntegralIsSum(a, b, f, v - 1);
    }
  }

  lemma IntegralIsWeighted(a: seq<Bucket>, b: seq<Bucket>, g: int -> real, v: int)
    requires Total(a) > 0 && Total(b) > 0 && g == DiscrepancyOf(a, b)
    ensures Integral(a, b, v) == Times(SquaredSizes(Total(a), Total(b)), SumUpTo(g, v))
  {
    forall u: int
      ensures TermOf(a, b)(u) == Times(SquaredSizes(Total(a), Total(b)), g(u))
    {
      TermIsDiscrepancy(a, b, u);
    }
    IntegralIsSum(a, b, TermOf(a, b), v);
    SumScales(TermOf(a, b), g, SquaredSizes(Total(a), Total(b)), v);
  }

  lemma ScaleLaw(n: nat, m: nat, acc: real, sum: real)
    requires n > 0 && m > 0 && acc == Times(SquaredSizes(n, m), sum)
    ensures Scaled(n, m, acc) == Times(PooledFactor(n, m), sum)
  {
    var k := n as real * m as real;
    RealProduct(n, m);
    RealProduct(n * m, n + m);
    assert k > 0.0;
    CancelProduct(n as real + m as real - 1.0, k, n as real + m as real);
    Regrouped((n as real + m as real - 1.0) / (k * (n as real + m as real)), k * k, sum);
  }

  lemma Regrouped(x: real, y: real, z: real)
    ensures x * (y * z) == x * y * z
  {}

  lemma CancelProduct(t: real, k: real, w: real)
    requires k > 0.0 && w > 0.0
    ensures t / (k * w) * (k * k) == t * k / w
  {
    var q := t / w;
    var r := q / k;
    assert q * w == t && r * k == q;
    DividedBy(t, k * w, r);
    DividedBy(t * k, w, q * k);
  }

  lemma DividedBy(x: real, y: real, z: real)
    requires y > 0.0 && z * y == x
    ensures x / y == z
  {}

  // A squared is (N - 1) n m / N times the sum, over the values with samples on both sides of them, of
  // the samples at the value times the squared distance over the samples up to it and beyond it.
  lemma AdIsDiscrepancies(a: seq<Bucket>, b: seq<Bucket>)
    requires Total(a) > 0 && Total(b) > 0
    ensures AndersonDarling(a, b) == Times(PooledFactor(Total(a), Total(b)), SumUpTo(DiscrepancyOf(a, b), Top(a, b)))
  {
    IntegralIsWeighted(a, b, DiscrepancyOf(a, b), Top(a, b));
    ScaleLaw(Total(a), Total(b), Integral(a, b, Top(a, b)), SumUpTo(DiscrepancyOf(a, b), Top(a, b)));
  }

  // Beyond the last value nothing is added.
  lemma {:induction false} NothingBeyondTop(a: seq<Bucket>, b: seq<Bucket>, v: int)
    requires Recorded(a) && Recorded(b) && Total(a) > 0 && Total(b) > 0 && v >= Top(a, b)
    ensures SumUpTo(DiscrepancyOf(a, b), v) == SumUpTo(DiscrepancyOf(a, b), Top(a, b))
    decreases v
  {
    if v > Top(a, b) {
      NothingBeyondTop(a, b, v - 1);
      CountAll(a, v);
      CountAll(b, v);
    }
  }

  // One sample against a larger one: the distance is 1, and A squared is one half.
  lemma OneAgainstOne()
    ensures Total([Bucket(1, 1)]) == Total([Bucket(2, 1)]) == 1
    ensures AndersonDarling([Bucket(1, 1)], [Bucket(2, 1)]) == 0.5
    ensures IsKs([Bucket(1, 1)], [Bucket(2, 1)], 1.0)
  {
    var a, b := [Bucket(1, 1)], [Bucket(2, 1)];
    OneEach(a, b);
    HalfOf(a, b);
  }

  lemma HalfOf(a: seq<Bucket>, b: seq<Bucket>)
    requires Total(a) == 1 && Total(b) == 1 && SumUpTo(DiscrepancyOf(a, b), Top(a, b)) == 1.0
    ensures AndersonDarling(a, b) == 0.5
  {
    AdIsDiscrepancies(a, b);
  }

  lemma OneEach(a: seq<Bucket>, b: seq<Bucket>)
    requires a == [Bucket(1, 1)] && b == [Bucket(2, 1)]
    ensures Total(a) == 1 && Total(b) == 1 && Top(a, b) == 2 && IsKs(a, b, 1.0)
    ensures SumUpTo(DiscrepancyOf(a, b), 2) == 1.0
  {
    assert Sum(a, 1) == Sum(a, 0) + 1 && Sum(b, 1) == Sum(b, 0) + 1;
    forall v: int
      ensures CountUpTo(a, v) == (if 1 <= v then 1 else 0) && CountUpTo(b, v) == if 2 <= v then 1 else 0
    {
      OneBucket(a[0], v);
      OneBucket(b[0], v);
    }
    assert Gap(a, b, 1) == 1.0;
    OneStep(a, b);
  }

  lemma OneStep(a: seq<Bucket>, b: seq<Bucket>)
    requires Total(a) == 1 && Total(b) == 1
    requires forall v: int :: CountUpTo(a, v) == (if 1 <= v then 1 else 0)
    requires forall v: int :: CountUpTo(b, v) == (if 2 <= v then 1 else 0)
    ensures SumUpTo(DiscrepancyOf(a, b), 2) == 1.0
  {
    assert Discrepancy(a, b, 0) == 0.0 && Discrepancy(a, b, 2) == 0.0;
    assert Discrepancy(a, b, 1) == 1.0;
    assert SumUpTo(DiscrepancyOf(a, b), 0) == SumUpTo(DiscrepancyOf(a, b), -1) + 0.0;
    assert SumUpTo(DiscrepancyOf(a, b), 1) == 1.0;
  }

  lemma OneBucket(p: Bucket, v: int)
    ensures CountUpTo([p], v) == if p.value <= v then p.count else 0
  {
    assert Below([p], 1, v) == Below([p], 0, v) + if p.value <= v then p.count else 0;
  }
}
