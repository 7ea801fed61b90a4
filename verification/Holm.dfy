/**
 The Holm-Bonferroni step-down correction. Floating-point p-values are exact reals; the
 specification of the adjusted values does not mention the order the implementation sorts by.
 */
module Holm {
  import opened Reals

  /** The hypotheses with a p-value strictly below x. */
  ghost function Less(p: seq<real>, x: real): set<nat> {
    set i: nat | i < |p| && p[i] < x
  }

  /** A p-value times the number of hypotheses still in play, capped at 1. */
  function Corrected(x: real, n: nat): real {
    Min(x * n as real, 1.0)
  }

  /** Each hypothesis' own corrected value: those with a smaller p-value are no longer in play. */
  ghost function Candidates(p: seq<real>): (c: seq<real>)
    ensures |c| == |p| && forall j :: 0 <= j < |p| ==> |Less(p, p[j])| <= |p|
    ensures forall j :: 0 <= j < |p| ==> c[j] == Corrected(p[j], |p| - |Less(p, p[j])|)
  {
    LessLeavesOne(p);
    seq(|p|, j requires 0 <= j < |p| => Corrected(p[j], |p| - |Less(p, p[j])|))
  }

  // x is the greatest c[j] over all j whose p-value is not above that of i, but at least 0.
  ghost predicate IsTop(p: seq<real>, c: seq<real>, i: nat, x: real)
    requires |c| == |p|
  {
    && i < |p| && x >= 0.0
    && (forall j: nat :: j < |p| && p[j] <= p[i] ==> c[j] <= x)
    && (x == 0.0 || exists j: nat :: j < |p| && p[j] <= p[i] && c[j] == x)
  }

  // The adjusted value of hypothesis i, whatever order the hypotheses are sorted in.
  ghost predicate IsAdjusted(p: seq<real>, i: nat, x: real) {
    IsTop(p, Candidates(p), i, x)
  }

  // The first n indices of p in ascending order of p-value, ties broken arbitrarily.
  ghost predicate IsOrderOf(p: seq<real>, n: nat, order: seq<nat>)
    requires n <= |p|
  {
    && |order| == n
    && (forall r :: 0 <= r < |order| ==> order[r] < n)
    && (forall i: nat :: i < n ==> i in order)
    && (forall r, s :: 0 <= r < s < |order| ==> order[r] != order[s] && p[order[r]] <= p[order[s]])
  }

  ghost predicate IsOrder(p: seq<real>, order: seq<nat>) {
    IsOrderOf(p, |p|, order)
  }

  // The step-down procedure at level alpha: going through the hypotheses in ascending order, reject
  // while p < alpha / (number left), and stop for good at the first that is not.
  ghost predicate Rejects(p: seq<real>, order: seq<nat>, alpha: real, i: nat)
    requires IsOrder(p, order)
  {
    exists k :: 0 <= k < |order| && order[k] == i && RejectsUpTo(p, order, alpha, k)
  }

  ghost predicate RejectsUpTo(p: seq<real>, order: seq<nat>, alpha: real, k: nat)
    requires IsOrder(p, order) && k < |order|
  {
    forall r: nat :: r <= k ==> p[order[r]] < alpha / (|p| - r) as real
  }

  // --- the implementation ---

  /** Sort the indices by p-value. */
  method SortedOrder(p: seq<real>) returns (order: seq<nat>)
    ensures IsOrder(p, order)
  {
    order := [];
    for i: nat := 0 to |p|
      invariant IsOrderOf(p, i, order)
    {
      order := Insert(p, i, order);
    }
  }

  method Insert(p: seq<real>, i: nat, order: seq<nat>) returns (longer: seq<nat>)
    requires i < |p| && IsOrderOf(p, i, order)
    ensures IsOrderOf(p, i + 1, longer)
  {
    var k: nat := |order|;
    while k > 0 && p[order[k - 1]] > p[i]
      invariant k <= |order|
      invariant forall r :: k <= r < |order| ==> p[order[r]] > p[i]
    {
      k := k - 1;
    }
    longer := order[..k] + [i] + order[k..];
    InsertedOrder(p, i, order, k, longer);
  }

  lemma InsertedOrder(p: seq<real>, i: nat, order: seq<nat>, k: nat, longer: seq<nat>)
    requires i < |p| && IsOrderOf(p, i, order) && k <= i && longer == order[..k] + [i] + order[k..]
    requires k > 0 ==> p[order[k - 1]] <= p[i]
    requires forall r :: k <= r < i ==> p[order[r]] > p[i]
    ensures IsOrderOf(p, i + 1, longer)
  {
    InsertedCovers(i, order, k, longer);
    assert forall r :: 0 <= r <= i ==> longer[r] == if r < k then order[r] else if r == k then i else order[r - 1];
    forall r, s | 0 <= r < s <= i
      ensures longer[r] != longer[s] && p[longer[r]] <= p[longer[s]]
    {
      InsertedPair(p, i, order, k, r, s);
    }
  }

  lemma InsertedCovers(i: nat, order: seq<nat>, k: nat, longer: seq<nat>)
    requires k <= |order| == i && longer == order[..k] + [i] + order[k..]
    requires forall j: nat :: j < i ==> j in order
    ensures forall j: nat :: j <= i ==> j in longer
  {
    forall j: nat | j <= i
      ensures j in longer
    {
      assert longer[k] == i;
      if j < i {
        assert j in order;
        var r :| 0 <= r < |order| && order[r] == j;
        assert longer[if r < k then r else r + 1] == j;
      }
    }
  }

  lemma InsertedPair(p: seq<real>, i: nat, order: seq<nat>, k: nat, r: nat, s: nat)
    requires i < |p| && IsOrderOf(p, i, order) && k <= i && r < s <= i
    requires k > 0 ==> p[order[k - 1]] <= p[i]
    requires forall r :: k <= r < i ==> p[order[r]] > p[i]
    ensures var x := if r < k then order[r] else if r == k then i else order[r - 1];
      var y := if s < k then order[s] else if s == k then i else order[s - 1];
      x != y && p[x] <= p[y]
  {
    if r != k && s != k {
      var a, b := if r < k then r else r - 1, if s < k then s else s - 1;
      assert order[a] != order[b] && p[order[a]] <= p[order[b]];
    } else if s == k && r < k - 1 {
      assert p[order[r]] <= p[order[k - 1]];
    }
  }

  /** The correction itself, for whatever ascending order the sort returns. */
  method AdjustAlong(p: seq<real>, order: seq<nat>) returns (adjusted: seq<real>)
    requires IsOrder(p, order)
    ensures |adjusted| == |p|
    ensures forall i: nat :: i < |p| ==> IsAdjusted(p, i, adjusted[i])
  {
    var m := |p|;
    var adj := new real[m](_ => 0.0);
    var runningMax := 0.0;
    for rank: nat := 0 to m
      invariant runningMax == RunningMax(p, order, rank)
      invariant Filled(p, order, rank, adj[..])
    {
      var candidate := Corrected(p[order[rank]], m - rank);
      runningMax := Max(runningMax, candidate);
      ghost var before := adj[..];
      adj[order[rank]] := runningMax;
      assert adj[..] == before[order[rank] := runningMax];
      FillStep(p, order, rank, before);
    }
    adjusted := adj[..];
    FilledIsAdjusted(p, order, adjusted);
  }

  // The first n hypotheses in ascending order have their running maxima.
  ghost predicate Filled(p: seq<real>, order: seq<nat>, n: nat, adj: seq<real>)
    requires IsOrder(p, order) && n <= |p|
  {
    |adj| == |p| && forall r :: 0 <= r < n ==> adj[order[r]] == RunningMax(p, order, r + 1)
  }

  lemma {:induction false} FillStep(p: seq<real>, order: seq<nat>, n: nat, adj: seq<real>)
    requires IsOrder(p, order) && n < |p| && Filled(p, order, n, adj)
    ensures Filled(p, order, n + 1, adj[order[n] := RunningMax(p, order, n + 1)])
  {
    forall r | 0 <= r < n
      ensures order[r] != order[n] && adj[order[r]] == RunningMax(p, order, r + 1)
    {}
  }

  lemma FilledIsAdjusted(p: seq<real>, order: seq<nat>, adj: seq<real>)
    requires IsOrder(p, order) && Filled(p, order, |p|, adj)
    ensures forall i: nat :: i < |p| ==> IsAdjusted(p, i, adj[i])
  {
    forall i: nat | i < |p|
      ensures IsAdjusted(p, i, adj[i])
    {
      assert i in order;
      var r: nat :| r < |order| && order[r] == i;
      RunningMaxIsAdjusted(p, order, r);
    }
  }

  ghost function RunningMax(p: seq<real>, order: seq<nat>, k: nat): real
    requires IsOrder(p, order) && k <= |p|
  {
    if k == 0 then 0.0
    else Max(RunningMax(p, order, k - 1), Corrected(p[order[k - 1]], |p| - (k - 1)))
  }

  lemma {:induction false} RunningMaxIsAdjusted(p: seq<real>, order: seq<nat>, rank: nat)
    requires IsOrder(p, order) && rank < |p|
    ensures IsAdjusted(p, order[rank], RunningMax(p, order, rank + 1))
  {
    if rank > 0 {
      RunningMaxIsAdjusted(p, order, rank - 1);
    }
    RankCandidate(p, order, rank);
    RunningMaxStep(p, Candidates(p), order, rank, RunningMax(p, order, rank), Corrected(p[order[rank]], |p| - rank));
  }

  method HolmBonferroni(p: seq<real>) returns (adjusted: seq<real>)
    ensures |adjusted| == |p|
    ensures forall i: nat :: i < |p| ==> IsAdjusted(p, i, adjusted[i])
  {
    if |p| == 0 {
      return [];
    }
    var order := SortedOrder(p);
    adjusted := AdjustAlong(p, order);
  }

  // --- ranks ---

  lemma {:induction false} DistinctSize(s: seq<nat>)
    requires forall r, t :: 0 <= r < t < |s| ==> s[r] != s[t]
    ensures |set i: nat | i in s| == |s|
  {
    if |s| > 0 {
      var n := |s| - 1;
      DistinctSize(s[..n]);
      assert (set i: nat | i in s) == (set i: nat | i in s[..n]) + {s[n]};
      assert s[n] !in s[..n];
    }
  }

  // The hypotheses below x come first, and there are as many of them as Less says.
  lemma Cut(p: seq<real>, order: seq<nat>, x: real) returns (k: nat)
    requires IsOrder(p, order)
    ensures k <= |p| && k == |Less(p, x)|
    ensures forall r: nat :: r < |p| ==> (p[order[r]] < x <==> r < k)
  {
    k := |p|;
    while k > 0 && p[order[k - 1]] >= x
      invariant k <= |p|
      invariant forall r :: k <= r < |p| ==> p[order[r]] >= x
    {
      k := k - 1;
    }
    forall i: nat | i < |p| && p[i] < x
      ensures i in order[..k]
    {
      assert i in order;
      var r :| 0 <= r < |order| && order[r] == i;
      assert order[..k][r] == i;
    }
    assert Less(p, x) == set i: nat | i in order[..k];
    DistinctSize(order[..k]);
  }

  // How the value computed at a rank compares with the hypothesis' own: it is never above it (or
  // 0), and it is exactly that for the first of a group of ties.
  ghost predicate RankedCandidate(p: seq<real>, c: seq<real>, order: seq<nat>, rank: nat, candidate: real)
    requires IsOrder(p, order) && rank < |p| && |c| == |p|
  {
    && candidate <= Max(0.0, c[order[rank]])
    && (rank == 0 || p[order[rank - 1]] < p[order[rank]] ==> candidate == c[order[rank]])
    && forall j :: 0 <= j < |p| && p[j] == p[order[rank]] ==> c[j] == c[order[rank]]
  }

  lemma RankCandidate(p: seq<real>, order: seq<nat>, rank: nat)
    requires IsOrder(p, order) && rank < |p|
    ensures RankedCandidate(p, Candidates(p), order, rank, Corrected(p[order[rank]], |p| - rank))
    ensures |Less(p, p[order[rank]])| <= rank
  {
    var k := Cut(p, order, p[order[rank]]);
    CorrectedScale(p[order[rank]], |p| - rank, |p| - k);
  }

  lemma ScaleDown(x: real, n: nat, m: nat)
    requires n <= m
    ensures x <= 0.0 ==> x * n as real <= 0.0
    ensures x >= 0.0 ==> 0.0 <= x * n as real <= x * m as real
  {
    if x >= 0.0 {
      assert x * (m - n) as real >= 0.0;
    }
  }

  lemma CorrectedScale(x: real, n: nat, m: nat)
    requires n <= m
    ensures Corrected(x, n) <= Max(0.0, Corrected(x, m))
  {
    ScaleDown(x, n, m);
  }

  lemma CorrectedBelow(x: real, n: nat, alpha: real)
    requires n > 0 && alpha <= 1.0
    ensures Corrected(x, n) < alpha <==> x < alpha / n as real
  {
    var q := alpha / n as real;
    assert q * n as real == alpha;
    if x < q {
      assert (q - x) * n as real > 0.0;
    } else {
      assert (x - q) * n as real >= 0.0;
    }
  }

  lemma RunningMaxStep(p: seq<real>, c: seq<real>, order: seq<nat>, rank: nat, before: real,
      candidate: real)
    requires IsOrder(p, order) && rank < |p| && |c| == |p| && RankedCandidate(p, c, order, rank, candidate)
    requires if rank == 0 then before == 0.0 else IsTop(p, c, order[rank - 1], before)
    ensures IsTop(p, c, order[rank], Max(before, candidate))
  {
    var i := order[rank];
    forall j: nat | j < |p| && p[j] <= p[i]
      ensures c[j] <= Max(before, candidate)
    {
      assert j in order;
      var s :| 0 <= s < |order| && order[s] == j;
      if s < rank {
        assert p[j] <= p[order[rank - 1]];
      } else {
        assert p[j] == p[i];
      }
    }
  }

  // --- properties of the adjusted values ---

  lemma TopBelow(p: seq<real>, c: seq<real>, i: nat, x: real, alpha: real)
    requires |c| == |p| && IsTop(p, c, i, x) && alpha > 0.0
    ensures x < alpha <==> forall j: nat :: j < |p| && p[j] <= p[i] ==> c[j] < alpha
  {}

  // Against the step-down procedure, run along any ascending order.
  lemma AdjustedDecidesRejection(p: seq<real>, order: seq<nat>, alpha: real, i: nat, x: real)
    requires IsOrder(p, order) && IsAdjusted(p, i, x) && 0.0 < alpha <= 1.0
    ensures x < alpha <==> Rejects(p, order, alpha, i)
  {
    TopBelow(p, Candidates(p), i, x, alpha);
    assert i in order;
    var k: nat :| k < |order| && order[k] == i;
    if x < alpha {
      forall r: nat | r <= k
        ensures p[order[r]] < alpha / (|p| - r) as real
      {
        assert p[order[r]] <= p[i];
        CandidateBelowRejects(p, order, alpha, r);
      }
      assert RejectsUpTo(p, order, alpha, k);
    }
    if Rejects(p, order, alpha, i) {
      var k' :| 0 <= k' < |order| && order[k'] == i && RejectsUpTo(p, order, alpha, k');
      forall j: nat | j < |p| && p[j] <= p[i]
        ensures Candidates(p)[j] < alpha
      {
        RejectedCandidateBelow(p, order, alpha, k', j);
      }
    }
  }

  lemma CandidateBelowRejects(p: seq<real>, order: seq<nat>, alpha: real, r: nat)
    requires IsOrder(p, order) && r < |p| && 0.0 < alpha <= 1.0
    requires Candidates(p)[order[r]] < alpha
    ensures p[order[r]] < alpha / (|p| - r) as real
  {
    RankCandidate(p, order, r);
    CorrectedBelow(p[order[r]], |p| - r, alpha);
  }

  lemma RejectedCandidateBelow(p: seq<real>, order: seq<nat>, alpha: real, k: nat, j: nat)
    requires IsOrder(p, order) && k < |p| && 0.0 < alpha <= 1.0 && RejectsUpTo(p, order, alpha, k)
    requires j < |p| && p[j] <= p[order[k]]
    ensures Candidates(p)[j] < alpha
  {
    var first := Cut(p, order, p[j]);
    assert j in order;
    var s :| 0 <= s < |order| && order[s] == j;
    assert first <= k && p[order[first]] == p[j];
    CorrectedBelow(p[j], |p| - first, alpha);
  }

  lemma AdjustedIsUnique(p: seq<real>, i: nat, x: real, y: real)
    requires IsAdjusted(p, i, x) && IsAdjusted(p, i, y)
    ensures x == y
  {}

  lemma AdjustedKeepsOrder(p: seq<real>, i: nat, j: nat, x: real, y: real)
    requires IsAdjusted(p, i, x) && IsAdjusted(p, j, y) && p[i] <= p[j]
    ensures x <= y
  {}

  lemma AdjustedBounds(p: seq<real>, i: nat, x: real)
    requires IsAdjusted(p, i, x) && forall j :: 0 <= j < |p| ==> 0.0 <= p[j] <= 1.0
    ensures p[i] <= x <= Corrected(p[i], |p|)
  {
    var c := Candidates(p);
    forall j: nat | j < |p| && p[j] <= p[i]
      ensures p[j] <= c[j] <= Corrected(p[i], |p|)
    {
      CandidateBounds(p, i, j);
    }
    assert c[i] <= x;
  }

  lemma CandidateBounds(p: seq<real>, i: nat, j: nat)
    requires i < |p| && j < |p| && 0.0 <= p[j] <= p[i] <= 1.0
    ensures 0.0 <= p[j] <= Candidates(p)[j] <= Corrected(p[i], |p|)
  {
    LessLeavesOne(p);
    CorrectedBounds(p[j], p[i], |p| - |Less(p, p[j])|, |p|);
  }

  lemma CorrectedBounds(x: real, y: real, n: nat, m: nat)
    requires 0.0 <= x <= y <= 1.0 && 1 <= n <= m
    ensures x <= Corrected(x, n) <= Corrected(y, m)
  {
    CappedProducts(x, y, n as real, m as real);
  }

  lemma CappedProducts(x: real, y: real, u: real, v: real)
    requires 0.0 <= x <= y <= 1.0 && 1.0 <= u <= v
    ensures x <= Min(x * u, 1.0) <= Min(y * v, 1.0)
  {
    FactorMonotone(x, 1.0, u);
    FactorMonotone(x, u, v);
    ProductMonotone(x, y, v);
    CappedChain(x, x * u, x * v, y * v);
  }

  lemma FactorMonotone(x: real, u: real, v: real)
    requires x >= 0.0 && u <= v
    ensures x * u <= x * v
  {
    assert x * (v - u) >= 0.0;
  }

  lemma CappedChain(x: real, p: real, q: real, r: real)
    requires 0.0 <= x <= 1.0 && x <= p <= q <= r
    ensures x <= Min(p, 1.0) <= Min(r, 1.0)
  {}

  lemma ProductMonotone(x: real, y: real, n: real)
    requires x <= y && n >= 0.0
    ensures x * n <= y * n
  {
    assert (y - x) * n >= 0.0;
  }

  lemma LessLeavesOne(p: seq<real>)
    ensures forall j :: 0 <= j < |p| ==> |Less(p, p[j])| < |p|
  {
    forall j | 0 <= j < |p|
      ensures |Less(p, p[j])| < |p|
    {
      assert Less(p, p[j]) <= Range(|p|) - {j};
      SubsetSize(Less(p, p[j]), Range(|p|) - {j});
    }
  }

  ghost function Range(n: nat): (s: set<nat>)
    ensures |s| == n && forall i: nat :: i in s <==> i < n
  {
    if n == 0 then {} else Range(n - 1) + {n - 1}
  }

  lemma SubsetSize(s: set<nat>, t: set<nat>)
    requires s <= t
    ensures |s| <= |t|
  {
    assert s + (t - s) == t;
  }

  // --- permuting the input ---

  ghost predicate IsPermutation(pi: seq<nat>, n: nat) {
    && |pi| == n
    && (forall i :: 0 <= i < n ==> pi[i] < n)
    && (forall i, j :: 0 <= i < j < n ==> pi[i] != pi[j])
    && (forall k: nat :: k < n ==> k in pi)
  }

  lemma {:induction false} ImageSize(pi: seq<nat>, s: set<nat>)
    requires forall i :: i in s ==> i < |pi|
    requires forall i, j :: 0 <= i < j < |pi| ==> pi[i] != pi[j]
    ensures |set i | i in s :: pi[i]| == |s|
    decreases |s|
  {
    var image := set i | i in s :: pi[i];
    if s == {} {
      assert image == {};
    } else {
      var i :| i in s;
      ImageSize(pi, s - {i});
      var smaller := set j | j in s - {i} :: pi[j];
      assert image == smaller + {pi[i]};
      assert pi[i] !in smaller;
    }
  }

  lemma LessUnderPermutation(p: seq<real>, q: seq<real>, pi: seq<nat>, x: real)
    requires IsPermutation(pi, |p|) && |q| == |p| && forall i :: 0 <= i < |p| ==> q[i] == p[pi[i]]
    ensures |Less(q, x)| == |Less(p, x)|
  {
    ImageSize(pi, Less(q, x));
    var image := set i | i in Less(q, x) :: pi[i];
    forall k | k in Less(p, x)
      ensures k in image
    {
      assert k in pi;
      var i: nat :| i < |pi| && pi[i] == k;
      assert i in Less(q, x);
    }
    assert image == Less(p, x);
  }

  // The correction commutes with permuting the hypotheses.
  lemma AdjustedUnderPermutation(p: seq<real>, q: seq<real>, pi: seq<nat>, i: nat, x: real)
    requires IsPermutation(pi, |p|) && |q| == |p| && forall i :: 0 <= i < |p| ==> q[i] == p[pi[i]]
    requires i < |p|
    ensures IsAdjusted(q, i, x) <==> IsAdjusted(p, pi[i], x)
  {
    forall j | 0 <= j < |p|
      ensures Candidates(q)[j] == Candidates(p)[pi[j]]
    {
      CandidateUnderPermutation(p, q, pi, j);
    }
    TopUnderPermutation(p, q, Candidates(p), Candidates(q), pi, i, x);
  }

  lemma CandidateUnderPermutation(p: seq<real>, q: seq<real>, pi: seq<nat>, j: nat)
    requires IsPermutation(pi, |p|) && |q| == |p| && forall i :: 0 <= i < |p| ==> q[i] == p[pi[i]]
    requires j < |p|
    ensures Candidates(q)[j] == Candidates(p)[pi[j]]
  {
    LessUnderPermutation(p, q, pi, q[j]);
  }

  lemma TopUnderPermutation(p: seq<real>, q: seq<real>, c: seq<real>, d: seq<real>, pi: seq<nat>,
      i: nat, x: real)
    requires IsPermutation(pi, |p|) && |q| == |c| == |d| == |p| && i < |p|
    requires forall i :: 0 <= i < |p| ==> q[i] == p[pi[i]] && d[i] == c[pi[i]]
    ensures IsTop(q, d, i, x) <==> IsTop(p, c, pi[i], x)
  {
    if IsTop(q, d, i, x) {
      forall k: nat | k < |p| && p[k] <= p[pi[i]]
        ensures c[k] <= x
      {
        assert k in pi;
        var j: nat :| j < |pi| && pi[j] == k;
        assert q[j] == p[k] && d[j] == c[k];
      }
    }
    if IsTop(p, c, pi[i], x) && x != 0.0 {
      var k: nat :| k < |p| && p[k] <= p[pi[i]] && c[k] == x;
      assert k in pi;
      var j: nat :| j < |pi| && pi[j] == k;
      assert q[j] == p[k] && d[j] == c[k];
    }
  }
}
