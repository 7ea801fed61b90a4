/**
 Building blocks shared by the live pipeline and the persistent statistics:
 totals up to whole wraps of a u64, error counters, the latency clamp, and histograms.

 A histogram is the multiset of the bucket indices of its samples: recording adds one
 occurrence of the sample's bucket, adding two histograms is the multiset sum, and its
 length is the cardinality. Which bucket a value falls into, and which value a percentile
 reports, belong to the hdrhistogram crate and stay parameters.
 */
module Metrics {
  import opened MachineInts

  // a exceeds b by whole wraps of a u64, possibly none.
  ghost predicate WrapsTo(a: nat, b: nat) {
    a == b || (a >= b + 0x1_0000_0000_0000_0000 && WrapsTo(a - 0x1_0000_0000_0000_0000, b))
  }

  lemma {:induction false} WrapsShift(a: nat, b: nat, n: nat)
    requires WrapsTo(a, b)
    ensures WrapsTo(a + n, b + n)
  {
    if a != b {
      WrapsShift(a - 0x1_0000_0000_0000_0000, b, n);
    }
  }

  lemma {:induction false} WrapsOnceMore(a: nat, b: nat)
    requires WrapsTo(a, b) && b >= 0x1_0000_0000_0000_0000
    ensures WrapsTo(a, b - 0x1_0000_0000_0000_0000)
  {
    if a != b {
      WrapsOnceMore(a - 0x1_0000_0000_0000_0000, b);
    }
  }

  lemma {:induction false} WrapsTrans(a: nat, b: nat, c: nat)
    requires WrapsTo(a, b) && WrapsTo(b, c)
    ensures WrapsTo(a, c)
  {
    if a != b {
      WrapsTrans(a - 0x1_0000_0000_0000_0000, b, c);
    }
  }

  // A wrapping addition into one part of a total keeps the total equal up to whole wraps.
  lemma WrapsAdd64(a: nat, elsewhere: nat, b: u64, n: u64)
    requires WrapsTo(a, elsewhere + b)
    ensures WrapsTo(a + n, elsewhere + Add64(b, n))
  {
    WrapsShift(a, elsewhere + b, n);
    if Add64(b, n) != b + n {
      WrapsOnceMore(a + n, elsewhere + b + n);
    }
  }

  lemma WrapsSum(a: nat, b: u64, c: nat, d: u64)
    requires WrapsTo(a, b) && WrapsTo(c, d)
    ensures WrapsTo(a + c, Add64(b, d))
  {
    WrapsShift(c, d, a);
    WrapsAdd64(a, 0, b, d);
    WrapsTrans(a + c, a + d, Add64(b, d));
  }

  // Of two readings of the same total, the one that fits a u64 is the wrapped form of the other.
  lemma {:induction false} WrapsChain(a: nat, b: nat, c: u64)
    requires WrapsTo(a, b) && WrapsTo(a, c)
    ensures WrapsTo(b, c)
  {
    if a != b {
      WrapsChain(a - 0x1_0000_0000_0000_0000, b, c);
    }
  }

  // That is: not less than it, and the same modulo 2^64.
  lemma {:induction false} WrapsToIff(a: nat, b: nat)
    ensures WrapsTo(a, b) <==> a >= b && a % 0x1_0000_0000_0000_0000 == b % 0x1_0000_0000_0000_0000
  {
    if a >= b + 0x1_0000_0000_0000_0000 {
      WrapsToIff(a - 0x1_0000_0000_0000_0000, b);
    } else if a > b && a % 0x1_0000_0000_0000_0000 == b % 0x1_0000_0000_0000_0000 {
      SmallDifference(a, b);
    }
  }

  lemma SmallDifference(a: nat, b: nat)
    requires b < a < b + 0x1_0000_0000_0000_0000
    ensures a % 0x1_0000_0000_0000_0000 != b % 0x1_0000_0000_0000_0000
  {}

  type Hist = multiset<int>

  const HIST_LO_NS: nat := 1
  const HIST_HI_NS: nat := 60_000_000_000

  /** The clamp of the live sink. */
  function ClampNs(ns: u64): u64 {
    if ns < HIST_LO_NS then HIST_LO_NS else if ns > HIST_HI_NS then HIST_HI_NS else ns
  }

  /** The clamp of the persistent sink; a Duration is a count of nanoseconds up to u128. */
  function DurationToHistNs(d: nat): u64 {
    if d < HIST_LO_NS then HIST_LO_NS
    else if d > HIST_HI_NS then HIST_HI_NS
    else d
  }

  // Both hold a value between a nanosecond and a minute.
  lemma ClampsHold(d: nat)
    ensures DurationToHistNs(d) == if d < 1 then 1 else if d > 60_000_000_000 then 60_000_000_000 else d
    ensures d < 0x1_0000_0000_0000_0000 ==> ClampNs(d) == DurationToHistNs(d)
  {}

  datatype ErrorKind =
    | Connect | Read | Write | Timeout | Keepup | Status4xx | Status5xx | AssertionFailed

  datatype ErrorCounters = ErrorCounters(
    connect: u64, read: u64, write: u64, timeout: u64,
    keepup: u64, status4xx: u64, status5xx: u64, assertionFailed: u64)
  {
    function Get(kind: ErrorKind): u64 {
      match kind
      case Connect => connect
      case Read => read
      case Write => write
      case Timeout => timeout
      case Keepup => keepup
      case Status4xx => status4xx
      case Status5xx => status5xx
      case AssertionFailed => assertionFailed
    }

    function Set(kind: ErrorKind, v: u64): (r: ErrorCounters)
      ensures forall k :: r.Get(k) == if k == kind then v else Get(k)
    {
      match kind
      case Connect => this.(connect := v)
      case Read => this.(read := v)
      case Write => this.(write := v)
      case Timeout => this.(timeout := v)
      case Keepup => this.(keepup := v)
      case Status4xx => this.(status4xx := v)
      case Status5xx => this.(status5xx := v)
      case AssertionFailed => this.(assertionFailed := v)
    }

    function Incr(kind: ErrorKind): (r: ErrorCounters)
      ensures forall k :: r.Get(k) == if k == kind then Add64(Get(k), 1) else Get(k)
    {
      match kind
      case Connect => this.(connect := Add64(connect, 1))
      case Read => this.(read := Add64(read, 1))
      case Write => this.(write := Add64(write, 1))
      case Timeout => this.(timeout := Add64(timeout, 1))
      case Keepup => this.(keepup := Add64(keepup, 1))
      case Status4xx => this.(status4xx := Add64(status4xx, 1))
      case Status5xx => this.(status5xx := Add64(status5xx, 1))
      case AssertionFailed => this.(assertionFailed := Add64(assertionFailed, 1))
    }

    function Merge(other: ErrorCounters): (r: ErrorCounters)
      ensures forall k :: r.Get(k) == Add64(Get(k), other.Get(k))
    {
      ErrorCounters(
        Add64(connect, other.connect), Add64(read, other.read), Add64(write, other.write),
        Add64(timeout, other.timeout), Add64(keepup, other.keepup),
        Add64(status4xx, other.status4xx), Add64(status5xx, other.status5xx),
        Add64(assertionFailed, other.assertionFailed))
    }
  }

  const NO_ERRORS := ErrorCounters(0, 0, 0, 0, 0, 0, 0, 0)

  /** The counters that the live and the persistent sink both keep. */
  datatype Field = Requests | BytesSent | BytesRecv | Errors(kind: ErrorKind)

  datatype Counters = Counters(requests: u64, bytesSent: u64, bytesRecv: u64, errors: ErrorCounters)
  {
    function Get(f: Field): u64 {
      match f
      case Requests => requests
      case BytesSent => bytesSent
      case BytesRecv => bytesRecv
      case Errors(kind) => errors.Get(kind)
    }

    function Set(f: Field, v: u64): (r: Counters)
      ensures forall g :: r.Get(g) == if g == f then v else Get(g)
    {
      match f
      case Requests => this.(requests := v)
      case BytesSent => this.(bytesSent := v)
      case BytesRecv => this.(bytesRecv := v)
      case Errors(kind) => this.(errors := errors.Set(kind, v))
    }

    function Merge(other: Counters): (r: Counters)
      ensures forall g :: r.Get(g) == Add64(Get(g), other.Get(g))
    {
      Counters(Add64(requests, other.requests), Add64(bytesSent, other.bytesSent),
               Add64(bytesRecv, other.bytesRecv), errors.Merge(other.errors))
    }
  }

  const NO_COUNTS := Counters(0, 0, 0, NO_ERRORS)

  // Counters are determined by their readings.
  lemma SameCounters(a: Counters, b: Counters)
    requires forall f :: a.Get(f) == b.Get(f)
    ensures a == b
  {
    assert a.Get(Requests) == b.Get(Requests) && a.Get(BytesSent) == b.Get(BytesSent);
    assert a.Get(BytesRecv) == b.Get(BytesRecv);
    assert a.Get(Errors(Connect)) == b.Get(Errors(Connect)) && a.Get(Errors(Read)) == b.Get(Errors(Read));
    assert a.Get(Errors(Write)) == b.Get(Errors(Write)) && a.Get(Errors(Timeout)) == b.Get(Errors(Timeout));
    assert a.Get(Errors(Keepup)) == b.Get(Errors(Keepup)) && a.Get(Errors(Status4xx)) == b.Get(Errors(Status4xx));
    assert a.Get(Errors(Status5xx)) == b.Get(Errors(Status5xx));
    assert a.Get(Errors(AssertionFailed)) == b.Get(Errors(AssertionFailed));
  }

  /** Multiset sum of a list of histograms, as merge_shards adds them up. */
  function SumHists(hs: seq<Hist>): Hist {
    if hs == [] then multiset{} else SumHists(hs[..|hs| - 1]) + hs[|hs| - 1]
  }

  lemma SumHistsNext(hs: seq<Hist>, k: nat)
    requires k < |hs|
    ensures SumHists(hs[..k + 1]) == SumHists(hs[..k]) + hs[k]
  {
    assert hs[..k + 1][..k] == hs[..k];
  }

  // Replacing one histogram moves the sum by exactly the difference.
  lemma {:induction false} SumHistsUpdate(hs: seq<Hist>, k: nat, h: Hist)
    requires k < |hs|
    ensures SumHists(hs[k := h]) + hs[k] == SumHists(hs) + h
  {
    var n := |hs| - 1;
    if k == n {
      assert hs[k := h][..n] == hs[..n];
    } else {
      SumHistsUpdate(hs[..n], k, h);
      assert hs[k := h][..n] == hs[..n][k := h];
      var before, after := SumHists(hs[..n]), SumHists(hs[..n][k := h]);
      assert (after + hs[n]) + hs[k] == (after + hs[k]) + hs[n];
      assert (before + hs[n]) + h == (before + h) + hs[n];
    }
  }

  lemma {:induction false} SumHistsEmpty(hs: seq<Hist>)
    requires forall k :: 0 <= k < |hs| ==> hs[k] == multiset{}
    ensures SumHists(hs) == multiset{}
  {
    if hs != [] {
      SumHistsEmpty(hs[..|hs| - 1]);
    }
  }
}
