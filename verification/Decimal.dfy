/**
 The decimal printers of the template engine, which fill a small buffer from its end, and the
 numbers their output stands for. A text buffer is a string whose characters stand for bytes.
 */
module Decimal {
  import opened MachineInts
  import opened Text

  predicate IsDigit(c: char) {
    '0' <= c <= '9'
  }

  function Digit(d: nat): (c: char)
    requires d < 10
    ensures IsDigit(c) && DigitValue(c) == d
  {
    '0' + d as char
  }

  function DigitValue(c: char): int {
    c as int - '0' as int
  }

  ghost predicate AllDigits(s: string) {
    forall i :: 0 <= i < |s| ==> IsDigit(s[i])
  }

  /** The number a string of digits stands for. */
  ghost function Value(s: string): int {
    if s == [] then 0 else Value(s[..|s| - 1]) * 10 + DigitValue(s[|s| - 1])
  }

  /** The decimal digits of n, without leading zeros. */
  ghost function Digits(n: nat): (s: string)
    ensures |s| > 0
  {
    (if n < 10 then [] else Digits(n / 10)) + [Digit(n % 10)]
  }

  function Pow10(k: nat): nat {
    if k == 0 then 1 else 10 * Pow10(k - 1)
  }

  lemma {:induction false} DigitsAreDigits(n: nat)
    ensures AllDigits(Digits(n))
  {
    if n >= 10 {
      DigitsAreDigits(n / 10);
    }
  }

  lemma {:induction false} DigitsRoundTrip(n: nat)
    ensures Value(Digits(n)) == n
  {
    var s := Digits(n);
    if n >= 10 {
      DigitsRoundTrip(n / 10);
      assert s[..|s| - 1] == Digits(n / 10);
    }
  }

  lemma {:induction false} DigitsAreInjective(n: nat, m: nat)
    requires Digits(n) == Digits(m)
    ensures n == m
  {
    DigitsRoundTrip(n);
    DigitsRoundTrip(m);
  }

  lemma {:induction false} NoLeadingZero(n: nat)
    ensures n > 0 ==> Digits(n)[0] != '0'
  {
    if n >= 10 {
      NoLeadingZero(n / 10);
    }
  }

  // A number has at most k digits exactly when it is below the k-th power of ten.
  lemma {:induction false} DigitCount(n: nat, k: nat)
    requires k > 0
    ensures |Digits(n)| <= k <==> n < Pow10(k)
  {
    if k == 1 {
      assert Pow10(1) == 10;
    } else if n >= 10 {
      DigitCount(n / 10, k - 1);
    } else {
      PowPositive(k - 1);
    }
  }

  lemma {:induction false} PowPositive(k: nat)
    ensures Pow10(k) >= 1
  {
    if k > 0 {
      PowPositive(k - 1);
    }
  }

  lemma {:induction false} PowAdd(a: nat, b: nat)
    ensures Pow10(a + b) == Pow10(a) * Pow10(b)
  {
    if a > 0 {
      PowAdd(a - 1, b);
      TimesTen(Pow10(a - 1), Pow10(b));
    }
  }

  lemma TimesTen(x: nat, y: nat)
    ensures 10 * (x * y) == (10 * x) * y
  {}

  // The buffers hold every number of their type.
  lemma BuffersSuffice()
    ensures Pow10(20) >= 0x1_0000_0000_0000_0000
    ensures Pow10(40) >= 0x1_0000_0000_0000_0000_0000_0000_0000_0000
  {
    assert Pow10(5) == 100_000;
    PowAdd(5, 5);
    PowAdd(10, 10);
    PowAdd(20, 20);
  }

  function Repeat(c: char, n: nat): (s: string)
    ensures |s| == n && forall i :: 0 <= i < n ==> s[i] == c
  {
    if n == 0 then [] else Repeat(c, n - 1) + [c]
  }

  /** n in at least width digits; zero is nothing but padding. */
  ghost function Padded(n: nat, width: nat): string {
    if n == 0 then Repeat('0', width)
    else Repeat('0', if |Digits(n)| < width then width - |Digits(n)| else 0) + Digits(n)
  }

  // --- the printers ---

  /** What is still to be written plus what the buffer holds from i on is the whole number. */
  ghost predicate Writes(n: nat, rest: nat, written: string) {
    Digits(n) == (if rest == 0 then [] else Digits(rest)) + written
  }

  lemma WritesNext(n: nat, rest: nat, written: string)
    requires rest > 0 && Writes(n, rest, written)
    ensures Writes(n, rest / 10, [Digit(rest % 10)] + written)
  {
    var front := if rest < 10 then [] else Digits(rest / 10);
    assert Digits(rest) == front + [Digit(rest % 10)];
    Regroup(front, [Digit(rest % 10)], written);
  }

  /** Fill a buffer with the digits of n, from its end; i is where they start. */
  method FillBuffer(n: nat, size: nat) returns (buf: array<char>, i: nat)
    requires n > 0 && n < Pow10(size)
    ensures fresh(buf) && i < buf.Length == size && buf[i..] == Digits(n)
  {
    buf := new char[size](_ => '0');
    i := size;
    var rest: nat := n;
    while rest > 0
      invariant i <= size && rest < Pow10(i)
      invariant Writes(n, rest, buf[i..])
      decreases rest
    {
      i, rest := PutLastDigit(buf, i, rest, n);
    }
    assert Writes(n, 0, buf[i..]);
  }

  /** Move the last digit of rest to the front of what the buffer holds. */
  method PutLastDigit(buf: array<char>, i: nat, rest: nat, ghost n: nat) returns (next: nat, left: nat)
    requires i <= buf.Length && 0 < rest < Pow10(i) && Writes(n, rest, buf[i..])
    modifies buf
    ensures next + 1 == i && left == rest / 10 && left < Pow10(next) && Writes(n, left, buf[next..])
  {
    WritesNext(n, rest, buf[i..]);
    PowNext(rest, i);
    next, left := i - 1, rest / 10;
    PutInFront(buf, next, Digit(rest % 10));
  }

  method PutInFront(buf: array<char>, i: nat, c: char)
    requires i < buf.Length
    modifies buf
    ensures buf[i..] == [c] + old(buf[i + 1..])
  {
    buf[i] := c;
  }

  lemma PowNext(rest: nat, i: nat)
    requires 0 < rest < Pow10(i)
    ensures i > 0 && rest / 10 < Pow10(i - 1)
  {}

  method WriteU128(out: string, n: u128) returns (r: string)
    ensures r == out + Digits(n)
  {
    if n == 0 {
      return out + ['0'];
    }
    BuffersSuffice();
    var buf, i := FillBuffer(n, 40);
    r := out + buf[i..];
  }

  method WriteU64(out: string, n: u64) returns (r: string)
    ensures r == out + Digits(n)
  {
    r := WriteU128(out, n);
  }

  ghost function SignedDigits(n: int): string {
    if n < 0 then ['-'] + Digits(-n) else Digits(n)
  }

  method WriteI64(out: string, n: i64) returns (r: string)
    ensures r == out + SignedDigits(n)
  {
    if n < 0 {
      var wide: int := n;
      r := WriteU128(out + ['-'], -wide);
      Regroup(out, ['-'], Digits(-wide));
    } else {
      r := WriteU128(out, n);
    }
  }

  lemma SignedDigitsAreInjective(n: int, m: int)
    requires SignedDigits(n) == SignedDigits(m)
    ensures n == m
  {
    SignedFirst(n);
    SignedFirst(m);
    if n < 0 {
      DigitsAreInjective(-n, -m);
    } else {
      DigitsAreInjective(n, m);
    }
  }

  lemma {:induction false} SignedFirst(n: int)
    ensures var s := SignedDigits(n);
      |s| > 0 && (n < 0 <==> s[0] == '-') && (n < 0 ==> s[1..] == Digits(-n))
  {
    if n >= 0 {
      DigitsAreDigits(n);
    }
  }

  method WritePadded(out: string, n: u64, width: nat) returns (r: string)
    ensures r == out + Padded(n, width)
  {
    if n == 0 {
      r := PushZeros(out, width);
      return;
    }
    r := out;
    BuffersSuffice();
    var buf, i := FillBuffer(n, 20);
    var digits := buf.Length - i;
    if digits < width {
      r := PushZeros(r, width - digits);
    }
    Regroup(out, Repeat('0', if digits < width then width - digits else 0), Digits(n));
    r := r + buf[i..];
  }

  method PushZeros(out: string, n: nat) returns (r: string)
    ensures r == out + Repeat('0', n)
  {
    r := out;
    for k := 0 to n
      invariant r == out + Repeat('0', k)
    {
      r := r + ['0'];
    }
  }

  // --- fixed-width numbers ---

  lemma {:induction false} ZerosInFront(zeros: nat, s: string)
    ensures Value(Repeat('0', zeros) + s) == Value(s)
  {
    var z := Repeat('0', zeros);
    if s == [] {
      assert z + s == z;
      ValueOfZeros(zeros);
    } else {
      ZerosInFront(zeros, s[..|s| - 1]);
      assert (z + s)[..|z + s| - 1] == z + s[..|s| - 1];
    }
  }

  lemma {:induction false} ValueOfZeros(n: nat)
    ensures Value(Repeat('0', n)) == 0
  {
    if n > 0 {
      ValueOfZeros(n - 1);
      ValueOfSnoc(Repeat('0', n - 1), '0');
    }
  }

  lemma {:induction false} ValueOfSnoc(s: string, c: char)
    ensures Value(s + [c]) == Value(s) * 10 + DigitValue(c)
  {
    assert (s + [c])[..|s|] == s;
  }

  lemma PaddedIsDigits(n: nat, width: nat)
    ensures AllDigits(Padded(n, width))
  {
    DigitsAreDigits(n);
  }

  // A number that fits is printed in exactly width digits, and reads back.
  lemma {:induction false} PaddedRoundTrip(n: nat, width: nat)
    requires width > 0 && n < Pow10(width)
    ensures |Padded(n, width)| == width && Value(Padded(n, width)) == n
  {
    if n == 0 {
      ValueOfZeros(width);
    } else {
      DigitCount(n, width);
      ZerosInFront(width - |Digits(n)|, Digits(n));
      DigitsRoundTrip(n);
    }
  }

  // Between strings of digits of the same length, byte-wise order is numeric order.
  lemma {:induction false} LessIsNumeric(s: string, t: string)
    requires |s| == |t| && AllDigits(s) && AllDigits(t)
    ensures Less(s, t) <==> Value(s) < Value(t)
    ensures s == t <==> Value(s) == Value(t)
  {
    if s != [] {
      var n := |s| - 1;
      LessIsNumeric(s[..n], t[..n]);
      LessAppend(s[..n], t[..n], s[n..], t[n..]);
      assert s == s[..n] + s[n..] && t == t[..n] + t[n..];
      assert s[n..] == [s[n]] && t[n..] == [t[n]];
      assert Less(s[n..], t[n..]) <==> s[n] < t[n];
    }
  }

  lemma {:induction false} PaddedOrder(n: nat, m: nat, width: nat)
    requires width > 0 && n < Pow10(width) && m < Pow10(width)
    ensures |Padded(n, width)| == |Padded(m, width)| == width
    ensures Less(Padded(n, width), Padded(m, width)) <==> n < m
    ensures Padded(n, width) == Padded(m, width) <==> n == m
  {
    PaddedRoundTrip(n, width);
    PaddedRoundTrip(m, width);
    PaddedIsDigits(n, width);
    PaddedIsDigits(m, width);
    LessIsNumeric(Padded(n, width), Padded(m, width));
  }

  // --- digit runs ---

  /** Where the digits from i on end. */
  ghost function DigitsEnd(s: string, i: nat): (j: nat)
    requires i <= |s|
    ensures i <= j <= |s| && AllDigits(s[i..j]) && (j < |s| ==> !IsDigit(s[j]))
    decreases |s| - i
  {
    if i < |s| && IsDigit(s[i]) then
      var j := DigitsEnd(s, i + 1);
      assert s[i..j] == [s[i]] + s[i + 1..j];
      j
    else i
  }

  lemma {:induction false} DigitsEndIs(s: string, i: nat, j: nat)
    requires i <= j <= |s| && AllDigits(s[i..j]) && (j < |s| ==> !IsDigit(s[j]))
    ensures DigitsEnd(s, i) == j
    decreases j - i
  {
    if i < j {
      assert s[i] == s[i..j][0];
      assert s[i + 1..j] == s[i..j][1..];
      DigitsEndIs(s, i + 1, j);
    }
  }

  lemma {:induction false} ValueNonNegative(s: string)
    requires AllDigits(s)
    ensures Value(s) >= 0
  {
    if s != [] {
      ValueNonNegative(s[..|s| - 1]);
    }
  }

  // More digits never make the number smaller.
  lemma {:induction false} ValueGrows(s: string, k: nat)
    requires AllDigits(s) && k <= |s|
    ensures 0 <= Value(s[..k]) <= Value(s)
  {
    ValueNonNegative(s[..k]);
    if k < |s| {
      ValueGrows(s[..|s| - 1], k);
      assert s[..|s| - 1][..k] == s[..k];
    } else {
      assert s[..k] == s;
    }
  }
}
