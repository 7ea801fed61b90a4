/**
 The duration flag of the command line and the printer it inverts, in builds with and without overflow
 checks. A string is a sequence of code points; a duration is a number of nanoseconds.
 */
module Durations {
  import opened Decimal
  import opened MachineInts

  const SECOND: nat := 1_000_000_000

  /** A duration holds a u64 of whole seconds: it is below 2^64 seconds. */
  const LIMIT: nat := 18_446_744_073_709_551_616_000_000_000
  type Duration = d: nat | d < LIMIT

  /** Whether the build stops at an integer overflow or wraps around. */
  datatype Build = Checked | Wrapping

  /** What parsing gives: a duration, no duration, or a stop at an overflow. */
  datatype ParseResult = Parsed(d: Duration) | Rejected | Overflow

  // White space in the sense of the Unicode property White_Space.
  predicate IsWhite(c: char) {
    var n := c as int;
    || 0x9 <= n <= 0xD || n == 0x20 || n == 0x85 || n == 0xA0 || n == 0x1680 || 0x2000 <= n <= 0x200A
    || n == 0x2028 || n == 0x2029 || n == 0x202F || n == 0x205F || n == 0x3000
  }

  function TrimStart(s: string): string {
    if s != [] && IsWhite(s[0]) then TrimStart(s[1..]) else s
  }

  function TrimEnd(s: string): string {
    if s != [] && IsWhite(s[|s| - 1]) then TrimEnd(s[..|s| - 1]) else s
  }

  function Trim(s: string): string {
    TrimEnd(TrimStart(s))
  }

  ghost predicate AllWhite(s: string) {
    forall i :: 0 <= i < |s| ==> IsWhite(s[i])
  }

  // Nothing but white space is taken off, and none is left at either end.
  lemma {:induction false} TrimStartTakes(s: string) returns (n: nat)
    ensures n <= |s| && TrimStart(s) == s[n..] && AllWhite(s[..n]) && (n < |s| ==> !IsWhite(s[n]))
    decreases |s|
  {
    if s != [] && IsWhite(s[0]) {
      var k := TrimStartTakes(s[1..]);
      n := k + 1;
      assert s[..n] == [s[0]] + s[1..][..k];
    } else {
      n := 0;
    }
  }

  lemma {:induction false} TrimEndTakes(s: string) returns (n: nat)
    ensures n <= |s| && TrimEnd(s) == s[..n] && AllWhite(s[n..]) && (n > 0 ==> !IsWhite(s[n - 1]))
    decreases |s|
  {
    if s != [] && IsWhite(s[|s| - 1]) {
      n := TrimEndTakes(s[..|s| - 1]);
      WhiteBehind(s[n..], s[..|s| - 1][n..], s[|s| - 1]);
      assert s[..|s| - 1][..n] == s[..n];
    } else {
      n := |s|;
    }
  }

  lemma WhiteBehind(s: string, t: string, c: char)
    requires s == t + [c] && AllWhite(t) && IsWhite(c)
    ensures AllWhite(s)
  {}

  lemma TrimTakes(s: string) returns (i: nat, j: nat)
    ensures i <= j <= |s| && Trim(s) == s[i..j] && AllWhite(s[..i]) && AllWhite(s[j..])
    ensures i < j ==> !IsWhite(s[i]) && !IsWhite(s[j - 1])
  {
    i := TrimStartTakes(s);
    var k := TrimEndTakes(s[i..]);
    j := i + k;
    assert s[i..][..k] == s[i..j] && s[i..][k..] == s[j..];
    if i < j {
      assert s[i..][k - 1] == s[j - 1];
    }
  }

  // The characters taken off: the 25 code points of that property.
  lemma WhiteSpaceIs(c: char)
    ensures IsWhite(c) <==> c as int in [
      0x9, 0xA, 0xB, 0xC, 0xD, 0x20, 0x85, 0xA0, 0x1680, 0x2000, 0x2001, 0x2002, 0x2003, 0x2004, 0x2005, 0x2006,
      0x2007, 0x2008, 0x2009, 0x200A, 0x2028, 0x2029, 0x202F, 0x205F, 0x3000]
  {}

  // --- the printer ---

  ghost function Format(d: Duration): string {
    if d / SECOND == 0 then Digits(d / 1_000_000) + "ms" else FormatSeconds(d / SECOND)
  }

  ghost function FormatSeconds(s: nat): string {
    if s % 3600 == 0 then Digits(s / 3600) + "h"
    else if s % 60 == 0 then Digits(s / 60) + "m"
    else if s > 60 then Digits(s / 60) + "m" + Digits(s % 60) + "s"
    else Digits(s) + "s"
  }

  // Some durations as they are printed.
  lemma SecondsFormat(s: nat)
    ensures s == 45 ==> FormatSeconds(s) == "45s"
    ensures s == 60 ==> FormatSeconds(s) == "1m"
    ensures s == 150 ==> FormatSeconds(s) == "2m30s"
    ensures s == 5400 ==> FormatSeconds(s) == "90m"
    ensures s == 7200 ==> FormatSeconds(s) == "2h"
  {
    SmallDigits();
  }

  lemma FormatsOf(d: Duration)
    ensures d >= SECOND ==> Format(d) == FormatSeconds(d / SECOND)
    ensures d == 500_000_000 ==> Format(d) == "500ms"
  {
    SmallDigits();
  }

  lemma SmallDigits()
    ensures Digits(500) == "500" && Digits(45) == "45" && Digits(1) == "1" && Digits(2) == "2" && Digits(30) == "30"
    ensures Digits(90) == "90"
  {
    assert Digits(50) == "50" && Digits(5) == "5" && Digits(4) == "4" && Digits(3) == "3" && Digits(9) == "9";
  }

  // --- the parser ---

  /** Nanoseconds per unit; None for a unit that is not known. */
  function UnitNanos(unit: string): nat {
    if unit == "ns" then 1
    else if unit == "us" || unit == "\U{B5}s" then 1_000
    else if unit == "ms" then 1_000_000
    else if unit == "s" || unit == "" then SECOND
    else if unit == "m" then 60 * SECOND
    else if unit == "h" then 3600 * SECOND
    else 0
  }

  /**
   The duration of n units. Only the factors of minutes and hours, multiplied in 64 bits, can overflow;
   a build without checks keeps the low bits of that product.
   */
  function Amount(build: Build, n: u64, unit: string): ParseResult {
    var nanos := UnitNanos(unit);
    if nanos == 0 then Rejected
    else if n * nanos < LIMIT then Parsed(n * nanos)
    else if build.Checked? then Overflow
    else Parsed(n * (nanos / SECOND) % 0x1_0000_0000_0000_0000 * SECOND)
  }

  /** The sum of two durations; too large a one stops every build. */
  function Add(total: Duration, d: Duration): ParseResult {
    if total + d < LIMIT then Parsed(total + d) else Overflow
  }

  /** Where the non-digits from i on end. */
  ghost function UnitEnd(s: string, i: nat): (j: nat)
    requires i <= |s|
    ensures i <= j <= |s|
    decreases |s| - i
  {
    if i < |s| && !IsDigit(s[i]) then UnitEnd(s, i + 1) else i
  }

  /** Number and unit, over and over, from i on. */
  ghost function ParseFrom(build: Build, s: string, i: nat, total: Duration): ParseResult
    requires i <= |s|
    decreases |s| - i
  {
    if i == |s| then Parsed(total)
    else
      var uStart := DigitsEnd(s, i);
      ValueNonNegative(s[i..uStart]);
      if uStart == i || Value(s[i..uStart]) > 0xFFFF_FFFF_FFFF_FFFF then Rejected
      else
        var next := UnitEnd(s, uStart);
        var d := Amount(build, Value(s[i..uStart]), Trim(s[uStart..next]));
        if !d.Parsed? then d
        else
          var sum := Add(total, d.d);
          if !sum.Parsed? then sum else ParseFrom(build, s, next, sum.d)
  }

  ghost function Parse(build: Build, s: string): ParseResult {
    if Trim(s) == [] then Rejected else ParseFrom(build, Trim(s), 0, 0)
  }

  /** The value of a run of digits, unless it does not fit a u64. */
  method ParseNumber(digits: string) returns (ok: bool, n: u64)
    requires AllDigits(digits)
    ensures ok <==> Value(digits) <= 0xFFFF_FFFF_FFFF_FFFF
    ensures ok ==> n == Value(digits)
  {
    n := 0;
    for i := 0 to |digits|
      invariant n == Value(digits[..i])
    {
      assert digits[..i + 1][..i] == digits[..i];
      ValueGrows(digits, i + 1);
      var next := n * 10 + DigitValue(digits[i]);
      if next > 0xFFFF_FFFF_FFFF_FFFF {
        return false, 0;
      }
      n := next;
    }
    assert digits[..|digits|] == digits;
    ok := true;
  }

  method ParseDuration(build: Build, text: string) returns (r: ParseResult)
    ensures r == Parse(build, text)
  {
    var s := Trim(text);
    if s == [] {
      return Rejected;
    }
    var total: Duration := 0;
    var i: nat := 0;
    while i < |s|
      invariant i <= |s| && ParseFrom(build, s, 0, 0) == ParseFrom(build, s, i, total)
      decreases |s| - i
    {
      var start := i;
      while i < |s| && IsDigit(s[i])
        invariant start <= i <= |s| && DigitsEnd(s, i) == DigitsEnd(s, start)
      {
        i := i + 1;
      }
      if start == i {
        return Rejected;
      }
      var ok, n := ParseNumber(s[start..i]);
      if !ok {
        return Rejected;
      }
      var uStart := i;
      while i < |s| && !IsDigit(s[i])
        invariant uStart <= i <= |s| && UnitEnd(s, i) == UnitEnd(s, uStart)
      {
        i := i + 1;
      }
      var d := Amount(build, n, Trim(s[uStart..i]));
      if !d.Parsed? {
        return d;
      }
      var sum := Add(total, d.d);
      if !sum.Parsed? {
        return sum;
      }
      total := sum.d;
    }
    r := Parsed(total);
  }

  // --- what the parser accepts ---

  /** A run of digits and the text up to the next digit. */
  datatype Piece = Piece(digits: string, unit: string)

  ghost predicate NoDigits(s: string) {
    forall i :: 0 <= i < |s| ==> !IsDigit(s[i])
  }

  ghost predicate IsPiece(p: Piece) {
    p.digits != [] && AllDigits(p.digits) && NoDigits(p.unit)
  }

  // Only the last unit may be missing: without a unit in between, two runs of digits are one.
  ghost predicate ValidPieces(ps: seq<Piece>) {
    ps != [] ==> IsPiece(ps[0]) && (|ps| > 1 ==> ps[0].unit != []) && ValidPieces(ps[1..])
  }

  ghost function TextOf(ps: seq<Piece>): string {
    if ps == [] then [] else ps[0].digits + (ps[0].unit + TextOf(ps[1..]))
  }

  /** The duration of a piece: leading zeros and white space around the unit do not matter. */
  ghost function PieceAmount(build: Build, p: Piece): ParseResult
    requires IsPiece(p)
  {
    ValueNonNegative(p.digits);
    if Value(p.digits) > 0xFFFF_FFFF_FFFF_FFFF then Rejected else Amount(build, Value(p.digits), Trim(p.unit))
  }

  /** The sum of the pieces on top of a total, up to the first that is not a duration or overflows. */
  ghost function SumOf(build: Build, total: Duration, ps: seq<Piece>): ParseResult
    requires ValidPieces(ps)
    decreases |ps|
  {
    if ps == [] then Parsed(total)
    else
      var d := PieceAmount(build, ps[0]);
      if !d.Parsed? then d
      else
        var sum := Add(total, d.d);
        if sum.Parsed? then SumOf(build, sum.d, ps[1..]) else sum
  }

  // Position i holds the piece p, which ends at next.
  ghost predicate HasPiece(s: string, i: nat, p: Piece, next: nat) {
    && i + |p.digits| <= next <= |s| && (p.unit == [] ==> next == |s|)
    && s[i..i + |p.digits|] == p.digits && s[i + |p.digits|..next] == p.unit
    && (next < |s| ==> IsDigit(s[next]))
  }

  lemma {:induction false} UnitEndIs(s: string, i: nat, j: nat)
    requires i <= j <= |s| && NoDigits(s[i..j]) && (j < |s| ==> IsDigit(s[j]))
    ensures UnitEnd(s, i) == j
    decreases j - i
  {
    if i < j {
      assert s[i] == s[i..j][0];
      assert s[i + 1..j] == s[i..j][1..];
      UnitEndIs(s, i + 1, j);
    }
  }

  lemma {:induction false} PieceEnds(s: string, i: nat, p: Piece, next: nat)
    requires HasPiece(s, i, p, next) && IsPiece(p)
    ensures DigitsEnd(s, i) == i + |p.digits| && UnitEnd(s, i + |p.digits|) == next
  {
    var uStart := i + |p.digits|;
    UnitEndIs(s, uStart, next);
    if uStart < |s| {
      assert s[uStart] == s[uStart..next][0];
    }
    DigitsEndIs(s, i, uStart);
  }

  lemma {:induction false} PieceParses(build: Build, s: string, i: nat, p: Piece, next: nat, total: Duration)
    requires HasPiece(s, i, p, next) && IsPiece(p)
    ensures ParseFrom(build, s, i, total) ==
      if PieceAmount(build, p).Parsed? && Add(total, PieceAmount(build, p).d).Parsed?
      then ParseFrom(build, s, next, Add(total, PieceAmount(build, p).d).d)
      else if PieceAmount(build, p).Parsed? then Overflow else PieceAmount(build, p)
  {
    PieceEnds(s, i, p, next);
  }

  lemma SliceOf(s: string, i: nat, a: string, b: string)
    requires i <= |s| && s[i..] == a + b
    ensures i + |a| <= |s| && s[i..i + |a|] == a && s[i + |a|..] == b
  {
    assert s[i..][..|a|] == a && s[i..][|a|..] == b;
    assert s[i..][..|a|] == s[i..i + |a|] && s[i..][|a|..] == s[i + |a|..];
  }

  lemma FirstPiece(s: string, i: nat, ps: seq<Piece>) returns (next: nat)
    requires i <= |s| && ps != [] && ValidPieces(ps) && s[i..] == TextOf(ps)
    ensures i < next <= |s| && HasPiece(s, i, ps[0], next) && s[next..] == TextOf(ps[1..])
  {
    var digits, unit, rest := ps[0].digits, ps[0].unit, TextOf(ps[1..]);
    next := i + |digits| + |unit|;
    SliceOf(s, i, digits, unit + rest);
    SliceOf(s, i + |digits|, unit, rest);
    if |ps| > 1 {
      assert ps[1..][0] == ps[1] && rest[0] == ps[1].digits[0];
    }
    assert next < |s| ==> s[next] == s[next..][0];
  }

  lemma {:induction false} PiecesParseFrom(build: Build, s: string, i: nat, ps: seq<Piece>, total: Duration)
    requires i <= |s| && ValidPieces(ps) && s[i..] == TextOf(ps)
    ensures ParseFrom(build, s, i, total) == SumOf(build, total, ps)
    decreases |ps|
  {
    if ps != [] {
      var next := FirstPiece(s, i, ps);
      PieceParses(build, s, i, ps[0], next, total);
      if PieceAmount(build, ps[0]).Parsed? && Add(total, PieceAmount(build, ps[0]).d).Parsed? {
        PiecesParseFrom(build, s, next, ps[1..], Add(total, PieceAmount(build, ps[0]).d).d);
      }
    }
  }

  // Any list of numbers with units parses to their sum; it is rejected for an unknown unit or a number
  // beyond 64 bits, and otherwise fails by overflow only.
  lemma {:induction false} PiecesParse(build: Build, text: string, ps: seq<Piece>)
    requires ps != [] && ValidPieces(ps) && Trim(text) == TextOf(ps)
    ensures Parse(build, text) == SumOf(build, 0, ps)
  {
    assert Trim(text)[0..] == Trim(text);
    PiecesParseFrom(build, Trim(text), 0, ps, 0);
  }

  lemma {:induction false} UnitEndStops(s: string, i: nat)
    requires i <= |s|
    ensures var j := UnitEnd(s, i);
      NoDigits(s[i..j]) && (j < |s| ==> IsDigit(s[j]))
    decreases |s| - i
  {
    if i < |s| && !IsDigit(s[i]) {
      UnitEndStops(s, i + 1);
      var j := UnitEnd(s, i + 1);
      assert s[i..j] == [s[i]] + s[i + 1..j];
    }
  }

  // Any text that starts with a digit is such a list.
  lemma {:induction false} PiecesOf(s: string, i: nat) returns (ps: seq<Piece>)
    requires i <= |s| && (i < |s| ==> IsDigit(s[i]))
    ensures ValidPieces(ps) && s[i..] == TextOf(ps) && (ps == [] ==> i == |s|)
    decreases |s| - i
  {
    if i == |s| {
      ps := [];
    } else {
      var uStart := DigitsEnd(s, i);
      var next := UnitEnd(s, uStart);
      UnitEndStops(s, uStart);
      DigitsMove(s, i);
      var rest := PiecesOf(s, next);
      ps := [Piece(s[i..uStart], s[uStart..next])] + rest;
      assert ps[1..] == rest;
      ThreeSlices(s, i, uStart, next);
    }
  }

  lemma {:induction false} DigitsMove(s: string, i: nat)
    requires i < |s| && IsDigit(s[i])
    ensures DigitsEnd(s, i) > i
  {}

  lemma ThreeSlices(s: string, i: nat, j: nat, k: nat)
    requires i <= j <= k <= |s|
    ensures s[i..] == s[i..j] + (s[j..k] + s[k..])
  {}

  // So every text there is: nothing but blanks, or no digit in front, is rejected; anything else is a
  // list of numbers with units, and parses to their sum.
  lemma {:induction false} EveryTextParses(build: Build, text: string) returns (ps: seq<Piece>)
    ensures Trim(text) == [] || !IsDigit(Trim(text)[0]) ==> Parse(build, text) == Rejected
    ensures Trim(text) != [] && IsDigit(Trim(text)[0]) ==>
      ps != [] && ValidPieces(ps) && Trim(text) == TextOf(ps) && Parse(build, text) == SumOf(build, 0, ps)
  {
    var s := Trim(text);
    ps := [];
    if s != [] && IsDigit(s[0]) {
      ps := PiecesOf(s, 0);
      assert s[0..] == s;
      PiecesParse(build, text, ps);
    } else if s != [] {
      assert DigitsEnd(s, 0) == 0;
    }
  }

  // --- builds without overflow checks ---

  ghost predicate Fits(p: Piece)
    requires IsPiece(p)
  {
    Value(p.digits) * UnitNanos(Trim(p.unit)) < LIMIT
  }

  ghost predicate AllFit(ps: seq<Piece>)
    requires ValidPieces(ps)
  {
    ps != [] ==> Fits(ps[0]) && AllFit(ps[1..])
  }

  /** The nanoseconds that a text stands for, however many. */
  ghost function Meant(ps: seq<Piece>): int
    requires ValidPieces(ps)
  {
    if ps == [] then 0 else Value(ps[0].digits) * UnitNanos(Trim(ps[0].unit)) + Meant(ps[1..])
  }

  lemma {:induction false} PieceIsExactIff(p: Piece)
    requires IsPiece(p) && PieceAmount(Wrapping, p).Parsed?
    ensures var meant := Value(p.digits) * UnitNanos(Trim(p.unit));
      PieceAmount(Wrapping, p).d <= meant && (PieceAmount(Wrapping, p).d == meant <==> Fits(p))
    ensures PieceAmount(Checked, p) == if Fits(p) then PieceAmount(Wrapping, p) else Overflow
  {}

  lemma {:induction false} SumIsExactIff(total: Duration, ps: seq<Piece>)
    requires ValidPieces(ps) && SumOf(Wrapping, total, ps).Parsed?
    ensures var d := SumOf(Wrapping, total, ps).d;
      d <= total + Meant(ps) && (d == total + Meant(ps) <==> AllFit(ps))
    ensures SumOf(Checked, total, ps) == if AllFit(ps) then SumOf(Wrapping, total, ps) else Overflow
    decreases |ps|
  {
    if ps != [] {
      PieceIsExactIff(ps[0]);
      SumIsExactIff(total + PieceAmount(Wrapping, ps[0]).d, ps[1..]);
    }
  }

  // A build without overflow checks returns a duration other than what the text stands for exactly when
  // the minutes or the hours of some piece do not fit 64 bits of seconds; a build with checks stops then.
  lemma {:induction false} WrappingIsExactIff(text: string, ps: seq<Piece>)
    requires ps != [] && ValidPieces(ps) && Trim(text) == TextOf(ps) && Parse(Wrapping, text).Parsed?
    ensures Parse(Wrapping, text).d == Meant(ps) <==> AllFit(ps)
    ensures Parse(Checked, text) == if AllFit(ps) then Parse(Wrapping, text) else Overflow
  {
    PiecesParse(Wrapping, text, ps);
    PiecesParse(Checked, text, ps);
    SumIsExactIff(0, ps);
  }

  // --- the parser inverts the printer ---

  /** What the printer keeps: whole seconds, or whole milliseconds below a second. */
  function Truncated(d: Duration): Duration {
    if d < SECOND then d / 1_000_000 * 1_000_000 else d / SECOND * SECOND
  }

  // A unit as the printer writes it: neither digits nor white space.
  ghost predicate IsUnit(unit: string) {
    |unit| > 0 && forall i :: 0 <= i < |unit| ==> !IsDigit(unit[i]) && !IsWhite(unit[i])
  }

  lemma TrimKeeps(s: string)
    requires |s| > 0 && !IsWhite(s[0]) && !IsWhite(s[|s| - 1])
    ensures Trim(s) == s
  {}

  lemma {:induction false} FirstIsDigit(n: nat)
    ensures IsDigit(Digits(n)[0]) && !IsWhite(Digits(n)[0])
  {
    DigitsAreDigits(n);
  }

  ghost function Printed(n: nat, unit: string): Piece {
    Piece(Digits(n), unit)
  }

  lemma {:induction false} PrintedPiece(build: Build, n: u64, unit: string)
    requires IsUnit(unit)
    ensures IsPiece(Printed(n, unit)) && PieceAmount(build, Printed(n, unit)) == Amount(build, n, unit)
  {
    DigitsAreDigits(n);
    DigitsRoundTrip(n);
    TrimKeeps(unit);
  }

  lemma {:induction false} OnePieceParses(build: Build, n: u64, unit: string)
    requires IsUnit(unit)
    ensures Parse(build, Digits(n) + unit) == Amount(build, n, unit)
  {
    var text, ps := Digits(n) + unit, [Printed(n, unit)];
    FirstIsDigit(n);
    TrimKeeps(text);
    PrintedPiece(build, n, unit);
    assert ps[1..] == [] && unit + [] == unit;
    PiecesParse(build, text, ps);
    var d := Amount(build, n, unit);
    if d.Parsed? {
      assert SumOf(build, 0, ps) == SumOf(build, d.d, []);
    }
  }

  // A number with a unit, and one without, which is in seconds.
  lemma {:induction false} UnitParses(build: Build, n: u64, unit: string, text: string)
    requires n < 1_000_000 && unit in ["ns", "us", "\U{B5}s", "ms", "s", "m", "h", "d"] && text == Digits(n) + unit
    ensures Parse(build, text) == if unit == "d" then Rejected else Parsed(n *
      if unit == "ns" then 1 else if unit == "us" || unit == "\U{B5}s" then 1_000 else if unit == "ms" then 1_000_000
      else if unit == "s" then 1_000_000_000 else if unit == "m" then 60_000_000_000 else 3_600_000_000_000)
  {
    OnePieceParses(build, n, unit);
    SmallAmount(build, n, unit, UnitNanos(unit));
  }

  lemma SmallAmount(build: Build, n: u64, unit: string, nanos: nat)
    requires n < 1_000_000 && UnitNanos(unit) == nanos <= 3_600_000_000_000
    ensures Amount(build, n, unit) == if nanos == 0 then Rejected else Parsed(n * nanos)
  {}

  lemma {:induction false} NoUnitParses(build: Build, n: u64)
    requires n < 1_000_000
    ensures Parse(build, Digits(n)) == Parsed(n * 1_000_000_000)
  {
    NoUnitAmount(build, n);
    NumberAlone(Digits(n), n);
    LonePieceParses(build, Digits(n), Printed(n, ""));
  }

  lemma LonePieceParses(build: Build, text: string, p: Piece)
    requires IsPiece(p) && Trim(text) == TextOf([p])
    ensures Parse(build, text) == PieceAmount(build, p)
  {
    SumOfOne(build, p);
    PiecesParse(build, text, [p]);
  }

  lemma {:induction false} NoUnitAmount(build: Build, n: u64)
    requires n < 1_000_000
    ensures var p := Printed(n, "");
      IsPiece(p) && PieceAmount(build, p) == Parsed(n * 1_000_000_000)
  {
    DigitsAreDigits(n);
    DigitsRoundTrip(n);
  }

  lemma {:induction false} NumberAlone(s: string, n: nat)
    requires s == Digits(n)
    ensures Trim(s) == s == TextOf([Printed(n, "")])
  {
    DigitsAreDigits(n);
    DigitsAreNotWhite(s);
    TrimKeeps(s);
    TextOfOne(Printed(n, ""));
  }

  lemma TextOfOne(p: Piece)
    ensures TextOf([p]) == p.digits + p.unit
  {
    assert [p][1..] == [] && p.unit + [] == p.unit;
  }

  lemma SumOfOne(build: Build, p: Piece)
    requires IsPiece(p)
    ensures ValidPieces([p]) && SumOf(build, 0, [p]) == PieceAmount(build, p)
  {
    assert [p][1..] == [];
    if PieceAmount(build, p).Parsed? {
      assert SumOf(build, 0, [p]) == SumOf(build, PieceAmount(build, p).d, []);
    }
  }

  lemma DigitsAreNotWhite(s: string)
    requires AllDigits(s)
    ensures forall i :: 0 <= i < |s| ==> !IsWhite(s[i])
  {}

  lemma {:induction false} OneItem(build: Build, n: u64, unit: string, d: Duration)
    requires IsUnit(unit) && Amount(build, n, unit) == Parsed(d)
    ensures Parse(build, Digits(n) + unit) == Parsed(d)
  {
    OnePieceParses(build, n, unit);
  }

  lemma {:induction false} TwoItems(build: Build, n: u64, unit: string, d: Duration, n': u64, unit': string,
      d': Duration)
    requires IsUnit(unit) && IsUnit(unit') && Amount(build, n, unit) == Parsed(d)
    requires Amount(build, n', unit') == Parsed(d') && Add(d, d').Parsed?
    ensures Parse(build, Digits(n) + unit + Digits(n') + unit') == Add(d, d')
  {
    var p, q := Printed(n, unit), Printed(n', unit');
    PrintedPiece(build, n, unit);
    PrintedPiece(build, n', unit');
    SumOfTwo(build, p, q, d, d');
    TextOfTwo(p, q);
    TrimTwo(n, unit, n', unit');
    PiecesParse(build, Digits(n) + unit + Digits(n') + unit', [p, q]);
  }

  lemma {:induction false} SumOfTwo(build: Build, p: Piece, q: Piece, d: Duration, d': Duration)
    requires IsPiece(p) && IsPiece(q) && p.unit != []
    requires PieceAmount(build, p) == Parsed(d) && PieceAmount(build, q) == Parsed(d') && Add(d, d').Parsed?
    ensures ValidPieces([p, q]) && SumOf(build, 0, [p, q]) == Add(d, d')
  {
    assert [p, q][1..] == [q] && [q][1..] == [];
    assert SumOf(build, 0, [p, q]) == SumOf(build, d, [q]);
    assert SumOf(build, d, [q]) == SumOf(build, Add(d, d').d, []);
  }

  lemma TextOfTwo(p: Piece, q: Piece)
    ensures TextOf([p, q]) == p.digits + p.unit + q.digits + q.unit
  {
    assert [p, q][1..] == [q] && [q][1..] == [];
    assert TextOf([q]) == q.digits + q.unit;
    assert p.digits + (p.unit + (q.digits + q.unit)) == p.digits + p.unit + q.digits + q.unit;
  }

  lemma {:induction false} TrimTwo(n: nat, unit: string, n': nat, unit': string)
    requires IsUnit(unit')
    ensures Trim(Digits(n) + unit + Digits(n') + unit') == Digits(n) + unit + Digits(n') + unit'
  {
    FirstIsDigit(n);
    TrimKeeps(Digits(n) + unit + Digits(n') + unit');
  }

  lemma Units()
    ensures IsUnit("ms") && IsUnit("s") && IsUnit("m") && IsUnit("h")
    ensures UnitNanos("ms") == 1_000_000 && UnitNanos("s") == SECOND
    ensures UnitNanos("m") == 60 * SECOND && UnitNanos("h") == 3600 * SECOND
  {}

  // Parsing a printed duration gives what the printer kept of it, without overflow.
  lemma {:induction false} ParseInvertsFormat(build: Build, d: Duration)
    ensures Parse(build, Format(d)) == Parsed(Truncated(d))
  {
    if d / SECOND == 0 {
      Units();
      WholeUnits(build, d / 1_000_000, "ms", Truncated(d));
    } else {
      SecondsParse(build, d / SECOND);
    }
  }

  lemma {:induction false} SecondsParse(build: Build, s: u64)
    requires s > 0
    ensures Parse(build, FormatSeconds(s)) == Parsed(s * SECOND)
  {
    Units();
    if s % 3600 == 0 {
      WholeUnits(build, s / 3600, "h", s * SECOND);
    } else if s % 60 == 0 {
      WholeUnits(build, s / 60, "m", s * SECOND);
    } else if s > 60 {
      TwoItems(build, s / 60, "m", s / 60 * 60 * SECOND, s % 60, "s", s % 60 * SECOND);
    } else {
      WholeUnits(build, s, "s", s * SECOND);
    }
  }

  lemma {:induction false} WholeUnits(build: Build, n: u64, unit: string, d: Duration)
    requires IsUnit(unit) && UnitNanos(unit) > 0 && n * UnitNanos(unit) == d
    ensures Parse(build, Digits(n) + unit) == Parsed(d)
  {
    OneItem(build, n, unit, d);
  }

  // So a duration survives exactly when it is whole: in seconds from one second on, else in milliseconds.
  lemma {:induction false} SurvivesIffWhole(build: Build, d: Duration)
    ensures Parse(build, Format(d)) == Parsed(d) <==> if d < SECOND then d % 1_000_000 == 0 else d % SECOND == 0
  {
    ParseInvertsFormat(build, d);
  }

  // Minutes whose seconds do not fit 64 bits: a build without checks keeps the low bits, one with checks
  // stops. 307445734561825861 minutes are taken for 44 seconds.
  lemma {:induction false} MinutesWrap(n: u64)
    requires n * 60 >= 0x1_0000_0000_0000_0000
    ensures Parse(Wrapping, Digits(n) + "m") == Parsed(n * 60 % 0x1_0000_0000_0000_0000 * SECOND)
    ensures n == 307_445_734_561_825_861 ==> Parse(Wrapping, Digits(n) + "m") == Parsed(44 * SECOND)
    ensures Parse(Checked, Digits(n) + "m") == Overflow
  {
    var low := MinutesAmount(n);
    MinutesParse(n, low);
  }

  lemma {:induction false} MinutesAmount(n: u64) returns (low: Duration)
    requires n * 60 >= 0x1_0000_0000_0000_0000
    ensures low == n * 60 % 0x1_0000_0000_0000_0000 * SECOND
    ensures n == 307_445_734_561_825_861 ==> low == 44 * SECOND
    ensures Amount(Wrapping, n, "m") == Parsed(low) && Amount(Checked, n, "m") == Overflow
  {
    Units();
    low := n * 60 % 0x1_0000_0000_0000_0000 * SECOND;
  }

  lemma {:induction false} MinutesParse(n: u64, low: Duration)
    requires Amount(Wrapping, n, "m") == Parsed(low) && Amount(Checked, n, "m") == Overflow
    ensures Parse(Wrapping, Digits(n) + "m") == Parsed(low) && Parse(Checked, Digits(n) + "m") == Overflow
  {
    Units();
    OnePieceParses(Wrapping, n, "m");
    OnePieceParses(Checked, n, "m");
  }
}
