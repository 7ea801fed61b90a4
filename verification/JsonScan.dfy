/**
 The byte-level scanner that pulls one unsigned field out of a JSON payload: the first quoted
 occurrence of the name, a colon, and a run of digits.
 */
module JsonScan {
  import opened Decimal
  import opened MachineInts
  import opened Outcome

  predicate IsSpace(c: char) {
    c == ' ' || c == '\t' || c == '\r' || c == '\n'
  }

  ghost predicate AllSpace(s: string) {
    forall i :: 0 <= i < |s| ==> IsSpace(s[i])
  }

  predicate StartsWith(s: string, i: nat, needle: string) {
    i + |needle| <= |s| && s[i..i + |needle|] == needle
  }

  // at is the first occurrence of the needle.
  ghost predicate IsFirst(s: string, needle: string, at: nat) {
    StartsWith(s, at, needle) && forall i: nat :: i < at ==> !StartsWith(s, i, needle)
  }

  ghost function FirstFrom(s: string, needle: string, i: nat): Option<nat>
    decreases |s| - i
  {
    if i + |needle| > |s| then None
    else if StartsWith(s, i, needle) then Some(i)
    else FirstFrom(s, needle, i + 1)
  }

  lemma {:induction false} FirstFromIsFirst(s: string, needle: string, i: nat)
    requires forall k: nat :: k < i ==> !StartsWith(s, k, needle)
    ensures match FirstFrom(s, needle, i)
      case Some(at) => IsFirst(s, needle, at)
      case None => forall k: nat :: !StartsWith(s, k, needle)
    decreases |s| - i
  {
    if i + |needle| <= |s| && !StartsWith(s, i, needle) {
      FirstFromIsFirst(s, needle, i + 1);
    }
  }

  function Quoted(field: string): string {
    ['"'] + field + ['"']
  }

  lemma QuotesAndSpaces(c: char)
    ensures Quoted("t") == "\"t\"" && (IsSpace(c) <==> c in [' ', '\t', '\r', '\n'])
  {}

  /** Where the white space from i on ends. */
  ghost function SpaceEnd(s: string, i: nat): (j: nat)
    requires i <= |s|
    ensures i <= j <= |s| && AllSpace(s[i..j]) && (j < |s| ==> !IsSpace(s[j]))
    decreases |s| - i
  {
    if i < |s| && IsSpace(s[i]) then
      var j := SpaceEnd(s, i + 1);
      assert s[i..j] == [s[i]] + s[i + 1..j];
      j
    else i
  }

  lemma {:induction false} SpaceEndIs(s: string, i: nat, j: nat)
    requires i <= j <= |s| && AllSpace(s[i..j]) && (j < |s| ==> !IsSpace(s[j]))
    ensures SpaceEnd(s, i) == j
    decreases j - i
  {
    if i < j {
      assert s[i] == s[i..j][0];
      assert s[i + 1..j] == s[i..j][1..];
      SpaceEndIs(s, i + 1, j);
    }
  }

  ghost function Number(digits: string): Option<u64>
    requires AllDigits(digits)
  {
    ValueNonNegative(digits);
    if digits == [] || Value(digits) > 0xFFFF_FFFF_FFFF_FFFF then None else Some(Value(digits))
  }

  /** The number behind the name. */
  ghost function ScanRest(rest: string): Option<u64> {
    var colon := SpaceEnd(rest, 0);
    if colon >= |rest| || rest[colon] != ':' then None
    else
      var start := SpaceEnd(rest, colon + 1);
      Number(rest[start..DigitsEnd(rest, start)])
  }

  ghost function Scan(payload: string, field: string): Option<u64> {
    var at := FirstFrom(payload, Quoted(field), 0);
    if at.None? || at.value + |Quoted(field)| > |payload| then None
    else ScanRest(payload[at.value + |Quoted(field)|..])
  }

  // --- the scanner ---

  method Find(s: string, needle: string) returns (at: Option<nat>)
    ensures at == FirstFrom(s, needle, 0)
  {
    var i: nat := 0;
    while i + |needle| <= |s|
      invariant FirstFrom(s, needle, 0) == FirstFrom(s, needle, i)
      decreases |s| - i
    {
      if s[i..i + |needle|] == needle {
        return Some(i);
      }
      i := i + 1;
    }
    at := None;
  }

  method SkipSpace(s: string, start: nat) returns (i: nat)
    requires start <= |s|
    ensures i == SpaceEnd(s, start)
  {
    i := start;
    while i < |s| && IsSpace(s[i])
      invariant start <= i <= |s| && SpaceEnd(s, i) == SpaceEnd(s, start)
    {
      i := i + 1;
    }
  }

  /** The number at the start, unless there is none or it does not fit. */
  method ReadDigits(s: string, start: nat) returns (r: Option<u64>)
    requires start <= |s|
    ensures r == Number(s[start..DigitsEnd(s, start)])
  {
    var i: nat, n: u64, any := start, 0, false;
    ghost var digits := s[start..DigitsEnd(s, start)];
    while i < |s| && IsDigit(s[i])
      invariant start <= i <= DigitsEnd(s, start) && DigitsEnd(s, i) == DigitsEnd(s, start)
      invariant n == Value(digits[..i - start]) && any == (i > start)
    {
      NextDigit(digits, i - start);
      ValueGrows(digits, i + 1 - start);
      if n * 10 > 0xFFFF_FFFF_FFFF_FFFF || n * 10 + DigitValue(s[i]) > 0xFFFF_FFFF_FFFF_FFFF {
        return None;
      }
      n, any, i := n * 10 + DigitValue(s[i]), true, i + 1;
    }
    assert digits[..i - start] == digits;
    r := if any then Some(n) else None;
  }

  lemma NextDigit(digits: string, k: nat)
    requires AllDigits(digits) && k < |digits|
    ensures Value(digits[..k + 1]) == Value(digits[..k]) * 10 + DigitValue(digits[k])
    ensures 0 <= DigitValue(digits[k]) < 10
  {
    assert digits[..k + 1][..k] == digits[..k];
  }

  method FindU64Field(payload: string, field: string) returns (r: Option<u64>)
    ensures r == Scan(payload, field)
  {
    var needle := Quoted(field);
    var at := Find(payload, needle);
    if at.None? {
      return None;
    }
    FirstFromIsFirst(payload, needle, 0);
    r := ReadNumber(payload[at.value + |needle|..]);
  }

  /** The number behind the name. */
  method ReadNumber(rest: string) returns (r: Option<u64>)
    ensures r == ScanRest(rest)
  {
    var i := SkipSpace(rest, 0);
    if i >= |rest| || rest[i] != ':' {
      return None;
    }
    i := SkipSpace(rest, i + 1);
    r := ReadDigits(rest, i);
  }

  // --- what it finds ---

  // Spaces, a colon, spaces, and digits up to the first non-digit.
  ghost predicate IsShape(rest: string, colon: nat, start: nat, end: nat) {
    && colon < start < end <= |rest| && rest[colon] == ':'
    && AllSpace(rest[..colon]) && AllSpace(rest[colon + 1..start])
    && AllDigits(rest[start..end]) && (end < |rest| ==> !IsDigit(rest[end]))
  }

  // The scanner returns the number V of that shape exactly when V < 2^64, whatever follows it.
  lemma {:induction false} ShapeScans(rest: string, colon: nat, start: nat, end: nat)
    requires IsShape(rest, colon, start, end)
    ensures Value(rest[start..end]) >= 0
    ensures ScanRest(rest) ==
      if Value(rest[start..end]) < 0x1_0000_0000_0000_0000 then Some(Value(rest[start..end])) else None
  {
    SpaceEndIs(rest, 0, colon);
    assert rest[start] == rest[start..end][0];
    SpaceEndIs(rest, colon + 1, start);
    DigitsEndIs(rest, start, end);
    ValueNonNegative(rest[start..end]);
  }

  // And it returns nothing but the number of such a shape.
  lemma {:induction false} ScannedHasShape(rest: string) returns (colon: nat, start: nat, end: nat)
    requires ScanRest(rest).Some?
    ensures IsShape(rest, colon, start, end) && ScanRest(rest) == Some(Value(rest[start..end]))
  {
    colon := SpaceEnd(rest, 0);
    start := SpaceEnd(rest, colon + 1);
    end := DigitsEnd(rest, start);
  }

  // A printed u64 behind the first occurrence of the name, and before anything but a digit, is read
  // back.
  lemma {:induction false} PrintedNumberScans(before: string, field: string, gap: string, gap': string, n: u64,
      tail: string, payload: string)
    requires AllSpace(gap) && AllSpace(gap') && (|tail| > 0 ==> !IsDigit(tail[0]))
    requires payload == before + Quoted(field) + (gap + [':'] + gap' + Digits(n) + tail)
    requires IsFirst(payload, Quoted(field), |before|)
    ensures Scan(payload, field) == Some(n)
  {
    ScansBehind(payload, field, before, gap + [':'] + gap' + Digits(n) + tail);
    RestScans(gap, gap', n, tail);
  }

  lemma {:induction false} ScansBehind(payload: string, field: string, before: string, rest: string)
    requires payload == before + Quoted(field) + rest && IsFirst(payload, Quoted(field), |before|)
    ensures Scan(payload, field) == ScanRest(rest)
  {
    FirstFromIsFirst(payload, Quoted(field), 0);
    DropFront(before, Quoted(field), rest);
  }

  lemma DropFront(a: string, b: string, c: string)
    ensures (a + b + c)[|a| + |b|..] == c
  {}

  lemma {:induction false} RestScans(gap: string, gap': string, n: u64, tail: string)
    requires AllSpace(gap) && AllSpace(gap') && (|tail| > 0 ==> !IsDigit(tail[0]))
    ensures ScanRest(gap + [':'] + gap' + Digits(n) + tail) == Some(n)
  {
    DigitsAreDigits(n);
    DigitsRoundTrip(n);
    RestShape(gap, gap', Digits(n), tail);
    var start := |gap| + 1 + |gap'|;
    ShapeScans(gap + [':'] + gap' + Digits(n) + tail, |gap|, start, start + |Digits(n)|);
  }

  lemma RestShape(gap: string, gap': string, digits: string, tail: string)
    requires AllSpace(gap) && AllSpace(gap') && AllDigits(digits) && |digits| > 0 && (|tail| > 0 ==> !IsDigit(tail[0]))
    ensures var rest := gap + [':'] + gap' + digits + tail;
      var start := |gap| + 1 + |gap'|;
      IsShape(rest, |gap|, start, start + |digits|) && rest[start..start + |digits|] == digits
  {
    var rest := gap + [':'] + gap' + digits + tail;
    var start := |gap| + 1 + |gap'|;
    assert rest[..|gap|] == gap && rest[|gap| + 1..start] == gap' && rest[start..start + |digits|] == digits;
  }

  // A JSON number with a fraction or an exponent behind the colon: its sign, and its integer part.
  ghost predicate IsFloat(rest: string, colon: nat, start: nat, end: nat, negative: bool) {
    && colon < start < end < |rest| && rest[colon] == ':' && AllSpace(rest[..colon])
    && AllDigits(rest[start..end]) && rest[end] in ['.', 'e', 'E']
    && if negative then colon + 1 < start && AllSpace(rest[colon + 1..start - 1]) && rest[start - 1] == '-'
       else AllSpace(rest[colon + 1..start])
  }

  // The documentation says that floats return nothing. In fact the integer part is read, whatever
  // follows, and nothing is returned exactly for a negative one and for one that does not fit a u64.
  lemma {:induction false} FloatReadsItsIntegerPart(payload: string, field: string, before: string, rest: string,
      colon: nat, start: nat, end: nat, negative: bool)
    requires payload == before + Quoted(field) + rest && IsFirst(payload, Quoted(field), |before|)
    requires IsFloat(rest, colon, start, end, negative)
    ensures Scan(payload, field).None? <==> negative || Value(rest[start..end]) >= 0x1_0000_0000_0000_0000
    ensures Scan(payload, field).Some? ==> Scan(payload, field).value == Value(rest[start..end])
  {
    ScansBehind(payload, field, before, rest);
    if negative {
      NoDigitScansNone(rest, colon, start - 1);
    } else {
      ShapeScans(rest, colon, start, end);
    }
  }

  // Anything but a digit behind the colon, such as a sign, gives nothing.
  lemma NoDigitScansNone(rest: string, colon: nat, start: nat)
    requires colon < start < |rest| && rest[colon] == ':' && AllSpace(rest[..colon])
    requires AllSpace(rest[colon + 1..start]) && !IsSpace(rest[start]) && !IsDigit(rest[start])
    ensures ScanRest(rest) == None
  {
    SpaceEndIs(rest, 0, colon);
    SpaceEndIs(rest, colon + 1, start);
    assert DigitsEnd(rest, start) == start;
  }

  lemma FirstMember(field: string, rest: string)
    ensures IsFirst("{" + Quoted(field) + rest, Quoted(field), 1)
  {
    var payload := "{" + Quoted(field) + rest;
    assert payload[1..1 + |Quoted(field)|] == Quoted(field);
    assert payload[..|Quoted(field)|][0] == '{' && Quoted(field)[0] == '"';
  }

  // One payload of either kind: {"t":1.5} gives 1, {"t":-1.5} gives nothing.
  lemma OneAndAHalf()
    ensures Scan("{\"t\":1.5}", "t") == Some(1) && Scan("{\"t\":-1.5}", "t") == None
  {
    PositiveHalf("{\"t\":1.5}", "t", ":1.5}");
    NegativeHalf("{\"t\":-1.5}", "t", ":-1.5}");
  }

  lemma JoinPayload(payload: string, field: string, rest: string)
    requires |payload| == 4 + |rest| && field == "t" && payload[..4] == "{\"t\"" && payload[4..] == rest
    ensures payload == "{" + Quoted(field) + rest
  {
    QuotesAndSpaces(' ');
    assert payload == payload[..4] + payload[4..];
  }

  lemma PositiveHalf(payload: string, field: string, rest: string)
    requires payload == "{\"t\":1.5}" && field == "t" && rest == ":1.5}"
    ensures Scan(payload, field) == Some(1)
  {
    JoinPayload(payload, field, rest);
    ValueOfOne(rest[1..2]);
    FloatMember(field, rest, 1, 2, false);
  }

  lemma ValueOfOne(s: string)
    requires |s| == 1 && s[0] == '1'
    ensures AllDigits(s) && Value(s) == 1
  {
    assert s[..0] == [];
  }

  lemma NegativeHalf(payload: string, field: string, rest: string)
    requires payload == "{\"t\":-1.5}" && field == "t" && rest == ":-1.5}"
    ensures Scan(payload, field) == None
  {
    JoinPayload(payload, field, rest);
    FloatMember(field, rest, 2, 3, true);
  }

  lemma FloatMember(field: string, rest: string, start: nat, end: nat, negative: bool)
    requires IsFloat(rest, 0, start, end, negative)
    ensures var scanned := Scan("{" + Quoted(field) + rest, field);
      && (scanned.None? <==> negative || Value(rest[start..end]) >= 0x1_0000_0000_0000_0000)
      && (scanned.Some? ==> scanned.value == Value(rest[start..end]))
  {
    FirstMember(field, rest);
    FloatReadsItsIntegerPart("{" + Quoted(field) + rest, field, "{", rest, 0, start, end, negative);
  }
}
