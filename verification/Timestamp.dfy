/** The ISO 8601 timestamp of the template engine, and the order of the printed timestamps. */
module Timestamp {
  import opened Calendar
  import opened Decimal
  import opened MachineInts
  import opened Text

  /** A zero-padded number and the byte after it. */
  datatype Field = Field(value: nat, width: nat, after: char)

  ghost function FieldText(f: Field): string {
    Padded(f.value, f.width) + [f.after]
  }

  ghost function Texts(fields: seq<Field>): (r: seq<string>)
    ensures |r| == |fields| && forall i :: 0 <= i < |r| ==> r[i] == FieldText(fields[i])
  {
    seq(|fields|, i requires 0 <= i < |fields| => FieldText(fields[i]))
  }

  /** The first n parts, one after the other. */
  ghost function Concat(parts: seq<string>, n: nat): string
    requires n <= |parts|
  {
    if n == 0 then [] else Concat(parts, n - 1) + parts[n - 1]
  }

  /** A cast of an i32 to u64 extends its sign. */
  function CastU64(n: int): u64
    requires -0x8000_0000 <= n < 0x8000_0000
  {
    if n < 0 then n + 0x1_0000_0000_0000_0000 else n
  }

  lemma CastIsModular(n: int)
    requires -0x8000_0000 <= n < 0x8000_0000
    ensures CastU64(n) == n % 0x1_0000_0000_0000_0000
  {}

  type Seconds = n: nat | n < 0x8000_0000_0000_0000

  function DateFields(date: Date): seq<Field>
    requires -0x8000_0000 <= date.year < 0x8000_0000 && date.month >= 0 && date.day >= 0
  {
    [Field(CastU64(date.year), 4, '-'), Field(date.month, 2, '-'), Field(date.day, 2, 'T')]
  }

  function TimeFields(ofDay: nat, millis: nat): seq<Field> {
    [Field(ofDay / 3600, 2, ':'), Field(ofDay % 3600 / 60, 2, ':'), Field(ofDay % 60, 2, '.'), Field(millis, 3, 'Z')]
  }

  function Fields(secs: Seconds, millis: nat): (r: seq<Field>)
    ensures |r| == 7
  {
    CivilNext(secs / 86_400);
    DateFields(CivilFromDays(secs / 86_400)) + TimeFields(secs % 86_400, millis)
  }

  /** What a wall clock reading prints as. */
  ghost function Iso(secs: Seconds, millis: nat): string {
    Concat(Texts(Fields(secs, millis)), 7)
  }

  method WriteField(out: string, f: Field) returns (r: string)
    requires f.value < 0x1_0000_0000_0000_0000
    ensures r == out + FieldText(f)
  {
    r := WritePadded(out, f.value, f.width);
    Regroup(out, Padded(f.value, f.width), [f.after]);
    r := r + [f.after];
  }

  method WriteIso(out: string, secs: Seconds, millis: nat) returns (r: string)
    requires millis < 1000
    ensures r == out + Iso(secs, millis)
  {
    FieldsAreU64(secs, millis);
    r := WriteFields(out, Fields(secs, millis));
  }

  lemma {:induction false} FieldsAreU64(secs: Seconds, millis: nat)
    requires millis < 1000
    ensures forall i :: 0 <= i < 7 ==> Fields(secs, millis)[i].value < 0x1_0000_0000_0000_0000
  {
    CivilNext(secs / 86_400);
  }

  method WriteFields(out: string, fields: seq<Field>) returns (r: string)
    requires forall i :: 0 <= i < |fields| ==> fields[i].value < 0x1_0000_0000_0000_0000
    ensures r == out + Concat(Texts(fields), |fields|)
  {
    r := out;
    ghost var before := [];
    for k := 0 to |fields|
      invariant before == Concat(Texts(fields), k) && r == out + before
    {
      ghost var part := FieldText(fields[k]);
      Regroup(out, before, part);
      r := WriteField(r, fields[k]);
      before := before + part;
    }
  }

  // --- order ---

  // Same shape, and both values fit the width.
  ghost predicate Comparable(x: Field, y: Field) {
    && x.width == y.width > 0 && x.after == y.after
    && x.value < Pow10(x.width) && y.value < Pow10(y.width)
  }

  ghost predicate AllComparable(f: seq<Field>, g: seq<Field>) {
    |f| == |g| && forall i :: 0 <= i < |f| ==> Comparable(f[i], g[i])
  }

  lemma FieldOrder(x: Field, y: Field)
    requires Comparable(x, y)
    ensures |FieldText(x)| == |FieldText(y)| == x.width + 1
    ensures Less(FieldText(x), FieldText(y)) <==> x.value < y.value
    ensures FieldText(x) == FieldText(y) <==> x == y
  {
    PaddedOrder(x.value, y.value, x.width);
    LessAppend(Padded(x.value, x.width), Padded(y.value, y.width), [x.after], [y.after]);
    SameParts(Padded(x.value, x.width), Padded(y.value, y.width), [x.after], [y.after]);
    assert !Less([x.after], [y.after]);
  }

  lemma SameParts(a: string, b: string, s: string, t: string)
    requires |a| == |b|
    ensures a + s == b + t <==> a == b && s == t
  {
    assert (a + s)[..|a|] == a && (b + t)[..|b|] == b && (a + s)[|a|..] == s && (b + t)[|b|..] == t;
  }

  ghost predicate SameLengths(s: seq<string>, t: seq<string>) {
    |s| == |t| && forall i :: 0 <= i < |s| ==> |s[i]| == |t[i]|
  }

  lemma {:induction false} ConcatLengths(s: seq<string>, t: seq<string>, n: nat)
    requires SameLengths(s, t) && n <= |s|
    ensures |Concat(s, n)| == |Concat(t, n)|
  {
    if n > 0 {
      ConcatLengths(s, t, n - 1);
    }
  }

  lemma {:induction false} ConcatSame(s: seq<string>, t: seq<string>, n: nat)
    requires n <= |s| && n <= |t| && forall i :: 0 <= i < n ==> s[i] == t[i]
    ensures Concat(s, n) == Concat(t, n)
  {
    if n > 0 {
      ConcatSame(s, t, n - 1);
    }
  }

  // With parts of the same lengths, the first part that differs decides.
  lemma {:induction false} ConcatLess(s: seq<string>, t: seq<string>, k: nat, n: nat)
    requires SameLengths(s, t) && k < n <= |s|
    requires Less(s[k], t[k]) && forall i :: 0 <= i < k ==> s[i] == t[i]
    ensures Less(Concat(s, n), Concat(t, n))
  {
    ConcatLengths(s, t, n - 1);
    if k == n - 1 {
      ConcatSame(s, t, k);
    } else {
      ConcatLess(s, t, k, n - 1);
    }
    LessAppend(Concat(s, n - 1), Concat(t, n - 1), s[n - 1], t[n - 1]);
  }

  lemma {:induction false} FieldsDecide(f: seq<Field>, g: seq<Field>, k: nat)
    requires AllComparable(f, g) && k < |f|
    requires f[k].value < g[k].value && forall i :: 0 <= i < k ==> f[i] == g[i]
    ensures Less(Concat(Texts(f), |f|), Concat(Texts(g), |f|))
  {
    var s, t := Texts(f), Texts(g);
    forall i | 0 <= i < |f|
      ensures |s[i]| == |t[i]|
    {
      FieldOrder(f[i], g[i]);
    }
    FieldOrder(f[k], g[k]);
    assert forall i :: 0 <= i < k ==> s[i] == t[i];
    ConcatLess(s, t, k, |f|);
  }

  // --- the years 1970 to 9999 ---

  const YEAR_10000: nat := 253_402_300_800

  lemma Landmarks()
    ensures Civil(0).year == 1970 && Civil(2_932_896).year == 9999 && Civil(2_932_897).year == 10_000
  {
    Epoch();
    CivilAt(2_932_896, 24, 399, 305);
    CivilAt(2_932_897, 24, 399, 306);
  }

  lemma YearsInOrder(a: int, b: int)
    requires a <= b
    ensures Civil(a).year <= Civil(b).year
  {
    if a < b {
      CivilIsMonotone(a, b);
    }
  }

  lemma YearRange(days: nat)
    ensures 1970 <= Civil(days).year
    ensures Civil(days).year <= 9999 <==> days < 2_932_897
  {
    Landmarks();
    YearsInOrder(0, days);
    if days < 2_932_897 {
      YearsInOrder(days, 2_932_896);
    } else {
      YearsInOrder(2_932_897, days);
    }
  }

  // The four-digit years are exactly those of the first 253 402 300 800 seconds.
  lemma FourDigitYears(secs: Seconds)
    ensures 1970 <= Civil(secs / 86_400).year
    ensures Civil(secs / 86_400).year <= 9999 <==> secs < YEAR_10000
  {
    YearRange(secs / 86_400);
  }

  // A valid date of those years, unaffected by the casts.
  lemma DateFits(secs: Seconds) returns (date: Date)
    requires secs < YEAR_10000
    ensures date == Civil(secs / 86_400) == CivilFromDays(secs / 86_400)
    ensures 1970 <= date.year <= 9999 && 1 <= date.month <= 12 && 1 <= date.day <= 31
  {
    date := Civil(secs / 86_400);
    FourDigitYears(secs);
    CivilNext(secs / 86_400);
    CastIsExact(date.year);
  }

  lemma {:induction false} DatesCompare(d: Date, e: Date)
    requires 0 <= d.year <= 9999 && 1 <= d.month <= 12 && 1 <= d.day <= 31
    requires 0 <= e.year <= 9999 && 1 <= e.month <= 12 && 1 <= e.day <= 31
    ensures AllComparable(DateFields(d), DateFields(e))
  {
    assert Pow10(2) == 100 && Pow10(4) == 10_000;
  }

  lemma TimesCompare(a: nat, millis: nat, b: nat, millis': nat)
    requires a < 86_400 && b < 86_400 && millis < 1000 && millis' < 1000
    ensures AllComparable(TimeFields(a, millis), TimeFields(b, millis'))
  {
    assert Pow10(2) == 100 && Pow10(3) == 1000;
  }

  lemma {:induction false} TimestampsCompare(secs: Seconds, millis: nat, secs': Seconds, millis': nat)
    requires secs < YEAR_10000 && secs' < YEAR_10000 && millis < 1000 && millis' < 1000
    ensures AllComparable(Fields(secs, millis), Fields(secs', millis'))
  {
    var d := DateFits(secs);
    var e := DateFits(secs');
    DatesCompare(d, e);
    TimesCompare(secs % 86_400, millis, secs' % 86_400, millis');
    ComparableAppend(DateFields(d), DateFields(e), TimeFields(secs % 86_400, millis),
                     TimeFields(secs' % 86_400, millis'));
  }

  lemma ComparableAppend(f: seq<Field>, g: seq<Field>, f': seq<Field>, g': seq<Field>)
    requires AllComparable(f, g) && AllComparable(f', g')
    ensures AllComparable(f + f', g + g')
  {}

  lemma {:induction false} ConcatOfSeven(s: seq<string>)
    requires |s| == 7
    ensures |Concat(s, 7)| == |s[0]| + |s[1]| + |s[2]| + |s[3]| + |s[4]| + |s[5]| + |s[6]|
  {
    assert |Concat(s, 1)| == |s[0]|;
    assert |Concat(s, 2)| == |Concat(s, 1)| + |s[1]|;
    assert |Concat(s, 3)| == |Concat(s, 2)| + |s[2]|;
    assert |Concat(s, 4)| == |Concat(s, 3)| + |s[3]|;
    assert |Concat(s, 5)| == |Concat(s, 4)| + |s[4]|;
    assert |Concat(s, 6)| == |Concat(s, 5)| + |s[5]|;
  }

  // A printed timestamp has 24 bytes.
  lemma {:induction false} IsoLength(secs: Seconds, millis: nat)
    requires secs < YEAR_10000 && millis < 1000
    ensures |Iso(secs, millis)| == 24
  {
    var f := Fields(secs, millis);
    TimestampsCompare(secs, millis, secs, millis);
    forall i | 0 <= i < 7
      ensures |Texts(f)[i]| == f[i].width + 1
    {
      FieldOrder(f[i], f[i]);
    }
    ConcatOfSeven(Texts(f));
  }

  predicate Earlier(secs: nat, millis: nat, secs': nat, millis': nat) {
    secs < secs' || (secs == secs' && millis < millis')
  }

  // Field k is the first one that differs, and it is smaller in f.
  ghost predicate FirstSmaller(f: seq<Field>, g: seq<Field>, k: nat) {
    k < |f| == |g| && f[k].value < g[k].value && forall i :: 0 <= i < k ==> f[i] == g[i]
  }

  lemma {:induction false} FirstDifference(d: Date, e: Date, a: nat, millis: nat, b: nat, millis': nat) returns (k: nat)
    requires 0 <= d.year <= 9999 && 1 <= d.month && 1 <= d.day
    requires 0 <= e.year <= 9999 && 1 <= e.month && 1 <= e.day
    requires Before(d, e) || (d == e && Earlier(a, millis, b, millis'))
    ensures FirstSmaller(DateFields(d) + TimeFields(a, millis), DateFields(e) + TimeFields(b, millis'), k)
  {
    if Before(d, e) {
      k := DateDifference(d, e);
      DiffersInFront(DateFields(d), DateFields(e), TimeFields(a, millis), TimeFields(b, millis'), k);
    } else {
      k := TimeDifference(a, millis, b, millis');
      DiffersBehind(DateFields(d), TimeFields(a, millis), TimeFields(b, millis'), k);
      k := 3 + k;
    }
  }

  lemma DiffersInFront(f: seq<Field>, g: seq<Field>, t: seq<Field>, u: seq<Field>, k: nat)
    requires FirstSmaller(f, g, k) && |t| == |u|
    ensures FirstSmaller(f + t, g + u, k)
  {}

  lemma DiffersBehind(f: seq<Field>, t: seq<Field>, u: seq<Field>, k: nat)
    requires FirstSmaller(t, u, k)
    ensures FirstSmaller(f + t, f + u, |f| + k)
  {}

  lemma {:induction false} DateDifference(d: Date, e: Date) returns (k: nat)
    requires 0 <= d.year <= 9999 && 1 <= d.month && 1 <= d.day
    requires 0 <= e.year <= 9999 && 1 <= e.month && 1 <= e.day && Before(d, e)
    ensures FirstSmaller(DateFields(d), DateFields(e), k)
  {
    k := if d.year < e.year then 0 else if d.month < e.month then 1 else 2;
  }

  lemma TimeDifference(a: nat, millis: nat, b: nat, millis': nat) returns (k: nat)
    requires Earlier(a, millis, b, millis')
    ensures FirstSmaller(TimeFields(a, millis), TimeFields(b, millis'), k)
  {
    TimeOfDayOrder(a, b);
    k := if a / 3600 < b / 3600 then 0
         else if a % 3600 / 60 < b % 3600 / 60 then 1
         else if a % 60 < b % 60 then 2
         else 3;
  }

  lemma TimeOfDayOrder(a: nat, b: nat)
    requires a <= b
    ensures a / 3600 <= b / 3600
    ensures a / 3600 == b / 3600 ==> a % 3600 / 60 <= b % 3600 / 60
    ensures a / 3600 == b / 3600 && a % 3600 / 60 == b % 3600 / 60 ==> a % 60 <= b % 60
    ensures a / 3600 == b / 3600 && a % 3600 / 60 == b % 3600 / 60 && a % 60 == b % 60 ==> a == b
  {
    assert a == a / 3600 * 3600 + a % 3600 && b == b / 3600 * 3600 + b % 3600;
    MinutesAndSeconds(a);
    MinutesAndSeconds(b);
  }

  lemma MinutesAndSeconds(a: nat)
    ensures a % 3600 == a % 3600 / 60 * 60 + a % 60
  {
    assert a % 3600 % 60 == a % 60;
  }

  ghost predicate InOrder(d: Date, e: Date, a: nat, millis: nat, b: nat, millis': nat) {
    Before(d, e) || (d == e && Earlier(a, millis, b, millis'))
  }

  lemma {:induction false} FieldsOf(secs: Seconds, millis: nat, d: Date)
    requires d == CivilFromDays(secs / 86_400) && 1970 <= d.year <= 9999 && 1 <= d.month <= 12 && 1 <= d.day <= 31
    ensures Fields(secs, millis) == DateFields(d) + TimeFields(secs % 86_400, millis)
  {}

  lemma DatesInOrder(secs: Seconds, millis: nat, secs': Seconds, millis': nat, d: Date, e: Date)
    requires Earlier(secs, millis, secs', millis')
    requires d == Civil(secs / 86_400) && e == Civil(secs' / 86_400)
    ensures InOrder(d, e, secs % 86_400, millis, secs' % 86_400, millis')
  {
    if secs / 86_400 < secs' / 86_400 {
      CivilIsMonotone(secs / 86_400, secs' / 86_400);
    } else {
      assert secs / 86_400 == secs' / 86_400;
    }
  }

  lemma {:induction false} InOrderIsLess(f: seq<Field>, g: seq<Field>, d: Date, e: Date, a: nat, millis: nat, b: nat,
      millis': nat)
    requires 1970 <= d.year <= 9999 && 1 <= d.month <= 12 && 1 <= d.day <= 31
    requires 1970 <= e.year <= 9999 && 1 <= e.month <= 12 && 1 <= e.day <= 31
    requires a < 86_400 && b < 86_400 && millis < 1000 && millis' < 1000 && InOrder(d, e, a, millis, b, millis')
    requires f == DateFields(d) + TimeFields(a, millis) && g == DateFields(e) + TimeFields(b, millis')
    ensures Less(Concat(Texts(f), |f|), Concat(Texts(g), |g|))
  {
    DatesCompare(d, e);
    TimesCompare(a, millis, b, millis');
    ComparableAppend(DateFields(d), DateFields(e), TimeFields(a, millis), TimeFields(b, millis'));
    var k := FirstDifference(d, e, a, millis, b, millis');
    FieldsDecide(f, g, k);
  }

  lemma {:induction false} EarlierIsLess(secs: Seconds, millis: nat, secs': Seconds, millis': nat)
    requires secs < YEAR_10000 && secs' < YEAR_10000 && millis < 1000 && millis' < 1000
    requires Earlier(secs, millis, secs', millis')
    ensures Less(Iso(secs, millis), Iso(secs', millis'))
  {
    var d := DateFits(secs);
    var e := DateFits(secs');
    FieldsOf(secs, millis, d);
    FieldsOf(secs', millis', e);
    DatesInOrder(secs, millis, secs', millis', d, e);
    InOrderIsLess(Fields(secs, millis), Fields(secs', millis'), d, e, secs % 86_400, millis, secs' % 86_400, millis');
  }

  // Lexicographic order of the printed bytes is chronological order.
  lemma {:induction false} IsoOrder(secs: Seconds, millis: nat, secs': Seconds, millis': nat)
    requires secs < YEAR_10000 && secs' < YEAR_10000 && millis < 1000 && millis' < 1000
    ensures Less(Iso(secs, millis), Iso(secs', millis')) <==> Earlier(secs, millis, secs', millis')
  {
    if Earlier(secs, millis, secs', millis') {
      EarlierIsLess(secs, millis, secs', millis');
    } else if Less(Iso(secs, millis), Iso(secs', millis')) {
      LessAsymmetric(Iso(secs, millis), Iso(secs', millis'));
      if Earlier(secs', millis', secs, millis) {
        EarlierIsLess(secs', millis', secs, millis);
      }
    }
  }

  // --- reading a timestamp back ---

  lemma {:induction false} ConcatGrows(parts: seq<string>, k: nat, n: nat)
    requires k <= n <= |parts|
    ensures |Concat(parts, k)| <= |Concat(parts, n)| && Concat(parts, n)[..|Concat(parts, k)|] == Concat(parts, k)
    decreases n
  {
    if k < n {
      ConcatGrows(parts, k, n - 1);
    }
  }

  // Part k stands between the lengths of the first k and the first k + 1 parts.
  lemma {:induction false} PartAt(parts: seq<string>, k: nat, n: nat)
    requires k < n <= |parts|
    ensures |Concat(parts, k)| + |parts[k]| <= |Concat(parts, n)|
    ensures Concat(parts, n)[|Concat(parts, k)|..|Concat(parts, k)| + |parts[k]|] == parts[k]
  {
    ConcatGrows(parts, k + 1, n);
    var all, front := Concat(parts, n), Concat(parts, k + 1);
    assert front == Concat(parts, k) + parts[k];
    assert all[|Concat(parts, k)|..|front|] == all[..|front|][|Concat(parts, k)|..];
  }

  // The text of a field starts at position i.
  ghost predicate Shows(text: string, i: nat, f: Field) {
    i + f.width < |text| && text[i..i + f.width] == Padded(f.value, f.width) && text[i + f.width] == f.after
  }

  // So do those of all fields, one behind the other.
  ghost predicate ShowsAll(text: string, fs: seq<Field>) {
    |text| == Offset(fs, |fs|) && forall k :: 0 <= k < |fs| ==> Shows(text, Offset(fs, k), fs[k])
  }

  function Offset(fs: seq<Field>, k: nat): nat
    requires k <= |fs|
  {
    if k == 0 then 0 else Offset(fs, k - 1) + fs[k - 1].width + 1
  }

  ghost predicate Fit(fs: seq<Field>) {
    forall k :: 0 <= k < |fs| ==> fs[k].width > 0 && fs[k].value < Pow10(fs[k].width)
  }

  lemma {:induction false} FieldsShow(text: string, fs: seq<Field>, parts: seq<string>)
    requires Fit(fs) && parts == Texts(fs) && text == Concat(parts, |parts|)
    ensures ShowsAll(text, fs)
  {
    TextLengths(fs, parts);
    OffsetIs(fs, parts, |fs|);
    forall k | 0 <= k < |fs| ensures Shows(text, Offset(fs, k), fs[k]) {
      OffsetIs(fs, parts, k);
      FieldShows(text, parts, k, Offset(fs, k), fs[k]);
    }
  }

  lemma {:induction false} OffsetIs(fs: seq<Field>, parts: seq<string>, k: nat)
    requires k <= |fs| == |parts| && forall j :: 0 <= j < |fs| ==> |parts[j]| == fs[j].width + 1
    ensures |Concat(parts, k)| == Offset(fs, k)
  {
    if k > 0 {
      OffsetIs(fs, parts, k - 1);
    }
  }

  lemma TextLengths(fs: seq<Field>, parts: seq<string>)
    requires Fit(fs) && parts == Texts(fs)
    ensures |parts| == |fs| && forall j :: 0 <= j < |fs| ==> |parts[j]| == fs[j].width + 1
  {
    forall j | 0 <= j < |fs|
      ensures |parts[j]| == fs[j].width + 1
    {
      FieldLength(fs[j]);
    }
  }

  lemma {:induction false} FieldLength(f: Field)
    requires f.width > 0 && f.value < Pow10(f.width)
    ensures |FieldText(f)| == f.width + 1
  {
    PaddedRoundTrip(f.value, f.width);
  }

  lemma {:induction false} FieldShows(text: string, parts: seq<string>, k: nat, i: nat, f: Field)
    requires k < |parts| && parts[k] == FieldText(f) && f.width > 0 && f.value < Pow10(f.width)
    requires text == Concat(parts, |parts|) && i == |Concat(parts, k)|
    ensures Shows(text, i, f)
  {
    PartAt(parts, k, |parts|);
    PaddedRoundTrip(f.value, f.width);
    PartSplits(text, i, Padded(f.value, f.width), f.after);
  }

  lemma PartSplits(text: string, i: nat, digits: string, after: char)
    requires i + |digits| + 1 <= |text| && text[i..i + |digits| + 1] == digits + [after]
    ensures text[i..i + |digits|] == digits && text[i + |digits|] == after
  {
    var part := text[i..i + |digits| + 1];
    assert text[i..i + |digits|] == part[..|digits|] && text[i + |digits|] == part[|digits|];
  }

  lemma {:induction false} SevenFields(text: string, fs: seq<Field>)
    requires |fs| == 7 && ShowsAll(text, fs)
    requires fs[0].width == 4 && fs[1].width == fs[2].width == fs[3].width == fs[4].width == fs[5].width == 2
    requires fs[6].width == 3
    ensures |text| == 24 && Shows(text, 0, fs[0]) && Shows(text, 5, fs[1]) && Shows(text, 8, fs[2])
    ensures Shows(text, 11, fs[3]) && Shows(text, 14, fs[4]) && Shows(text, 17, fs[5]) && Shows(text, 20, fs[6])
  {
    assert Offset(fs, 1) == 5 && Offset(fs, 2) == 8 && Offset(fs, 3) == 11;
    assert Offset(fs, 4) == 14 && Offset(fs, 5) == 17 && Offset(fs, 6) == 20;
  }

  // The fields of a timestamp, by their meaning.
  ghost predicate FieldsFor(fs: seq<Field>, date: Date, ofDay: nat, millis: nat) {
    && |fs| == 7 && Fit(fs) && date.year >= 0 && date.month >= 0 && date.day >= 0
    && fs[0] == Field(date.year, 4, '-') && fs[1] == Field(date.month, 2, '-') && fs[2] == Field(date.day, 2, 'T')
    && fs[3] == Field(fs[3].value, 2, ':') && fs[4] == Field(fs[4].value, 2, ':')
    && fs[5] == Field(fs[5].value, 2, '.') && fs[6] == Field(millis, 3, 'Z')
    && fs[3].value < 24 && fs[4].value < 60 && fs[5].value < 60
    && fs[3].value * 3600 + fs[4].value * 60 + fs[5].value == ofDay
  }

  lemma {:induction false} FieldsMean(secs: Seconds, millis: nat) returns (fs: seq<Field>, date: Date)
    requires secs < YEAR_10000 && millis < 1000
    ensures date == Civil(secs / 86_400)
    ensures FieldsFor(fs, date, secs % 86_400, millis) && Iso(secs, millis) == Concat(Texts(fs), |fs|)
  {
    date := DateFits(secs);
    FieldsOf(secs, millis, date);
    fs := Fields(secs, millis);
    TimeParts(secs % 86_400, millis);
    FieldsHold(date, secs % 86_400, millis, fs);
  }

  lemma {:induction false} FieldsHold(date: Date, ofDay: nat, millis: nat, fs: seq<Field>)
    requires 1970 <= date.year <= 9999 && 1 <= date.month <= 12 && 1 <= date.day <= 31
    requires ofDay < 86_400 && millis < 1000 && fs == DateFields(date) + TimeFields(ofDay, millis)
    ensures FieldsFor(fs, date, ofDay, millis)
  {
    TimeParts(ofDay, millis);
    assert Pow10(2) == 100 && Pow10(3) == 1000 && Pow10(4) == 10_000;
  }

  lemma TimeParts(ofDay: nat, millis: nat)
    requires ofDay < 86_400 && millis < 1000
    ensures var t := TimeFields(ofDay, millis);
      && |t| == 4 && t[0].value < 24 && t[1].value < 60 && t[2].value < 60 && t[3].value == millis
      && t[0].value * 3600 + t[1].value * 60 + t[2].value == ofDay
      && t[0].width == t[1].width == t[2].width == 2 && t[3].width == 3
      && t[0].after == t[1].after == ':' && t[2].after == '.' && t[3].after == 'Z'
  {
    MinutesAndSeconds(ofDay);
  }

  // A text that shows fields of that meaning.
  ghost predicate Reads(text: string, date: Date, ofDay: nat, millis: nat) {
    && |text| == 24
    && Value(text[0..4]) == date.year && Value(text[5..7]) == date.month && Value(text[8..10]) == date.day
    && 0 <= Value(text[11..13]) < 24 && 0 <= Value(text[14..16]) < 60 && 0 <= Value(text[17..19]) < 60
    && Value(text[11..13]) * 3600 + Value(text[14..16]) * 60 + Value(text[17..19]) == ofDay
    && Value(text[20..23]) == millis
    && text[4] == text[7] == '-' && text[10] == 'T' && text[13] == text[16] == ':' && text[19] == '.' && text[23] == 'Z'
  }

  lemma {:induction false} ShownValue(text: string, i: nat, f: Field)
    requires f.width > 0 && f.value < Pow10(f.width) && Shows(text, i, f)
    ensures Value(text[i..i + f.width]) == f.value && text[i + f.width] == f.after
  {
    PaddedRoundTrip(f.value, f.width);
  }

  lemma {:induction false} ShownReads(text: string, fs: seq<Field>, date: Date, ofDay: nat, millis: nat)
    requires FieldsFor(fs, date, ofDay, millis) && ShowsAll(text, fs)
    ensures Reads(text, date, ofDay, millis)
  {
    SevenFields(text, fs);
    ShownValue(text, 0, fs[0]);
    ShownValue(text, 5, fs[1]);
    ShownValue(text, 8, fs[2]);
    ShownValue(text, 11, fs[3]);
    ShownValue(text, 14, fs[4]);
    ShownValue(text, 17, fs[5]);
    ShownValue(text, 20, fs[6]);
  }

  // A printed timestamp reads back: the date of its day, a proper time of that day, the milliseconds,
  // and the separators in their places.
  lemma {:induction false} IsoReads(secs: Seconds, millis: nat)
    requires secs < YEAR_10000 && millis < 1000
    ensures Reads(Iso(secs, millis), Civil(secs / 86_400), secs % 86_400, millis)
  {
    var fs, date := FieldsMean(secs, millis);
    FieldsShow(Iso(secs, millis), fs, Texts(fs));
    ShownReads(Iso(secs, millis), fs, date, secs % 86_400, millis);
  }

  // The text of the epoch itself.
  lemma {:induction false} EpochPrints()
    ensures Iso(0, 0) == "1970-01-01T00:00:00.000Z"
  {
    Epoch();
    var fs, date := FieldsMean(0, 0);
    FieldsShow(Iso(0, 0), fs, Texts(fs));
    SevenFields(Iso(0, 0), fs);
    EpochTexts(Iso(0, 0), fs);
  }

  lemma EpochTexts(text: string, fs: seq<Field>)
    requires FieldsFor(fs, Date(1970, 1, 1), 0, 0) && |text| == 24
    requires Shows(text, 0, fs[0]) && Shows(text, 5, fs[1]) && Shows(text, 8, fs[2])
    requires Shows(text, 11, fs[3]) && Shows(text, 14, fs[4]) && Shows(text, 17, fs[5]) && Shows(text, 20, fs[6])
    ensures text == "1970-01-01T00:00:00.000Z"
  {
    PaddedTexts();
    JoinTexts(text);
  }

  lemma PaddedTexts()
    ensures Padded(1970, 4) == "1970" && Padded(1, 2) == "01" && Padded(0, 2) == "00" && Padded(0, 3) == "000"
  {
    assert Digits(1) == "1" && Digits(19) == "19" && Digits(197) == "197" && Digits(1970) == "1970";
    assert Repeat('0', 0) == [] && Repeat('0', 1) == "0" && Repeat('0', 2) == "00";
  }

  lemma JoinTexts(text: string)
    requires |text| == 24
    requires text[0..4] == "1970" && text[5..7] == "01" && text[8..10] == "01"
    requires text[11..13] == "00" && text[14..16] == "00" && text[17..19] == "00" && text[20..23] == "000"
    requires text[4] == '-' && text[7] == '-' && text[10] == 'T'
    requires text[13] == ':' && text[16] == ':' && text[19] == '.' && text[23] == 'Z'
    ensures text == "1970-01-01T00:00:00.000Z"
  {
    assert text == text[0..4] + [text[4]] + text[5..7] + [text[7]] + text[8..10] + [text[10]]
      + text[11..13] + [text[13]] + text[14..16] + [text[16]] + text[17..19] + [text[19]] + text[20..23] + [text[23]];
  }
}
