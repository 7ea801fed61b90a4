/**
 Days since 1970-01-01 to a Gregorian date, in the two copies the repository has, against an
 independent calendar: a valid date, the epoch, and the rule for the next day.
 */
module Calendar {
  import opened Division
  import opened MachineInts

  datatype Date = Date(year: int, month: int, day: int)

  // --- the Gregorian calendar ---

  predicate Leap(y: int) {
    y % 4 == 0 && (y % 100 != 0 || y % 400 == 0)
  }

  function DaysInMonth(y: int, m: int): int {
    if m == 2 then (if Leap(y) then 29 else 28)
    else if m == 4 || m == 6 || m == 9 || m == 11 then 30
    else 31
  }

  predicate Valid(d: Date) {
    1 <= d.month <= 12 && 1 <= d.day <= DaysInMonth(d.year, d.month)
  }

  function Tomorrow(d: Date): Date {
    if d.day < DaysInMonth(d.year, d.month) then d.(day := d.day + 1)
    else if d.month < 12 then Date(d.year, d.month + 1, 1)
    else Date(d.year + 1, 1, 1)
  }

  predicate Before(a: Date, b: Date) {
    a.year < b.year || (a.year == b.year && (a.month < b.month || (a.month == b.month && a.day < b.day)))
  }

  // --- the algorithm, with unbounded intermediates ---

  /** Integer division of the implementation language: it truncates toward zero. */
  function TruncDiv(a: int, b: int): int
    requires b > 0
  {
    if a >= 0 then a / b else -(-a / b)
  }

  function Era(z: int): int {
    TruncDiv(if z >= 0 then z else z - 146_096, 146_097)
  }

  function YearOfEra(doe: int): int {
    (doe - doe / 1460 + doe / 36524 - doe / 146_096) / 365
  }

  /** Days of the era before year yoe of it; years start in March. */
  function YearStart(yoe: int): int {
    365 * yoe + yoe / 4 - yoe / 100
  }

  function MonthStart(mp: int): int {
    (153 * mp + 2) / 5
  }

  function MonthIndex(doy: int): int {
    (5 * doy + 2) / 153
  }

  function Month(mp: int): int {
    if mp < 10 then mp + 3 else mp - 9
  }

  /** The date of day doy of the March-based year y. */
  function DateOf(y: int, doy: int): Date {
    var mp := MonthIndex(doy);
    var m := Month(mp);
    Date(y + if m <= 2 then 1 else 0, m, doy - MonthStart(mp) + 1)
  }

  /** The date of day doe of an era. */
  function DateInEra(era: int, doe: int): Date {
    var yoe := YearOfEra(doe);
    DateOf(yoe + era * 400, doe - YearStart(yoe))
  }

  function Civil(days: int): Date {
    var z := days + 719_468;
    DateInEra(Era(z), z - Era(z) * 146_097)
  }

  lemma EraIsFloor(z: int)
    ensures Era(z) == z / 146_097 && 0 <= z - Era(z) * 146_097 < 146_097
  {}

  // A day of the era is day t of cycle q of century c; every cycle of four years ends with a leap
  // year except the last one of a century.
  lemma YearOfCycle(c: int, q: int, t: int)
    requires 0 <= c < 4 && 0 <= q < 25 && 0 <= t <= 1460 && (q == 24 && c < 3 ==> t < 1460)
    ensures var k := if t == 1460 then 3 else t / 365;
      YearOfEra(36_524 * c + 1461 * q + t) == 100 * c + 4 * q + k
      && YearStart(100 * c + 4 * q + k) == 36_524 * c + 1461 * q + 365 * k
  {
    var doe := 36_524 * c + 1461 * q + t;
    var late := Corrections(c, q, t);
    var k := if t == 1460 then 3 else t / 365;
    assert 365 * k <= t - late < 365 * k + 365;
    Quotient(365 * (100 * c + 4 * q) + t - late, 365, 100 * c + 4 * q + k);
    YearStartOfCycle(c, q, k);
  }

  // The three corrections amount to one day per leap day passed.
  lemma Corrections(c: int, q: int, t: int) returns (late: int)
    requires 0 <= c < 4 && 0 <= q < 25 && 0 <= t <= 1460 && (q == 24 && c < 3 ==> t < 1460)
    ensures late == if 24 * c + q + t >= 1460 then 1 else 0
    ensures var doe := 36_524 * c + 1461 * q + t;
      doe - doe / 1460 + doe / 36_524 - doe / 146_096 == 365 * (100 * c + 4 * q) + t - late
  {
    var doe := 36_524 * c + 1461 * q + t;
    var last := if c == 3 && q == 24 && t == 1460 then 1 else 0;
    late := if 24 * c + q + t >= 1460 then 1 else 0;
    Quotient(doe, 1460, 25 * c + q + late);
    Quotient(doe, 36_524, c + last);
    Quotient(doe, 146_096, last);
  }

  lemma YearStartOfCycle(c: int, q: int, k: int)
    requires 0 <= c < 4 && 0 <= q < 25 && 0 <= k < 4
    ensures YearStart(100 * c + 4 * q + k) == 36_524 * c + 1461 * q + 365 * k
  {
    Quotient(100 * c + 4 * q + k, 4, 25 * c + q);
    Quotient(100 * c + 4 * q + k, 100, c);
  }

  // The year of the era is the one whose days contain doe.
  lemma YearContains(doe: int)
    requires 0 <= doe < 146_097
    ensures var yoe := YearOfEra(doe);
      0 <= yoe < 400 && YearStart(yoe) <= doe < YearStart(yoe) + YearLength(yoe + 1)
  {
    var c := if doe == 146_096 then 3 else doe / 36_524;
    var r := doe - 36_524 * c;
    var q := if r == 36_524 then 24 else r / 1461;
    YearOfCycle(c, q, r - 1461 * q);
  }

  function YearLength(y: int): int {
    if Leap(y) then 366 else 365
  }

  // Consecutive March-based years differ by the length of the calendar year they end in.
  lemma YearStartNext(y: int)
    requires 0 <= y < 399
    ensures YearStart(y + 1) == YearStart(y) + YearLength(y + 1)
  {
    assert (y + 1) / 4 - y / 4 == if (y + 1) % 4 == 0 then 1 else 0;
    assert (y + 1) / 100 - y / 100 == if (y + 1) % 100 == 0 then 1 else 0;
  }

  lemma {:induction false} YearStartGrows(a: int, b: int)
    requires 0 <= a < b < 400
    ensures YearStart(a) + YearLength(a + 1) <= YearStart(b)
    decreases b
  {
    YearStartNext(b - 1);
    if a < b - 1 {
      YearStartGrows(a, b - 1);
    }
  }

  lemma YearIsUnique(doe: int, y: int)
    requires 0 <= doe < 146_097 && 0 <= y < 400 && YearStart(y) <= doe < YearStart(y) + YearLength(y + 1)
    ensures YearOfEra(doe) == y
  {
    YearContains(doe);
    if YearOfEra(doe) < y {
      YearStartGrows(YearOfEra(doe), y);
    } else if y < YearOfEra(doe) {
      YearStartGrows(y, YearOfEra(doe));
    }
  }

  lemma MonthContains(doy: int)
    requires 0 <= doy < 366
    ensures var mp := MonthIndex(doy);
      0 <= mp < 12 && MonthStart(mp) <= doy && (mp < 11 ==> doy < MonthStart(mp + 1))
  {}

  lemma MonthIsUnique(doy: int, mp: int)
    requires 0 <= doy < 366 && 0 <= mp < 12 && MonthStart(mp) <= doy && (mp < 11 ==> doy < MonthStart(mp + 1))
    ensures MonthIndex(doy) == mp
  {}

  // The 153-day pattern of five months gives every month but February its length.
  lemma MonthLength(y: int, mp: int)
    requires 0 <= mp < 11
    ensures MonthStart(mp + 1) - MonthStart(mp) == DaysInMonth(y, Month(mp))
  {}

  // Within a March-based year, a day's successor is the calendar's.
  lemma DateOfNext(y: int, doy: int)
    requires 0 <= doy && doy + 1 < YearLength(y + 1)
    ensures Valid(DateOf(y, doy)) && DateOf(y, doy + 1) == Tomorrow(DateOf(y, doy))
  {
    MonthContains(doy);
    var mp := MonthIndex(doy);
    var d := DateOf(y, doy);
    if mp == 11 {
      assert MonthStart(11) == 337;
      MonthIsUnique(doy + 1, 11);
    } else {
      MonthLength(d.year, mp);
      MonthIsUnique(doy + 1, if doy + 1 < MonthStart(mp + 1) then mp else mp + 1);
    }
  }

  // The last day of a March-based year is the last of February; the next year starts on March 1.
  lemma DateOfLast(y: int)
    ensures var d := DateOf(y, YearLength(y + 1) - 1);
      Valid(d) && Tomorrow(d) == DateOf(y + 1, 0)
  {}

  lemma LengthRepeats(y: int, era: int)
    ensures YearLength(y + era * 400 + 1) == YearLength(y + 1)
  {
    Remainder(y + 1, 4, 100 * era);
    Remainder(y + 1, 100, 4 * era);
    Remainder(y + 1, 400, era);
  }

  // A day given by era, year of the era and day of the year has the date of that position.
  ghost predicate IsPosition(days: int, era: int, yoe: int, doy: int) {
    && 0 <= yoe < 400 && 0 <= doy < YearLength(yoe + era * 400 + 1)
    && days + 719_468 == era * 146_097 + YearStart(yoe) + doy
  }

  lemma CivilAt(days: int, era: int, yoe: int, doy: int)
    requires IsPosition(days, era, yoe, doy)
    ensures Civil(days) == DateOf(yoe + era * 400, doy)
  {
    LengthRepeats(yoe, era);
    EraOf(days + 719_468, era, yoe, doy);
    DateInEraAt(era, yoe, doy);
    CivilByEra(days, era, YearStart(yoe) + doy, DateOf(yoe + era * 400, doy));
  }

  lemma CivilByEra(days: int, era: int, doe: int, date: Date)
    requires Era(days + 719_468) == era && days + 719_468 - era * 146_097 == doe && DateInEra(era, doe) == date
    ensures Civil(days) == date
  {}

  lemma EraOf(z: int, era: int, yoe: int, doy: int)
    requires 0 <= yoe < 400 && 0 <= doy < YearLength(yoe + 1) && z == era * 146_097 + YearStart(yoe) + doy
    ensures Era(z) == era && z - Era(z) * 146_097 == YearStart(yoe) + doy
  {
    YearFitsEra(yoe);
    Quotient(z, 146_097, era);
    EraIsFloor(z);
  }

  lemma DateInEraAt(era: int, yoe: int, doy: int)
    requires 0 <= yoe < 400 && 0 <= doy < YearLength(yoe + 1)
    ensures DateInEra(era, YearStart(yoe) + doy) == DateOf(yoe + era * 400, doy)
  {
    YearFitsEra(yoe);
    YearIsUnique(YearStart(yoe) + doy, yoe);
  }

  lemma Epoch()
    ensures Civil(0) == Date(1970, 1, 1)
  {
    CivilAt(0, 4, 369, 306);
  }

  lemma Position(days: int) returns (era: int, yoe: int, doy: int)
    ensures IsPosition(days, era, yoe, doy)
  {
    era := (days + 719_468) / 146_097;
    var doe := days + 719_468 - era * 146_097;
    YearContains(doe);
    yoe := YearOfEra(doe);
    LengthRepeats(yoe, era);
    doy := doe - YearStart(yoe);
  }

  // Day doy' of year y' comes right after day doy of year y.
  ghost predicate Follows(y: int, doy: int, y': int, doy': int) {
    if doy + 1 < YearLength(y + 1) then y' == y && doy' == doy + 1 else y' == y + 1 && doy' == 0
  }

  lemma DateFollows(y: int, doy: int, y': int, doy': int)
    requires 0 <= doy < YearLength(y + 1) && Follows(y, doy, y', doy')
    ensures Valid(DateOf(y, doy)) && DateOf(y', doy') == Tomorrow(DateOf(y, doy))
  {
    if doy + 1 < YearLength(y + 1) {
      DateOfNext(y, doy);
    } else {
      DateOfLast(y);
    }
  }

  lemma NextPosition(days: int, era: int, yoe: int, doy: int)
    returns (era': int, yoe': int, doy': int)
    requires IsPosition(days, era, yoe, doy)
    ensures IsPosition(days + 1, era', yoe', doy') && Follows(yoe + era * 400, doy, yoe' + era' * 400, doy')
  {
    if doy + 1 < YearLength(yoe + era * 400 + 1) {
      era', yoe', doy' := era, yoe, doy + 1;
    } else {
      era', yoe', doy' := NewYear(days, era, yoe, doy);
    }
  }

  lemma NewYear(days: int, era: int, yoe: int, doy: int) returns (era': int, yoe': int, doy': int)
    requires IsPosition(days, era, yoe, doy) && doy + 1 == YearLength(yoe + era * 400 + 1)
    ensures IsPosition(days + 1, era', yoe', doy') && doy' == 0 && yoe' + era' * 400 == yoe + era * 400 + 1
  {
    LengthRepeats(yoe, era);
    if yoe < 399 {
      YearStartNext(yoe);
      era', yoe', doy' := era, yoe + 1, 0;
    } else {
      era', yoe', doy' := era + 1, 0, 0;
    }
  }

  // date gives the date of every position.
  ghost predicate DatesPositions(date: int -> Date, dateOf: (int, int) -> Date) {
    forall n, era, yoe, doy :: IsPosition(n, era, yoe, doy) ==> date(n) == dateOf(yoe + era * 400, doy)
  }

  lemma TwoDays(date: int -> Date, dateOf: (int, int) -> Date, days: int)
    returns (y: int, doy: int, y': int, doy': int)
    requires DatesPositions(date, dateOf)
    ensures 0 <= doy < YearLength(y + 1) && Follows(y, doy, y', doy')
    ensures date(days) == dateOf(y, doy) && date(days + 1) == dateOf(y', doy')
  {
    var era, yoe, d := Position(days);
    var era', yoe', d' := NextPosition(days, era, yoe, d);
    y, doy, y', doy' := yoe + era * 400, d, yoe' + era' * 400, d';
  }

  lemma NextFrom(date: int -> Date, days: int)
    requires DatesPositions(date, DateOf)
    ensures Valid(date(days)) && date(days + 1) == Tomorrow(date(days))
  {
    var y, doy, y', doy' := TwoDays(date, DateOf, days);
    DateFollows(y, doy, y', doy');
  }

  // Every day number gives a valid date, and the next day number gives the next day.
  lemma CivilNext(days: int)
    ensures Valid(Civil(days)) && Civil(days + 1) == Tomorrow(Civil(days))
  {
    forall n, era, yoe, doy | IsPosition(n, era, yoe, doy)
      ensures Civil(n) == DateOf(yoe + era * 400, doy)
    {
      CivilAt(n, era, yoe, doy);
    }
    NextFrom(Civil, days);
  }

  lemma YearFitsEra(yoe: int)
    requires 0 <= yoe < 400
    ensures YearStart(yoe) + YearLength(yoe + 1) <= 146_097
  {
    if yoe < 399 {
      YearStartGrows(yoe, 399);
    }
  }

  lemma TomorrowIsLater(d: Date)
    requires Valid(d)
    ensures Before(d, Tomorrow(d))
  {}

  // Dates come in the order of their day numbers; in particular no two days share a date.
  lemma CivilIsMonotone(a: int, b: int)
    requires a < b
    ensures Before(Civil(a), Civil(b))
  {
    forall n
      ensures Valid(Civil(n)) && Civil(n + 1) == Tomorrow(Civil(n))
    {
      CivilNext(n);
    }
    InOrder(Civil, a, b);
  }

  lemma {:induction false} InOrder(date: int -> Date, a: int, b: int)
    requires a < b && forall n :: Valid(date(n)) && date(n + 1) == Tomorrow(date(n))
    ensures Before(date(a), date(b))
    decreases b - a
  {
    assert date(b - 1 + 1) == Tomorrow(date(b - 1));
    TomorrowIsLater(date(b - 1));
    if a < b - 1 {
      InOrder(date, a, b - 1);
    }
  }

  lemma CivilIsInjective(a: int, b: int)
    requires Civil(a) == Civil(b)
    ensures a == b
  {
    if a < b {
      CivilIsMonotone(a, b);
    } else if b < a {
      CivilIsMonotone(b, a);
    }
  }

  // --- the two machine versions ---

  /** A cast to i32 keeps the low 32 bits. */
  function CastI32(n: int): int {
    (n + 0x8000_0000) % 0x1_0000_0000 - 0x8000_0000
  }

  /** What unsigned 32-bit arithmetic leaves of a result. */
  function Wrap32(n: int): int {
    if 0 <= n < 0x1_0000_0000 then n else n % 0x1_0000_0000
  }

  // Shifting the epoch does not overflow.
  predicate InRange(days: i64) {
    days + 719_468 < 0x8000_0000_0000_0000
  }

  /** The version of the template engine: the year is cast to 32 bits. */
  function CivilFromDays(days: i64): Date
    requires InRange(days)
  {
    var d := Civil(days);
    d.(year := CastI32(d.year))
  }

  function YearOfEra32(doe: int): int {
    Wrap32(Wrap32(Wrap32(doe - doe / 1460) + doe / 36524) - doe / 146_096) / 365
  }

  function YearStart32(yoe: int): int {
    Wrap32(Wrap32(Wrap32(365 * yoe) + yoe / 4) - yoe / 100)
  }

  function DateOf32(y: int, doy: int): Date {
    var mp := Wrap32(Wrap32(5 * doy) + 2) / 153;
    var d := Wrap32(Wrap32(doy - Wrap32(Wrap32(153 * mp) + 2) / 5) + 1);
    var m := if mp < 10 then Wrap32(mp + 3) else Wrap32(mp - 9);
    Date(if m <= 2 then y + 1 else y, m, d)
  }

  function DateInEra32(era: int, doe: int): Date {
    var yoe := YearOfEra32(doe);
    DateOf32(yoe + era * 400, Wrap32(doe - YearStart32(yoe)))
  }

  /** The version of the export: 32-bit intermediates, a 64-bit year. */
  function CivilFromDays32(days: i64): Date
    requires InRange(days)
  {
    var z := days + 719_468;
    DateInEra32(Era(z), Wrap32(z - Era(z) * 146_097))
  }

  lemma YearArithmeticFits(doe: int)
    requires 0 <= doe < 146_097
    ensures YearOfEra32(doe) == YearOfEra(doe)
  {}

  lemma {:induction false} DateArithmeticFits(y: int, doy: int)
    requires 0 <= doy < 366
    ensures DateOf32(y, doy) == DateOf(y, doy)
  {
    MonthContains(doy);
  }

  lemma {:induction false} EraArithmeticFits(era: int, doe: int)
    requires 0 <= doe < 146_097
    ensures DateInEra32(era, doe) == DateInEra(era, doe)
  {
    YearContains(doe);
    YearArithmeticFits(doe);
    var yoe := YearOfEra(doe);
    assert YearStart32(yoe) == YearStart(yoe);
    DateArithmeticFits(yoe + era * 400, doe - YearStart(yoe));
  }

  // Nothing wraps in the 32-bit copy.
  lemma {:induction false} ExportIsCivil(days: i64)
    requires InRange(days)
    ensures CivilFromDays32(days) == Civil(days)
  {
    var z := days + 719_468;
    EraIsFloor(z);
    EraArithmeticFits(Era(z), z - Era(z) * 146_097);
  }

  // The copies agree on month and day always, and on the year exactly when it fits 32 bits.
  lemma CopiesAgree(days: i64)
    requires InRange(days)
    ensures var a, b := CivilFromDays(days), CivilFromDays32(days);
      && a.month == b.month && a.day == b.day
      && (a.year == b.year <==> -0x8000_0000 <= b.year < 0x8000_0000)
  {
    ExportIsCivil(days);
    CastIsExact(Civil(days).year);
  }

  lemma CastIsExact(n: int)
    ensures CastI32(n) == n <==> -0x8000_0000 <= n < 0x8000_0000
  {}
}
