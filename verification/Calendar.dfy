/** `civil_from_days` of `src/timestamp.rs` against the Gregorian calendar counted directly. */
module Calendar {
  import Decimal

  datatype Date = Date(year: int, month: int, day: int)

  predicate Leap(y: int) { y % 4 == 0 && (y % 100 != 0 || y % 400 == 0) }

  function MonthLength(y: int, m: int): int {
    if m == 2 then (if Leap(y) then 29 else 28)
    else if m == 4 || m == 6 || m == 9 || m == 11 then 30
    else 31
  }

  predicate ValidDate(d: Date) {
    1 <= d.month <= 12 && 1 <= d.day <= MonthLength(d.year, d.month)
  }

  /** The calendar day after. */
  function Tomorrow(d: Date): Date {
    if d.day < MonthLength(d.year, d.month) then Date(d.year, d.month, d.day + 1)
    else if d.month < 12 then Date(d.year, d.month + 1, 1)
    else Date(d.year + 1, 1, 1)
  }

  /** Rust's `/`: the quotient is rounded towards zero. */
  function DivTrunc(a: int, b: int): int
    requires b > 0
  {
    if a >= 0 then a / b else -((-a) / b)
  }

  function YearOfEra(doe: int): int { (doe - doe / 1460 + doe / 36524 - doe / 146096) / 365 }

  /** Days before March-based year `y` of an era. */
  function YearStart(y: int): int { 365 * y + y / 4 - y / 100 }

  /** Days before month `mp` of a year that starts in March. */
  function MarchMonths(mp: int): int { (153 * mp + 2) / 5 }

  /** Month and day from the day of a March-based year. */
  function DateOf(y: int, doy: int): Date {
    var mp := (5 * doy + 2) / 153;
    var m := if mp < 10 then mp + 3 else mp - 9;
    Date(if m <= 2 then y + 1 else y, m, doy - MarchMonths(mp) + 1)
  }

  /** A day within its 400-year era. */
  function DateInEra(era: int, doe: int): Date {
    var yoe := YearOfEra(doe);
    DateOf(yoe + era * 400, doe - YearStart(yoe))
  }

  /** The source, division for division, on unbounded integers. */
  function CivilFromDays(days: int): Date {
    var z := days + 719468;
    var era := DivTrunc(if z >= 0 then z else z - 146096, 146097);
    DateInEra(era, z - era * 146097)
  }

  // ----- days counted month by month -----

  /** Days of a year that lie before its month `m`. */
  function DaysBeforeMonth(y: int, m: int): int
    requires 1 <= m <= 13
    decreases m
  {
    if m == 1 then 0 else DaysBeforeMonth(y, m - 1) + MonthLength(y, m - 1)
  }

  /** Days before 1 January of year `y`, counted from 1 January of year 1: the leap rule summed. */
  function DaysBeforeYear(y: int): int {
    365 * (y - 1) + (y - 1) / 4 - (y - 1) / 100 + (y - 1) / 400
  }

  /** The position of a date in the calendar, 1970-01-01 being 0. */
  function DayNumber(d: Date): int
    requires ValidDate(d)
  {
    DaysBeforeYear(d.year) + DaysBeforeMonth(d.year, d.month) + d.day - 1 - DaysBeforeYear(1970)
  }

  /** Twelve months make a year: the summed leap rule and the month lengths agree. */
  lemma YearLength(y: int)
    ensures DaysBeforeMonth(y, 13) == if Leap(y) then 366 else 365
    ensures DaysBeforeYear(y + 1) == DaysBeforeYear(y) + DaysBeforeMonth(y, 13)
  {
    MonthTable(y);
    LeapStep(y);
  }

  function LeapDay(y: int): int { if Leap(y) then 1 else 0 }

  lemma DivStep(y: int, m: int)
    requires m > 0
    ensures y / m == (y - 1) / m + if y % m == 0 then 1 else 0
  {
    var q, r := (y - 1) / m, (y - 1) % m;
    assert y == q * m + (r + 1);
    if r + 1 < m {
      Decimal.DivModUnique(y, m, q, r + 1);
    } else {
      assert y == (q + 1) * m + 0;
      Decimal.DivModUnique(y, m, q + 1, 0);
    }
  }

  lemma LeapStep(y: int)
    ensures DaysBeforeYear(y + 1) == DaysBeforeYear(y) + 365 + LeapDay(y)
  {
    DivStep(y, 4);
    DivStep(y, 100);
    DivStep(y, 400);
    Multiples(y);
  }

  lemma Multiples(y: int)
    ensures y % 400 == 0 ==> y % 100 == 0
    ensures y % 100 == 0 ==> y % 4 == 0
  {
    if y % 400 == 0 {
      Decimal.DivModUnique(y, 100, 4 * (y / 400), 0);
    }
    if y % 100 == 0 {
      Decimal.DivModUnique(y, 4, 25 * (y / 100), 0);
    }
  }

  lemma MonthTable(y: int)
    ensures DaysBeforeMonth(y, 1) == 0 && DaysBeforeMonth(y, 2) == 31
    ensures var l := LeapDay(y);
      && DaysBeforeMonth(y, 3) == 59 + l && DaysBeforeMonth(y, 4) == 90 + l && DaysBeforeMonth(y, 5) == 120 + l
      && DaysBeforeMonth(y, 6) == 151 + l && DaysBeforeMonth(y, 7) == 181 + l && DaysBeforeMonth(y, 8) == 212 + l
      && DaysBeforeMonth(y, 9) == 243 + l && DaysBeforeMonth(y, 10) == 273 + l && DaysBeforeMonth(y, 11) == 304 + l
      && DaysBeforeMonth(y, 12) == 334 + l && DaysBeforeMonth(y, 13) == 365 + l
  {
    assert DaysBeforeMonth(y, 3) == DaysBeforeMonth(y, 2) + MonthLength(y, 2);
    assert DaysBeforeMonth(y, 5) == DaysBeforeMonth(y, 4) + MonthLength(y, 4);
    assert DaysBeforeMonth(y, 7) == DaysBeforeMonth(y, 6) + MonthLength(y, 6);
    assert DaysBeforeMonth(y, 9) == DaysBeforeMonth(y, 8) + MonthLength(y, 8);
    assert DaysBeforeMonth(y, 11) == DaysBeforeMonth(y, 10) + MonthLength(y, 10);
  }

  lemma TomorrowCounts(d: Date)
    requires ValidDate(d)
    ensures ValidDate(Tomorrow(d)) && DayNumber(Tomorrow(d)) == DayNumber(d) + 1
  {
    if d.day == MonthLength(d.year, d.month) && d.month == 12 {
      YearLength(d.year);
    }
  }

  // ----- the formula counts correctly -----

  /** Within a century of an era the correction terms come down to one leap day in four years. */
  lemma Century(b: int, t: int, q: int, u: int)
    requires 0 <= b <= 3 && 0 <= t < 36524
    requires 0 <= t + 24 * b - 1460 * q < 1460
    requires 0 <= t - q - 365 * u < 365
    ensures 0 <= u <= 99 && 365 * u + u / 4 <= t < 365 * (u + 1) + (u + 1) / 4
  {
  }

  lemma Quotients(doe: int, b: int, t: int, q: int, u: int)
    requires 0 <= doe < 146096 && b == doe / 36524 && t == doe - 36524 * b && q == doe / 1460 - 25 * b
    requires u == YearOfEra(doe) - 100 * b
    ensures 0 <= b <= 3 && 0 <= t < 36524 && 0 <= t + 24 * b - 1460 * q < 1460 && 0 <= t - q - 365 * u < 365
  {
  }

  lemma CenturyYear(b: int, u: int)
    requires 0 <= b <= 3 && 0 <= u <= 99
    ensures YearStart(100 * b + u) == 36524 * b + 365 * u + u / 4
    ensures YearStart(100 * b + u + 1) + (if u == 99 then 1 else 0) == 36524 * b + 365 * (u + 1) + (u + 1) / 4
  {
    var y := 100 * b + u;
    Decimal.DivModUnique(y, 4, 25 * b + u / 4, u % 4);
    Decimal.DivModUnique(y, 100, b, u);
    Decimal.DivModUnique(y + 1, 4, 25 * b + (u + 1) / 4, (u + 1) % 4);
    Decimal.DivModUnique(y + 1, 100, if u == 99 then b + 1 else b, if u == 99 then 0 else u + 1);
  }

  /** `YearOfEra` finds the March-based year a day of the era lies in. */
  lemma YearBounds(doe: int)
    requires 0 <= doe < 146097
    ensures var y := YearOfEra(doe);
      0 <= y <= 399 && YearStart(y) <= doe < YearStart(y + 1) + if y == 399 then 1 else 0
  {
    if doe < 146096 {
      var b := doe / 36524;
      var t := doe - 36524 * b;
      var q := doe / 1460 - 25 * b;
      var u := YearOfEra(doe) - 100 * b;
      Quotients(doe, b, t, q, u);
      Century(b, t, q, u);
      CenturyYear(b, u);
    } else {
      assert YearOfEra(146096) == 399;
    }
  }

  /** The last day of a March-based year is the leap day of the civil year it ends in. */
  lemma YearStartStep(y: int)
    requires 0 <= y <= 399
    ensures YearStart(y + 1) + (if y == 399 then 1 else 0) == YearStart(y) + 365 + LeapDay(y + 1)
  {
    DivStep(y + 1, 4);
    DivStep(y + 1, 100);
    Multiples(y + 1);
  }

  lemma LeapPeriodic(y: int, era: int)
    ensures Leap(y + 400 * era) == Leap(y)
  {
    Decimal.DivModUnique(y + 400 * era, 4, y / 4 + 100 * era, y % 4);
    Decimal.DivModUnique(y + 400 * era, 100, y / 100 + 4 * era, y % 100);
    Decimal.DivModUnique(y + 400 * era, 400, y / 400 + era, y % 400);
  }

  lemma YearsOfEra(yoe: int, era: int)
    requires 0 <= yoe <= 399
    ensures DaysBeforeYear(yoe + 400 * era + 1) == 146097 * era + YearStart(yoe)
  {
    var y := yoe + 400 * era;
    assert y / 4 == yoe / 4 + 100 * era;
    assert y / 100 == yoe / 100 + 4 * era;
    assert y / 400 == era;
  }

  lemma MonthOfDay(doy: int)
    requires 0 <= doy <= 365
    ensures var mp := (5 * doy + 2) / 153;
      && 0 <= mp <= 11 && MarchMonths(mp) <= doy && (mp < 11 ==> doy < MarchMonths(mp + 1))
  {
  }

  lemma MarchTable()
    ensures MarchMonths(0) == 0 && MarchMonths(1) == 31 && MarchMonths(2) == 61 && MarchMonths(3) == 92
      && MarchMonths(4) == 122 && MarchMonths(5) == 153 && MarchMonths(6) == 184 && MarchMonths(7) == 214
      && MarchMonths(8) == 245 && MarchMonths(9) == 275 && MarchMonths(10) == 306 && MarchMonths(11) == 337
  {
  }

  lemma DateOfValid(y: int, doy: int)
    requires 0 <= doy <= 364 + LeapDay(y + 1)
    ensures ValidDate(DateOf(y, doy))
  {
    MonthOfDay(doy);
    MarchTable();
  }

  lemma DateOfCounts(y: int, doy: int)
    requires 0 <= doy <= 364 + LeapDay(y + 1)
    ensures ValidDate(DateOf(y, doy)) && DayNumber(DateOf(y, doy)) == DaysBeforeYear(y + 1) + doy - 719468
  {
    DateOfValid(y, doy);
    MonthOfDay(doy);
    MarchTable();
    var d := DateOf(y, doy);
    MonthTable(d.year);
    LeapStep(y);
    assert DaysBeforeYear(1970) == 719162;
  }

  lemma DayOfYear(era: int, doe: int)
    requires 0 <= doe < 146097
    ensures var yoe := YearOfEra(doe);
      0 <= yoe <= 399 && 0 <= doe - YearStart(yoe) <= 364 + LeapDay(yoe + era * 400 + 1)
  {
    var yoe := YearOfEra(doe);
    YearBounds(doe);
    YearStartStep(yoe);
    LeapPeriodic(yoe + 1, era);
    assert yoe + era * 400 + 1 == yoe + 1 + 400 * era;
  }

  lemma DateInEraCounts(era: int, doe: int)
    requires 0 <= doe < 146097
    ensures ValidDate(DateInEra(era, doe)) && DayNumber(DateInEra(era, doe)) == 146097 * era + doe - 719468
  {
    var yoe := YearOfEra(doe);
    DayOfYear(era, doe);
    YearsOfEra(yoe, era);
    DateOfCounts(yoe + era * 400, doe - YearStart(yoe));
  }

  lemma CivilIs(days: int, era: int, doe: int)
    requires days + 719468 == era * 146097 + doe && 0 <= doe < 146097
    ensures CivilFromDays(days) == DateInEra(era, doe)
  {
    var z := days + 719468;
    EraRoundsDown(z, era, doe);
    assert z - era * 146097 == doe;
  }

  /** `civil_from_days` gives a real calendar date, the one whose position in the calendar is the
      day it was asked for. */
  lemma CivilCounts(days: int)
    ensures ValidDate(CivilFromDays(days)) && DayNumber(CivilFromDays(days)) == days
  {
    var era, doe := (days + 719468) / 146097, (days + 719468) % 146097;
    CivilIs(days, era, doe);
    DateInEraCounts(era, doe);
  }

  /** The truncating division of the source rounds down, negative days included. */
  lemma EraRoundsDown(z: int, era: int, doe: int)
    requires z == era * 146097 + doe && 0 <= doe < 146097
    ensures DivTrunc(if z >= 0 then z else z - 146096, 146097) == era
  {
    if z >= 0 {
      Decimal.DivModUnique(z, 146097, era, doe);
    } else {
      Decimal.DivModUnique(-(z - 146096), 146097, -era, 146096 - doe);
    }
  }

  // ----- and therefore it is the calendar -----

  lemma {:induction false} MonthsGrow(y: int, m: int, n: int)
    requires 1 <= m < n <= 13
    ensures DaysBeforeMonth(y, m) + MonthLength(y, m) <= DaysBeforeMonth(y, n)
    decreases n
  {
    if m + 1 < n {
      MonthsGrow(y, m, n - 1);
    }
  }

  lemma {:induction false} YearsGrow(y: int, z: int)
    requires y < z
    ensures DaysBeforeYear(y) + DaysBeforeMonth(y, 13) <= DaysBeforeYear(z)
    decreases z - y
  {
    YearLength(y);
    if y + 1 < z {
      YearsGrow(y + 1, z);
      YearLength(y + 1);
    }
  }

  predicate Earlier(a: Date, b: Date) {
    || a.year < b.year
    || (a.year == b.year && a.month < b.month)
    || (a.year == b.year && a.month == b.month && a.day < b.day)
  }

  /** Positions follow the order of dates, so a position belongs to one date only. */
  lemma DayNumberGrows(a: Date, b: Date)
    requires ValidDate(a) && ValidDate(b) && Earlier(a, b)
    ensures DayNumber(a) < DayNumber(b)
  {
    if a.year < b.year {
      YearsGrow(a.year, b.year);
      MonthsGrow(a.year, a.month, 13);
      MonthNonNegative(b.year, b.month);
    } else if a.month < b.month {
      MonthsGrow(a.year, a.month, b.month);
    }
  }

  lemma {:induction false} MonthNonNegative(y: int, m: int)
    requires 1 <= m <= 13
    ensures DaysBeforeMonth(y, m) >= 0
    decreases m
  {
    if m > 1 {
      MonthNonNegative(y, m - 1);
    }
  }

  /** Every calendar date is reached, from exactly one day number. */
  lemma CivilOfDayNumber(d: Date)
    requires ValidDate(d)
    ensures CivilFromDays(DayNumber(d)) == d
  {
    var c := CivilFromDays(DayNumber(d));
    CivilCounts(DayNumber(d));
    if Earlier(c, d) {
      DayNumberGrows(c, d);
    } else if Earlier(d, c) {
      DayNumberGrows(d, c);
    }
  }

  /** The day after day `n` is the calendar's next day. */
  lemma CivilSuccessor(n: int)
    ensures CivilFromDays(n + 1) == Tomorrow(CivilFromDays(n))
  {
    CivilCounts(n);
    var d := CivilFromDays(n);
    TomorrowCounts(d);
    assert DayNumber(Tomorrow(d)) == n + 1;
    CivilOfDayNumber(Tomorrow(d));
  }

  lemma CivilEpoch()
    ensures CivilFromDays(0) == Date(1970, 1, 1)
  {
    CivilOfDayNumber(Date(1970, 1, 1));
  }

  /** Later days are later dates. */
  lemma CivilOrdered(m: int, n: int)
    requires m < n
    ensures Earlier(CivilFromDays(m), CivilFromDays(n))
  {
    CivilCounts(m);
    CivilCounts(n);
    if Earlier(CivilFromDays(n), CivilFromDays(m)) {
      DayNumberGrows(CivilFromDays(n), CivilFromDays(m));
    }
  }
}
