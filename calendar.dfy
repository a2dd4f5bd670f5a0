/**
 * Proleptic Gregorian calendar in integers, as Python's datetime module
 * computes it: leap years, month lengths, day ordinals (0001-01-01 is day 1),
 * the civil date of a day ordinal and of a UTC instant, the weekday, the
 * ISO 8601 week number, and the YYYY-MM-DD text of a date.
 */
module Calendar {
  import opened Wrappers
  import opened Text

  datatype Date = Date(year: int, month: int, day: int)

  const MIN_YEAR := 1
  const MAX_YEAR := 9999
  const SECONDS_PER_DAY := 86400
  /** Year of the Unix epoch, 1970-01-01T00:00Z. */
  const EPOCH_YEAR := 1970
  /** Day ordinal of 1970-01-01. */
  const EPOCH_ORDINAL := 719163
  /** Day ordinal of 9999-12-31, the last date datetime can represent. */
  const MAX_ORDINAL := 3652059

  predicate IsLeapYear(y: int)
  {
    y % 4 == 0 && (y % 100 != 0 || y % 400 == 0)
  }

  function DaysInMonth(y: int, m: int): int
    requires 1 <= m <= 12
  {
    if m == 2 then (if IsLeapYear(y) then 29 else 28)
    else if m == 4 || m == 6 || m == 9 || m == 11 then 30
    else 31
  }

  function YearLength(y: int): int
  {
    if IsLeapYear(y) then 366 else 365
  }

  /** The month and day exist in the date's year (the year itself is unrestricted). */
  predicate ValidMonthDay(d: Date)
  {
    1 <= d.month <= 12 && 1 <= d.day <= DaysInMonth(d.year, d.month)
  }

  /** A date that datetime.date accepts. */
  predicate ValidDate(d: Date)
  {
    MIN_YEAR <= d.year <= MAX_YEAR && ValidMonthDay(d)
  }

  /** Lexicographic order on (year, month, day): d1 is strictly earlier than d2. */
  predicate Before(d1: Date, d2: Date)
  {
    d1.year < d2.year
    || (d1.year == d2.year && d1.month < d2.month)
    || (d1.year == d2.year && d1.month == d2.month && d1.day < d2.day)
  }

  /** Days from 0001-01-01 to January 1 of year y (negative before year 1). */
  function DaysBeforeYear(y: int): int
    decreases if y >= 1 then y else 2 - y
  {
    if y == 1 then 0
    else if y > 1 then DaysBeforeYear(y - 1) + YearLength(y - 1)
    else DaysBeforeYear(y + 1) - YearLength(y)
  }

  /** The closed form datetime uses for the days in the first p years: 365 a year plus one per leap year. */
  function ClosedForm(p: int): int
  {
    365 * p + p / 4 - p / 100 + p / 400
  }

  lemma ClosedFormStep(y: int)
    ensures ClosedForm(y) == ClosedForm(y - 1) + YearLength(y)
  {
    QuarterStep(y);
    CenturyStep(y);
    QuadCenturyStep(y);
    DivisorChain(y);
  }

  /** Every multiple of 400 is a multiple of 100, and every multiple of 100 one of 4. */
  lemma DivisorChain(y: int)
    ensures y % 400 == 0 ==> y % 100 == 0
    ensures y % 100 == 0 ==> y % 4 == 0
  {
    if y % 400 == 0 {
      var k := y / 400;
      assert y == 400 * k;
      assert y / 100 == 4 * k;
    }
    if y % 100 == 0 {
      var k := y / 100;
      assert y == 100 * k;
      assert y / 4 == 25 * k;
    }
  }

  // Stepping y by one moves y / k up by one exactly when k divides y.

  lemma QuarterStep(y: int)
    ensures y / 4 == (y - 1) / 4 + (if y % 4 == 0 then 1 else 0)
  {
  }

  lemma CenturyStep(y: int)
    ensures y / 100 == (y - 1) / 100 + (if y % 100 == 0 then 1 else 0)
  {
  }

  lemma QuadCenturyStep(y: int)
    ensures y / 400 == (y - 1) / 400 + (if y % 400 == 0 then 1 else 0)
  {
  }

  /** DaysBeforeYear agrees with the closed form from year 1 on. */
  lemma {:induction false} DaysBeforeYearFormula(y: int)
    requires y >= 1
    ensures DaysBeforeYear(y) == ClosedForm(y - 1)
    decreases y
  {
    if y > 1 {
      DaysBeforeYearFormula(y - 1);
      ClosedFormStep(y - 1);
    }
  }

  /** Year 10000 would start on the day after the last representable date. */
  lemma LastOrdinal()
    ensures DaysBeforeYear(MAX_YEAR + 1) == MAX_ORDINAL
  {
    DaysBeforeYearFormula(MAX_YEAR + 1);
  }

  /** 1970-01-01, the Unix epoch, has ordinal EPOCH_ORDINAL. */
  lemma EpochOrdinal()
    ensures DaysBeforeYear(EPOCH_YEAR) + 1 == EPOCH_ORDINAL
  {
    DaysBeforeYearFormula(EPOCH_YEAR);
  }

  /** Days from January 1 to the first of month m in year y. */
  function DaysBeforeMonth(y: int, m: int): int
    requires 1 <= m <= 12
  {
    [0, 31, 59, 90, 120, 151, 181, 212, 243, 273, 304, 334][m - 1]
    + (if m > 2 && IsLeapYear(y) then 1 else 0)
  }

  /** date.toordinal(): 0001-01-01 is day 1. */
  function ToOrdinal(d: Date): int
    requires ValidMonthDay(d)
  {
    DaysBeforeYear(d.year) + DaysBeforeMonth(d.year, d.month) + d.day
  }

  lemma DaysBeforeNextYear(y: int)
    ensures DaysBeforeYear(y + 1) == DaysBeforeYear(y) + YearLength(y)
  {
  }

  lemma {:induction false} DaysBeforeYearMonotone(a: int, b: int)
    requires a < b
    ensures DaysBeforeYear(a) + YearLength(a) <= DaysBeforeYear(b)
    decreases b - a
  {
    DaysBeforeNextYear(a);
    if a + 1 < b {
      DaysBeforeYearMonotone(a + 1, b);
    }
  }

  lemma MonthSteps(y: int, m: int)
    requires 1 <= m <= 12
    ensures m < 12 ==> DaysBeforeMonth(y, m + 1) == DaysBeforeMonth(y, m) + DaysInMonth(y, m)
    ensures m == 12 ==> DaysBeforeMonth(y, m) + DaysInMonth(y, m) == YearLength(y)
    ensures DaysBeforeMonth(y, m) + DaysInMonth(y, m) <= YearLength(y)
  {
  }

  /** The latest month m' <= m that starts on or before day n (0-based) of year y. */
  function MonthContaining(y: int, n: int, m: int): (r: int)
    requires 1 <= m <= 12 && 0 <= n
    ensures 1 <= r <= m && DaysBeforeMonth(y, r) <= n
    ensures r < m ==> n < DaysBeforeMonth(y, r + 1)
    decreases m
  {
    if m == 1 || DaysBeforeMonth(y, m) <= n then m else MonthContaining(y, n, m - 1)
  }

  /** The date that is day n (0-based) of year y. */
  function DateOfYearDay(y: int, n: int): (d: Date)
    requires 0 <= n < YearLength(y)
    ensures d.year == y && ValidMonthDay(d)
    ensures DaysBeforeMonth(y, d.month) + d.day == n + 1
  {
    var m := MonthContaining(y, n, 12);
    MonthSteps(y, m);
    Date(y, m, n - DaysBeforeMonth(y, m) + 1)
  }

  /** The date n days after January 1 of year y. */
  function CivilFrom(y: int, n: int): (d: Date)
    requires n >= 0
    ensures d.year >= y && ValidMonthDay(d)
    ensures ToOrdinal(d) == DaysBeforeYear(y) + n + 1
    decreases n
  {
    if n < YearLength(y) then DateOfYearDay(y, n)
    else
      DaysBeforeNextYear(y);
      CivilFrom(y + 1, n - YearLength(y))
  }

  /** date.fromordinal(ord): the date whose ordinal is ord. */
  function FromOrdinal(ord: int): (d: Date)
    requires ord >= 1
    ensures d.year >= 1 && ValidMonthDay(d) && ToOrdinal(d) == ord
  {
    CivilFrom(1, ord - 1)
  }

  /** A date's ordinal lies inside its own year's range of ordinals. */
  lemma OrdinalWithinYear(d: Date)
    requires ValidMonthDay(d)
    ensures DaysBeforeYear(d.year) < ToOrdinal(d) <= DaysBeforeYear(d.year + 1)
  {
    MonthSteps(d.year, d.month);
    DaysBeforeNextYear(d.year);
  }

  /** ToOrdinal preserves the calendar order strictly. */
  lemma ToOrdinalMonotone(d1: Date, d2: Date)
    requires ValidMonthDay(d1) && ValidMonthDay(d2) && Before(d1, d2)
    ensures ToOrdinal(d1) < ToOrdinal(d2)
  {
    if d1.year < d2.year {
      OrdinalWithinYear(d1);
      OrdinalWithinYear(d2);
      DaysBeforeNextYear(d1.year);
      if d1.year + 1 < d2.year {
        DaysBeforeYearMonotone(d1.year + 1, d2.year);
      }
    } else if d1.month < d2.month {
      var y := d1.year;
      MonthSteps(y, d1.month);
      assert DaysBeforeMonth(y, d1.month + 1) <= DaysBeforeMonth(y, d2.month);
    }
  }

  /** Distinct dates have distinct ordinals. */
  lemma ToOrdinalInjective(d1: Date, d2: Date)
    requires ValidMonthDay(d1) && ValidMonthDay(d2) && ToOrdinal(d1) == ToOrdinal(d2)
    ensures d1 == d2
  {
    if Before(d1, d2) {
      ToOrdinalMonotone(d1, d2);
    } else if Before(d2, d1) {
      ToOrdinalMonotone(d2, d1);
    }
  }

  /** fromordinal undoes toordinal. */
  lemma FromToOrdinal(d: Date)
    requires d.year >= 1 && ValidMonthDay(d)
    ensures ToOrdinal(d) >= 1 && FromOrdinal(ToOrdinal(d)) == d
  {
    OrdinalWithinYear(d);
    if d.year > 1 {
      DaysBeforeYearMonotone(1, d.year);
    }
    ToOrdinalInjective(FromOrdinal(ToOrdinal(d)), d);
  }

  /** An ordinal between the ordinals of two Januaries falls in the earlier year. */
  lemma YearOfOrdinal(ord: int, y: int)
    requires ord >= 1 && DaysBeforeYear(y) < ord <= DaysBeforeYear(y + 1)
    ensures FromOrdinal(ord).year == y
  {
    var e := FromOrdinal(ord);
    OrdinalWithinYear(e);
    if e.year < y {
      DaysBeforeYearMonotone(e.year, y);
      DaysBeforeNextYear(e.year);
    } else if e.year > y {
      DaysBeforeYearMonotone(y, e.year);
      DaysBeforeNextYear(y);
    }
  }

  /** Exactly the ordinals 1..MAX_ORDINAL are valid dates. */
  lemma ValidOrdinalRange(ord: int)
    requires 1 <= ord
    ensures ValidDate(FromOrdinal(ord)) <==> ord <= MAX_ORDINAL
  {
    var e := FromOrdinal(ord);
    OrdinalWithinYear(e);
    LastOrdinal();
    if e.year <= MAX_YEAR {
      if e.year < MAX_YEAR {
        DaysBeforeYearMonotone(e.year + 1, MAX_YEAR + 1);
      }
    } else {
      DaysBeforeYearMonotone(MAX_YEAR, e.year);
      DaysBeforeNextYear(MAX_YEAR);
    }
  }

  lemma ValidDateOrdinal(d: Date)
    requires ValidDate(d)
    ensures 1 <= ToOrdinal(d) <= MAX_ORDINAL
  {
    FromToOrdinal(d);
    ValidOrdinalRange(ToOrdinal(d));
  }

  /** date.weekday(): Monday is 0 and Sunday is 6. */
  function Weekday(d: Date): (w: int)
    requires ValidMonthDay(d)
    ensures 0 <= w < 7
    ensures w == 0 <==> IsMonday(ToOrdinal(d))
    ensures w == ToOrdinal(d) - MondayOf(ToOrdinal(d))
  {
    var ord := ToOrdinal(d);
    WeekdayResidue(ord);
    (ord + 6) % 7
  }

  /** The residue used as the weekday is 0 exactly on a Monday and counts the days since the week's Monday. */
  lemma WeekdayResidue(ord: int)
    ensures (ord + 6) % 7 == 0 <==> IsMonday(ord)
    ensures (ord + 6) % 7 == ord - MondayOf(ord)
  {
    var q, r := (ord + 6) / 7, (ord + 6) % 7;
    assert ord + 6 == 7 * q + r && 0 <= r < 7;
    assert ord == 7 * (q - 1) + (r + 1);
    if r == 6 {
      assert ord == 7 * q;
    } else {
      assert ord % 7 == r + 1;
    }
  }

  /** Consecutive days have consecutive weekdays, Sunday (6) being followed by Monday (0). */
  lemma WeekdayNext(d1: Date, d2: Date)
    requires ValidMonthDay(d1) && ValidMonthDay(d2) && ToOrdinal(d2) == ToOrdinal(d1) + 1
    ensures Weekday(d2) == (Weekday(d1) + 1) % 7
  {
    ResidueNext(ToOrdinal(d1));
  }

  /** The weekday residue of the next day is one more, modulo 7. */
  lemma ResidueNext(ord: int)
    ensures (ord + 7) % 7 == ((ord + 6) % 7 + 1) % 7
  {
    var q, r := (ord + 6) / 7, (ord + 6) % 7;
    assert ord + 6 == 7 * q + r && 0 <= r < 7;
    if r == 6 {
      assert ord + 7 == 7 * (q + 1);
    } else {
      assert ord + 7 == 7 * q + (r + 1);
    }
  }

  /** Three-letter weekday names indexed by Weekday, upper-cased (strftime('%a').upper()). */
  const DAY_NAMES: seq<string> := ["MON", "TUE", "WED", "THU", "FRI", "SAT", "SUN"]

  /**
   * The UTC civil date of an instant given in seconds since 1970-01-01T00:00Z,
   * or None when it falls outside years 1..9999 (where datetime raises).
   */
  function DateOfInstant(t: int): (r: Option<Date>)
    ensures r.Some? ==> ValidDate(r.value)
  {
    var ord := EPOCH_ORDINAL + t / SECONDS_PER_DAY;
    if 1 <= ord <= MAX_ORDINAL then
      ValidOrdinalRange(ord);
      Some(FromOrdinal(ord))
    else None
  }

  /** First second of a date, in seconds since the epoch. */
  function DayStart(d: Date): int
    requires ValidMonthDay(d)
  {
    (ToOrdinal(d) - EPOCH_ORDINAL) * SECONDS_PER_DAY
  }

  /**
   * The date of an instant is the one valid date whose UTC day contains it;
   * both directions.
   */
  lemma DateOfInstantContains(t: int, d: Date)
    ensures DateOfInstant(t) == Some(d) <==> ValidDate(d) && DayStart(d) <= t < DayStart(d) + SECONDS_PER_DAY
  {
    if DateOfInstant(t) == Some(d) {
      assert ToOrdinal(d) == EPOCH_ORDINAL + t / SECONDS_PER_DAY;
    }
    if ValidDate(d) && DayStart(d) <= t < DayStart(d) + SECONDS_PER_DAY {
      assert t / SECONDS_PER_DAY == ToOrdinal(d) - EPOCH_ORDINAL;
      ValidDateOrdinal(d);
      FromToOrdinal(d);
    }
  }

  /** A later instant never has an earlier date. */
  lemma DateOfInstantMonotone(t1: int, t2: int)
    requires t1 <= t2 && DateOfInstant(t1).Some? && DateOfInstant(t2).Some?
    ensures !Before(DateOfInstant(t2).value, DateOfInstant(t1).value)
  {
    var d1, d2 := DateOfInstant(t1).value, DateOfInstant(t2).value;
    assert t1 / SECONDS_PER_DAY <= t2 / SECONDS_PER_DAY;
    if Before(d2, d1) {
      ToOrdinalMonotone(d2, d1);
    }
  }

  /** The date as strftime('%Y-%m-%d') writes it. */
  function DateText(d: Date): (s: string)
    requires ValidDate(d)
    ensures |s| == 10 && s[4] == '-' && s[7] == '-'
    ensures AllDigits(s[..4]) && AllDigits(s[5..7]) && AllDigits(s[8..])
  {
    var s := Padded(d.year, 4) + "-" + Padded(d.month, 2) + "-" + Padded(d.day, 2);
    assert s[..4] == Padded(d.year, 4) && s[5..7] == Padded(d.month, 2) && s[8..] == Padded(d.day, 2);
    s
  }

  /** Every character of a date's text is a digit or '-'. */
  lemma DateTextChars(d: Date, c: char)
    requires ValidDate(d) && c in DateText(d)
    ensures IsDigit(c) || c == '-'
  {
    var s := DateText(d);
    var i :| 0 <= i < |s| && s[i] == c;
    if i < 4 { assert s[..4][i] == c; }
    else if 4 < i < 7 { assert s[5..7][i - 5] == c; }
    else if 7 < i { assert s[8..][i - 8] == c; }
  }

  /**
   * Date texts compare as strings exactly as the dates compare in time, and
   * distinct dates have distinct texts.
   */
  lemma DateTextOrder(d1: Date, d2: Date)
    requires ValidDate(d1) && ValidDate(d2)
    ensures StrLe(DateText(d1), DateText(d2)) <==> !Before(d2, d1)
    ensures DateText(d1) == DateText(d2) <==> d1 == d2
  {
    DashedOrder(Padded(d1.year, 4), Padded(d1.month, 2), Padded(d1.day, 2),
                Padded(d2.year, 4), Padded(d2.month, 2), Padded(d2.day, 2));
    PaddedOrder(d1.year, d2.year, 4);
    PaddedOrder(d1.month, d2.month, 2);
    PaddedOrder(d1.day, d2.day, 2);
  }

  // ISO 8601 week numbers (date.isocalendar()[1]).

  /** An ordinal that falls on a Monday (0001-01-01, day 1, was a Monday). */
  predicate IsMonday(ord: int)
  {
    ord % 7 == 1
  }

  /** The Monday that starts the Monday-to-Sunday week holding day `ord`. */
  function MondayOf(ord: int): (m: int)
    ensures IsMonday(m) && m <= ord < m + 7
  {
    ord - (ord + 6) % 7
  }

  /** The Monday of ISO week 1 of a year whose January 1 has ordinal `first`. */
  function FirstIsoMonday(first: int): (m: int)
    ensures IsMonday(m) && first <= m + 3 < first + 7
  {
    var firstWeekday := (first + 6) % 7;
    var monday := first - firstWeekday;
    if firstWeekday > 3 then monday + 7 else monday
  }

  /** _isoweek1monday(y): the Monday that starts ISO week 1 of year y. */
  function Week1Monday(y: int): (m: int)
    ensures IsMonday(m)
    ensures DaysBeforeYear(y) + 1 <= m + 3 < DaysBeforeYear(y) + 8
  {
    FirstIsoMonday(DaysBeforeYear(y) + 1)
  }

  /** Two Mondays lie a whole number of weeks apart. */
  lemma MondaysWeeksApart(a: int, b: int)
    requires IsMonday(a) && IsMonday(b)
    ensures (b - a) % 7 == 0 && (b - a) == 7 * ((b - a) / 7)
  {
    assert a == 7 * (a / 7) + 1;
    assert b == 7 * (b / 7) + 1;
    assert b - a == 7 * (b / 7 - a / 7);
  }

  /** Consecutive ISO years are 52 or 53 weeks long. */
  lemma Week1MondaySpacing(y: int)
    ensures Week1Monday(y + 1) - Week1Monday(y) == 364 || Week1Monday(y + 1) - Week1Monday(y) == 371
  {
    DaysBeforeNextYear(y);
    SpacingArith(DaysBeforeYear(y) + 1, DaysBeforeYear(y + 1) + 1, Week1Monday(y), Week1Monday(y + 1));
  }

  /** Week-1 Mondays of years 365 or 366 days apart lie 52 or 53 weeks apart. */
  lemma SpacingArith(first: int, nextFirst: int, a: int, b: int)
    requires nextFirst - first == 365 || nextFirst - first == 366
    requires IsMonday(a) && first <= a + 3 < first + 7
    requires IsMonday(b) && nextFirst <= b + 3 < nextFirst + 7
    ensures b - a == 364 || b - a == 371
  {
    MondaysWeeksApart(a, b);
    var k := (b - a) / 7;
    assert 359 <= 7 * k <= 372;
  }

  /**
   * The week step of date.isocalendar() for day `today`, given the week-1
   * Mondays w0, w1, w2 of its year's predecessor, its year and its successor:
   * weeks are counted from w1, a day before w1 belongs to the last week of the
   * previous year, and a day of week 53 or later on or after w2 belongs to
   * week 1 of the next year.
   */
  function WeekNumber(today: int, w0: int, w1: int, w2: int): int
  {
    var week := (today - w1) / 7;
    if week < 0 then (today - w0) / 7 + 1
    else if week >= 52 && today >= w2 then 1
    else week + 1
  }

  /** The ISO week number of day `today` of year y. */
  function IsoWeekOfDay(today: int, y: int): int
  {
    WeekNumber(today, Week1Monday(y - 1), Week1Monday(y), Week1Monday(y + 1))
  }

  /** date.isocalendar()[1]: the ISO week number of a date. */
  function IsoWeek(d: Date): int
    requires ValidDate(d)
  {
    IsoWeekOfDay(ToOrdinal(d), d.year)
  }

  /** A day between two Mondays has its own Monday between them too. */
  lemma MondayBracket(today: int, a: int, b: int)
    requires IsMonday(a) && IsMonday(b) && a <= today < b
    ensures a <= MondayOf(today) < b
  {
    MondaysWeeksApart(a, MondayOf(today));
  }

  /**
   * The ISO year of day `today` of year y: the year whose week-1 Monday is the
   * last one on or before the day's Monday. IsoWeekOfDay counts weeks from it.
   */
  lemma IsoYearOfDay(today: int, y: int) returns (isoYear: int)
    requires DaysBeforeYear(y) < today <= DaysBeforeYear(y + 1)
    ensures Week1Monday(isoYear) <= MondayOf(today) < Week1Monday(isoYear + 1)
    ensures IsoWeekOfDay(today, y) == (today - Week1Monday(isoYear)) / 7 + 1
  {
    var w0, w1, w2, w3 := Week1Monday(y - 1), Week1Monday(y), Week1Monday(y + 1), Week1Monday(y + 2);
    assert w0 + 364 <= w1 && w1 + 364 <= w2 && w2 + 364 <= w3 && w0 <= today < w2 + 7 by {
      Week1MondaySpacing(y - 1);
      Week1MondaySpacing(y);
      Week1MondaySpacing(y + 1);
      YearBracket(today, DaysBeforeYear(y), DaysBeforeYear(y + 1), w0, w1, w2);
    }
    IsoBranches(today, w0, w1, w2, w3);
    if today < w1 {
      isoYear := y - 1;
    } else if (today - w1) / 7 >= 52 && today >= w2 {
      isoYear := y + 1;
    } else {
      isoYear := y;
    }
  }

  /** A day of year y lies between the week-1 Monday of year y - 1 and the end of week 1 of year y + 1. */
  lemma YearBracket(today: int, first: int, nextFirst: int, w0: int, w1: int, w2: int)
    requires first < today <= nextFirst
    requires first + 1 <= w1 + 3 < first + 8 && nextFirst + 1 <= w2 + 3
    requires w1 - w0 == 364 || w1 - w0 == 371
    ensures w0 <= today < w2 + 7
  {
  }

  /**
   * The Monday of `today` in each branch of date.isocalendar(), in plain
   * integers: w0..w3 are consecutive week-1 Mondays, 52 or 53 weeks apart.
   */
  lemma IsoBranches(today: int, w0: int, w1: int, w2: int, w3: int)
    requires IsMonday(w0) && IsMonday(w1) && IsMonday(w2) && IsMonday(w3)
    requires w0 + 364 <= w1 && w1 + 364 <= w2 && w2 + 364 <= w3
    requires w0 <= today < w2 + 7
    ensures today < w1 ==> w0 <= MondayOf(today) < w1
    ensures today >= w1 && (today - w1) / 7 >= 52 && today >= w2 ==>
              w2 <= MondayOf(today) < w3 && (today - w2) / 7 == 0
    ensures today >= w1 && !((today - w1) / 7 >= 52 && today >= w2) ==> w1 <= MondayOf(today) < w2
    ensures today < w1 ==> WeekNumber(today, w0, w1, w2) == (today - w0) / 7 + 1
    ensures today >= w1 && (today - w1) / 7 >= 52 && today >= w2 ==>
              WeekNumber(today, w0, w1, w2) == (today - w2) / 7 + 1
    ensures today >= w1 && !((today - w1) / 7 >= 52 && today >= w2) ==>
              WeekNumber(today, w0, w1, w2) == (today - w1) / 7 + 1
  {
    if today < w1 {
      MondayBracket(today, w0, w1);
    } else if (today - w1) / 7 >= 52 && today >= w2 {
      MondayBracket(today, w2, w3);
    } else {
      MondayBracket(today, w1, w2);
    }
  }

  /** ISO week numbers run from 1 to 53. */
  lemma IsoWeekOfDayRange(today: int, y: int)
    requires DaysBeforeYear(y) < today <= DaysBeforeYear(y + 1)
    ensures 1 <= IsoWeekOfDay(today, y) <= 53
  {
    var isoYear := IsoYearOfDay(today, y);
    Week1MondaySpacing(isoYear);
    WeekCountRange(today, MondayOf(today), Week1Monday(isoYear), Week1Monday(isoYear + 1));
  }

  /** A day whose Monday lies in an ISO year of 52 or 53 weeks is in week 0..52 of it, counted from 0. */
  lemma WeekCountRange(today: int, monday: int, w1: int, w2: int)
    requires IsMonday(monday) && monday <= today < monday + 7
    requires IsMonday(w1) && IsMonday(w2) && w1 <= monday < w2 && w2 <= w1 + 371
    ensures 0 <= (today - w1) / 7 <= 52
  {
    MondaysWeeksApart(w1, monday);
    MondaysWeeksApart(monday, w2);
  }

  lemma IsoWeekRange(d: Date)
    requires ValidDate(d)
    ensures 1 <= IsoWeek(d) <= 53
  {
    OrdinalWithinYear(d);
    IsoWeekOfDayRange(ToOrdinal(d), d.year);
  }

  /**
   * The week-date rule of ISO 8601 for day `today` of year y: the week belongs
   * to the year holding its Thursday, and is numbered by how many whole weeks
   * that Thursday lies after January 1 of that year, plus one.
   */
  lemma ThursdayRuleOfDay(today: int, y: int)
    requires 1 <= today && DaysBeforeYear(y) < today <= DaysBeforeYear(y + 1)
    ensures 1 <= MondayOf(today) + 3
    ensures var th := MondayOf(today) + 3;
      IsoWeekOfDay(today, y) == (th - (DaysBeforeYear(FromOrdinal(th).year) + 1)) / 7 + 1
  {
    var isoYear := ThursdayYear(today, y);
    YearOfOrdinal(MondayOf(today) + 3, isoYear);
  }

  /** The Thursday of the day's week lies in its ISO year, and IsoWeekOfDay counts weeks from that year's January 1. */
  lemma ThursdayYear(today: int, y: int) returns (isoYear: int)
    requires 1 <= today && DaysBeforeYear(y) < today <= DaysBeforeYear(y + 1)
    ensures 1 <= MondayOf(today) + 3
    ensures DaysBeforeYear(isoYear) < MondayOf(today) + 3 <= DaysBeforeYear(isoYear + 1)
    ensures IsoWeekOfDay(today, y) == (MondayOf(today) + 3 - (DaysBeforeYear(isoYear) + 1)) / 7 + 1
  {
    var monday := MondayOf(today);
    isoYear := IsoYearOfDay(today, y);
    var w1, w2 := Week1Monday(isoYear), Week1Monday(isoYear + 1);
    var first, nextFirst := DaysBeforeYear(isoYear) + 1, DaysBeforeYear(isoYear + 1) + 1;
    ThursdayArith(today, monday, w1, w2, first, nextFirst);
    FirstMondayPositive(today, monday);
  }

  /** The Monday of a week holding a positive ordinal is itself positive. */
  lemma FirstMondayPositive(today: int, monday: int)
    requires 1 <= today && IsMonday(monday) && monday <= today < monday + 7
    ensures 1 <= monday
  {
    assert monday == 7 * (monday / 7) + 1;
  }

  /** The week counts of IsoWeekOfDay and of the Thursday rule agree, in plain integers. */
  lemma ThursdayArith(today: int, monday: int, w1: int, w2: int, first: int, nextFirst: int)
    requires IsMonday(monday) && monday <= today < monday + 7
    requires IsMonday(w1) && IsMonday(w2) && w1 <= monday < w2
    requires first <= w1 + 3 < first + 7 && w2 <= nextFirst + 3
    ensures first <= monday + 3 < nextFirst
    ensures (monday + 3 - first) / 7 == (today - w1) / 7
  {
    MondaysWeeksApart(monday, w2);
    MondaysWeeksApart(w1, monday);
    var k := (monday - w1) / 7;
    DivSeven(k, w1 + 3 - first);
    DivSeven(k, today - monday);
    assert monday + 3 - first == 7 * k + (w1 + 3 - first);
    assert today - w1 == 7 * k + (today - monday);
  }

  lemma DivSeven(k: int, r: int)
    requires 0 <= r < 7
    ensures (7 * k + r) / 7 == k
  {
  }

  /** Ordinal of the Thursday in the Monday-to-Sunday week holding d. */
  function ThursdayOf(d: Date): int
    requires ValidMonthDay(d)
  {
    MondayOf(ToOrdinal(d)) + 3
  }

  /** IsoWeek agrees with the week-date definition of ISO 8601 (see ThursdayRuleOfDay). */
  lemma IsoWeekIsThursdayRule(d: Date)
    requires ValidDate(d)
    ensures ThursdayOf(d) >= 1
    ensures IsoWeek(d) == (ThursdayOf(d) - (DaysBeforeYear(FromOrdinal(ThursdayOf(d)).year) + 1)) / 7 + 1
  {
    OrdinalWithinYear(d);
    ValidDateOrdinal(d);
    ThursdayRuleOfDay(ToOrdinal(d), d.year);
  }

  /** Worked example: 2024-01-01 was a Monday, so it opens ISO week 1 of 2024. */
  lemma IsoWeekNewYear2024(d: Date)
    requires d == Date(2024, 1, 1)
    ensures ValidDate(d) && IsoWeek(d) == 1
  {
    DaysBeforeYearFormula(d.year);
    assert ToOrdinal(d) == 738886;
    assert Week1Monday(d.year) == 738886;
  }

  /** Worked example: 2024-12-30 already belongs to ISO week 1 of 2025. */
  lemma IsoWeekEndOf2024(d: Date)
    requires d == Date(2024, 12, 30)
    ensures ValidDate(d) && IsoWeek(d) == 1
  {
    DaysBeforeYearFormula(d.year);
    DaysBeforeYearFormula(d.year + 1);
    assert ToOrdinal(d) == 739250;
    assert Week1Monday(d.year) == 738886;
    assert Week1Monday(d.year + 1) == 739250;
  }

  /** Worked example: 2021-01-01 (a Friday) still belongs to ISO week 53 of 2020. */
  lemma IsoWeekNewYear2021(d: Date)
    requires d == Date(2021, 1, 1)
    ensures ValidDate(d) && IsoWeek(d) == 53
  {
    DaysBeforeYearFormula(d.year - 1);
    DaysBeforeYearFormula(d.year);
    assert ToOrdinal(d) == 737791;
    assert Week1Monday(d.year - 1) == 737423;
    assert Week1Monday(d.year) == 737794;
  }

  /** Worked example: instant 0 is 1970-01-01. */
  lemma EpochDate(t: int)
    requires t == 0
    ensures DateOfInstant(t) == Some(Date(EPOCH_YEAR, 1, 1))
  {
    EpochOrdinal();
    DateOfInstantContains(t, Date(EPOCH_YEAR, 1, 1));
  }

  /** Worked example: 2024-03-04 falls on a Monday. */
  lemma MondayMarch4(d: Date)
    requires d == Date(2024, 3, 4)
    ensures ValidDate(d) && ToOrdinal(d) == 738949 && Weekday(d) == 0
  {
    DaysBeforeYearFormula(d.year);
    assert ToOrdinal(d) == 738949;
  }
}
