/**
 * The proleptic Gregorian calendar as Python's `datetime` module computes it:
 * a date is its ordinal, the number of days since 0001-01-01 plus one
 * (`date.toordinal()`), and `YmdToOrd`/`OrdToYmd` follow the two conversions of
 * that module.  Python rejects years outside 1..9999; the arithmetic here does not.
 */
module Calendar {

  datatype Ymd = Ymd(year: int, month: int, day: int)

  predicate IsLeap(year: int) {
    year % 4 == 0 && (year % 100 != 0 || year % 400 == 0)
  }

  /** Days in `month` of a common year. */
  function DaysInMonthCommon(month: int): int
    requires 1 <= month <= 12
  {
    if month == 2 then 28
    else if month == 4 || month == 6 || month == 9 || month == 11 then 30
    else 31
  }

  /** Days before `month` in a common year. */
  function DaysBeforeMonthCommon(month: int): int
    requires 1 <= month <= 12
  {
    match month
    case 1 => 0
    case 2 => 31
    case 3 => 59
    case 4 => 90
    case 5 => 120
    case 6 => 151
    case 7 => 181
    case 8 => 212
    case 9 => 243
    case 10 => 273
    case 11 => 304
    case _ => 334
  }

  function DaysInMonth(year: int, month: int): int
    requires 1 <= month <= 12
  {
    if month == 2 && IsLeap(year) then 29 else DaysInMonthCommon(month)
  }

  function DaysBeforeMonth(year: int, month: int): int
    requires 1 <= month <= 12
  {
    DaysBeforeMonthCommon(month) + if month > 2 && IsLeap(year) then 1 else 0
  }

  function DaysInYear(year: int): int {
    if IsLeap(year) then 366 else 365
  }

  /** Days before January 1st of `year`, counted from 0001-01-01. */
  function DaysBeforeYear(year: int): int {
    var y := year - 1;
    y * 365 + y / 4 - y / 100 + y / 400
  }

  predicate ValidDate(d: Ymd) {
    1 <= d.month <= 12 && 1 <= d.day <= DaysInMonth(d.year, d.month)
  }

  /** `date(y, m, d).toordinal()`. */
  function YmdToOrd(d: Ymd): int
    requires 1 <= d.month <= 12
  {
    DaysBeforeYear(d.year) + DaysBeforeMonth(d.year, d.month) + d.day
  }

  /** `date.fromordinal(n)`: the 400-, 100-, 4- and 1-year cascade of Python's `datetime`. */
  function OrdToYmd(n: int): (r: Ymd)
    ensures ValidDate(r)
  {
    var n0 := n - 1;
    var n400, r400 := n0 / 146097, n0 % 146097;
    var n100, r100 := r400 / 36524, r400 % 36524;
    var n4, r4 := r100 / 1461, r100 % 1461;
    CascadeRanges(n0);
    FromCascade(n400, n100, n4, r4 / 365, r4 % 365)
  }

  /** The quotients and remainders of the cascade stay in the ranges `FromCascade` expects. */
  lemma CascadeRanges(n0: int)
    ensures var r400 := n0 % 146097;
      var n100, r100 := r400 / 36524, r400 % 36524;
      var n4, r4 := r100 / 1461, r100 % 1461;
      var n1, r1 := r4 / 365, r4 % 365;
      && 0 <= n100 <= 4 && 0 <= n4 <= 24 && 0 <= n1 <= 4 && 0 <= r1 < 365
      && (n100 == 4 ==> n4 == 0 && n1 == 0 && r1 == 0)
      && (n1 == 4 ==> r1 == 0 && n4 < 24)
      && n0 == (n0 / 146097) * 146097 + n100 * 36524 + n4 * 1461 + n1 * 365 + r1
  {
    var r400 := n0 % 146097;
    var n100, r100 := r400 / 36524, r400 % 36524;
    var n4, r4 := r100 / 1461, r100 % 1461;
    assert r400 == n100 * 36524 + r100;
    assert r100 == n4 * 1461 + r4;
    assert r4 == (r4 / 365) * 365 + r4 % 365;
  }

  /**
   * The date `r1` days into the year that follows `n400` 400-year, `n100` 100-year,
   * `n4` 4-year and `n1` 1-year periods; `n1 == 4` or `n100 == 4` is the last day
   * of a leap year that ends its period.
   */
  function FromCascade(n400: int, n100: int, n4: int, n1: int, r1: int): (r: Ymd)
    requires 0 <= n100 <= 4 && 0 <= n4 <= 24 && 0 <= n1 <= 4 && 0 <= r1 < 365
    requires n100 == 4 ==> n4 == 0 && n1 == 0 && r1 == 0
    requires n1 == 4 ==> r1 == 0 && n4 < 24
    ensures ValidDate(r)
  {
    var year := n400 * 400 + 1 + n100 * 100 + n4 * 4 + n1;
    if n1 == 4 || n100 == 4 then
      Ymd(year - 1, 12, 31)
    else
      var leap := n1 == 3 && (n4 != 24 || n100 == 3);
      assert leap == IsLeap(year) by { LeapOfCascade(n400, n100, n4, n1); }
      MonthOfDayInYear(year, r1)
  }

  /** The month and day of the `doy`-th day (from 0) of `year`, found as Python does:
      estimate the month as `(doy + 50) >> 5`, then step back one month if it overshoots. */
  function MonthOfDayInYear(year: int, doy: int): (r: Ymd)
    requires 0 <= doy < DaysInYear(year)
    ensures ValidDate(r) && r.year == year
    ensures DaysBeforeMonth(year, r.month) + r.day == doy + 1
  {
    var month := (doy + 50) / 32;
    var preceding := DaysBeforeMonth(year, month);
    if preceding > doy then
      Ymd(year, month - 1, doy - DaysBeforeMonth(year, month - 1) + 1)
    else
      Ymd(year, month, doy - preceding + 1)
  }

  lemma LeapOfCascade(a: int, b: int, c: int, e: int)
    requires 0 <= b <= 3 && 0 <= c <= 24 && 0 <= e <= 3
    ensures IsLeap(a * 400 + 1 + b * 100 + c * 4 + e) == (e == 3 && (c != 24 || b == 3))
  {
    var t := b * 100 + c * 4 + e + 1;
    ModOfShift(t, a);
    if e < 3 {
      DivMod4(b * 25 + c, e + 1);
    } else if c < 24 {
      DivMod4(b * 25 + c + 1, 0);
      DivMod100(b, c * 4 + 4);
    } else if b < 3 {
      DivMod4(b * 25 + 25, 0);
      DivMod100(b + 1, 0);
      DivMod400(0, t);
    } else {
      DivMod4(100, 0);
      DivMod100(4, 0);
      DivMod400(1, 0);
    }
  }

  /** Adding whole 400-year periods leaves a year's position in the 4-, 100- and 400-year cycles unchanged. */
  lemma ModOfShift(t: int, a: int)
    ensures (a * 400 + t) % 4 == t % 4 && (a * 400 + t) % 100 == t % 100 && (a * 400 + t) % 400 == t % 400
  {
    DivMod4(a * 100 + t / 4, t % 4);
    DivMod100(a * 4 + t / 100, t % 100);
    DivMod400(a + t / 400, t % 400);
  }

  lemma DivMod4(q: int, r: int)
    requires 0 <= r < 4
    ensures (q * 4 + r) / 4 == q && (q * 4 + r) % 4 == r
  {
  }

  lemma DivMod100(q: int, r: int)
    requires 0 <= r < 100
    ensures (q * 100 + r) / 100 == q && (q * 100 + r) % 100 == r
  {
  }

  lemma DivMod400(q: int, r: int)
    requires 0 <= r < 400
    ensures (q * 400 + r) / 400 == q && (q * 400 + r) % 400 == r
  {
  }

  /** Days before the year that follows `a` 400-year, `b` 100-year, `c` 4-year and `e` 1-year periods. */
  lemma DaysBeforeYearOfCascade(a: int, b: int, c: int, e: int)
    requires 0 <= b <= 3 && 0 <= c <= 24 && 0 <= e <= 3
    ensures DaysBeforeYear(a * 400 + 1 + b * 100 + c * 4 + e) == a * 146097 + b * 36524 + c * 1461 + e * 365
  {
    DivMod4(a * 100 + b * 25 + c, e);
    DivMod100(a * 4 + b, c * 4 + e);
    DivMod400(a, b * 100 + c * 4 + e);
  }

  /** Converting an ordinal to a date and back gives the ordinal again. */
  lemma YmdToOrdOfOrdToYmd(n: int)
    ensures YmdToOrd(OrdToYmd(n)) == n
  {
    var n0 := n - 1;
    var n400, r400 := n0 / 146097, n0 % 146097;
    var n100, r100 := r400 / 36524, r400 % 36524;
    var n4, r4 := r100 / 1461, r100 % 1461;
    var n1, r1 := r4 / 365, r4 % 365;
    CascadeRanges(n0);
    assert OrdToYmd(n) == FromCascade(n400, n100, n4, n1, r1);
    YmdToOrdOfCascade(n400, n100, n4, n1, r1);
  }

  /** The ordinal of the date `FromCascade` builds counts the periods and days it was given. */
  lemma YmdToOrdOfCascade(n400: int, n100: int, n4: int, n1: int, r1: int)
    requires 0 <= n100 <= 4 && 0 <= n4 <= 24 && 0 <= n1 <= 4 && 0 <= r1 < 365
    requires n100 == 4 ==> n4 == 0 && n1 == 0 && r1 == 0
    requires n1 == 4 ==> r1 == 0 && n4 < 24
    ensures YmdToOrd(FromCascade(n400, n100, n4, n1, r1)) == n400 * 146097 + n100 * 36524 + n4 * 1461 + n1 * 365 + r1 + 1
  {
    if n100 == 4 {
      LastDayOfCycle(n400, 3, 24);
    } else if n1 == 4 {
      LastDayOfCycle(n400, n100, n4);
    } else {
      DaysBeforeYearOfCascade(n400, n100, n4, n1);
    }
  }

  /** December 31st of the leap year that ends a 4-year period has the ordinal the period ends on. */
  lemma LastDayOfCycle(a: int, b: int, c: int)
    requires 0 <= b <= 3 && 0 <= c <= 24 && (c < 24 || b == 3)
    ensures var year := a * 400 + 1 + b * 100 + c * 4 + 3;
      YmdToOrd(Ymd(year, 12, 31)) == a * 146097 + b * 36524 + c * 1461 + 4 * 365 + 1
  {
    DaysBeforeYearOfCascade(a, b, c, 3);
    LeapOfCascade(a, b, c, 3);
  }

  /** The calendar day of an ordinal (`date.fromordinal(n).day`), from 1 to 31. */
  function DayOfMonth(ordinal: int): (d: int)
    ensures 1 <= d <= 31
  {
    OrdToYmd(ordinal).day
  }

  lemma DaysBeforeYearStep(year: int)
    ensures DaysBeforeYear(year + 1) == DaysBeforeYear(year) + DaysInYear(year)
  {
    QuotientStep4(year);
    QuotientStep100(year);
    QuotientStep400(year);
  }

  lemma QuotientStep4(x: int)
    ensures x / 4 - (x - 1) / 4 == if x % 4 == 0 then 1 else 0
  {
    DivMod4(x / 4, x % 4);
    if x % 4 == 0 { DivMod4(x / 4 - 1, 3); } else { DivMod4(x / 4, x % 4 - 1); }
  }

  lemma QuotientStep100(x: int)
    ensures x / 100 - (x - 1) / 100 == if x % 100 == 0 then 1 else 0
  {
    DivMod100(x / 100, x % 100);
    if x % 100 == 0 { DivMod100(x / 100 - 1, 99); } else { DivMod100(x / 100, x % 100 - 1); }
  }

  lemma QuotientStep400(x: int)
    ensures x / 400 - (x - 1) / 400 == if x % 400 == 0 then 1 else 0
  {
    DivMod400(x / 400, x % 400);
    if x % 400 == 0 { DivMod400(x / 400 - 1, 399); } else { DivMod400(x / 400, x % 400 - 1); }
  }

  lemma {:induction false} DaysBeforeYearGrows(year: int, later: int)
    requires year <= later
    ensures DaysBeforeYear(year) + (later - year) * 365 <= DaysBeforeYear(later)
    decreases later - year
  {
    if year < later {
      DaysBeforeYearGrows(year, later - 1);
      DaysBeforeYearStep(later - 1);
    }
  }

  lemma DayInYearBounds(d: Ymd)
    requires ValidDate(d)
    ensures 1 <= DaysBeforeMonth(d.year, d.month) + d.day <= DaysInYear(d.year)
  {
  }

  /** Within one year, a later month and day have a larger day number. */
  lemma DayInYearOrder(d: Ymd, e: Ymd)
    requires ValidDate(d) && ValidDate(e) && d.year == e.year
    requires d.month < e.month || (d.month == e.month && d.day < e.day)
    ensures DaysBeforeMonth(d.year, d.month) + d.day < DaysBeforeMonth(e.year, e.month) + e.day
  {
    if d.month < e.month {
      assert DaysBeforeMonth(d.year, d.month) + DaysInMonth(d.year, d.month) <= DaysBeforeMonth(d.year, e.month);
    }
  }

  /** Different valid dates have different ordinals. */
  lemma YmdToOrdInjective(d: Ymd, e: Ymd)
    requires ValidDate(d) && ValidDate(e) && YmdToOrd(d) == YmdToOrd(e)
    ensures d == e
  {
    if d.year < e.year {
      YearOrder(d, e);
    } else if e.year < d.year {
      YearOrder(e, d);
    } else if d.month < e.month || (d.month == e.month && d.day < e.day) {
      DayInYearOrder(d, e);
    } else if e.month < d.month || (e.month == d.month && e.day < d.day) {
      DayInYearOrder(e, d);
    }
  }

  /** A date in an earlier year has a smaller ordinal. */
  lemma YearOrder(d: Ymd, e: Ymd)
    requires ValidDate(d) && ValidDate(e) && d.year < e.year
    ensures YmdToOrd(d) < YmdToOrd(e)
  {
    DayInYearBounds(d);
    DayInYearBounds(e);
    DaysBeforeYearStep(d.year);
    DaysBeforeYearGrows(d.year + 1, e.year);
  }

  /** Converting a valid date to its ordinal and back gives the date again. */
  lemma OrdToYmdOfYmdToOrd(d: Ymd)
    requires ValidDate(d)
    ensures OrdToYmd(YmdToOrd(d)) == d
  {
    var e := OrdToYmd(YmdToOrd(d));
    YmdToOrdOfOrdToYmd(YmdToOrd(d));
    YmdToOrdInjective(d, e);
  }
}
