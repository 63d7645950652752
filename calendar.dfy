/** Proleptic Gregorian calendar arithmetic behind
    `datetime(1970, 1, 1) + timedelta(...)`: day counts relative to
    1970-01-01 and the civil dates they name. */
module Calendar {

  datatype Date = Date(year: int, month: int, day: int)

  /** Days from 0001-01-01 to 1970-01-01. */
  const EpochOrdinal: int := 719162

  /** Lengths of the Gregorian cycles of 400, 100, 4 and 1 years. */
  const DaysIn400Years: int := 146097
  const DaysIn100Years: int := 36524
  const DaysIn4Years: int := 1461

  predicate IsLeap(y: int) { y % 4 == 0 && (y % 100 != 0 || y % 400 == 0) }

  function DaysInYear(y: int): int { if IsLeap(y) then 366 else 365 }

  function DaysInMonth(y: int, m: int): int
    requires 1 <= m <= 12
  {
    if m == 2 then (if IsLeap(y) then 29 else 28)
    else if m == 4 || m == 6 || m == 9 || m == 11 then 30
    else 31
  }

  /** Days in the months of year y before month m. */
  function DaysBeforeMonth(y: int, m: int): int
    requires 1 <= m <= 12
  {
    if m == 1 then 0 else DaysBeforeMonth(y, m - 1) + DaysInMonth(y, m - 1)
  }

  /** Days from 0001-01-01 to January 1st of year y (negative before year 1). */
  function DaysBeforeYear(y: int): int
  {
    var p := y - 1;
    365 * p + p / 4 - p / 100 + p / 400
  }

  predicate ValidDate(d: Date)
  {
    1 <= d.month <= 12 && 1 <= d.day <= DaysInMonth(d.year, d.month)
  }

  /** The reference direction: how many days date d lies after 1970-01-01. */
  function DaysFromCivil(d: Date): int
    requires ValidDate(d)
  {
    DaysBeforeYear(d.year) + DaysBeforeMonth(d.year, d.month) + d.day - 1 - EpochOrdinal
  }

  lemma EpochIsDayZero()
    ensures DaysFromCivil(Date(1970, 1, 1)) == 0
  {
  }

  lemma MonthTable(y: int)
    ensures DaysBeforeMonth(y, 12) + DaysInMonth(y, 12) == DaysInYear(y)
    ensures DaysBeforeMonth(y, 12) == 334 + (if IsLeap(y) then 1 else 0)
  {
    var leap := if IsLeap(y) then 1 else 0;
    assert DaysBeforeMonth(y, 2) == 31;
    assert DaysBeforeMonth(y, 3) == 59 + leap;
    assert DaysBeforeMonth(y, 4) == 90 + leap;
    assert DaysBeforeMonth(y, 5) == 120 + leap;
    assert DaysBeforeMonth(y, 6) == 151 + leap;
    assert DaysBeforeMonth(y, 7) == 181 + leap;
    assert DaysBeforeMonth(y, 8) == 212 + leap;
    assert DaysBeforeMonth(y, 9) == 243 + leap;
    assert DaysBeforeMonth(y, 10) == 273 + leap;
    assert DaysBeforeMonth(y, 11) == 304 + leap;
  }

  /** The month and day of the doy-th day (counting from 0) of year y,
      searching from month m on. */
  function FindMonth(y: int, doy: int, m: int): (r: Date)
    requires 1 <= m <= 12
    requires DaysBeforeMonth(y, m) <= doy < DaysInYear(y)
    ensures r.year == y && ValidDate(r)
    ensures DaysBeforeMonth(y, r.month) + r.day - 1 == doy
    decreases 12 - m
  {
    MonthTable(y);
    if m == 12 || doy < DaysBeforeMonth(y, m + 1) then Date(y, m, doy - DaysBeforeMonth(y, m) + 1)
    else FindMonth(y, doy, m + 1)
  }

  /** The civil date `days` days after 1970-01-01, found by peeling off whole
      400-, 100-, 4- and 1-year cycles from 0001-01-01. */
  function CivilFromDays(days: int): (r: Date)
    ensures ValidDate(r) && DaysFromCivil(r) == days
  {
    var n := days + EpochOrdinal;
    var a, rest400 := n / DaysIn400Years, n % DaysIn400Years;
    var b := rest400 / DaysIn100Years;
    if b == 4 then
      LastDayOf400(a);
      Date(400 * a + 400, 12, 31)
    else
      var rest100 := rest400 % DaysIn100Years;
      var c, rest4 := rest100 / DaysIn4Years, rest100 % DaysIn4Years;
      var e, doy := rest4 / 365, rest4 % 365;
      if e == 4 then
        LastDayOf4(a, b, c);
        Date(400 * a + 100 * b + 4 * c + 4, 12, 31)
      else
        YearStart(a, b, c, e);
        FindMonth(400 * a + 100 * b + 4 * c + e + 1, doy, 1)
  }

  /** Division by the constants above, for a number written out in cycles. */
  lemma YearStart(a: int, b: int, c: int, e: int)
    requires 0 <= b <= 3 && 0 <= c <= 24 && 0 <= e <= 3
    ensures DaysBeforeYear(400 * a + 100 * b + 4 * c + e + 1)
         == DaysIn400Years * a + DaysIn100Years * b + DaysIn4Years * c + 365 * e
  {
    var p := 400 * a + 100 * b + 4 * c + e;
    assert p / 4 == 100 * a + 25 * b + c;
    assert p / 100 == 4 * a + b;
    assert p / 400 == a;
  }

  /** A year that ends a 4-year cycle is a leap year: it is divisible by 4,
      and by 100 only when it also ends a 400-year cycle. */
  lemma CycleEndIsLeap(a: int, b: int, c: int)
    requires 0 <= b <= 3 && 0 <= c <= 24 && (b == 0 || c > 0)
    ensures IsLeap(400 * a + 100 * b + 4 * c)
  {
    var y := 400 * a + 100 * b + 4 * c;
    RemainderOf(4, 100 * a + 25 * b + c, 0);
    if b == 0 && c == 0 {
      RemainderOf(400, a, 0);
    } else {
      RemainderOf(100, 4 * a + b, 4 * c);
    }
  }

  /** Division by k leaves r from k * q + r. */
  lemma RemainderOf(k: int, q: int, r: int)
    requires k == 4 || k == 100 || k == 400
    requires 0 <= r < k
    ensures (k * q + r) % k == r
  {
    if k == 4 {
      assert (4 * q + r) % 4 == r;
    } else if k == 100 {
      assert (100 * q + r) % 100 == r;
    } else {
      assert (400 * q + r) % 400 == r;
    }
  }

  /** The last day of a 400-year cycle is December 31st of a leap year. */
  lemma LastDayOf400(a: int)
    ensures ValidDate(Date(400 * a + 400, 12, 31))
    ensures DaysFromCivil(Date(400 * a + 400, 12, 31)) + EpochOrdinal == DaysIn400Years * a + 4 * DaysIn100Years
  {
    var y := 400 * a + 400;
    assert DaysBeforeYear(y) == DaysIn400Years * a + 3 * DaysIn100Years + 24 * DaysIn4Years + 3 * 365 by {
      YearStart(a, 3, 24, 3);
    }
    CycleEndIsLeap(a + 1, 0, 0);
    assert DaysBeforeMonth(y, 12) == 335 by {
      MonthTable(y);
    }
  }

  /** The last day of a 4-year cycle is December 31st of a leap year. */
  lemma LastDayOf4(a: int, b: int, c: int)
    requires 0 <= b <= 3 && 0 <= c <= 23
    ensures ValidDate(Date(400 * a + 100 * b + 4 * c + 4, 12, 31))
    ensures DaysFromCivil(Date(400 * a + 100 * b + 4 * c + 4, 12, 31)) + EpochOrdinal
         == DaysIn400Years * a + DaysIn100Years * b + DaysIn4Years * c + 4 * 365
  {
    var y := 400 * a + 100 * b + 4 * c + 4;
    assert DaysBeforeYear(y) == DaysIn400Years * a + DaysIn100Years * b + DaysIn4Years * c + 3 * 365 by {
      YearStart(a, b, c, 3);
    }
    CycleEndIsLeap(a, b, c + 1);
    assert DaysBeforeMonth(y, 12) == 335 by {
      MonthTable(y);
    }
  }

  /** Consecutive years are DaysInYear apart. */
  lemma YearLength(y: int)
    ensures DaysBeforeYear(y + 1) == DaysBeforeYear(y) + DaysInYear(y)
  {
    QuotientStep(4, y);
    QuotientStep(100, y);
    QuotientStep(400, y);
    DivisorsOfCentury(y);
  }

  /** A multiple of 400 is one of 100, and a multiple of 100 one of 4. */
  lemma DivisorsOfCentury(y: int)
    ensures y % 400 == 0 ==> y % 100 == 0
    ensures y % 100 == 0 ==> y % 4 == 0
  {
    if y % 400 == 0 {
      RemainderOf(100, 4 * (y / 400), 0);
    }
    if y % 100 == 0 {
      RemainderOf(4, 25 * (y / 100), 0);
    }
  }

  /** The quotient by k goes up by one exactly at the multiples of k. */
  lemma QuotientStep(k: int, y: int)
    requires k == 4 || k == 100 || k == 400
    ensures y / k == (y - 1) / k + (if y % k == 0 then 1 else 0)
  {
  }

  lemma {:induction false} YearsOrdered(y1: int, y2: int)
    requires y1 < y2
    ensures DaysBeforeYear(y1) + DaysInYear(y1) <= DaysBeforeYear(y2)
    decreases y2 - y1
  {
    YearLength(y1);
    if y1 + 1 < y2 {
      YearsOrdered(y1 + 1, y2);
    }
  }

  lemma {:induction false} MonthsOrdered(y: int, m1: int, m2: int)
    requires 1 <= m1 < m2 <= 12
    ensures DaysBeforeMonth(y, m1) + DaysInMonth(y, m1) <= DaysBeforeMonth(y, m2)
    decreases m2 - m1
  {
    if m1 + 1 < m2 {
      MonthsOrdered(y, m1 + 1, m2);
    }
  }

  /** A valid date lies inside its own year. */
  lemma DayOfYearBounds(d: Date)
    requires ValidDate(d)
    ensures 0 <= DaysBeforeMonth(d.year, d.month) + d.day - 1 < DaysInYear(d.year)
  {
    MonthTable(d.year);
    if d.month < 12 {
      MonthsOrdered(d.year, d.month, 12);
    }
    assert DaysBeforeMonth(d.year, d.month) >= 0 by {
      if d.month > 1 { MonthsOrdered(d.year, 1, d.month); }
    }
  }

  /** Distinct valid dates have distinct day counts, so CivilFromDays is the
      one and only inverse of DaysFromCivil. */
  lemma DaysFromCivilInjective(d1: Date, d2: Date)
    requires ValidDate(d1) && ValidDate(d2)
    requires DaysFromCivil(d1) == DaysFromCivil(d2)
    ensures d1 == d2
  {
    DayOfYearBounds(d1);
    DayOfYearBounds(d2);
    if d1.year < d2.year {
      YearsOrdered(d1.year, d2.year);
    } else if d2.year < d1.year {
      YearsOrdered(d2.year, d1.year);
    } else if d1.month < d2.month {
      MonthsOrdered(d1.year, d1.month, d2.month);
    } else if d2.month < d1.month {
      MonthsOrdered(d1.year, d2.month, d1.month);
    }
  }

  lemma CivilFromCivil(d: Date)
    requires ValidDate(d)
    ensures CivilFromDays(DaysFromCivil(d)) == d
  {
    DaysFromCivilInjective(CivilFromDays(DaysFromCivil(d)), d);
  }

  /** Year boundaries grow strictly with the year. */
  lemma YearStartsOrdered(y1: int, y2: int)
    requires y1 < y2
    ensures DaysBeforeYear(y1) < DaysBeforeYear(y2)
  {
    YearsOrdered(y1, y2);
  }

  /** Python's datetime covers years 1 to 9999; this is that window in days
      after 1970-01-01. */
  const MinDays: int := -719162
  const MaxDays: int := 2932896

  lemma YearWindow(days: int)
    ensures 1 <= CivilFromDays(days).year <= 9999 <==> MinDays <= days <= MaxDays
  {
    var d := CivilFromDays(days);
    DayOfYearBounds(d);
    YearLength(d.year);
    assert DaysBeforeYear(1) == 0;
    assert DaysBeforeYear(10000) == 3652059;
    if d.year < 1 {
      if d.year + 1 < 1 { YearStartsOrdered(d.year + 1, 1); }
    } else if d.year > 1 {
      YearStartsOrdered(1, d.year);
    }
    if d.year > 9999 {
      if 10000 < d.year { YearStartsOrdered(10000, d.year); }
    } else if d.year + 1 < 10000 {
      YearStartsOrdered(d.year + 1, 10000);
    }
  }
}
