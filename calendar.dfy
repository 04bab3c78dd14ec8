/**
 * The calendar month of a day number, standing for JavaScript's
 * `Date.prototype.getMonth` and `getFullYear` in the store's monthly-income
 * figure. Day 0 is 1970-01-01 in the proleptic Gregorian calendar.
 */
module Calendar {
  datatype YearMonth = YearMonth(year: int, month: int)

  /**
   * Civil year and month (1 to 12) of `day`, by the usual 400-year-era
   * decomposition. `YearMonthOfDaysFromCivil` below proves it against a direct
   * count of days.
   */
  function YearMonthOf(day: int): (ym: YearMonth)
    ensures 1 <= ym.month <= 12
  {
    var z := day + 719468;              // days since 0000-03-01
    var era := z / 146097;              // Dafny's division floors for a positive divisor
    var doe := z - era * 146097;        // day of the era, 0 to 146096
    var yoe := YearOfEraDay(doe);
    var mp := MonthFromMarch(doe - EraDaysBeforeYear(yoe));
    var month := if mp < 10 then mp + 3 else mp - 9;
    YearMonth(yoe + era * 400 + (if month <= 2 then 1 else 0), month)
  }

  /** The year (0 to 399) of an era, counted from 1 March, holding the day `doe` of the era. */
  function YearOfEraDay(doe: int): int
  {
    (doe - doe / 1460 + doe / 36524 - doe / 146096) / 365
  }

  /** The days of an era, counted from 1 March, before its year `yoe`. */
  function EraDaysBeforeYear(yoe: int): int
  {
    365 * yoe + yoe / 4 - yoe / 100
  }

  /** The month (0 for March to 11 for February) holding the day `doy` of a year counted from 1 March. */
  function MonthFromMarch(doy: int): int
  {
    (5 * doy + 2) / 153
  }

  // ----- The calendar, counted directly -----

  /** Leap years of the Gregorian calendar. */
  predicate IsLeapYear(y: int)
  {
    y % 4 == 0 && (y % 100 != 0 || y % 400 == 0)
  }

  function DaysInMonth(y: int, m: int): int
    requires 1 <= m <= 12
  {
    if m == 2 then (if IsLeapYear(y) then 29 else 28)
    else if m == 4 || m == 6 || m == 9 || m == 11 then 30
    else 31
  }

  /** The number of leap years among the years before `y` (counted from a fixed origin). */
  function LeapYearsBefore(y: int): int
  {
    (y - 1) / 4 - (y - 1) / 100 + (y - 1) / 400
  }

  /** The days of year `y` before the first of month `m`. */
  function DaysBeforeMonth(y: int, m: int): int
    requires 1 <= m <= 12
  {
    [0, 31, 59, 90, 120, 151, 181, 212, 243, 273, 304, 334][m - 1]
    + (if m > 2 && IsLeapYear(y) then 1 else 0)
  }

  /** The day number of the date `y`-`m`-`d`: 365 days a year, plus the leap days between. */
  function DaysFromCivil(y: int, m: int, d: int): int
    requires 1 <= m <= 12 && 1 <= d <= DaysInMonth(y, m)
  {
    365 * (y - 1970) + LeapYearsBefore(y) - LeapYearsBefore(1970) + DaysBeforeMonth(y, m) + d - 1
  }

  /** One more leap day is counted after a leap year, and none after another year. */
  lemma LeapYearsStep(y: int)
    ensures LeapYearsBefore(y + 1) == LeapYearsBefore(y) + (if IsLeapYear(y) then 1 else 0)
  {
    FloorStep(y, 4);
    FloorStep(y, 100);
    FloorStep(y, 400);
    if y % 100 == 0 {
      DivUnique(y, 4, 25 * (y / 100), 0);
    }
    if y % 400 == 0 {
      DivUnique(y, 100, 4 * (y / 400), 0);
    }
  }

  /** Euclidean division by a positive `k` has one quotient and one remainder. */
  lemma DivUnique(a: int, k: int, q: int, r: int)
    requires k > 0 && a == k * q + r && 0 <= r < k
    ensures a / k == q && a % k == r
  {
    var q', r' := a / k, a % k;
    assert a == k * q' + r' && 0 <= r' < k;
    if q' > q {
      MulLe(k, q + 1, q');
    } else if q' < q {
      MulLe(k, q' + 1, q);
    }
  }

  lemma MulLe(k: int, a: int, b: int)
    requires k > 0 && a <= b
    ensures k * a <= k * b
  {
    assert k * b - k * a == k * (b - a);
  }

  /** A quotient grows by one exactly at the multiples of the divisor. */
  lemma FloorStep(y: int, k: int)
    requires k > 0
    ensures y / k == (y - 1) / k + (if y % k == 0 then 1 else 0)
  {
    var q, r := (y - 1) / k, (y - 1) % k;
    assert y - 1 == k * q + r && 0 <= r < k;
    if r == k - 1 {
      DivUnique(y, k, q + 1, 0);
    } else {
      DivUnique(y, k, q, r + 1);
    }
  }

  /** Day numbers run on without gaps from one day to the next, across months and years. */
  lemma DaysFromCivilSuccessor(y: int, m: int, d: int)
    requires 1 <= m <= 12 && 1 <= d <= DaysInMonth(y, m)
    ensures d < DaysInMonth(y, m) ==> DaysFromCivil(y, m, d + 1) == DaysFromCivil(y, m, d) + 1
    ensures d == DaysInMonth(y, m) && m < 12 ==> DaysFromCivil(y, m + 1, 1) == DaysFromCivil(y, m, d) + 1
    ensures d == DaysInMonth(y, m) && m == 12 ==> DaysFromCivil(y + 1, 1, 1) == DaysFromCivil(y, m, d) + 1
  {
    LeapYearsStep(y);
  }

  /** The epoch is 1 January 1970. */
  lemma DaysFromCivilEpoch()
    ensures DaysFromCivil(1970, 1, 1) == 0
  {
  }

  // ----- The arithmetic of YearMonthOf, step by step -----

  /**
   * The day of an era, written with the era's centuries `c`, its four-year
   * cycles `q` within the century and its years `r` within the cycle, gives
   * back the year of the era.
   */
  lemma CyclesOfEra(c: int, q: int, r: int, doy: int)
    requires 0 <= c <= 3 && 0 <= q <= 24 && 0 <= r <= 3 && 0 <= doy <= 365
    requires doy == 365 ==> r == 3 && (q != 24 || c == 3)
    ensures var doe := 36524 * c + 1461 * q + 365 * r + doy;
            (doe - doe / 1460 + doe / 36524 - doe / 146096) / 365 == 100 * c + 4 * q + r
  {
    var doe := 36524 * c + 1461 * q + 365 * r + doy;
    var e1 := if q + 24 * c + 365 * r + doy >= 1460 then 1 else 0;
    assert doe / 1460 == 25 * c + q + e1;
    var last := if doe == 146096 then 1 else 0;
    assert doe / 36524 == c + last;
    assert doe / 146096 == last;
  }

  /**
   * Within a 400-year era counted from 1 March, the year of the era is
   * recovered from the day of the era.
   */
  lemma YearOfEra(yoe: int, doy: int)
    requires 0 <= yoe <= 399 && 0 <= doy <= 365
    requires doy == 365 ==> (yoe + 1) % 4 == 0 && ((yoe + 1) % 100 != 0 || yoe == 399)
    ensures YearOfEraDay(EraDaysBeforeYear(yoe) + doy) == yoe
  {
    var c, q, r := yoe / 100, (yoe % 100) / 4, yoe % 4;
    assert yoe == 100 * c + 4 * q + r;
    assert yoe / 4 == 25 * c + q;
    CyclesOfEra(c, q, r, doy);
  }

  /** Within a year counted from 1 March, the month is recovered from the day of the year. */
  lemma MonthOfYear(mp: int, d: int, days: int)
    requires 0 <= mp <= 11 && 1 <= d <= days
    requires days == (if mp == 11 then 29 else if mp == 1 || mp == 3 || mp == 6 || mp == 8 then 30 else 31)
    ensures MonthFromMarch((153 * mp + 2) / 5 + d - 1) == mp
  {
  }

  /** `YearMonthOf` assembled from the values of its steps. */
  lemma YearMonthOfSteps(day: int, era: int, doe: int, yoe: int, mp: int)
    requires (day + 719468) / 146097 == era
    requires day + 719468 - era * 146097 == doe
    requires YearOfEraDay(doe) == yoe
    requires MonthFromMarch(doe - EraDaysBeforeYear(yoe)) == mp && 0 <= mp <= 11
    ensures YearMonthOf(day)
            == YearMonth(yoe + era * 400 + (if mp >= 10 then 1 else 0), if mp < 10 then mp + 3 else mp - 9)
  {
  }

  /**
   * `YearMonthOf` on the day `d` of the month `mp` (counted from March) of
   * the year `yoe` of the era `era` (counted from 1 March of year 0).
   */
  lemma YearMonthOfEraDay(era: int, yoe: int, mp: int, d: int, days: int)
    requires 0 <= yoe <= 399 && 0 <= mp <= 11 && 1 <= d <= days
    requires days == (if mp == 11 then 29 else if mp == 1 || mp == 3 || mp == 6 || mp == 8 then 30 else 31)
    requires mp == 11 && d == 29 ==> (yoe + 1) % 4 == 0 && ((yoe + 1) % 100 != 0 || yoe == 399)
    ensures YearMonthOf(era * 146097 + EraDaysBeforeYear(yoe) + (153 * mp + 2) / 5 + d - 1 - 719468)
            == YearMonth(yoe + era * 400 + (if mp >= 10 then 1 else 0), if mp < 10 then mp + 3 else mp - 9)
  {
    var doy := (153 * mp + 2) / 5 + d - 1;
    MonthOfYear(mp, d, days);
    assert 0 <= doy <= 365 by {
      assert 0 <= (153 * mp + 2) / 5 <= 337;
    }
    assert doy == 365 ==> mp == 11 && d == 29;
    YearOfEra(yoe, doy);
    var doe := EraDaysBeforeYear(yoe) + doy;
    assert 0 <= doe <= 146096;
    var z := era * 146097 + doe;
    assert z / 146097 == era;
    YearMonthOfSteps(z - 719468, era, doe, yoe, mp);
  }

  /**
   * The day number of a date, counted from 1 March of year 0 instead of the
   * epoch, splits into whole 400-year eras and a day within the era.
   */
  lemma DaysFromCivilByEra(y: int, m: int, d: int)
    requires 1 <= m <= 12 && 1 <= d <= DaysInMonth(y, m)
    ensures var y' := if m <= 2 then y - 1 else y;
            var mp := if m > 2 then m - 3 else m + 9;
            var era, yoe := y' / 400, y' % 400;
            DaysFromCivil(y, m, d) + 719468
            == era * 146097 + EraDaysBeforeYear(yoe) + (153 * mp + 2) / 5 + d - 1
  {
    var y' := if m <= 2 then y - 1 else y;
    var era, yoe := y' / 400, y' % 400;
    assert yoe / 4 == y' / 4 - 100 * era;
    assert yoe / 100 == y' / 100 - 4 * era;
    if m > 2 {
      LeapYearsStep(y);
    }
  }

  /** `YearMonthOf` gives the calendar year and month of every date's day number. */
  lemma YearMonthOfDaysFromCivil(y: int, m: int, d: int)
    requires 1 <= m <= 12 && 1 <= d <= DaysInMonth(y, m)
    ensures YearMonthOf(DaysFromCivil(y, m, d)) == YearMonth(y, m)
  {
    var y' := if m <= 2 then y - 1 else y;
    var mp := if m > 2 then m - 3 else m + 9;
    var era, yoe := y' / 400, y' % 400;
    assert y' == era * 400 + yoe;
    DaysFromCivilByEra(y, m, d);
    if mp == 11 && d == 29 {
      LeapYearOfEra(y, era, yoe);
    }
    YearMonthOfEraDay(era, yoe, mp, d, if m == 2 then 29 else DaysInMonth(y, m));
    assert DaysFromCivil(y, m, d) == era * 146097 + EraDaysBeforeYear(yoe) + (153 * mp + 2) / 5 + d - 1 - 719468;
  }

  /** A leap year ends (on 29 February) a year of its era that the era-day arithmetic treats as leap. */
  lemma LeapYearOfEra(y: int, era: int, yoe: int)
    requires IsLeapYear(y) && 0 <= yoe <= 399 && yoe + 1 == y - era * 400
    ensures (yoe + 1) % 4 == 0 && ((yoe + 1) % 100 != 0 || yoe == 399)
  {
    DivUnique(yoe + 1, 4, y / 4 - 100 * era, y % 4);
    DivUnique(yoe + 1, 100, y / 100 - 4 * era, y % 100);
    DivUnique(yoe + 1, 400, y / 400 - era, y % 400);
  }

  // ----- Sample days -----

  /** The epoch falls in January 1970. */
  lemma EpochMonth()
    ensures YearMonthOf(0) == YearMonth(1970, 1)
  {
    YearMonthOfDaysFromCivil(1970, 1, 1);
  }

  /** The day before the epoch falls in December 1969. */
  lemma DayBeforeEpochMonth()
    ensures YearMonthOf(-1) == YearMonth(1969, 12)
  {
    assert DaysFromCivil(1969, 12, 31) == -1;
    YearMonthOfDaysFromCivil(1969, 12, 31);
  }

  /** A leap day falls in February. */
  lemma LeapDayMonth()
    ensures YearMonthOf(19782) == YearMonth(2024, 2)
  {
    assert DaysFromCivil(2024, 2, 29) == 19782;
    YearMonthOfDaysFromCivil(2024, 2, 29);
  }
}
