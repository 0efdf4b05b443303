/** The proleptic Gregorian calendar on day numbers (day 0 is Monday 0001-01-01),
    and ISO 8601 weeks on top of it. Years may be zero or negative, as in Go. */
module Calendar {

  // ---- years ----

  predicate IsLeap(y: int) {
    y % 4 == 0 && (y % 100 != 0 || y % 400 == 0)
  }

  function DaysInYear(y: int): int {
    if IsLeap(y) then 366 else 365
  }

  /** The day number of January 1 of year y: the lengths of the years between. */
  function YearStart(y: int): int
    decreases if y >= 1 then y - 1 else 1 - y
  {
    if y == 1 then 0
    else if y > 1 then YearStart(y - 1) + DaysInYear(y - 1)
    else YearStart(y + 1) - DaysInYear(y)
  }

  lemma NextYearStart(y: int)
    ensures YearStart(y + 1) == YearStart(y) + DaysInYear(y)
  {
  }

  lemma {:induction false} YearStartMonotone(y: int, z: int)
    requires y <= z
    ensures YearStart(y) + 365 * (z - y) <= YearStart(z) <= YearStart(y) + 366 * (z - y)
    decreases z - y
  {
    if y >= z {
    } else {
      YearStartMonotone(y, z - 1);
      NextYearStart(z - 1);
    }
  }

  /** The year of a day, found by walking away from 0001-01-01. */
  function YearOf(d: int): (y: int)
    ensures YearStart(y) <= d < YearStart(y + 1)
  {
    if d >= 0 then YearUp(d, 1) else YearDown(d, 0)
  }

  function YearUp(d: int, from: int): (y: int)
    requires YearStart(from) <= d
    ensures YearStart(y) <= d < YearStart(y + 1)
    decreases d - YearStart(from)
  {
    NextYearStart(from);
    if d < YearStart(from + 1) then from else YearUp(d, from + 1)
  }

  function YearDown(d: int, from: int): (y: int)
    requires d < YearStart(from + 1)
    ensures YearStart(y) <= d < YearStart(y + 1)
    decreases YearStart(from + 1) - d
  {
    NextYearStart(from);
    if YearStart(from) <= d then from else YearDown(d, from - 1)
  }

  lemma YearOfUnique(d: int, y: int)
    requires YearStart(y) <= d < YearStart(y + 1)
    ensures YearOf(d) == y
  {
    if YearOf(d) < y {
      YearStartMonotone(YearOf(d) + 1, y);
    } else if y < YearOf(d) {
      YearStartMonotone(y + 1, YearOf(d));
    }
  }

  // ---- months and civil dates ----

  function DaysInMonth(y: int, m: int): int {
    if m == 2 then (if IsLeap(y) then 29 else 28)
    else if m == 4 || m == 6 || m == 9 || m == 11 then 30
    else 31
  }

  /** Days of year y before its month m; month 13 stands for the whole year. */
  function DaysBeforeMonth(y: int, m: int): int
    requires 1 <= m <= 13
    decreases m
  {
    if m == 1 then 0 else DaysBeforeMonth(y, m - 1) + DaysInMonth(y, m - 1)
  }

  lemma DaysBeforeMonthTable(y: int)
    ensures var l := if IsLeap(y) then 1 else 0;
            && DaysBeforeMonth(y, 1) == 0 && DaysBeforeMonth(y, 2) == 31 && DaysBeforeMonth(y, 3) == 59 + l
            && DaysBeforeMonth(y, 4) == 90 + l && DaysBeforeMonth(y, 5) == 120 + l && DaysBeforeMonth(y, 6) == 151 + l
            && DaysBeforeMonth(y, 7) == 181 + l && DaysBeforeMonth(y, 8) == 212 + l && DaysBeforeMonth(y, 9) == 243 + l
            && DaysBeforeMonth(y, 10) == 273 + l && DaysBeforeMonth(y, 11) == 304 + l
            && DaysBeforeMonth(y, 12) == 334 + l && DaysBeforeMonth(y, 13) == 365 + l
  {
    var l := if IsLeap(y) then 1 else 0;
    assert DaysBeforeMonth(y, 2) == 31;
    assert DaysBeforeMonth(y, 3) == 59 + l;
    assert DaysBeforeMonth(y, 4) == 90 + l;
    assert DaysBeforeMonth(y, 5) == 120 + l;
    assert DaysBeforeMonth(y, 6) == 151 + l;
    assert DaysBeforeMonth(y, 7) == 181 + l;
    assert DaysBeforeMonth(y, 8) == 212 + l;
    assert DaysBeforeMonth(y, 9) == 243 + l;
    assert DaysBeforeMonth(y, 10) == 273 + l;
    assert DaysBeforeMonth(y, 11) == 304 + l;
    assert DaysBeforeMonth(y, 12) == 334 + l;
  }

  lemma {:induction false} DaysBeforeMonthMonotone(y: int, m: int, n: int)
    requires 1 <= m < n <= 13
    ensures DaysBeforeMonth(y, m) + DaysInMonth(y, m) <= DaysBeforeMonth(y, n)
    decreases n
  {
    if m >= n - 1 {
    } else {
      DaysBeforeMonthMonotone(y, m, n - 1);
    }
  }

  datatype Civil = Civil(year: int, month: int, day: int)

  predicate ValidCivil(c: Civil) {
    1 <= c.month <= 12 && 1 <= c.day <= DaysInMonth(c.year, c.month)
  }

  predicate CivilLess(a: Civil, b: Civil) {
    a.year < b.year || (a.year == b.year && (a.month < b.month || (a.month == b.month && a.day < b.day)))
  }

  /** time.Date at midnight: the month is normalised, the day may be any integer. */
  function DateAt(year: int, month: int, day: int): int
    decreases if month > 12 then month - 12 else if month < 1 then 1 - month else 0
  {
    if month > 12 then DateAt(year + 1, month - 12, day)
    else if month < 1 then DateAt(year - 1, month + 12, day)
    else YearStart(year) + DaysBeforeMonth(year, month) + day - 1
  }

  function DayOf(c: Civil): int {
    DateAt(c.year, c.month, c.day)
  }

  /** The month that holds the k-th day of year y. */
  function MonthIn(y: int, k: int, m: int): int
    requires 1 <= m <= 12
    decreases m
  {
    if m == 1 || DaysBeforeMonth(y, m) <= k then m else MonthIn(y, k, m - 1)
  }

  function CivilOf(d: int): Civil {
    var y := YearOf(d);
    var k := d - YearStart(y);
    var m := MonthIn(y, k, 12);
    Civil(y, m, k - DaysBeforeMonth(y, m) + 1)
  }

  lemma {:induction false} MonthInBrackets(y: int, k: int, m: int)
    requires 1 <= m <= 12 && 0 <= k < DaysBeforeMonth(y, m + 1)
    ensures 1 <= MonthIn(y, k, m) <= m
    ensures DaysBeforeMonth(y, MonthIn(y, k, m)) <= k < DaysBeforeMonth(y, MonthIn(y, k, m) + 1)
    decreases m
  {
    if m == 1 {
      NonNegativeBeforeMonth(y, 1);
    }
    hide DaysInMonth, IsLeap;
    if m == 1 {
      assert DaysBeforeMonth(y, 1) == 0;
    } else {
      hide DaysBeforeMonth;
      if DaysBeforeMonth(y, m) > k { MonthInBrackets(y, k, m - 1); }
    }
  }

  lemma DayToCivil(d: int)
    ensures ValidCivil(CivilOf(d)) && DayOf(CivilOf(d)) == d
  {
    hide YearStart, YearOf;
    var y := YearOf(d);
    NextYearStart(y);
    DaysBeforeMonthTable(y);
    MonthInBrackets(y, d - YearStart(y), 12);
  }

  lemma CivilToDay(c: Civil)
    requires ValidCivil(c)
    ensures CivilOf(DayOf(c)) == c
  {
    var y := c.year;
    var k := DaysBeforeMonth(y, c.month) + c.day - 1;
    hide YearStart, YearOf, DaysBeforeMonth, IsLeap;
    DayWithinYear(c);
    NextYearStart(y);
    YearOfUnique(DayOf(c), y);
    MonthInUnique(y, k, c.month);
  }

  lemma DayWithinYear(c: Civil)
    requires ValidCivil(c)
    ensures 0 <= DaysBeforeMonth(c.year, c.month) + c.day - 1 < DaysInYear(c.year)
  {
    DaysBeforeMonthTable(c.year);
    DaysBeforeMonthMonotone(c.year, c.month, 13);
    NonNegativeBeforeMonth(c.year, c.month);
  }

  lemma MonthInUnique(y: int, k: int, m: int)
    requires 1 <= m <= 12 && DaysBeforeMonth(y, m) <= k < DaysBeforeMonth(y, m + 1)
    ensures MonthIn(y, k, 12) == m
  {
    hide DaysBeforeMonth;
    if m + 1 <= 12 { WeakMonotone(y, m + 1, 13); }
    NonNegativeBeforeMonth(y, m);
    MonthInBrackets(y, k, 12);
    var n := MonthIn(y, k, 12);
    if n < m {
      WeakMonotone(y, n + 1, m);
    } else if m < n {
      WeakMonotone(y, m + 1, n);
    }
  }

  lemma WeakMonotone(y: int, m: int, n: int)
    requires 1 <= m <= n <= 13
    ensures DaysBeforeMonth(y, m) <= DaysBeforeMonth(y, n)
  {
    if m < n { DaysBeforeMonthMonotone(y, m, n); }
  }

  lemma CivilOrder(a: Civil, b: Civil)
    requires ValidCivil(a) && ValidCivil(b)
    ensures DayOf(a) < DayOf(b) <==> CivilLess(a, b)
  {
    CivilLessIsEarlier(a, b);
    CivilLessIsEarlier(b, a);
  }

  lemma CivilLessIsEarlier(a: Civil, b: Civil)
    requires ValidCivil(a) && ValidCivil(b)
    ensures CivilLess(a, b) ==> DayOf(a) < DayOf(b)
  {
    hide YearStart, DaysBeforeMonth;
    if a.year < b.year {
      DayWithinYear(a);
      DayWithinYear(b);
      NextYearStart(a.year);
      YearStartMonotone(a.year + 1, b.year);
    } else if a.year == b.year && a.month < b.month {
      DaysBeforeMonthMonotone(a.year, a.month, b.month);
    }
  }

  lemma NonNegativeBeforeMonth(y: int, m: int)
    requires 1 <= m <= 13
    ensures DaysBeforeMonth(y, m) >= 0
  {
    if m > 1 { DaysBeforeMonthMonotone(y, 1, m); }
  }

  /** time.AddDate: month and day overflow are normalised by DateAt. */
  function AddDate(d: int, months: int, days: int): int {
    var c := CivilOf(d);
    DateAt(c.year, c.month + months, c.day + days)
  }

  lemma AddDaysIsPlus(d: int, days: int)
    ensures AddDate(d, 0, days) == d + days
  {
    DayToCivil(d);
  }

  // ---- months as a line ----

  /** Consecutive months have consecutive indices. */
  function MonthIndex(y: int, m: int): int {
    12 * y + m - 1
  }

  function MonthStart(i: int): int {
    DateAt(i / 12, i % 12 + 1, 1)
  }

  function MonthIndexOf(d: int): int {
    var c := CivilOf(d);
    MonthIndex(c.year, c.month)
  }

  lemma MonthDayNumber(i: int, day: int)
    ensures DateAt(i / 12, i % 12 + 1, day) == MonthStart(i) + day - 1
  {
    hide YearStart, DaysBeforeMonth;
  }

  lemma NextMonthStart(i: int)
    ensures MonthStart(i + 1) == MonthStart(i) + DaysInMonth(i / 12, i % 12 + 1)
  {
    hide YearStart;
    var y, m := i / 12, i % 12 + 1;
    if m == 12 {
      assert (i + 1) / 12 == y + 1 && (i + 1) % 12 == 0;
      NextYearStart(y);
      DaysBeforeMonthTable(y);
    } else {
      assert (i + 1) / 12 == y && (i + 1) % 12 == m;
    }
  }

  lemma MonthOfDay(d: int, i: int)
    ensures MonthIndexOf(d) == i <==> MonthStart(i) <= d < MonthStart(i + 1)
  {
    hide YearStart, CivilOf, DaysBeforeMonth;
    DayToCivil(d);
    NextMonthStart(i);
    var y, m := i / 12, i % 12 + 1;
    if MonthStart(i) <= d < MonthStart(i + 1) {
      var c := Civil(y, m, d - MonthStart(i) + 1);
      assert DayOf(c) == d;
      CivilToDay(c);
    }
    if MonthIndexOf(d) == i {
      assert CivilOf(d).year == y && CivilOf(d).month == m;
    }
  }

  // ---- ISO weeks ----

  datatype Week = Week(year: int, week: int)

  /** The Monday of the week that holds day d. */
  function MondayOf(d: int): int {
    d - d % 7
  }

  /** time.ISOWeek: the week belongs to the year of its Thursday. */
  function WeekOf(d: int): Week {
    var thursday := MondayOf(d) + 3;
    var y := YearOf(thursday);
    Week(y, (thursday - YearStart(y)) / 7 + 1)
  }

  /** ISOWeekMonday: the Monday of the week of January 4, plus whole weeks.
      Go's Weekday has Sunday as 0, which the code renumbers to 7. */
  function WeekMonday(w: Week): int {
    var jan4 := DateAt(w.year, 1, 4);
    var goWeekday := (jan4 + 1) % 7;
    var wd := if goWeekday == 0 then 7 else goWeekday;
    jan4 - (wd - 1) + (w.week - 1) * 7
  }

  /** ISO 8601: a long year starts on a Thursday, or on a Wednesday when leap. */
  function WeeksInYear(y: int): int {
    if YearStart(y) % 7 == 3 || (IsLeap(y) && YearStart(y) % 7 == 2) then 53 else 52
  }

  predicate WeekExists(w: Week) {
    1 <= w.week <= WeeksInYear(w.year)
  }

  lemma WeekMondayIsMonday(w: Week)
    ensures WeekMonday(w) % 7 == 0
    ensures WeekMonday(w) == MondayOf(YearStart(w.year) + 3) + (w.week - 1) * 7
  {
    hide YearStart;
    var jan4 := DateAt(w.year, 1, 4);
    assert jan4 == YearStart(w.year) + 3;
    if jan4 % 7 == 6 {
      assert (jan4 + 1) % 7 == 0;
    } else {
      assert (jan4 + 1) % 7 == jan4 % 7 + 1;
    }
  }

  /** The years tile the weeks: week 1 of the next year follows the last week. */
  lemma YearsTileWeeks(y: int)
    ensures WeekMonday(Week(y + 1, 1)) == WeekMonday(Week(y, 1)) + 7 * WeeksInYear(y)
  {
    hide YearStart, WeekMonday;
    WeekMondayIsMonday(Week(y, 1));
    WeekMondayIsMonday(Week(y + 1, 1));
    NextYearStart(y);
  }

  /** Weeks that exist and days are mutually inverse: a week is exactly the seven
      days that it is the week of. */
  lemma WeekOfMonday(w: Week, d: int)
    requires WeekExists(w) && WeekMonday(w) <= d < WeekMonday(w) + 7
    ensures WeekOf(d) == w
  {
    hide YearStart, YearOf, WeekMonday;
    WeekMondayIsMonday(w);
    YearsTileWeeks(w.year);
    WeekMondayIsMonday(Week(w.year, 1));
    WeekMondayIsMonday(Week(w.year + 1, 1));
    var thursday := MondayOf(d) + 3;
    assert MondayOf(d) == WeekMonday(w);
    assert YearStart(w.year) <= thursday < YearStart(w.year + 1);
    YearOfUnique(thursday, w.year);
  }

  lemma WeekOfExists(d: int)
    ensures WeekExists(WeekOf(d))
    ensures WeekMonday(WeekOf(d)) == MondayOf(d)
  {
    hide YearStart, YearOf, WeekMonday;
    var thursday := MondayOf(d) + 3;
    var y := YearOf(thursday);
    NextYearStart(y);
    WeekMondayIsMonday(WeekOf(d));
    var k := thursday - YearStart(y);
    assert thursday % 7 == 3;
    YearsTileWeeks(y);
    WeekMondayIsMonday(Week(y, 1));
    WeekMondayIsMonday(Week(y + 1, 1));
  }

  /** The round trip that ParseISOWeek checks succeeds exactly on the weeks that exist. */
  lemma RoundTripIffExists(w: Week)
    ensures WeekOf(WeekMonday(w)) == w <==> WeekExists(w)
  {
    WeekOfExists(WeekMonday(w));
    if WeekExists(w) { WeekOfMonday(w, WeekMonday(w)); }
  }

  // ---- weeks as a line ----

  /** Consecutive weeks have consecutive indices. */
  function WeekIndex(w: Week): int {
    WeekMonday(w) / 7
  }

  function WeekAt(i: int): Week {
    WeekOf(7 * i)
  }

  lemma WeekAtIndex(i: int)
    ensures WeekExists(WeekAt(i)) && WeekIndex(WeekAt(i)) == i && WeekMonday(WeekAt(i)) == 7 * i
  {
    hide WeekOf, WeekMonday, WeeksInYear;
    WeekOfExists(7 * i);
    assert (7 * i) % 7 == 0;
  }

  lemma IndexAtWeek(w: Week)
    requires WeekExists(w)
    ensures WeekAt(WeekIndex(w)) == w && WeekMonday(w) == 7 * WeekIndex(w)
  {
    WeekMondayIsMonday(w);
    assert WeekMonday(w) == 7 * WeekIndex(w);
    WeekOfMonday(w, WeekMonday(w));
  }

  lemma WeekOfIsIndex(d: int, i: int)
    ensures WeekOf(d) == WeekAt(i) <==> d / 7 == i
  {
    WeekOfExists(d);
    WeekAtIndex(i);
    assert MondayOf(d) == 7 * (d / 7);
  }

  predicate WeekLess(a: Week, b: Week) {
    a.year < b.year || (a.year == b.year && a.week < b.week)
  }

  lemma {:induction false} FirstMondays(y: int, z: int)
    requires y <= z
    ensures WeekMonday(Week(z, 1)) >= WeekMonday(Week(y, 1))
    decreases z - y
  {
    if y >= z {
    } else {
      FirstMondays(y, z - 1);
      YearsTileWeeks(z - 1);
    }
  }

  lemma WeekOrder(a: Week, b: Week)
    requires WeekExists(a) && WeekExists(b)
    ensures WeekIndex(a) < WeekIndex(b) <==> WeekLess(a, b)
  {
    WeekLessIsEarlier(a, b);
    WeekLessIsEarlier(b, a);
    if !WeekLess(a, b) && !WeekLess(b, a) { assert a == b; }
  }

  lemma WeekLessIsEarlier(a: Week, b: Week)
    requires WeekExists(a) && WeekExists(b)
    ensures WeekLess(a, b) ==> WeekIndex(a) < WeekIndex(b)
  {
    WeekMondayIsMonday(a);
    WeekMondayIsMonday(b);
    WeekMondayIsMonday(Week(b.year, 1));
    if a.year < b.year {
      YearsTileWeeks(a.year);
      FirstMondays(a.year + 1, b.year);
      WeekMondayIsMonday(Week(a.year, 1));
    }
  }

  // ---- the closed form of year starts ----

  function LeapDays(y: int): int {
    y / 4 - y / 100 + y / 400
  }

  lemma QuotientStep(y: int, k: int)
    requires k == 4 || k == 100 || k == 400
    ensures y / k == (y - 1) / k + if y % k == 0 then 1 else 0
  {
    if k == 4 {
    } else if k == 100 {
    } else {
    }
  }

  lemma MultipleOf400(q: int)
    ensures (400 * q) % 100 == 0
  {
    assert 400 * q == 100 * (4 * q);
  }

  lemma MultipleOf100(q: int)
    ensures (100 * q) % 4 == 0
  {
    assert 100 * q == 4 * (25 * q);
  }

  lemma LeapDaysStep(y: int)
    ensures LeapDays(y) == LeapDays(y - 1) + if IsLeap(y) then 1 else 0
  {
    QuotientStep(y, 4);
    QuotientStep(y, 100);
    QuotientStep(y, 400);
    if y % 400 == 0 { MultipleOf400(y / 400); }
    if y % 100 == 0 { MultipleOf100(y / 100); }
  }

  lemma {:induction false} YearStartClosedForm(y: int)
    ensures YearStart(y) == 365 * (y - 1) + LeapDays(y - 1)
    decreases if y >= 1 then y - 1 else 1 - y
  {
    hide LeapDays, IsLeap;
    if y == 1 {
      assert LeapDays(0) == 0 by { LeapDaysOfZero(); }
    } else if y > 1 {
      YearStartClosedForm(y - 1);
      LeapDaysStep(y - 1);
    } else {
      YearStartClosedForm(y + 1);
      LeapDaysStep(y);
    }
  }

  lemma LeapDaysOfZero()
    ensures LeapDays(0) == 0
  {
  }

  /** Every day up to the year 9999 is in a week of a year up to 9999. */
  lemma LastFourDigitWeek(d: int)
    requires YearOf(d) <= 9999
    ensures WeekOf(d).year <= 9999
  {
    hide YearStart, YearOf;
    YearStartClosedForm(10000);
    assert YearStart(10000) == 3652059;
    assert d < 3652059 by { YearStartMonotone(YearOf(d) + 1, 10000); }
    var thursday := MondayOf(d) + 3;
    assert thursday < 3652059;
    var y := YearOf(thursday);
    if y >= 10000 { YearStartMonotone(10000, y); }
  }
}
