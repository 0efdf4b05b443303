/** The browser's mirror of the period arithmetic, and where it agrees with the
    server (ui/src/period.ts). A Date is its UTC day number; an invalid one is None. */
module ClientPeriod {
  import opened Base
  import opened Calendar
  import opened Digits
  import opened Period
  import opened PeriodLine
  import opened MonthView

  // ---- JavaScript's dates and numbers ----

  const EPOCH_DAY := 719_162
  const DATE_RANGE := 100_000_000

  /** A Date reaches 8.64e15 milliseconds, a hundred million days, to either side of 1970-01-01. */
  predicate InDateRange(d: int) {
    EPOCH_DAY - DATE_RANGE <= d <= EPOCH_DAY + DATE_RANGE
  }

  function TimeClip(d: int): Option<int> {
    if InDateRange(d) then Some(d) else None
  }

  /** The first such day is 20 April of the astronomical year -271821, the last 13 September 275760. */
  lemma DateRangeIs(d: int)
    ensures InDateRange(d) <==> DayOf(Civil(-271821, 4, 20)) <= d <= DayOf(Civil(275760, 9, 13))
  {
    YearStartClosedForm(-271821);
    YearStartClosedForm(275760);
    DaysBeforeMonthTable(-271821);
    DaysBeforeMonthTable(275760);
    hide YearStart, DaysBeforeMonth;
  }

  /** The day that Date.UTC(y, m, d) means: months from 0, and years 0 to 99 mean 1900 to 1999. */
  function DayUTC(y: int, m: int, d: int): int {
    DateAt(if 0 <= y <= 99 then 1900 + y else y, m + 1, d)
  }

  /** new Date(Date.UTC(y, m, d)). */
  function UTC(y: int, m: int, d: int): Option<int> {
    TimeClip(DayUTC(y, m, d))
  }

  /** d.setUTCDate(d.getUTCDate() + k). */
  function ShiftUTCDate(d: Option<int>, k: int): Option<int> {
    match d
    case Some(t) => TimeClip(AddDate(t, 0, k))
    case None => None
  }

  /** d.getUTCDay() || 7, for a valid date. */
  function DayNumber(d: int): int {
    var utcDay := (d + 1) % 7;
    if utcDay == 0 then 7 else utcDay
  }

  function Decimal(n: int): string {
    if n >= 0 then Pad(n, 1) else "-" + Pad(-n, 1)
  }

  /** String(n); None is NaN. */
  function NumberText(n: Option<int>): string {
    match n
    case Some(v) => Decimal(v)
    case None => "NaN"
  }

  /** String(n).padStart(2, "0"). */
  function Pad2(n: Option<int>): string {
    match n
    case Some(v) => if v >= 0 then Pad(v, 2) else "-" + Pad(-v, 1)
    case None => "NaN"
  }

  /** s.split("-"). */
  function Split(s: string): (parts: seq<string>)
    ensures |parts| > 0
  {
    if |s| == 0 then [""]
    else
      var rest := Split(s[1..]);
      if s[0] == '-' then [""] + rest else [[s[0]] + rest[0]] + rest[1..]
  }

  /** parseDate, on three runs of digits; Number("") is 0. Other texts give an
      invalid Date. */
  function ParseUTC(s: string): Option<int> {
    var p := Split(s);
    if |p| >= 3 && AllDigits(p[0]) && AllDigits(p[1]) && AllDigits(p[2])
    then UTC(Value(p[0]), Value(p[1]) - 1, Value(p[2]))
    else None
  }

  function FormatUTC(d: int): string {
    var c := CivilOf(d);
    DayToCivil(d);
    Decimal(c.year) + ("-" + (Pad(c.month, 2) + ("-" + Pad(c.day, 2))))
  }

  /** formatDate. */
  function DateText(d: Option<int>): string {
    match d
    case Some(t) => FormatUTC(t)
    case None => "NaN-NaN-NaN"
  }

  lemma ShiftIsPlus(d: int, k: int)
    ensures ShiftUTCDate(Some(d), k) == TimeClip(d + k)
  {
    AddDaysIsPlus(d, k);
    hide AddDate;
  }

  /** Years from 0 to 275759 lie inside the range as a whole. */
  lemma YearInRange(d: int)
    requires 0 <= YearOf(d) <= 275759
    ensures InDateRange(d)
  {
    hide YearOf, YearStart;
    RangeEnds();
    YearStartMonotone(YearOf(d) + 1, 275760);
    YearStartMonotone(0, YearOf(d));
  }

  /** The range ends on September 13 of the year 275760. */
  lemma RangeEnds()
    ensures YearStart(275760) == EPOCH_DAY + DATE_RANGE - 256
    ensures YearStart(275761) == EPOCH_DAY + DATE_RANGE + 110
    ensures YearStart(0) == -366
  {
    YearStartClosedForm(275760);
    YearStartClosedForm(275761);
    assert YearStart(1) == 0;
  }

  // ---- printing dates ----

  lemma {:induction false} NoLeadingZero(n: nat)
    requires n >= 1
    ensures Pad(n, 1)[0] != '0' && IsDigit(Pad(n, 1)[0])
  {
    if n < 10 {
    } else {
      NoLeadingZero(n / 10);
    }
  }

  lemma {:induction false} LeadingZero(n: nat, width: nat)
    requires width >= 2 && n < Power10(width - 1)
    ensures Pad(n, width)[0] == '0'
  {
    if width > 2 { LeadingZero(n / 10, width - 1); } else { assert Power10(1) == 10 * Power10(0); }
  }

  lemma {:induction false} WideEnough(n: nat, width: nat)
    requires width >= 1 && n >= Power10(width - 1)
    ensures Pad(n, width) == Pad(n, 1)
  {
    if width <= 1 {
    } else {
      WideEnough(n / 10, width - 1);
    }
  }

  /** A year prints alike on both sides exactly when it needs four digits or more. */
  lemma YearTexts(y: int)
    ensures Decimal(y) == LayoutYear(y) <==> y >= 1000 || y <= -1000
  {
    PowersOfTen();
    assert Power10(1) == 10 * Power10(0);
    if y >= 1000 {
      WideEnough(y, 4);
    } else if y <= -1000 {
      WideEnough(-y, 4);
    } else if y >= 0 {
      ShortWidth(y, 3);
    } else {
      ShortWidth(-y, 3);
    }
  }

  lemma {:induction false} ShortWidth(n: nat, width: nat)
    requires width >= 1 && n < Power10(width)
    ensures |Pad(n, 1)| <= width
  {
    assert Power10(1) == 10 * Power10(0);
    if n < 10 {
    } else {
      ShortWidth(n / 10, width - 1);
    }
  }

  /** A browser year and a server year with one text are one year. */
  lemma SameYear(y: int, z: int)
    requires Decimal(y) == LayoutYear(z)
    ensures y == z
  {
    hide Pad, Value;
    if y >= 0 { ValueOfPad(y, 1); } else { ValueOfPad(-y, 1); assert Decimal(y)[1..] == Pad(-y, 1); }
    if z >= 0 { ValueOfPad(z, 4); } else { ValueOfPad(-z, 4); assert LayoutYear(z)[1..] == Pad(-z, 4); }
    assert IsDigit(Pad(if y >= 0 then y else -y, 1)[0]);
    assert IsDigit(Pad(if z >= 0 then z else -z, 4)[0]);
  }

  /** A browser date and a server date with one text are one day, whose year needs four
      digits or more. */
  lemma DateTextsMeet(d: int, e: int)
    ensures FormatUTC(d) == FormatDate(e) <==> d == e && (YearOf(d) >= 1000 || YearOf(d) <= -1000)
  {
    hide CivilOf, Pad, Decimal, LayoutYear, YearOf, DayOf;
    DayToCivil(d);
    DayToCivil(e);
    YearOfCivil(d);
    var c, k := CivilOf(d), CivilOf(e);
    DayFits(c);
    DayFits(k);
    PowersOfTen();
    PadWidth(c.month, 2);
    PadWidth(k.month, 2);
    PadWidth(c.day, 2);
    PadWidth(k.day, 2);
    YearTexts(c.year);
    if FormatUTC(d) == FormatDate(e) {
      DatePartsMeet(Decimal(c.year), LayoutYear(k.year), Pad(c.month, 2), Pad(k.month, 2), Pad(c.day, 2),
                    Pad(k.day, 2));
      SameYear(c.year, k.year);
      PadOrder(c.month, k.month, 2);
      PadOrder(c.day, k.day, 2);
    }
  }

  lemma DatePartsMeet(y: string, z: string, m: string, n: string, s: string, t: string)
    requires |m| == |n| == |s| == |t| == 2
    requires y + ("-" + (m + ("-" + s))) == z + ("-" + (n + ("-" + t)))
    ensures y == z && m == n && s == t
  {
    var a, b := y + ("-" + (m + ("-" + s))), z + ("-" + (n + ("-" + t)));
    assert a[..|y|] == y && b[..|z|] == z;
    assert a[|y| + 1..|y| + 3] == m && b[|z| + 1..|z| + 3] == n;
    assert a[|y| + 4..] == s && b[|z| + 4..] == t;
  }

  lemma NoNaNDate(d: int)
    ensures FormatDate(d) != "NaN-NaN-NaN"
  {
    hide CivilOf, Pad, YearOf;
    var c := CivilOf(d);
    DayToCivil(d);
    LayoutYearWidth(c.year);
    assert FormatDate(d)[0] == LayoutYear(c.year)[0];
    assert c.year >= 0 ==> IsDigit(Pad(c.year, 4)[0]);
  }

  /** What the browser prints of a date, valid or not, is the server's text of day e
      exactly if it is that day and its year needs four digits or more. */
  lemma PrintedDate(d: Option<int>, e: int)
    ensures DateText(d) == FormatDate(e) <==> d == Some(e) && (YearOf(e) >= 1000 || YearOf(e) <= -1000)
  {
    hide FormatUTC, FormatDate, YearOf;
    NoNaNDate(e);
    if d.Some? { DateTextsMeet(d.value, e); }
  }

  // ---- toISOWeek ----

  /** Math.ceil(a / 7). */
  function CeilOfSevenths(a: int): int {
    -((-a) / 7)
  }

  /** What toISOWeek prints for a date. */
  function WeekTextOf(d: Option<int>): string {
    var thursday := if d.Some? then TimeClip(d.value - d.value % 7 + 3) else None;
    match thursday
    case None => "NaN-WNaN"
    case Some(t) =>
      var yearStart := UTC(YearOf(t), 0, 1);
      var weekNo := if yearStart.Some? then Some(CeilOfSevenths(t - yearStart.value + 1)) else None;
      Decimal(YearOf(t)) + ("-W" + Pad2(weekNo))
  }

  method ToISOWeek(dateStr: string) returns (res: string)
    ensures res == WeekTextOf(ParseUTC(dateStr))
  {
    hide AddDate, ParseUTC, Decimal, UTC, TimeClip, YearOf, CivilOf, YearStart;
    var d := ParseUTC(dateStr);
    var year: Option<int> := None;
    var weekNo: Option<int> := None;
    if d.Some? {
      var dayNum := DayNumber(d.value);
      ShiftIsPlus(d.value, 4 - dayNum);
      d := ShiftUTCDate(d, 4 - dayNum);
    }
    if d.Some? {
      YearOfCivil(d.value);
      year := Some(CivilOf(d.value).year);
      var yearStart := UTC(year.value, 0, 1);
      if yearStart.Some? {
        weekNo := Some(CeilOfSevenths(d.value - yearStart.value + 1));
      }
    }
    return NumberText(year) + ("-W" + Pad2(weekNo));
  }

  /** The browser's week text is the server's exactly for ISO years of four or more digits. */
  lemma WeekTextAgrees(d: int)
    requires InDateRange(d) && YearOf(d) >= 100
    ensures WeekTextOf(Some(d)) == FormatWeek(d) <==> WeekOf(d).year >= 1000
  {
    hide YearOf, YearStart, Decimal, YearText, Pad, UTC, InDateRange;
    var y, t := WeekOf(d).year, d - d % 7 + 3;
    WeekOfExists(d);
    assert MondayOf(d) + 3 == t;
    WeekYearAbout(d);
    assert InDateRange(t) by { ThursdayInRange(d); }
    if y >= 100 {
      WeekNumberAgrees(d);
      SameYearText(y);
      YearTexts(y);
      var n := Pad(WeekOf(d).week, 2);
      assert |Decimal(y) + ("-W" + n)| == |Decimal(y)| + |"-W" + n|;
      if WeekTextOf(Some(d)) == FormatWeek(d) { SamePrefix(Decimal(y), YearText(y), "-W" + n); }
    } else {
      FirstChars(d, d);
    }
  }

  lemma SamePrefix(a: string, b: string, s: string)
    requires a + s == b + s
    ensures a == b
  {
    assert |a| == |b|;
    assert (a + s)[..|a|] == a && (b + s)[..|b|] == b;
  }

  /** The week of a valid date has its Thursday in range, as the last day is a Saturday. */
  lemma ThursdayInRange(d: int)
    requires InDateRange(d) && YearOf(d) >= 0
    ensures InDateRange(d - d % 7 + 3)
  {
    hide YearOf, YearStart;
    RangeEnds();
    YearStartMonotone(0, YearOf(d));
  }

  lemma WeekNumberAgrees(d: int)
    requires InDateRange(d) && YearOf(d) >= 100 && WeekOf(d).year >= 100
    ensures UTC(WeekOf(d).year, 0, 1) == Some(YearStart(WeekOf(d).year))
    ensures CeilOfSevenths(d - d % 7 + 3 - YearStart(WeekOf(d).year) + 1) == WeekOf(d).week
  {
    hide YearOf, YearStart;
    var y := WeekOf(d).year;
    assert DayUTC(y, 0, 1) == YearStart(y) by { JanuaryFirst(y); }
    ThursdayInRange(d);
    RangeEnds();
    YearStartMonotone(0, y);
    assert y == YearOf(d - d % 7 + 3);
  }

  lemma JanuaryFirst(y: int)
    ensures DateAt(y, 1, 1) == YearStart(y)
  {
  }

  // ---- reading dates back ----

  lemma {:induction false} SplitDigits(a: string)
    requires AllDigits(a)
    ensures Split(a) == [a]
  {
    if |a| == 0 {
    } else {
      SplitDigits(a[1..]);
      assert [a[0]] + a[1..] == a;
    }
  }

  lemma {:induction false} SplitAtDash(a: string, rest: string)
    requires AllDigits(a)
    ensures Split(a + ("-" + rest)) == [a] + Split(rest)
  {
    var s := a + ("-" + rest);
    if |a| > 0 {
      SplitAtDash(a[1..], rest);
      assert s[1..] == a[1..] + ("-" + rest);
      assert [a[0]] + a[1..] == a;
    } else {
      assert s[1..] == rest;
    }
  }

  /** A date text whose year is a run of digits reads as the day it names, except
      that years 0 to 99 read as 1900 to 1999. */
  lemma ParseOfDigits(year: string, c: Civil)
    requires AllDigits(year) && ValidCivil(c) && Value(year) == c.year
    ensures ParseUTC(year + ("-" + (Pad(c.month, 2) + ("-" + Pad(c.day, 2))))) == UTC(c.year, c.month - 1, c.day)
  {
    hide Split, UTC, Pad, Value;
    var m, t := Pad(c.month, 2), Pad(c.day, 2);
    SplitAtDash(year, m + ("-" + t));
    SplitAtDash(m, t);
    SplitDigits(t);
    ValueOfPad(c.month, 2);
    ValueOfPad(c.day, 2);
  }

  /** The browser reads the server's dates rightly exactly from year 100 on; earlier
      ones land in the years 1900 to 1999. */
  lemma ClientReadsServerDate(s: string, d: int)
    requires ParseDate(s) == Some(d)
    ensures ParseUTC(s) == Some(DayUTC(CivilOf(d).year, CivilOf(d).month - 1, CivilOf(d).day))
    ensures YearOf(d) >= 100 ==> ParseUTC(s) == Some(d)
    ensures YearOf(d) < 100 ==> YearOf(ParseUTC(s).value) >= 1900 && ParseUTC(s).value >= d + 365
  {
    hide ParseDate, CivilOf, Pad, Value, ParseUTC, YearStart, YearOf;
    ParseDateAccepts(s, d);
    YearOfCivil(d);
    DayToCivil(d);
    var c := CivilOf(d);
    ValueOfPad(c.year, 4);
    ParseOfDigits(LayoutYear(c.year), c);
    assert c.year >= 100 ==> DayUTC(c.year, c.month - 1, c.day) == d;
    if c.year < 100 {
      ShiftedCentury(c);
      CenturyIsLater(d, DayUTC(c.year, c.month - 1, c.day));
      ShiftedInRange(c);
    } else {
      YearInRange(d);
    }
  }

  lemma CenturyIsLater(d: int, e: int)
    requires YearOf(d) <= 99 && YearOf(e) >= 1900
    ensures e >= d + 365
  {
    hide YearOf, YearStart;
    YearStartMonotone(YearOf(d) + 1, YearOf(e) - 1);
    YearStartMonotone(YearOf(e) - 1, YearOf(e));
  }

  lemma ShiftedInRange(c: Civil)
    requires ValidCivil(c) && 0 <= c.year <= 99
    ensures InDateRange(DayUTC(c.year, c.month - 1, c.day))
  {
    hide YearOf, YearStart;
    var y := 1900 + c.year;
    RangeEnds();
    YearStartMonotone(0, y);
    YearStartMonotone(y, 275760);
    DaysBeforeMonthTable(y);
  }

  /** toISOWeek agrees with the server on exactly the dates whose ISO year has four digits. */
  lemma ToISOWeekAgrees(s: string, d: int)
    requires ParseDate(s) == Some(d)
    ensures WeekTextOf(ParseUTC(s)) == FormatWeek(d) <==> WeekOf(d).year >= 1000
  {
    hide WeekTextOf, FormatWeek, ParseUTC, YearStart, YearOf, CivilOf, ParseDate;
    ClientReadsServerDate(s, d);
    ParseDateAccepts(s, d);
    WeekYearAbout(d);
    if YearOf(d) >= 100 {
      YearInRange(d);
      WeekTextAgrees(d);
    } else {
      FirstChars(ParseUTC(s).value, d);
    }
  }

  /** The ISO year is the calendar year or a neighbour. */
  lemma WeekYearAbout(d: int)
    ensures YearOf(d) - 1 <= WeekOf(d).year <= YearOf(d) + 1
  {
    hide YearStart, YearOf;
    var t := MondayOf(d) + 3;
    var y, z := YearOf(d), YearOf(t);
    if z < y - 1 { YearStartMonotone(z + 1, y - 1); NextYearStart(y - 1); }
    if z > y + 1 { YearStartMonotone(y + 2, z); NextYearStart(y + 1); }
  }

  lemma ShiftedCentury(c: Civil)
    requires ValidCivil(c) && 0 <= c.year <= 99
    ensures YearOf(DayUTC(c.year, c.month - 1, c.day)) >= 1900
  {
    hide CivilOf, DateAt, YearStart;
    ClampedDate(1900 + c.year, c.month, c.day);
  }

  /** A day number of a month at most 31 falls in that year or later. */
  lemma ClampedDate(y: int, m: int, day: int)
    requires 1 <= m <= 12 && day >= 1
    ensures YearOf(DateAt(y, m, day)) >= y
  {
    hide YearOf;
    NonNegativeBeforeMonth(y, m);
    var d := DateAt(y, m, day);
    if YearOf(d) < y { YearStartMonotone(YearOf(d) + 1, y); }
  }

  /** A browser text starts with a nonzero digit, or is not a number, where a server
      text of an ISO year before 1000 starts with a zero or a sign. */
  lemma FirstChars(e: int, d: int)
    requires YearOf(e) >= 100 && WeekOf(d).year < 1000
    ensures WeekTextOf(Some(e)) != FormatWeek(d)
  {
    hide YearOf, YearStart, Pad, Pad2, UTC, InDateRange;
    WeekYearAbout(e);
    var y := WeekOf(e).year;
    assert y == YearOf(e - e % 7 + 3);
    NoLeadingZero(y);
    assert WeekTextOf(Some(e))[0] == Decimal(y)[0] || WeekTextOf(Some(e))[0] == 'N';
    WeekOfExists(d);
    PowersOfTen();
    if WeekOf(d).year >= 0 { LeadingZero(WeekOf(d).year, 4); }
    assert FormatWeek(d)[0] == YearText(WeekOf(d).year)[0];
  }

  // ---- isoWeekMonday, weekDates, addWeeks ----

  /** weekStr.split("-W"), on two runs of digits. */
  function ParseWeekUTC(s: string): Option<(int, int)> {
    var i := WeekMark(s);
    if i < |s| && AllDigits(s[..i]) && AllDigits(s[i + 2..]) then Some((Value(s[..i]), Value(s[i + 2..]))) else None
  }

  /** What isoWeekMonday computes from the two numbers. */
  function MondayUTC(y: int, n: int): Option<int> {
    match UTC(y, 0, 4)
    case None => None
    case Some(jan4) => if InDateRange(jan4 - jan4 % 7) then TimeClip(jan4 - jan4 % 7 + (n - 1) * 7) else None
  }

  function MondayOfText(weekStr: string): Option<int> {
    match ParseWeekUTC(weekStr)
    case Some(w) => MondayUTC(w.0, w.1)
    case None => None
  }

  method IsoWeekMonday(weekStr: string) returns (monday: Option<int>)
    ensures monday == MondayOfText(weekStr)
  {
    hide ParseWeekUTC, UTC, AddDate, CivilOf, InDateRange;
    var parsed := ParseWeekUTC(weekStr);
    if parsed == None {
      return None;
    }
    var (year, week) := parsed.value;
    var jan4 := UTC(year, 0, 4);
    if jan4 == None {
      return None;
    }
    var jan4Day := DayNumber(jan4.value);
    ShiftIsPlus(jan4.value, -(jan4Day - 1));
    var week1Monday := ShiftUTCDate(jan4, -(jan4Day - 1));
    if week1Monday.Some? { ShiftIsPlus(week1Monday.value, (week - 1) * 7); }
    monday := ShiftUTCDate(week1Monday, (week - 1) * 7);
  }

  /** The browser's Monday is the server's exactly for years from 100, in the range of a Date. */
  lemma MondayAgrees(w: Week)
    requires WeekExists(w) && w.year >= 0
    ensures MondayUTC(w.year, w.week) == Some(WeekMonday(w)) <==> w.year >= 100 && InDateRange(WeekMonday(w))
  {
    hide YearStart;
    FourthOfJanuary(w.year);
    FourthOfJanuary(1900 + w.year);
    WeekMondayIsMonday(w);
    YearStartMonotone(w.year, 1900 + w.year);
    if w.year >= 100 && InDateRange(WeekMonday(w)) {
      RangeEnds();
      YearStartMonotone(0, w.year);
      if w.year > 275760 { YearStartMonotone(275761, w.year); } else { YearStartMonotone(w.year, 275760); }
    }
  }

  lemma FourthOfJanuary(y: int)
    ensures DateAt(y, 1, 4) == YearStart(y) + 3
  {
  }

  lemma ParseWeekText(w: Week)
    requires WeekExists(w) && w.year >= 0
    ensures ParseWeekUTC(YearText(w.year) + ("-W" + Pad(w.week, 2))) == Some((w.year, w.week))
  {
    hide Pad, Value;
    var y, n := YearText(w.year), Pad(w.week, 2);
    var s := y + ("-W" + n);
    MarkAfterDigits(y, n);
    ValueOfPad(w.year, 4);
    ValueOfPad(w.week, 2);
    assert s[..|y|] == y && s[|y| + 2..] == n;
  }

  lemma MarkAfterDigits(y: string, n: string)
    requires AllDigits(y)
    ensures WeekMark(y + ("-W" + n)) == |y|
  {
    var s := y + ("-W" + n);
    assert s[|y|] == '-' && s[|y| + 1] == 'W';
    var i := WeekMark(s);
    assert forall k :: 0 <= k < |y| ==> s[k] == y[k];
  }

  /** The seven texts that weekDates lists. */
  function WeekDatesText(weekStr: string): (dates: seq<string>)
    ensures |dates| == 7
  {
    var monday := MondayOfText(weekStr);
    seq(7, i requires 0 <= i < 7 => DateText(if monday.Some? then TimeClip(monday.value + i) else None))
  }

  method WeekDates(weekStr: string) returns (out: seq<string>)
    ensures out == WeekDatesText(weekStr)
  {
    hide MondayOfText, DateText, AddDate, CivilOf, TimeClip;
    var monday := IsoWeekMonday(weekStr);
    out := [];
    for i := 0 to 7
      invariant |out| == i && forall j :: 0 <= j < i ==> out[j] == WeekDatesText(weekStr)[j]
    {
      if monday.Some? { ShiftIsPlus(monday.value, i); }
      var d := ShiftUTCDate(monday, i);
      out := out + [DateText(d)];
    }
  }

  /** The server's text of week k, read by the browser: rightly from year 100 on, as a
      later Monday in earlier years. */
  lemma ClientReadsServerWeek(k: int)
    requires YearOfIndex(Weekly, k) >= 0
    ensures YearOfIndex(Weekly, k) >= 100 ==> MondayOfText(FormatPeriod(Weekly, k)) == TimeClip(7 * k)
    ensures YearOfIndex(Weekly, k) < 100 ==> MondayOfText(FormatPeriod(Weekly, k)).Some?
    ensures YearOfIndex(Weekly, k) < 100 ==>
              var m := MondayOfText(FormatPeriod(Weekly, k)).value; m > 7 * k && m % 7 == 0
  {
    hide YearOf, YearStart, ParseWeekUTC, MondayUTC, WeekMonday, WeekOf;
    WeekAtIndex(k);
    WeekPeriodText(k);
    ParseWeekText(WeekAt(k));
    MondayAgrees(WeekAt(k));
    if YearOfIndex(Weekly, k) < 100 {
      CenturyLater(WeekAt(k));
    } else if !InDateRange(7 * k) {
      OutOfRangeMonday(WeekAt(k));
    }
  }

  lemma OutOfRangeMonday(w: Week)
    requires WeekExists(w) && w.year >= 100 && !InDateRange(WeekMonday(w))
    ensures MondayUTC(w.year, w.week) == None
  {
    hide YearStart;
    FourthOfJanuary(w.year);
    WeekMondayIsMonday(w);
  }

  lemma CenturyLater(w: Week)
    requires WeekExists(w) && 0 <= w.year < 100
    ensures MondayUTC(w.year, w.week).Some?
    ensures MondayUTC(w.year, w.week).value > WeekMonday(w) && MondayUTC(w.year, w.week).value % 7 == 0
  {
    hide YearStart, WeekOf;
    FourthOfJanuary(1900 + w.year);
    WeekMondayIsMonday(w);
    RangeEnds();
    YearStartMonotone(w.year, 1900 + w.year);
    YearStartMonotone(0, 1900 + w.year);
    YearStartMonotone(1900 + w.year, 275760);
    assert w.week <= 53 by { WeekNumberBound(w); }
  }

  /** weekDates lists the server's dates exactly for weeks of years from 100 whose Monday
      is in year 1000 or later and whose Sunday is in the range of a Date. */
  lemma WeekDatesAgree(k: int)
    requires YearOfIndex(Weekly, k) >= 0
    ensures WeekDatesText(FormatPeriod(Weekly, k)) == DatesOf(k) <==>
            YearOfIndex(Weekly, k) >= 100 && YearOf(7 * k) >= 1000 && InDateRange(7 * k + 6)
  {
    hide FormatUTC, FormatDate, YearOf, YearStart, MondayOfText, WeekMonday, WeekOf, FormatPeriod, InDateRange;
    ClientReadsServerWeek(k);
    var mine, monday := WeekDatesText(FormatPeriod(Weekly, k)), MondayOfText(FormatPeriod(Weekly, k));
    if YearOfIndex(Weekly, k) >= 100 {
      WeekDatesFrom(k, mine);
    } else {
      PrintedDate(TimeClip(monday.value), 7 * k);
      assert mine[0] != DatesOf(k)[0];
    }
  }

  lemma WeekDatesFrom(k: int, mine: seq<string>)
    requires YearOfIndex(Weekly, k) >= 100 && |mine| == 7
    requires forall i :: 0 <= i < 7 ==>
               mine[i] == DateText(if InDateRange(7 * k) then TimeClip(7 * k + i) else None)
    ensures mine == DatesOf(k) <==> YearOf(7 * k) >= 1000 && InDateRange(7 * k + 6)
  {
    hide FormatUTC, FormatDate, YearOf, YearStart, WeekOf, DateText, YearOfIndex;
    LowEnd(k);
    forall i | 0 <= i < 7
      ensures mine[i] == DatesOf(k)[i] <==> InDateRange(7 * k) && InDateRange(7 * k + i) && YearOf(7 * k + i) >= 1000
      ensures YearOf(7 * k + i) >= YearOf(7 * k)
    {
      PrintedDate(if InDateRange(7 * k) then TimeClip(7 * k + i) else None, 7 * k + i);
      if YearOf(7 * k + i) < YearOf(7 * k) { YearStartMonotone(YearOf(7 * k + i) + 1, YearOf(7 * k)); }
    }
    assert mine == DatesOf(k) ==> mine[0] == DatesOf(k)[0] && mine[6] == DatesOf(k)[6];
  }

  lemma LowEnd(k: int)
    requires YearOfIndex(Weekly, k) >= 100
    ensures YearOf(7 * k) >= 99 && 7 * k >= 0
  {
    hide YearOf, YearStart;
    WeekYearAbout(7 * k);
    YearStartMonotone(1, YearOf(7 * k));
    assert YearStart(1) == 0 by { FirstYear(); }
  }

  lemma FirstYear()
    ensures YearStart(1) == 0
  {
  }

  /** DateAt normalises any later month into the same or a later year. */
  lemma {:induction false} LaterMonth(y: int, m: int, day: int)
    requires m >= 1 && day >= 1
    ensures YearOf(DateAt(y, m, day)) >= y
    decreases m
  {
    hide YearOf, YearStart;
    if m <= 12 { ClampedDate(y, m, day); } else { LaterMonth(y + 1, m - 12, day); }
  }

  /** The browser reads its own dates back from year 100 on; earlier ones land in 1900
      or later. */
  lemma ClientReadsItself(d: int)
    requires InDateRange(d)
    ensures YearOf(d) >= 100 ==> ParseUTC(FormatUTC(d)) == Some(d)
    ensures YearOf(d) < 100 && ParseUTC(FormatUTC(d)).Some? ==> YearOf(ParseUTC(FormatUTC(d)).value) >= 1900
  {
    hide CivilOf, Pad, Value, Split, YearOf, YearStart, DateAt;
    DayToCivil(d);
    YearOfCivil(d);
    var c := CivilOf(d);
    if c.year >= 0 {
      ValueOfPad(c.year, 1);
      hide ParseUTC;
      ParseOfDigits(Decimal(c.year), c);
      if c.year <= 99 { ShiftedCentury(c); }
    } else {
      NegativeDate(c);
    }
  }

  lemma NegativeDate(c: Civil)
    requires ValidCivil(c) && c.year < 0
    ensures var r := ParseUTC("-" + Pad(-c.year, 1) + ("-" + (Pad(c.month, 2) + ("-" + Pad(c.day, 2)))));
            r.Some? ==> YearOf(r.value) >= 1900
  {
    hide Pad, Value, Split, YearOf, YearStart, DateAt;
    var n, m, t := Pad(-c.year, 1), Pad(c.month, 2), Pad(c.day, 2);
    var s := "-" + n + ("-" + (m + ("-" + t)));
    assert s == "" + ("-" + (n + ("-" + (m + ("-" + t)))));
    SplitAtDash("", n + ("-" + (m + ("-" + t))));
    SplitAtDash(n, m + ("-" + t));
    SplitAtDash(m, t);
    ValueOfPad(-c.year, 1);
    ValueOfPad(c.month, 2);
    assert Split(s) == ["", n, m] + Split(t);
    assert Value("") == 0 by { NoDigits(); }
    LaterMonth(1900, -c.year, c.month);
  }

  lemma NoDigits()
    ensures AllDigits("") && Value("") == 0
  {
  }

  lemma NaNReadsAsInvalid()
    ensures ParseUTC("NaN-NaN-NaN") == None
  {
    var s := "NaN-NaN-NaN";
    var p := Split(s);
    var rest := Split(s[1..]);
    assert p[0][0] == 'N';
  }

  /** What addWeeks computes: the shifted Monday, printed and read back. */
  function AddWeeksText(weekStr: string, delta: int): string {
    WeekTextOf(ParseUTC(DateText(ShiftUTCDate(MondayOfText(weekStr), delta * 7))))
  }

  method AddWeeks(weekStr: string, delta: int) returns (res: string)
    ensures res == AddWeeksText(weekStr, delta)
  {
    hide MondayOfText, DateText, ParseUTC, ShiftUTCDate, WeekTextOf;
    var monday := IsoWeekMonday(weekStr);
    monday := ShiftUTCDate(monday, delta * 7);
    res := ToISOWeek(DateText(monday));
  }

  /** addWeeks moves along the server's line of weeks exactly as long as it starts in an
      ISO year from 100, both Mondays are in the range of a Date and it arrives in an ISO
      year from 1000; out of range it prints no number. */
  lemma AddWeeksAgrees(k: int, delta: int)
    requires YearOfIndex(Weekly, k) >= 0
    ensures AddWeeksText(FormatPeriod(Weekly, k), delta) == FormatPeriod(Weekly, k + delta) <==>
            && YearOfIndex(Weekly, k) >= 100 && InDateRange(7 * k) && InDateRange(7 * (k + delta))
            && YearOfIndex(Weekly, k + delta) >= 1000
    ensures YearOfIndex(Weekly, k) >= 100 && !(InDateRange(7 * k) && InDateRange(7 * (k + delta))) ==>
              AddWeeksText(FormatPeriod(Weekly, k), delta) == "NaN-WNaN"
  {
    hide FormatUTC, ParseUTC, FormatDate, YearOf, YearStart, MondayOfText, WeekMonday, FormatWeek, WeekOf, DatesOf,
         WeekTextOf, InDateRange, AddDate;
    ClientReadsServerWeek(k);
    var d, monday := 7 * (k + delta), MondayOfText(FormatPeriod(Weekly, k));
    assert 7 * k + delta * 7 == d;
    assert YearOfIndex(Weekly, k + delta) == WeekOf(d).year;
    NaNReadsAsInvalid();
    InvalidWeekText(d);
    if monday.Some? {
      ShiftIsPlus(monday.value, delta * 7);
      if InDateRange(monday.value + delta * 7) { ReadBackMonday(monday.value + delta * 7, d); }
    }
  }

  /** What the browser prints for the Monday it has shifted to, against the server's week
      of Monday d, not later than that. */
  lemma ReadBackMonday(e: int, d: int)
    requires InDateRange(e) && e >= d && e % 7 == 0 && d % 7 == 0
    ensures WeekTextOf(ParseUTC(FormatUTC(e))) == FormatWeek(d) <==> e == d && WeekOf(d).year >= 1000
  {
    hide FormatUTC, ParseUTC, YearOf, YearStart, WeekMonday, FormatWeek, WeekOf, WeekTextOf, InDateRange;
    ClientReadsItself(e);
    WeekYearAbout(d);
    WeekYearAbout(e);
    LaterYears(d, e);
    InvalidWeekText(d);
    if YearOf(e) >= 100 {
      WeekTextAgrees(e);
      if WeekOf(d).year < 1000 {
        FirstChars(e, d);
      } else if FormatWeek(e) == FormatWeek(d) {
        SameWeekText(e, d);
      }
    } else if ParseUTC(FormatUTC(e)).Some? {
      FirstChars(ParseUTC(FormatUTC(e)).value, d);
    }
  }

  /** Later days lie in the same or a later year and ISO year. */
  lemma LaterYears(d: int, e: int)
    requires d <= e && d % 7 == 0 && e % 7 == 0
    ensures YearOf(d) <= YearOf(e) && WeekOf(d).year <= WeekOf(e).year
  {
    hide YearOf, YearStart;
    if YearOf(e) < YearOf(d) { YearStartMonotone(YearOf(e) + 1, YearOf(d)); }
    var s, t := YearOf(d + 3), YearOf(e + 3);
    if t < s { YearStartMonotone(t + 1, s); }
  }

  /** Two Mondays with one week text are one day. */
  lemma SameWeekText(e: int, d: int)
    requires FormatWeek(e) == FormatWeek(d) && e % 7 == 0 && d % 7 == 0
    ensures e == d
  {
    hide Pad, YearOf, YearStart, YearText, WeekMonday, WeekOf;
    WeekOfExists(e);
    WeekOfExists(d);
    var v, w := WeekOf(e), WeekOf(d);
    assert 1 <= v.week <= 53 && 1 <= w.week <= 53 by { WeekNumberBound(v); WeekNumberBound(w); }
    PowersOfTen();
    PadWidth(v.week, 2);
    PadWidth(w.week, 2);
    var m, n := Pad(v.week, 2), Pad(w.week, 2);
    WeekPartsMeet(YearText(v.year), YearText(w.year), m, n);
    YearTextWidth(v.year);
    YearTextWidth(w.year);
    PadOrder(v.week, w.week, 2);
    assert v == w;
    WeekMondayBack(e);
    WeekMondayBack(d);
  }

  lemma WeekPartsMeet(y: string, z: string, m: string, n: string)
    requires |m| == |n| == 2 && y + ("-W" + m) == z + ("-W" + n)
    ensures y == z && m == n
  {
    var a, b := y + ("-W" + m), z + ("-W" + n);
    assert |y| == |z|;
    assert a[..|y|] == y && b[..|z|] == z && a[|y| + 2..] == m && b[|z| + 2..] == n;
  }

  lemma WeekMondayBack(d: int)
    requires d % 7 == 0
    ensures WeekMonday(WeekOf(d)) == d
  {
    hide WeekMonday, WeekOf, YearOf, YearStart;
    WeekOfExists(d);
  }

  lemma InvalidWeekText(d: int)
    ensures WeekTextOf(None) == "NaN-WNaN" != FormatWeek(d)
  {
    hide Pad, YearOf;
    WeekOfExists(d);
    var y := WeekOf(d).year;
    YearTextWidth(y);
    assert FormatWeek(d)[0] == YearText(y)[0];
    assert y >= 0 ==> IsDigit(Pad(y, 4)[0]);
  }

  /** addWeeks is additive, and one week on is the server's next period. */
  lemma AddWeeksIsAdditive(k: int, a: int, b: int)
    requires YearOfIndex(Weekly, k) >= 1000 && YearOfIndex(Weekly, k + a) >= 1000
             && YearOfIndex(Weekly, k + a + b) >= 1000
    requires InDateRange(7 * k) && InDateRange(7 * (k + a)) && InDateRange(7 * (k + a + b))
    ensures AddWeeksText(AddWeeksText(FormatPeriod(Weekly, k), a), b) == AddWeeksText(FormatPeriod(Weekly, k), a + b)
    ensures YearOfIndex(Weekly, k) <= 9999 && a == 1 ==>
              NextPeriod(Weekly, FormatPeriod(Weekly, k)) == Some(AddWeeksText(FormatPeriod(Weekly, k), 1))
  {
    hide AddWeeksText, FormatPeriod, YearOfIndex, NextPeriod, ParsePeriod, InDateRange;
    AddWeeksAgrees(k, a);
    AddWeeksAgrees(k + a, b);
    AddWeeksAgrees(k, a + b);
    assert k + a + b == k + (a + b);
    if YearOfIndex(Weekly, k) <= 9999 {
      ParseOfFormat(Weekly, k);
      NextPeriodIsSuccessor(Weekly, FormatPeriod(Weekly, k));
    }
  }

  // ---- addDays, addMonths ----

  function AddDaysText(dateStr: string, delta: int): string {
    var d := ParseUTC(dateStr);
    DateText(if d.Some? then TimeClip(d.value + delta) else None)
  }

  method AddDays(dateStr: string, delta: int) returns (res: string)
    ensures res == AddDaysText(dateStr, delta)
  {
    hide ParseUTC, DateText, AddDate, TimeClip;
    var d := ParseUTC(dateStr);
    if d.Some? { ShiftIsPlus(d.value, delta); }
    d := ShiftUTCDate(d, delta);
    return DateText(d);
  }

  /** addDays agrees with the server's day arithmetic exactly from start years 100 on, as
      long as it stays in the range of a Date and arrives in a year of four or more digits. */
  lemma AddDaysAgrees(s: string, d: int, delta: int)
    requires ParseDate(s) == Some(d)
    ensures AddDaysText(s, delta) == FormatDate(AddDate(d, 0, delta)) <==>
            YearOf(d) >= 100 && InDateRange(d + delta) && (YearOf(d + delta) >= 1000 || YearOf(d + delta) <= -1000)
  {
    hide ParseUTC, FormatDate, ParseDate, YearOf, CivilOf, AddDate, FormatUTC;
    ClientReadsServerDate(s, d);
    AddDaysIsPlus(d, delta);
    PrintedDate(TimeClip(ParseUTC(s).value + delta), d + delta);
  }

  /** addMonths, on the month of two runs of digits. */
  function AddMonthsText(monthStr: string, delta: int): string {
    var p := Split(monthStr);
    var d := if |p| >= 2 && AllDigits(p[0]) && AllDigits(p[1])
             then UTC(Value(p[0]), Value(p[1]) - 1 + delta, 1)
             else None;
    match d
    case Some(t) => var i := MonthIndexOf(t); Decimal(i / 12) + ("-" + Pad(i % 12 + 1, 2))
    case None => "NaN-NaN"
  }

  lemma {:induction false} MonthAtIndex(y: int, m: int)
    ensures DateAt(y, m, 1) == MonthStart(12 * y + m - 1)
    decreases if m > 12 then m - 12 else if m < 1 then 1 - m else 0
  {
    hide YearStart, DaysBeforeMonth;
    var i := 12 * y + m - 1;
    if m > 12 {
      MonthAtIndex(y + 1, m - 12);
      assert 12 * (y + 1) + (m - 12) - 1 == i;
    } else if m < 1 {
      MonthAtIndex(y - 1, m + 12);
      assert 12 * (y - 1) + (m + 12) - 1 == i;
    } else {
      assert i / 12 == y && i % 12 + 1 == m;
    }
  }

  /** A browser month and a server month with one text are one month, whose year needs
      four digits or more. */
  lemma MonthTextsMeet(i: int, j: int)
    ensures Decimal(i / 12) + ("-" + Pad(i % 12 + 1, 2)) == FormatMonth(j) <==>
            i == j && (i / 12 >= 1000 || i / 12 <= -1000)
  {
    hide Pad, Decimal, LayoutYear;
    var y, z, m, n := Decimal(i / 12), LayoutYear(j / 12), Pad(i % 12 + 1, 2), Pad(j % 12 + 1, 2);
    PowersOfTen();
    PadWidth(i % 12 + 1, 2);
    PadWidth(j % 12 + 1, 2);
    YearTexts(i / 12);
    if y + ("-" + m) == FormatMonth(j) {
      assert (y + ("-" + m))[..|y|] == y && (z + ("-" + n))[..|z|] == z;
      assert (y + ("-" + m))[|y| + 1..] == m && (z + ("-" + n))[|z| + 1..] == n;
      SameYear(i / 12, j / 12);
      PadOrder(i % 12 + 1, j % 12 + 1, 2);
    }
  }

  lemma NoNaNMonth(i: int)
    ensures FormatMonth(i) != "NaN-NaN"
  {
    hide Pad;
    LayoutYearWidth(i / 12);
    assert FormatMonth(i)[0] == LayoutYear(i / 12)[0];
    assert i >= 0 ==> IsDigit(Pad(i / 12, 4)[0]);
  }

  /** The same for addMonths: the month of start must be in year 100 or later, the first
      of the month of arrival in the range of a Date, in a year of four or more digits. */
  lemma AddMonthsAgrees(i: int, delta: int)
    requires FourDigit(Monthly, i)
    ensures AddMonthsText(FormatMonth(i), delta) == FormatMonth(i + delta) <==>
            i / 12 >= 100 && InDateRange(MonthStart(i + delta))
                && ((i + delta) / 12 >= 1000 || (i + delta) / 12 <= -1000)
  {
    hide Split, Pad, Value, Decimal, YearText, MonthIndexOf, MonthStart, FormatMonth, InDateRange;
    MonthReads(i, delta);
    var j := if i / 12 >= 100 then i + delta else i + 22800 + delta;
    FirstOfMonth(j);
    MonthTextsMeet(j, i + delta);
    NoNaNMonth(i + delta);
  }

  /** Years 0 to 99 read as 1900 to 1999 here too, 22800 months later. */
  lemma MonthReads(i: int, delta: int)
    requires FourDigit(Monthly, i)
    ensures var j := if i / 12 >= 100 then i + delta else i + 22800 + delta;
            AddMonthsText(FormatMonth(i), delta) ==
            if InDateRange(MonthStart(j))
            then Decimal(MonthIndexOf(MonthStart(j)) / 12) + ("-" + Pad(MonthIndexOf(MonthStart(j)) % 12 + 1, 2))
            else "NaN-NaN"
  {
    hide Split, Pad, Value, Decimal, MonthIndexOf, MonthStart, DateAt, InDateRange;
    var y, m := i / 12, i % 12 + 1;
    SplitAtDash(Pad(y, 4), Pad(m, 2));
    SplitDigits(Pad(m, 2));
    ValueOfPad(y, 4);
    ValueOfPad(m, 2);
    MonthAtIndex(if y >= 100 then y else 1900 + y, m + delta);
  }
}
