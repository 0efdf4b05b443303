/** Period strings: daily "YYYY-MM-DD", weekly "YYYY-Www", monthly "YYYY-MM".
    Each format is a line of consecutive indices; strings compare as indices do. */
module Period {
  import opened Base
  import opened Calendar
  import opened Digits

  datatype Horizon = Daily | Weekly | Monthly | Backlog | OtherHorizon(name: string)

  /** Granularity; the backlog and unknown horizons rank 0. */
  function HorizonRank(h: Horizon): int {
    match h
    case Daily => 1
    case Weekly => 2
    case Monthly => 3
    case _ => 0
  }

  predicate Ranked(h: Horizon) {
    HorizonRank(h) > 0
  }

  // ---- formatting ----

  /** "%04d", which prints the year of a week: the width includes a sign. */
  function YearText(y: int): string {
    if y >= 0 then Pad(y, 4) else "-" + Pad(-y, 3)
  }

  /** The layout "2006", which prints the year of a date: a sign comes before the width. */
  function LayoutYear(y: int): string {
    if y >= 0 then Pad(y, 4) else "-" + Pad(-y, 4)
  }

  function FormatDate(d: int): string {
    var c := CivilOf(d);
    DayToCivil(d);
    LayoutYear(c.year) + ("-" + (Pad(c.month, 2) + ("-" + Pad(c.day, 2))))
  }

  function FormatMonth(i: int): string {
    LayoutYear(i / 12) + ("-" + Pad(i % 12 + 1, 2))
  }

  function WeekText(w: Week): string
    requires w.week >= 0
  {
    YearText(w.year) + ("-W" + Pad(w.week, 2))
  }

  /** ISOWeekString. */
  function FormatWeek(d: int): string {
    WeekOfExists(d);
    WeekText(WeekOf(d))
  }

  // ---- parsing ----

  /** ParseDate: time.Parse with layout 2006-01-02, then the round-trip check. */
  function ParseDate(s: string): Option<int> {
    if |s| == 10 && s[4] == '-' && s[7] == '-'
       && AllDigits(s[..4]) && AllDigits(s[5..7]) && AllDigits(s[8..]) then
      var c := Civil(Value(s[..4]), Value(s[5..7]), Value(s[8..]));
      if ValidCivil(c) && FormatDate(DayOf(c)) == s then Some(DayOf(c)) else None
    else None
  }

  /** ParseMonth, as the index of the month. */
  function ParseMonth(s: string): Option<int> {
    if |s| == 7 && s[4] == '-' && AllDigits(s[..4]) && AllDigits(s[5..]) then
      var y, m := Value(s[..4]), Value(s[5..]);
      if 1 <= m <= 12 && FormatMonth(MonthIndex(y, m)) == s then Some(MonthIndex(y, m)) else None
    else None
  }

  /** The first position of "-W", or the length of s. */
  function WeekMark(s: string): (i: nat)
    ensures i <= |s|
    ensures forall k :: 0 <= k < i && k + 1 < |s| ==> !(s[k] == '-' && s[k + 1] == 'W')
    ensures i < |s| ==> i + 1 < |s| && s[i] == '-' && s[i + 1] == 'W'
  {
    if |s| < 2 then |s|
    else if s[0] == '-' && s[1] == 'W' then 0
    else
      var i := WeekMark(s[1..]);
      assert forall k :: 0 <= k < |s| - 1 ==> s[1..][k] == s[k + 1];
      i + 1
  }

  /** ParseISOWeek: split at the first "-W" into four and two characters, read
      both with Atoi, and keep the week if its Monday is in that very week. */
  function ParseISOWeek(s: string): Option<Week> {
    var i := WeekMark(s);
    if i != 4 || |s| != 8 then None
    else
      match (Atoi(s[..4]), Atoi(s[6..]))
      case (Some(y), Some(n)) =>
        if n < 1 || n > 53 then None
        else if WeekOf(WeekMonday(Week(y, n))) != Week(y, n) then None
        else Some(Week(y, n))
      case _ => None
  }

  /** Where a period lies on its horizon's line; None when it is not valid. */
  function ParsePeriod(h: Horizon, s: string): Option<int> {
    match h
    case Daily => ParseDate(s)
    case Weekly => (match ParseISOWeek(s) case Some(w) => Some(WeekIndex(w)) case None => None)
    case Monthly => ParseMonth(s)
    case _ => None
  }

  predicate ValidPeriod(h: Horizon, s: string) {
    match h
    case Backlog => s == ""
    case OtherHorizon(_) => false
    case _ => ParsePeriod(h, s).Some?
  }

  function FormatPeriod(h: Horizon, i: int): string {
    match h
    case Daily => FormatDate(i)
    case Weekly => FormatWeek(7 * i)
    case Monthly => FormatMonth(i)
    case _ => ""
  }

  /** CurrentPeriodAt, of the local day on which the instant falls. */
  function PeriodOfDay(h: Horizon, d: int): string {
    match h
    case Daily => FormatDate(d)
    case Weekly => FormatWeek(d)
    case Monthly => FormatMonth(MonthIndexOf(d))
    case _ => ""
  }

  function IndexOfDay(h: Horizon, d: int): int {
    match h
    case Weekly => d / 7
    case Monthly => MonthIndexOf(d)
    case _ => d
  }

  /** NextPeriod, computed as the source does; None is its error result. */
  function NextPeriod(h: Horizon, s: string): Option<string> {
    match h
    case Daily => (match ParseDate(s) case Some(d) => Some(FormatDate(AddDate(d, 0, 1))) case None => None)
    case Weekly =>
      (match ParseISOWeek(s)
       case Some(w) => Some(FormatWeek(AddDate(WeekMonday(w), 0, 7)))
       case None => None)
    case Monthly =>
      (match ParseMonth(s)
       case Some(i) => Some(FormatMonth(MonthIndexOf(AddDate(MonthStart(i), 1, 0))))
       case None => None)
    case _ => None
  }

  // ---- years that print in four characters ----

  /** Year of the i-th period of a horizon. */
  function YearOfIndex(h: Horizon, i: int): int {
    match h
    case Weekly => WeekAt(i).year
    case Monthly => i / 12
    case _ => YearOf(i)
  }

  predicate FourDigit(h: Horizon, i: int) {
    0 <= YearOfIndex(h, i) <= 9999
  }

  lemma YearTextWidth(y: int)
    ensures |YearText(y)| == 4 <==> -999 <= y <= 9999
    ensures |YearText(y)| >= 4
    ensures Atoi(YearText(y)) == Some(y)
  {
    PowersOfTen();
    if y >= 0 {
      PadWidth(y, 4);
      AtoiOfPad(y, 4);
    } else {
      PadWidth(-y, 3);
      ValueOfPad(-y, 3);
      assert ("-" + Pad(-y, 3))[1..] == Pad(-y, 3);
    }
  }

  lemma LayoutYearWidth(y: int)
    ensures |LayoutYear(y)| == 4 <==> 0 <= y <= 9999
    ensures |LayoutYear(y)| >= 4
  {
    PowersOfTen();
    if y >= 0 { PadWidth(y, 4); }
  }

  lemma LayoutYearDigits(y: int)
    ensures forall k :: 1 <= k < |LayoutYear(y)| ==> IsDigit(LayoutYear(y)[k])
  {
  }

  // ---- dates ----

  lemma DateParts(d: int)
    requires FourDigit(Daily, d)
    ensures var s, c := FormatDate(d), CivilOf(d);
            |s| == 10 && s[4] == '-' && s[7] == '-' && ValidCivil(c) && 0 <= c.year <= 9999
            && s[..4] == Pad(c.year, 4) && s[5..7] == Pad(c.month, 2) && s[8..] == Pad(c.day, 2)
  {
    hide DayOf, YearOf, DateAt, Pad;
    DayToCivil(d);
    var c := CivilOf(d);
    PowersOfTen();
    PadWidth(c.year, 4);
    PadWidth(c.month, 2);
    PadWidth(c.day, 2);
  }

  lemma ParseOfFormatDate(d: int)
    requires FourDigit(Daily, d)
    ensures ParseDate(FormatDate(d)) == Some(d)
  {
    hide FormatDate, CivilOf, DayOf, YearOf, Pad, Value;
    DateParts(d);
    DayToCivil(d);
    var c := CivilOf(d);
    ValueOfPad(c.year, 4);
    ValueOfPad(c.month, 2);
    ValueOfPad(c.day, 2);
  }

  /** ParseDate accepts exactly the dates of years 0000 to 9999, in canonical form. */
  lemma ParseDateAccepts(s: string, d: int)
    ensures ParseDate(s) == Some(d) <==> FourDigit(Daily, d) && s == FormatDate(d)
  {
    if FourDigit(Daily, d) && s == FormatDate(d) { ParseOfFormatDate(d); }
    if ParseDate(s) == Some(d) {
      hide FormatDate, CivilOf, DayOf, YearOf, Pad;
      var c := Civil(Value(s[..4]), Value(s[5..7]), Value(s[8..]));
      CivilToDay(c);
      PowersOfTen();
      ValueBound(s[..4]);
      YearOfCivil(d);
    }
  }

  lemma YearOfCivil(d: int)
    ensures YearOf(d) == CivilOf(d).year
  {
  }

  lemma DateTextOrder(d: int, e: int)
    requires FourDigit(Daily, d) && FourDigit(Daily, e)
    ensures StringLess(FormatDate(d), FormatDate(e)) <==> d < e
  {
    hide *;
    CivilBounds(d);
    CivilBounds(e);
    CivilOrder(CivilOf(d), CivilOf(e));
    DatePartsOrder(CivilOf(d), CivilOf(e));
  }

  lemma CivilBounds(d: int)
    requires FourDigit(Daily, d)
    ensures var c := CivilOf(d);
            && ValidCivil(c) && DayOf(c) == d && 0 <= c.year <= 9999 && 1 <= c.month <= 12 && 1 <= c.day <= 31
            && FormatDate(d) == Pad(c.year, 4) + ("-" + (Pad(c.month, 2) + ("-" + Pad(c.day, 2))))
  {
    hide CivilOf, YearOf, DayOf, Pad;
    DayToCivil(d);
    YearOfCivil(d);
  }

  lemma DatePartsOrder(c: Civil, k: Civil)
    requires 0 <= c.year <= 9999 && 0 <= k.year <= 9999
    requires 1 <= c.month <= 12 && 1 <= k.month <= 12 && 1 <= c.day <= 31 && 1 <= k.day <= 31
    ensures StringLess(Pad(c.year, 4) + ("-" + (Pad(c.month, 2) + ("-" + Pad(c.day, 2)))),
                       Pad(k.year, 4) + ("-" + (Pad(k.month, 2) + ("-" + Pad(k.day, 2)))))
            <==> CivilLess(c, k)
  {
    hide Pad, StringLess;
    PowersOfTen();
    PadWidth(c.year, 4);
    PadWidth(k.year, 4);
    PadWidth(c.month, 2);
    PadWidth(k.month, 2);
    PadOrder(c.year, k.year, 4);
    PadOrder(c.month, k.month, 2);
    PadOrder(c.day, k.day, 2);
    NotLessThanItself("-");
    StringLessConcat("-", "-", Pad(c.day, 2), Pad(k.day, 2));
    StringLessConcat(Pad(c.month, 2), Pad(k.month, 2), "-" + Pad(c.day, 2), "-" + Pad(k.day, 2));
    StringLessConcat("-", "-", Pad(c.month, 2) + ("-" + Pad(c.day, 2)), Pad(k.month, 2) + ("-" + Pad(k.day, 2)));
    StringLessConcat(Pad(c.year, 4), Pad(k.year, 4),
                     "-" + (Pad(c.month, 2) + ("-" + Pad(c.day, 2))),
                     "-" + (Pad(k.month, 2) + ("-" + Pad(k.day, 2))));
  }

  lemma {:induction false} NotLessThanItself(s: string)
    ensures !StringLess(s, s)
  {
    if |s| == 0 {
    } else {
      NotLessThanItself(s[1..]);
    }
  }

  // ---- months ----

  lemma MonthParts(y: int, m: int)
    requires 0 <= y <= 9999 && 1 <= m <= 12
    ensures var s := LayoutYear(y) + ("-" + Pad(m, 2));
            |s| == 7 && s[4] == '-' && s[..4] == Pad(y, 4) && s[5..] == Pad(m, 2)
            && Value(s[..4]) == y && Value(s[5..]) == m
  {
    hide Pad, Value;
    PowersOfTen();
    PadWidth(y, 4);
    PadWidth(m, 2);
    ValueOfPad(y, 4);
    ValueOfPad(m, 2);
    var s := LayoutYear(y) + ("-" + Pad(m, 2));
    assert s[..4] == Pad(y, 4) && s[5..] == Pad(m, 2);
  }

  lemma ParseOfFormatMonth(i: int)
    requires FourDigit(Monthly, i)
    ensures |FormatMonth(i)| == 7 && FormatMonth(i)[4] == '-'
    ensures ParseMonth(FormatMonth(i)) == Some(i)
  {
    hide Pad, Value, LayoutYear;
    MonthParts(i / 12, i % 12 + 1);
    MonthTextParses(i, i / 12, i % 12 + 1);
  }

  lemma MonthTextParses(i: int, y: int, m: int)
    requires 0 <= y && 1 <= m <= 12 && i == MonthIndex(y, m)
    requires var s := LayoutYear(y) + ("-" + Pad(m, 2));
             |s| == 7 && s[4] == '-' && s[..4] == Pad(y, 4) && s[5..] == Pad(m, 2) && Value(s[..4]) == y
                 && Value(s[5..]) == m
    ensures ParseMonth(LayoutYear(y) + ("-" + Pad(m, 2))) == Some(i)
  {
    hide Pad, Value, LayoutYear;
    assert i / 12 == y && i % 12 + 1 == m;
  }

  lemma ParseMonthAccepts(s: string, i: int)
    ensures ParseMonth(s) == Some(i) <==> FourDigit(Monthly, i) && s == FormatMonth(i)
  {
    if FourDigit(Monthly, i) && s == FormatMonth(i) { ParseOfFormatMonth(i); }
    if ParseMonth(s) == Some(i) {
      hide FormatMonth;
      PowersOfTen();
      ValueBound(s[..4]);
    }
  }

  lemma MonthTextOrder(i: int, j: int)
    requires FourDigit(Monthly, i) && FourDigit(Monthly, j)
    ensures StringLess(FormatMonth(i), FormatMonth(j)) <==> i < j
  {
    MonthPartsOrder(i / 12, i % 12 + 1, j / 12, j % 12 + 1);
    hide Pad, StringLess;
  }

  lemma MonthPartsOrder(y: int, m: int, z: int, n: int)
    requires 0 <= y <= 9999 && 1 <= m <= 12 && 0 <= z <= 9999 && 1 <= n <= 12
    ensures StringLess(Pad(y, 4) + ("-" + Pad(m, 2)), Pad(z, 4) + ("-" + Pad(n, 2)))
            <==> y < z || (y == z && m < n)
  {
    hide Pad, StringLess;
    PowersOfTen();
    PadWidth(y, 4);
    PadWidth(z, 4);
    PadOrder(y, z, 4);
    PadOrder(m, n, 2);
    NotLessThanItself("-");
    StringLessConcat("-", "-", Pad(m, 2), Pad(n, 2));
    StringLessConcat(Pad(y, 4), Pad(z, 4), "-" + Pad(m, 2), "-" + Pad(n, 2));
  }

  // ---- weeks ----

  lemma WeekTextParts(w: Week)
    requires WeekExists(w) && -999 <= w.year <= 9999
    ensures var s := WeekText(w);
            |s| == 8 && s[..4] == YearText(w.year) && s[6..] == Pad(w.week, 2) && s[4] == '-' && s[5] == 'W'
            && WeekMark(s) == 4
  {
    hide Pad, WeekMark;
    YearTextWidth(w.year);
    PowersOfTen();
    PadWidth(w.week, 2);
    var s := WeekText(w);
    assert s[..4] == YearText(w.year) && s[6..] == Pad(w.week, 2);
    assert forall k :: 1 <= k < 4 ==> s[k] == YearText(w.year)[k];
    YearTextDigits(w.year);
    assert forall k :: 0 <= k < 4 ==> s[k] == YearText(w.year)[k];
  }

  lemma YearTextDigits(y: int)
    ensures forall k :: 1 <= k < |YearText(y)| ==> IsDigit(YearText(y)[k])
  {
  }

  lemma ParseOfWeekText(w: Week)
    requires WeekExists(w) && -999 <= w.year <= 9999
    ensures ParseISOWeek(WeekText(w)) == Some(w)
  {
    hide WeekText, WeekMark, Atoi, WeekOf, WeekMonday, YearText, Pad;
    WeekTextParts(w);
    YearTextWidth(w.year);
    AtoiOfPad(w.week, 2);
    RoundTripIffExists(w);
  }

  /** ParseISOWeek accepts a year of four and a week of two characters, each with
      an optional sign, exactly when ISO 8601 has that week. */
  lemma ParseISOWeekAccepts(s: string, w: Week)
    ensures ParseISOWeek(s) == Some(w) <==>
            && |s| == 8 && WeekMark(s) == 4
            && Atoi(s[..4]) == Some(w.year) && Atoi(s[6..]) == Some(w.week)
            && WeekExists(w)
  {
    hide WeekMark, Atoi, WeekOf, WeekMonday;
    RoundTripIffExists(w);
  }

  /** The documented form is accepted and read back, but so is a signed one. */
  lemma ParseISOWeekCanonical(s: string, w: Week)
    requires ParseISOWeek(s) == Some(w)
    ensures s == WeekText(w) && w.year >= 0 <==> AllDigits(s[..4]) && AllDigits(s[6..])
  {
    hide WeekOf, WeekMonday, Pad, Value;
    if AllDigits(s[..4]) && AllDigits(s[6..]) {
      PadOfValue(s[..4]);
      PadOfValue(s[6..]);
      assert s == s[..4] + ("-W" + s[6..]);
    }
    if s == WeekText(w) && w.year >= 0 {
      assert Atoi(s[..4]) == Some(w.year);
      AtoiBound(s[..4], 4);
      ParseISOWeekAccepts(s, w);
      WeekTextParts(w);
    }
  }

  lemma AtoiBound(s: string, k: nat)
    requires |s| == k == 4 && Atoi(s).Some?
    ensures -999 <= Atoi(s).value <= 9999
  {
    PowersOfTen();
    if s[0] == '+' || s[0] == '-' {
      ValueBound(s[1..]);
    } else {
      ValueBound(s);
    }
  }

  /** A concrete signed week: accepted, yet not the text of any week. */
  lemma SignedWeekAccepted()
    ensures ParseISOWeek("2026-W+1") == Some(Week(2026, 1))
    ensures WeekText(Week(2026, 1)) != "2026-W+1"
  {
    hide WeekMark, WeekOf, WeekMonday, Value, Pad, Atoi, WeeksInYear, WeekText;
    var s := "2026-W+1";
    var w := Week(2026, 1);
    assert s[..4] == "2026" && s[6..] == "+1";
    AtoiSamples();
    MarkSample();
    assert WeekExists(w) by { WeekOneExists(2026); }
    ParseISOWeekAccepts(s, w);
    WeekTextParts(w);
    assert IsDigit(Pad(1, 2)[0]);
  }

  lemma WeekOneExists(y: int)
    ensures WeekExists(Week(y, 1))
  {
  }

  lemma MarkSample()
    ensures WeekMark("2026-W+1") == 4
  {
    var s := "2026-W+1";
    var i := WeekMark(s);
    assert s[4] == '-' && s[5] == 'W';
    assert i <= 4;
    assert s[i] == '-';
  }

  lemma AtoiSamples()
    ensures Atoi("2026") == Some(2026) && Atoi("+1") == Some(1)
  {
    assert "2026"[..3] == "202" && "202"[..2] == "20" && "20"[..1] == "2" && "2"[..0] == "";
    assert Value("2") == 2;
    assert Value("20") == 20;
    assert Value("202") == 202;
    assert Value("2026") == 2026;
    assert "+1"[1..] == "1" && "1"[..0] == "";
    assert Value("1") == 1;
  }

  lemma WeekTextOrder(w: Week, v: Week)
    requires WeekExists(w) && WeekExists(v) && 0 <= w.year <= 9999 && 0 <= v.year <= 9999
    ensures StringLess(WeekText(w), WeekText(v)) <==> WeekLess(w, v)
  {
    hide Pad, StringLess, WeeksInYear;
    assert w.week <= 53 && v.week <= 53 by { WeekNumberBound(w); WeekNumberBound(v); }
    PowersOfTen();
    PadWidth(w.year, 4);
    PadWidth(v.year, 4);
    PadOrder(w.year, v.year, 4);
    PadOrder(w.week, v.week, 2);
    NotLessThanItself("-W");
    StringLessConcat("-W", "-W", Pad(w.week, 2), Pad(v.week, 2));
    StringLessConcat(Pad(w.year, 4), Pad(v.year, 4), "-W" + Pad(w.week, 2), "-W" + Pad(v.week, 2));
  }

  lemma WeekNumberBound(w: Week)
    requires WeekExists(w)
    ensures 1 <= w.week <= 53
  {
  }
}
