/** The three ranked horizons as one theory: periods are consecutive integers,
    printing and reading are inverse, and string order is calendar order. */
module PeriodLine {
  import opened Base
  import opened Calendar
  import opened Digits
  import opened Period

  /** Years whose text is four characters wide, so that it can be read back.
      Only ISO weeks print and read negative years. */
  predicate Printable(h: Horizon, i: int) {
    Ranked(h) && (if h == Weekly then -999 else 0) <= YearOfIndex(h, i) <= 9999
  }

  lemma ParseOfFormat(h: Horizon, i: int)
    requires Printable(h, i)
    ensures ParsePeriod(h, FormatPeriod(h, i)) == Some(i)
  {
    hide ParseDate, ParseISOWeek, ParseMonth, FormatDate, FormatMonth, WeekText;
    match h
    case Daily => ParseOfFormatDate(i);
    case Weekly =>
      hide WeekOf, WeekMonday;
      WeekAtIndex(i);
      ParseOfWeekText(WeekAt(i));
    case Monthly => ParseOfFormatMonth(i);
  }

  lemma ParsedIsPrintable(h: Horizon, s: string)
    requires ParsePeriod(h, s).Some?
    ensures Printable(h, ParsePeriod(h, s).value)
  {
    hide ParseDate, ParseISOWeek, ParseMonth, FormatDate, FormatMonth, WeekText;
    var i := ParsePeriod(h, s).value;
    match h
    case Daily => ParseDateAccepts(s, i);
    case Weekly =>
      hide WeekOf, WeekMonday;
      var w := ParseISOWeek(s).value;
      ParseISOWeekAccepts(s, w);
      AtoiBound(s[..4], 4);
      IndexAtWeek(w);
    case Monthly => ParseMonthAccepts(s, i);
  }

  lemma FormatOrder(h: Horizon, i: int, j: int)
    requires Ranked(h) && FourDigit(h, i) && FourDigit(h, j)
    ensures StringLess(FormatPeriod(h, i), FormatPeriod(h, j)) <==> i < j
  {
    hide StringLess, FormatDate, FormatMonth, WeekText;
    match h
    case Daily => DateTextOrder(i, j);
    case Weekly =>
      hide WeekOf, WeekMonday;
      WeekAtIndex(i);
      WeekAtIndex(j);
      WeekTextOrder(WeekAt(i), WeekAt(j));
      WeekOrder(WeekAt(i), WeekAt(j));
    case Monthly => MonthTextOrder(i, j);
  }

  /** NextPeriod steps to the immediate successor, on every text it accepts. */
  lemma NextPeriodIsSuccessor(h: Horizon, s: string)
    ensures NextPeriod(h, s) ==
            match ParsePeriod(h, s) case Some(i) => Some(FormatPeriod(h, i + 1)) case None => None
  {
    hide ParseDate, ParseISOWeek, ParseMonth, FormatDate, FormatMonth, FormatWeek, AddDate, MonthStart, MonthIndexOf;
    match h
    case Daily =>
      if ParseDate(s).Some? { AddDaysIsPlus(ParseDate(s).value, 1); }
    case Weekly =>
      hide WeekOf, WeekMonday;
      match ParseISOWeek(s) {
        case Some(w) =>
          ParseISOWeekAccepts(s, w);
          IndexAtWeek(w);
          AddDaysIsPlus(WeekMonday(w), 7);
        case None =>
      }
    case Monthly =>
      if ParseMonth(s).Some? { NextMonth(ParseMonth(s).value); }
    case _ =>
  }

  lemma NextMonth(i: int)
    ensures MonthIndexOf(AddDate(MonthStart(i), 1, 0)) == i + 1
  {
    FirstOfMonth(i);
    FirstOfMonth(i + 1);
    hide CivilOf;
    var y, m := i / 12, i % 12 + 1;
    if m == 12 {
      assert (i + 1) / 12 == y + 1 && (i + 1) % 12 == 0;
      assert DateAt(y, 13, 1) == DateAt(y + 1, 1, 1);
    } else {
      assert (i + 1) / 12 == y && (i + 1) % 12 == m;
    }
  }

  lemma FirstOfMonth(i: int)
    ensures CivilOf(MonthStart(i)) == Civil(i / 12, i % 12 + 1, 1)
    ensures MonthIndexOf(MonthStart(i)) == i
  {
    hide CivilOf, DateAt;
    CivilToDay(Civil(i / 12, i % 12 + 1, 1));
  }

  lemma PeriodOfDayIsFormat(h: Horizon, d: int)
    requires Ranked(h)
    ensures PeriodOfDay(h, d) == FormatPeriod(h, IndexOfDay(h, d))
  {
    hide FormatDate, FormatMonth, WeekText, WeekOf, WeekMonday;
    WeekOfIsIndex(d, d / 7);
  }

  // ---- years along a line ----

  /** The first period of year y. */
  function YearIndex(h: Horizon, y: int): int {
    match h
    case Weekly => WeekIndex(Week(y, 1))
    case Monthly => 12 * y
    case _ => YearStart(y)
  }

  lemma YearOfIndexOrder(h: Horizon, i: int, y: int)
    ensures YearOfIndex(h, i) >= y <==> i >= YearIndex(h, y)
  {
    match h
    case Weekly =>
      hide WeekOf, WeekMonday;
      WeekAtIndex(i);
      WeekOrder(WeekAt(i), Week(y, 1));
    case Monthly =>
    case _ =>
      hide YearStart, YearOf;
      var z := YearOf(i);
      assert YearStart(z) <= i < YearStart(z + 1);
      if z >= y { YearStartMonotone(y, z); } else { YearStartMonotone(z + 1, y); }
  }

  /** Later periods lie in the same or a later year. */
  lemma YearOfIndexMonotone(h: Horizon, i: int, j: int)
    requires i <= j
    ensures YearOfIndex(h, i) <= YearOfIndex(h, j)
  {
    hide YearOfIndex, YearIndex;
    YearOfIndexOrder(h, i, YearOfIndex(h, i));
    YearOfIndexOrder(h, j, YearOfIndex(h, i));
  }

  /** The last period whose year has four digits. */
  function LastIndex(h: Horizon): int {
    YearIndex(h, 10000) - 1
  }

  lemma PrintableUpToLast(h: Horizon, i: int, k: int)
    requires Printable(h, i) && i <= k
    ensures Printable(h, k) <==> k <= LastIndex(h)
    ensures FourDigit(h, i) && k <= LastIndex(h) ==> FourDigit(h, k)
  {
    hide YearOfIndex, YearIndex;
    YearOfIndexMonotone(h, i, k);
    YearOfIndexOrder(h, k, 10000);
  }

  /** Past year 9999 the text is too wide to be read back. */
  lemma FormatBeyondLast(h: Horizon, k: int)
    requires Ranked(h) && k > LastIndex(h)
    ensures ParsePeriod(h, FormatPeriod(h, k)) == None
  {
    YearOfIndexOrder(h, k, 10000);
    var y := YearOfIndex(h, k);
    assert y >= 10000;
    hide YearOfIndex, YearIndex, Pad;
    WideYear(y);
    match h
    case Daily =>
      hide YearText;
      var c := CivilOf(k);
      DayToCivil(k);
      SameYearText(c.year);
      assert FormatDate(k)[..|YearText(c.year)|] == YearText(c.year);
      assert c.year == y by { YearOfCivil(k); assert YearOfIndex(Daily, k) == YearOf(k) by { YearOfDaily(k); } }
    case Weekly =>
      assert WeekAt(k).year == y by { YearOfWeekly(k); }
      var s := WeekText(WeekAt(k));
      hide WeekOf, WeekMonday, WeekText, YearText;
      assert s == YearText(y) + ("-W" + Pad(WeekAt(k).week, 2)) by { WeekTextIs(k, y); }
    case Monthly =>
      assert k / 12 == y by { YearOfMonthly(k); }
      SameYearText(y);
      hide YearText;
  }

  /** Dates and weeks print a year alike from year 0 on; earlier years start alike. */
  lemma SameYearText(y: int)
    ensures y >= 0 ==> LayoutYear(y) == YearText(y)
    ensures |LayoutYear(y)| >= 4 && |YearText(y)| >= 4 && LayoutYear(y)[0] == YearText(y)[0]
  {
    YearTextWidth(y);
  }

  lemma YearOfDaily(k: int)
    ensures YearOfIndex(Daily, k) == YearOf(k)
  {
  }

  lemma YearOfWeekly(k: int)
    ensures YearOfIndex(Weekly, k) == WeekAt(k).year
  {
  }

  lemma YearOfMonthly(k: int)
    ensures YearOfIndex(Monthly, k) == k / 12
  {
  }

  lemma WeekTextIs(k: int, y: int)
    requires WeekAt(k).year == y
    ensures WeekAt(k).week >= 0
    ensures WeekText(WeekAt(k)) == YearText(y) + ("-W" + Pad(WeekAt(k).week, 2))
  {
    hide WeekOf, WeekMonday;
    WeekAtIndex(k);
  }

  lemma WideYear(y: int)
    requires y >= 10000
    ensures |YearText(y)| >= 5
  {
    YearTextWidth(y);
  }

  // ---- reading texts in string order ----

  /** Text that is not before a canonical period does not denote an earlier one,
      even when it is one of the signed weeks that ParseISOWeek also accepts. */
  lemma NotBeforeCanonical(h: Horizon, s: string, c: int)
    requires Ranked(h) && ParsePeriod(h, s).Some? && FourDigit(h, c)
    requires !StringLess(s, FormatPeriod(h, c))
    ensures ParsePeriod(h, s).value >= c
  {
    hide ParseDate, ParseISOWeek, ParseMonth, FormatDate, FormatMonth, FormatWeek, StringLess;
    var i := ParsePeriod(h, s).value;
    match h
    case Daily => ParseDateAccepts(s, i); FormatOrder(h, i, c);
    case Monthly => ParseMonthAccepts(s, i); FormatOrder(h, i, c);
    case Weekly =>
      var w := ParseISOWeek(s).value;
      assert !StringLess(s, WeekText(WeekAt(c))) by { WeekPeriodText(c); }
      WeekAtIndex(c);
      NotBeforeCanonicalWeek(s, w, WeekAt(c));
      hide WeekOf, WeekMonday;
      ParseISOWeekAccepts(s, w);
      WeekOrder(w, WeekAt(c));
  }

  lemma WeekPeriodText(c: int)
    ensures WeekExists(WeekAt(c)) && FormatPeriod(Weekly, c) == WeekText(WeekAt(c))
  {
    hide WeekText, WeekOf, WeekMonday;
    WeekAtIndex(c);
  }

  lemma NotBeforeCanonicalWeek(s: string, w: Week, v: Week)
    requires ParseISOWeek(s) == Some(w) && WeekExists(v) && 0 <= v.year <= 9999
    requires !StringLess(s, WeekText(v))
    ensures !WeekLess(w, v)
  {
    hide WeekOf, WeekMonday, Pad, Value, WeekMark;
    ParseISOWeekAccepts(s, w);
    ParseOfWeekText(v);
    ParseISOWeekAccepts(WeekText(v), v);
    WeekTextParts(v);
    var t := WeekText(v);
    assert s == s[..4] + ("-W" + s[6..]) && t == t[..4] + ("-W" + t[6..]);
    assert AllDigits(t[..4]) && AllDigits(t[6..]);
    StringLessConcat(s[..4], t[..4], "-W" + s[6..], "-W" + t[6..]);
    StringLessConcat("-W", "-W", s[6..], t[6..]);
    SignedIsLess(s[..4], t[..4]);
    SignedIsLess(s[6..], t[6..]);
    NotLessThanItself("-W");
    DigitTexts(s[..4], t[..4], w.year, v.year);
    if s[..4] == t[..4] { DigitTexts(s[6..], t[6..], w.week, v.week); }
  }

  /** A sign sorts before every digit. */
  lemma SignedIsLess(a: string, b: string)
    requires |a| >= 1 && |b| >= 1 && IsDigit(b[0])
    ensures a[0] == '+' || a[0] == '-' ==> StringLess(a, b)
  {
  }

  lemma DigitTexts(a: string, b: string, m: int, n: int)
    requires |a| == |b| >= 1 && AllDigits(b) && Atoi(a) == Some(m) && Atoi(b) == Some(n)
    requires !StringLess(a, b)
    ensures m >= n && (a == b <==> m == n)
  {
    SignedIsLess(a, b);
    assert AllDigits(a);
    assert IsDigit(b[0]);
    DigitOrder(a, b);
  }

  /** A canonical text is at or before a four-digit canonical one as its index is. */
  lemma AtMostIsIndex(h: Horizon, k: int, c: int)
    requires Printable(h, k) && FourDigit(h, c)
    ensures StringAtMost(FormatPeriod(h, k), FormatPeriod(h, c)) <==> k <= c
  {
    hide YearOfIndex, FormatPeriod, ParsePeriod;
    if FourDigit(h, k) {
      FormatOrder(h, k, c);
      assert Printable(h, c);
      ParseOfFormat(h, k);
      ParseOfFormat(h, c);
    } else {
      assert YearOfIndex(h, k) < 0;
      if k > c { YearOfIndexMonotone(h, c, k); }
      assert h == Weekly;
      NegativeYearFirst(k, c);
    }
  }

  lemma NegativeYearFirst(k: int, c: int)
    requires YearOfIndex(Weekly, k) < 0 && FourDigit(Weekly, c)
    ensures StringLess(FormatPeriod(Weekly, k), FormatPeriod(Weekly, c))
  {
    WeekPeriodText(k);
    WeekPeriodText(c);
    assert FormatPeriod(Weekly, k)[0] == '-';
    hide WeekOf, WeekMonday;
    WeekTextParts(WeekAt(c));
    assert IsDigit(YearText(WeekAt(c).year)[0]);
    assert FormatPeriod(Weekly, c)[..4][0] == FormatPeriod(Weekly, c)[0];
  }

  // ---- the end of year 9999 ----

  lemma YearTextEnds()
    ensures YearText(9999)[0] == '9' && YearText(10000)[0] == '1'
  {
    assert Pad(9, 1) == [Digit(9)];
    assert Pad(99, 2) == Pad(9, 1) + [Digit(9)];
    assert Pad(999, 3) == Pad(99, 2) + [Digit(9)];
    assert Pad(9999, 4) == Pad(999, 3) + [Digit(9)];
    assert Pad(1, 1) == [Digit(1)];
    assert Pad(10, 1) == Pad(1, 1) + [Digit(0)];
    assert Pad(100, 2) == Pad(10, 1) + [Digit(0)];
    assert Pad(1000, 3) == Pad(100, 2) + [Digit(0)];
    assert Pad(10000, 4) == Pad(1000, 3) + [Digit(0)];
  }

  lemma FirstCharIsYears(h: Horizon, k: int)
    requires Ranked(h)
    ensures |FormatPeriod(h, k)| > 0 && FormatPeriod(h, k)[0] == YearText(YearOfIndex(h, k))[0]
  {
    YearTextWidth(YearOfIndex(h, k));
    SameYearText(YearOfIndex(h, k));
    hide YearText, LayoutYear, Pad;
    match h
    case Daily =>
      YearOfCivil(k);
    case Weekly => WeekPeriodText(k);
    case Monthly =>
  }

  /** The period after the last one of year 9999 sorts before it. */
  lemma TextWrapsAfterLast(h: Horizon)
    requires Ranked(h)
    ensures StringLess(FormatPeriod(h, LastIndex(h) + 1), FormatPeriod(h, LastIndex(h)))
  {
    var l := LastIndex(h);
    hide YearOfIndex, YearIndex, YearText, FormatPeriod;
    YearOfIndexOrder(h, l, 10000);
    YearOfIndexOrder(h, l + 1, 10000);
    YearOfIndexOrder(h, l + 1, 10001);
    YearOfIndexOrder(h, l, 9999);
    YearsAdvance(h, 10000);
    YearsAdvance(h, 9999);
    FirstCharIsYears(h, l);
    FirstCharIsYears(h, l + 1);
    YearTextEnds();
  }

  lemma YearsAdvance(h: Horizon, y: int)
    ensures YearIndex(h, y) < YearIndex(h, y + 1)
  {
    match h
    case Weekly =>
      hide WeekOf, WeekMonday;
      WeekOrder(Week(y, 1), Week(y + 1, 1));
    case Monthly =>
    case _ => NextYearStart(y);
  }

  /** A readable text that sorts before a canonical one is not the last period. */
  lemma EarlierTextBeforeLast(h: Horizon, s: string, c: int)
    requires Ranked(h) && ParsePeriod(h, s).Some? && FourDigit(h, c)
    requires StringLess(s, FormatPeriod(h, c))
    ensures ParsePeriod(h, s).value < LastIndex(h)
  {
    var i := ParsePeriod(h, s).value;
    hide ParsePeriod, FormatPeriod, YearOfIndex, StringLess, YearIndex, LastIndex;
    ParsedIsPrintable(h, s);
    PrintableUpToLast(h, i, i);
    FourDigitWithinLast(h, c);
    if i == LastIndex(h) {
      LastIsFourDigit(h);
      LastText(h, s);
      FormatOrder(h, i, c);
    }
  }

  /** Only its canonical text denotes the last period. */
  lemma LastText(h: Horizon, s: string)
    requires Ranked(h) && ParsePeriod(h, s) == Some(LastIndex(h))
    ensures s == FormatPeriod(h, LastIndex(h))
  {
    hide ParseDate, ParseISOWeek, ParseMonth, FormatDate, FormatMonth, WeekText, YearIndex, LastIndex;
    match h
    case Daily => ParseDateAccepts(s, LastIndex(h));
    case Monthly => ParseMonthAccepts(s, LastIndex(h));
    case Weekly => LastWeekText(s, ParseISOWeek(s).value);
  }

  lemma FourDigitWithinLast(h: Horizon, c: int)
    requires FourDigit(h, c)
    ensures c <= LastIndex(h)
  {
    hide YearOfIndex, YearIndex;
    YearOfIndexOrder(h, c, 10000);
  }

  lemma LastIsFourDigit(h: Horizon)
    ensures YearOfIndex(h, LastIndex(h)) == 9999
  {
    hide YearOfIndex, YearIndex;
    YearOfIndexOrder(h, LastIndex(h), 10000);
    YearOfIndexOrder(h, LastIndex(h), 9999);
    YearsAdvance(h, 9999);
  }

  /** The last week of year 9999 has two digits, so only its own text denotes it. */
  lemma LastWeekText(s: string, w: Week)
    requires ParseISOWeek(s) == Some(w) && WeekIndex(w) == LastIndex(Weekly)
    ensures s == FormatPeriod(Weekly, LastIndex(Weekly))
  {
    hide WeekMark, WeekMonday, WeekOf, Pad, Value, WeekIndex, YearText;
    ParseISOWeekAccepts(s, w);
    IndexAtWeek(w);
    WeekPeriodText(LastIndex(Weekly));
    YearOfWeekly(LastIndex(Weekly));
    LastIsFourDigit(Weekly);
    assert w.year == 9999;
    LastWeekNumber(w);
    AtoiOfWide(s[..4], 9999, 1000);
    AtoiOfWide(s[6..], w.week, 10);
    ParseISOWeekCanonical(s, w);
  }

  lemma LastWeekNumber(w: Week)
    requires WeekExists(w) && w.year == 9999 && WeekIndex(w) == LastIndex(Weekly)
    ensures w.week >= 10
  {
    hide WeekMonday, WeekOf;
    var v := Week(9999, w.week + 1);
    if WeekExists(v) {
      WeekOrder(w, v);
      WeekOrder(v, Week(10000, 1));
    }
    assert w.week == WeeksInYear(9999);
  }

  /** A value that needs every character leaves no room for a sign. */
  lemma AtoiOfWide(s: string, n: int, floor: int)
    requires Atoi(s) == Some(n) && n >= floor
    requires (|s| == 4 && floor == 1000) || (|s| == 2 && floor == 10)
    ensures AllDigits(s)
  {
    PowersOfTen();
    assert Power10(1) == 10 * Power10(0);
    if s[0] == '+' || s[0] == '-' { ValueBound(s[1..]); }
  }
}
