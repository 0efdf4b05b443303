/** The weeks of a month, the dates of a week, and the month view's buckets
    (internal/model/period.go, internal/service/task_views.go). */
module MonthView {
  import opened Base
  import opened Calendar
  import opened Digits
  import opened Period
  import opened PeriodLine
  import opened Recur
  import opened Forest
  import opened Model
  import opened Listing

  // ---- DatesInWeek ----

  /** The seven dates from Monday of week k. */
  function DatesOf(k: int): (dates: seq<string>)
    ensures |dates| == 7
  {
    seq(7, i requires 0 <= i < 7 => FormatDate(7 * k + i))
  }

  method DatesInWeek(week: string) returns (res: Option<seq<string>>)
    ensures res == match ParsePeriod(Weekly, week) case Some(k) => Some(DatesOf(k)) case None => None
  {
    hide FormatDate, AddDate, ParseISOWeek, WeekMonday;
    var w := ParseISOWeek(week);
    if w == None {
      return None;
    }
    var monday := WeekMonday(w.value);
    ghost var k := WeekIndex(w.value);
    assert monday == 7 * k by { ParseISOWeekAccepts(week, w.value); IndexAtWeek(w.value); }
    var out: seq<string> := [];
    for i := 0 to 7
      invariant |out| == i && forall j :: 0 <= j < i ==> out[j] == FormatDate(7 * k + j)
    {
      AddDaysIsPlus(monday, i);
      out := out + [FormatDate(AddDate(monday, 0, i))];
    }
    assert out == DatesOf(k);
    return Some(out);
  }

  /** A date is among the dates of a week exactly when the week is its own. */
  lemma DatesAreTheWeeks(week: string, k: int, s: string, d: int)
    requires ParsePeriod(Weekly, week) == Some(k) && ParseDate(s) == Some(d)
    ensures s in DatesOf(k) <==> d / 7 == k
    ensures s in DatesOf(k) <==> WeekOfDate(s) == Some(FormatPeriod(Weekly, k))
  {
    hide ParseDate, FormatDate, ParseISOWeek, FormatWeek, YearOfIndex;
    ParseDateAccepts(s, d);
    if s in DatesOf(k) {
      var i :| 0 <= i < 7 && DatesOf(k)[i] == s;
      DateTextUnique(d, 7 * k + i);
    }
    if d / 7 == k { assert DatesOf(k)[d % 7] == FormatDate(d); }
    ParsedIsPrintable(Weekly, week);
    ParseOfFormat(Weekly, k);
    WeekOfDateText(d);
    ParseOfFormat(Weekly, d / 7);
  }

  /** The text of a four-digit year's day is no other day's. */
  lemma DateTextUnique(d: int, e: int)
    requires FourDigit(Daily, d) && FormatDate(d) == FormatDate(e)
    ensures d == e
  {
    hide FormatDate, CivilOf, DayOf;
    ParseOfFormatDate(d);
    DateMonthText(d);
    DateMonthText(e);
    DateDayText(d, e);
  }

  lemma DateMonthText(d: int)
    ensures ValidCivil(CivilOf(d)) && FormatDate(d) == FormatMonth(MonthIndexOf(d)) + ("-" + Pad(CivilOf(d).day, 2))
    ensures |FormatMonth(MonthIndexOf(d))| >= 7
  {
    hide CivilOf, LayoutYear, DayOf;
    DayToCivil(d);
    var c := CivilOf(d);
    assert MonthIndexOf(d) / 12 == c.year && MonthIndexOf(d) % 12 + 1 == c.month;
    LayoutYearWidth(c.year);
    var y, m, t := LayoutYear(c.year), Pad(c.month, 2), Pad(c.day, 2);
    assert y + ("-" + (m + ("-" + t))) == (y + ("-" + m)) + ("-" + t);
  }

  lemma DateDayText(d: int, e: int)
    requires FourDigit(Daily, d) && FormatDate(d) == FormatDate(e)
    ensures d == e
  {
    hide FormatDate, CivilOf, DayOf, FormatMonth, Pad;
    DateParts(d);
    DateMonthText(d);
    DateMonthText(e);
    MonthOfDate(e, MonthIndexOf(d));
    var c, f := CivilOf(d), CivilOf(e);
    DayFits(c);
    DayFits(f);
    MonthTextOf(d);
    assert |FormatMonth(MonthIndexOf(d))| == 7;
    assert FormatDate(e)[..7] == FormatMonth(MonthIndexOf(d));
    assert MonthIndexOf(e) == MonthIndexOf(d);
    assert FormatDate(d)[8..] == Pad(c.day, 2) && FormatDate(e)[8..] == Pad(f.day, 2);
    PowersOfTen();
    PadOrder(c.day, f.day, 2);
    DayToCivil(d);
    DayToCivil(e);
  }

  lemma DayFits(c: Civil)
    requires ValidCivil(c)
    ensures 1 <= c.day < 100
  {
  }

  lemma MonthTextOf(d: int)
    requires FourDigit(Daily, d)
    ensures FourDigit(Monthly, MonthIndexOf(d)) && |FormatMonth(MonthIndexOf(d))| == 7
  {
    hide CivilOf, FormatMonth;
    DayToCivil(d);
    YearOfCivil(d);
    assert MonthIndexOf(d) / 12 == CivilOf(d).year;
    ParseOfFormatMonth(MonthIndexOf(d));
  }

  predicate HasPrefix(s: string, prefix: string) {
    |prefix| <= |s| && s[..|prefix|] == prefix
  }

  /** Whatever its year, a date starts with a month's text only if it lies in the month. */
  lemma MonthOfDate(d: int, i: int)
    requires FourDigit(Monthly, i)
    ensures HasPrefix(FormatDate(d), FormatMonth(i)) <==> MonthIndexOf(d) == i
  {
    hide FormatDate, CivilOf, DayOf, LayoutYear, Pad, ParseMonth, MonthIndexOf;
    var m := MonthIndexOf(d);
    DateMonthText(d);
    ParseOfFormatMonth(i);
    if |FormatMonth(m)| == 7 && FormatMonth(m) == FormatMonth(i) {
      assert ParseMonth(FormatMonth(m)) == Some(i);
      ParseMonthAccepts(FormatMonth(m), i);
      SameMonthText(m, i);
    }
    if |FormatMonth(m)| > 7 { WideMonthText(m); }
    assert HasPrefix(FormatDate(d), FormatMonth(m));
    if |FormatMonth(m)| == 7 { assert FormatDate(d)[..7] == FormatMonth(m); }
  }

  lemma WideMonthText(m: int)
    requires |FormatMonth(m)| > 7
    ensures IsDigit(FormatMonth(m)[4])
  {
    hide Pad;
    var y := LayoutYear(m / 12);
    PadWidth(m % 12 + 1, 2);
    PowersOfTen();
    LayoutYearDigits(m / 12);
    assert |Pad(m % 12 + 1, 2)| == 2;
    assert FormatMonth(m)[4] == y[4];
  }

  lemma SameMonthText(m: int, i: int)
    requires FormatMonth(m) == FormatMonth(i) && FourDigit(Monthly, i) && |FormatMonth(m)| == 7
    ensures m == i
  {
    hide Pad;
    LayoutYearWidth(m / 12);
    LayoutYearWidth(i / 12);
    PadWidth(m % 12 + 1, 2);
    PowersOfTen();
    assert |LayoutYear(m / 12)| == 4 && |LayoutYear(i / 12)| == 4;
    assert FormatMonth(m)[..4] == LayoutYear(m / 12) && FormatMonth(i)[..4] == LayoutYear(i / 12);
    assert FormatMonth(m)[5..] == Pad(m % 12 + 1, 2) && FormatMonth(i)[5..] == Pad(i % 12 + 1, 2);
    PadOrder(m / 12, i / 12, 4);
    PadOrder(m % 12 + 1, i % 12 + 1, 2);
  }

  // ---- WeeksInMonth ----

  /** The texts of weeks lo to hi - 1. */
  function WeekTexts(lo: int, hi: int): (weeks: seq<string>)
    requires lo <= hi
    ensures |weeks| == hi - lo
  {
    seq(hi - lo, i requires 0 <= i < hi - lo => FormatPeriod(Weekly, lo + i))
  }

  /** The week of the first day of month i, and that of its last. */
  function FirstWeek(i: int): int {
    MonthStart(i) / 7
  }

  function LastWeek(i: int): int {
    (MonthStart(i + 1) - 1) / 7
  }

  /** A month has four to six weeks. */
  lemma FourToSixWeeks(i: int)
    ensures 4 <= LastWeek(i) + 1 - FirstWeek(i) <= 6
  {
    hide MonthStart;
    NextMonthStart(i);
  }

  /** Week k overlaps month i. */
  predicate Overlaps(k: int, i: int) {
    7 * k < MonthStart(i + 1) && MonthStart(i) < 7 * k + 7
  }

  lemma OverlapIsBetween(k: int, i: int)
    ensures Overlaps(k, i) <==> FirstWeek(i) <= k <= LastWeek(i)
  {
    hide MonthStart;
    NextMonthStart(i);
  }

  lemma LastOfMonth(i: int)
    ensures AddDate(MonthStart(i), 1, -1) == MonthStart(i + 1) - 1
  {
    FirstOfMonth(i);
    hide CivilOf, YearStart, DaysBeforeMonth;
    var y, m := i / 12, i % 12 + 1;
    if m == 12 {
      assert (i + 1) / 12 == y + 1 && (i + 1) % 12 == 0;
      assert DateAt(y, 13, 0) == DateAt(y + 1, 1, 0);
    } else {
      assert (i + 1) / 12 == y && (i + 1) % 12 == m;
    }
  }

  /** Weeks that meet a four-digit month print and read back. */
  lemma MonthWeeksPrintable(i: int, d: int)
    requires FourDigit(Monthly, i) && MonthStart(i) <= d < MonthStart(i + 1)
    ensures Printable(Weekly, d / 7)
  {
    hide MonthStart, YearStart, YearOf, WeekMonday, CivilOf;
    MonthOfDay(d, i);
    YearOfCivil(d);
    assert YearOf(d) == i / 12 by { assert MonthIndexOf(d) / 12 == CivilOf(d).year by { DayToCivil(d); } }
    WeekOfIsIndex(d, d / 7);
    WeekYearNear(d);
    LastFourDigitWeek(d);
  }

  method WeeksInMonth(month: string) returns (res: Option<seq<string>>)
    ensures ParseMonth(month) == None ==> res == None
    ensures ParseMonth(month).Some? ==>
              var i := ParseMonth(month).value;
              FirstWeek(i) <= LastWeek(i) && res == Some(WeekTexts(FirstWeek(i), LastWeek(i) + 1))
  {
    hide FormatWeek, MonthStart, ParseMonth, AddDate, YearOfIndex;
    var parsed := ParseMonth(month);
    if parsed == None {
      return None;
    }
    ghost var i := parsed.value;
    var first := MonthStart(parsed.value);
    var last := AddDate(first, 1, -1);
    LastOfMonth(i);
    FourToSixWeeks(i);
    ParseMonthAccepts(month, i);
    var weeks: seq<string> := [];
    var seen: set<string> := {};
    var d := first;
    while d <= last
      invariant first <= d <= last + 1
      invariant weeks == WeekTexts(first / 7, if d == first then first / 7 else (d - 1) / 7 + 1)
      invariant forall s :: s in seen <==> s in weeks
    {
      var w := FormatWeek(d);
      assert w == FormatPeriod(Weekly, d / 7) by { PeriodOfDayIsFormat(Weekly, d); }
      NextWeekIsNew(i, first, d, weeks);
      if w !in seen {
        seen := seen + {w};
        weeks := weeks + [w];
      }
      AddDaysIsPlus(d, 1);
      d := AddDate(d, 0, 1);
    }
    return Some(weeks);
  }

  /** The text of day d's week has been seen exactly if d is no Monday and not the first day. */
  lemma NextWeekIsNew(i: int, first: int, d: int, weeks: seq<string>)
    requires FourDigit(Monthly, i) && first == MonthStart(i) && first <= d < MonthStart(i + 1)
    requires weeks == WeekTexts(first / 7, if d == first then first / 7 else (d - 1) / 7 + 1)
    ensures var w := FormatPeriod(Weekly, d / 7);
            && (w in weeks <==> d > first && (d - 1) / 7 == d / 7)
            && (w in weeks ==> weeks == WeekTexts(first / 7, d / 7 + 1))
            && (w !in weeks ==> weeks + [w] == WeekTexts(first / 7, d / 7 + 1))
  {
    hide FormatPeriod, MonthStart, ParsePeriod, YearOfIndex;
    var w := FormatPeriod(Weekly, d / 7);
    MonthWeeksPrintable(i, d);
    ParseOfFormat(Weekly, d / 7);
    forall j | 0 <= j < |weeks| && weeks[j] == w ensures first / 7 + j == d / 7 {
      var e := if 7 * (first / 7 + j) < first then first else 7 * (first / 7 + j);
      MonthWeeksPrintable(i, e);
      ParseOfFormat(Weekly, e / 7);
    }
    if d > first && (d - 1) / 7 == d / 7 { assert weeks[d / 7 - first / 7] == w; }
  }

  // ---- the buckets of ViewMonth ----

  function InMonth(i: int): string -> bool {
    (s: string) => HasPrefix(s, FormatMonth(i))
  }

  /** The dates of week k that lie in month i. */
  function MonthDates(i: int, k: int): seq<string> {
    Filter(DatesOf(k), InMonth(i))
  }

  predicate InBucket(t: Task, i: int, k: int) {
    || (t.horizon == Weekly && t.period == FormatPeriod(Weekly, k))
    || (t.horizon == Daily && t.period in MonthDates(i, k))
  }

  function Bucket(tasks: map<Id, Task>, mine: set<Id>, i: int, k: int): set<Id> {
    set x | x in tasks && x in mine && InBucket(tasks[x], i, k)
  }

  lemma WeekReadsBack(i: int, k: int)
    requires FourDigit(Monthly, i) && FirstWeek(i) <= k <= LastWeek(i)
    ensures ParsePeriod(Weekly, FormatPeriod(Weekly, k)) == Some(k)
  {
    hide MonthStart, FormatPeriod, YearOfIndex, ParsePeriod;
    NextMonthStart(i);
    var d := if 7 * k < MonthStart(i) then MonthStart(i) else 7 * k;
    MonthWeeksPrintable(i, d);
    ParseOfFormat(Weekly, k);
  }

  /** The month's own tasks, and the tasks of each of its weeks. */
  datatype MonthPage = MonthPage(tasks: seq<Id>, weeks: map<string, seq<Id>>)

  function MonthTasks(tasks: map<Id, Task>, mine: set<Id>, i: int): set<Id> {
    set x | x in tasks && x in mine && tasks[x].horizon == Monthly && ParseMonth(tasks[x].period) == Some(i)
  }

  /** mine are the rows that the caller's own scope and the tag filter admit. */
  method ViewMonth(tasks: map<Id, Task>, mine: set<Id>, month: string) returns (res: Option<MonthPage>)
    requires Keyed(tasks)
    ensures res == None <==> ParseMonth(month) == None
    ensures res.Some? ==> res.value.tasks == Listed(tasks, MonthTasks(tasks, mine, ParseMonth(month).value))
    ensures res.Some? ==>
              var i := ParseMonth(month).value;
              forall k :: FirstWeek(i) <= k <= LastWeek(i) ==>
                FormatPeriod(Weekly, k) in res.value.weeks
                && res.value.weeks[FormatPeriod(Weekly, k)] == Listed(tasks, Bucket(tasks, mine, i, k))
    ensures res.Some? ==>
              var i := ParseMonth(month).value;
              forall w :: w in res.value.weeks ==>
                  exists k :: FirstWeek(i) <= k <= LastWeek(i) && w == FormatPeriod(Weekly, k)
  {
    hide ParseMonth, FormatPeriod, FirstWeek, LastWeek, ParsePeriod, FormatMonth, HasPrefix, DatesOf, YearOfIndex,
         Filter;
    var ws := WeeksInMonth(month);
    if ws == None {
      return None;
    }
    ghost var i := ParseMonth(month).value;
    ghost var lo := FirstWeek(i);
    ParseMonthAccepts(month, i);
    var own := set x | x in tasks && x in mine && tasks[x].horizon == Monthly && tasks[x].period == month;
    assert own == MonthTasks(tasks, mine, i) by { OnlyTextOfMonth(tasks, mine, month, i); }
    var weeks: map<string, seq<Id>> := map[];
    for n := 0 to |ws.value|
      invariant forall k :: lo <= k < lo + n ==>
                  FormatPeriod(Weekly, k) in weeks
                      && weeks[FormatPeriod(Weekly, k)] == Listed(tasks, Bucket(tasks, mine, i, k))
      invariant forall w :: w in weeks ==> exists k :: lo <= k < lo + n && w == FormatPeriod(Weekly, k)
    {
      var w := ws.value[n];
      WeekReadsBack(i, lo + n);
      var dates := DatesInWeek(w);
      var monthDates := KeepMonth(dates.value, month, i);
      var ids := set x | x in tasks && x in mine
                         && ((tasks[x].horizon == Weekly && tasks[x].period == w)
                             || (tasks[x].horizon == Daily && tasks[x].period in monthDates));
      assert ids == Bucket(tasks, mine, i, lo + n);
      forall k | lo <= k < lo + n ensures FormatPeriod(Weekly, k) != w { WeekReadsBack(i, k); }
      weeks := weeks[w := Listed(tasks, ids)];
    }
    return Some(MonthPage(Listed(tasks, own), weeks));
  }

  /** A month has one text only, so comparing texts finds every task of the month. */
  lemma OnlyTextOfMonth(tasks: map<Id, Task>, mine: set<Id>, month: string, i: int)
    requires ParseMonth(month) == Some(i)
    ensures (set x | x in tasks && x in mine && tasks[x].horizon == Monthly && tasks[x].period == month)
            == MonthTasks(tasks, mine, i)
  {
    hide ParseMonth, FormatMonth;
    ParseMonthAccepts(month, i);
    forall x | x in tasks && ParseMonth(tasks[x].period) == Some(i) ensures tasks[x].period == month {
      ParseMonthAccepts(tasks[x].period, i);
    }
  }

  method KeepMonth(dates: seq<string>, month: string, ghost i: int) returns (kept: seq<string>)
    requires month == FormatMonth(i)
    ensures kept == Filter(dates, InMonth(i))
  {
    hide FormatMonth, HasPrefix, Filter;
    kept := [];
    assert dates[..0] == [] && Filter(dates[..0], InMonth(i)) == [] by { NothingKept(i); }
    for n := 0 to |dates|
      invariant kept == Filter(dates[..n], InMonth(i))
    {
      FilterNext(dates, n, InMonth(i));
      if HasPrefix(dates[n], month) {
        kept := kept + [dates[n]];
      }
    }
    assert dates[..|dates|] == dates;
  }

  lemma NothingKept(i: int)
    ensures Filter([], InMonth(i)) == []
  {
  }

  lemma MonthDatesAre(i: int, k: int, s: string)
    requires FourDigit(Monthly, i)
    ensures s in MonthDates(i, k) <==> exists d :: d / 7 == k && MonthIndexOf(d) == i && s == FormatDate(d)
  {
    hide FormatDate, FormatMonth, MonthIndexOf, HasPrefix, Filter;
    FilterMembers(DatesOf(k), InMonth(i));
    if s in MonthDates(i, k) {
      var n :| 0 <= n < 7 && DatesOf(k)[n] == s;
      MonthOfDate(7 * k + n, i);
      assert (7 * k + n) / 7 == k && s == FormatDate(7 * k + n);
    }
    if d :| d / 7 == k && MonthIndexOf(d) == i && s == FormatDate(d) {
      assert DatesOf(k)[d % 7] == s;
      MonthOfDate(d, i);
    }
  }

  /** A daily task is in the bucket of its own week, in its own month, and in no other
      bucket of any month; and that bucket exists. */
  lemma DailyInOneBucket(t: Task, d: int, i: int, k: int)
    requires t.horizon == Daily && ParseDate(t.period) == Some(d) && FourDigit(Monthly, i)
    ensures InBucket(t, i, k) <==> MonthIndexOf(d) == i && d / 7 == k
    ensures MonthIndexOf(d) == i ==> FirstWeek(i) <= d / 7 <= LastWeek(i)
  {
    hide FormatDate, ParseDate, MonthIndexOf, MonthStart, MonthDates, YearOfIndex, FormatPeriod;
    ParseDateAccepts(t.period, d);
    MonthDatesAre(i, k, t.period);
    if e :| e / 7 == k && MonthIndexOf(e) == i && t.period == FormatDate(e) { DateTextUnique(d, e); }
    MonthOfDay(d, i);
  }

  /** A weekly task is shown in a month exactly when its week overlaps the month and
      its period is the week's own text; then in that week's bucket only. */
  lemma WeeklyShownIffOverlapping(t: Task, k: int, i: int)
    requires t.horizon == Weekly && ParsePeriod(Weekly, t.period) == Some(k) && FourDigit(Monthly, i)
    ensures (exists n :: FirstWeek(i) <= n <= LastWeek(i) && InBucket(t, i, n)) <==>
            Overlaps(k, i) && t.period == FormatPeriod(Weekly, k)
    ensures forall n :: FirstWeek(i) <= n <= LastWeek(i) && InBucket(t, i, n) ==> n == k
  {
    hide ParsePeriod, FormatPeriod, FirstWeek, LastWeek, Overlaps, YearOfIndex;
    OverlapIsBetween(k, i);
    forall n | FirstWeek(i) <= n <= LastWeek(i) && InBucket(t, i, n) ensures n == k { WeekReadsBack(i, n); }
    if Overlaps(k, i) && t.period == FormatPeriod(Weekly, k) { assert InBucket(t, i, k); }
  }

  /** A bucket holds the caller's weekly tasks with the week's own text and daily tasks of
      the month's days in that week, and nothing else; the page's own list, the month's. */
  lemma BucketIs(tasks: map<Id, Task>, mine: set<Id>, i: int, k: int, x: Id)
    requires FourDigit(Monthly, i)
    ensures x in Bucket(tasks, mine, i, k) <==>
            && x in tasks && x in mine
            && ((tasks[x].horizon == Weekly && tasks[x].period == FormatPeriod(Weekly, k))
                || (tasks[x].horizon == Daily
                    && exists d :: d / 7 == k && MonthIndexOf(d) == i && tasks[x].period == FormatDate(d)))
    ensures x in MonthTasks(tasks, mine, i) <==>
            x in tasks && x in mine && tasks[x].horizon == Monthly && tasks[x].period == FormatMonth(i)
  {
    hide FormatDate, FormatMonth, FormatPeriod, ParseMonth, MonthIndexOf, MonthDates;
    if x in tasks {
      MonthDatesAre(i, k, tasks[x].period);
      ParseMonthAccepts(tasks[x].period, i);
    }
  }

  /** No bucket is asked for an empty list of dates. */
  lemma NoBucketWithoutDates(i: int, k: int)
    requires FourDigit(Monthly, i) && FirstWeek(i) <= k <= LastWeek(i)
    ensures MonthDates(i, k) != []
  {
    hide MonthStart, MonthIndexOf, MonthDates, YearOfIndex, FormatDate;
    NextMonthStart(i);
    var d := if 7 * k < MonthStart(i) then MonthStart(i) else 7 * k;
    MonthOfDay(d, i);
    assert d / 7 == k;
    MonthDatesAre(i, k, FormatDate(d));
  }
}
