/** The quick-add line: words starting with ! ^ @ * # set properties, the others make
    up the title (ui/src/components/quickAddParser.ts). */
module QuickAdd {
  import opened Base
  import opened Calendar
  import opened Digits
  import opened Period
  import opened PeriodLine
  import opened ClientPeriod
  import Forest

  // ---- words ----

  /** JavaScript's \s. */
  predicate IsJsSpace(c: char) {
    || c == ' ' || ('\U{0009}' <= c <= '\U{000D}') || c == '\U{00A0}' || c == '\U{1680}'
    || ('\U{2000}' <= c <= '\U{200A}')
    || c == '\U{2028}' || c == '\U{2029}' || c == '\U{202F}' || c == '\U{205F}' || c == '\U{3000}' || c == '\U{FEFF}'
  }

  predicate IsWord(s: string) {
    |s| > 0 && forall i :: 0 <= i < |s| ==> !IsJsSpace(s[i])
  }

  /** The length of the leading run of non-space characters. */
  function RunLength(s: string): (n: nat)
    ensures n <= |s| && (forall i :: 0 <= i < n ==> !IsJsSpace(s[i])) && (n < |s| ==> IsJsSpace(s[n]))
  {
    if |s| == 0 || IsJsSpace(s[0]) then 0
    else
      var n := RunLength(s[1..]);
      assert forall i :: 1 <= i < n + 1 ==> s[i] == s[1..][i - 1];
      n + 1
  }

  /** raw.split(/\s+/).filter(Boolean). */
  function Words(s: string): (ws: seq<string>)
    ensures forall i :: 0 <= i < |ws| ==> IsWord(ws[i])
    decreases |s|
  {
    if |s| == 0 then []
    else if IsJsSpace(s[0]) then Words(s[1..])
    else [s[..RunLength(s)]] + Words(s[RunLength(s)..])
  }

  /** titleWords.join(" "). */
  function Join(ws: seq<string>): string {
    if |ws| == 0 then "" else if |ws| == 1 then ws[0] else ws[0] + (" " + Join(ws[1..]))
  }

  function TrimStart(s: string): string {
    if |s| > 0 && IsJsSpace(s[0]) then TrimStart(s[1..]) else s
  }

  function TrimEnd(s: string): string {
    if |s| > 0 && IsJsSpace(s[|s| - 1]) then TrimEnd(s[..|s| - 1]) else s
  }

  function Trim(s: string): string {
    TrimEnd(TrimStart(s))
  }

  lemma RunOfWord(w: string, rest: string)
    requires IsWord(w) && (rest == "" || IsJsSpace(rest[0]))
    ensures RunLength(w + rest) == |w|
  {
    var s := w + rest;
    var n := RunLength(s);
    assert forall i :: 0 <= i < |w| ==> s[i] == w[i] && !IsJsSpace(w[i]);
    assert rest != "" ==> s[|w|] == rest[0];
  }

  lemma {:induction false} WordsOfJoin(ws: seq<string>)
    requires forall i :: 0 <= i < |ws| ==> IsWord(ws[i])
    ensures Words(Join(ws)) == ws
  {
    hide IsJsSpace, RunLength;
    if |ws| == 1 {
      RunOfWord(ws[0], "");
      assert ws[0] + "" == ws[0];
      assert !IsJsSpace(ws[0][0]);
      assert ws[0][..|ws[0]|] == ws[0] && ws[0][|ws[0]|..] == "";
      assert Words("") == [];
    } else if |ws| > 1 {
      var w, rest := ws[0], " " + Join(ws[1..]);
      WordsOfJoin(ws[1..]);
      SpaceIsSpace();
      RunOfWord(w, rest);
      var s := w + rest;
      assert s[0] == w[0] && !IsJsSpace(w[0]);
      assert s[..|w|] == w && s[|w|..] == rest && rest[1..] == Join(ws[1..]);
      assert Words(rest) == Words(Join(ws[1..]));
      assert ws == [w] + ws[1..];
    }
  }

  lemma SpaceIsSpace()
    ensures IsJsSpace(' ')
  {
  }

  lemma {:induction false} JoinEnds(ws: seq<string>)
    requires |ws| > 0 && forall i :: 0 <= i < |ws| ==> IsWord(ws[i])
    ensures |Join(ws)| > 0 && !IsJsSpace(Join(ws)[0]) && !IsJsSpace(Join(ws)[|Join(ws)| - 1])
  {
    hide IsJsSpace;
    assert IsWord(ws[0]);
    if |ws| <= 1 {
    } else {
      JoinEnds(ws[1..]);
    }
  }

  lemma TrimOfJoin(ws: seq<string>)
    requires forall i :: 0 <= i < |ws| ==> IsWord(ws[i])
    ensures Trim(Join(ws)) == Join(ws)
  {
    hide IsJsSpace, Join;
    if |ws| > 0 {
      JoinEnds(ws);
    } else {
      assert Join(ws) == "" by { EmptyJoin(); }
    }
  }

  lemma EmptyJoin()
    ensures Join([]) == ""
  {
  }

  // ---- one word ----

  datatype QuickPriority = HighPriority | MediumPriority | LowPriority | Inherited(name: string)

  datatype QuickHorizon = DailyHorizon | WeeklyHorizon | MonthlyHorizon

  datatype QuickFreq = DailyFreq | WeeklyFreq | MonthlyFreq | WeekdaysFreq

  /** What a recognised word sets. */
  datatype Token =
    | SetPriority(priority: QuickPriority)
    | SetAssignee(name: string)
    | SetHorizon(horizon: QuickHorizon)
    | AddTag(tag: string)
    | SetRecurrence(freq: QuickFreq)
    | SetDue(date: string)

  function Slice1(s: string): string {
    if |s| == 0 then "" else s[1..]
  }

  const PRIORITY_WORDS := {"high", "h", "med", "medium", "m", "low", "l"}

  /** What a plain object inherits under names without a capital letter. */
  const INHERITED_WORDS := {"constructor", "__proto__"}

  /** PRIORITY_MAP[key]: a plain object also answers to what it inherits. */
  function PriorityOf(key: string): Option<QuickPriority> {
    if key == "high" || key == "h" then Some(HighPriority)
    else if key == "med" || key == "medium" || key == "m" then Some(MediumPriority)
    else if key == "low" || key == "l" then Some(LowPriority)
    else if key in INHERITED_WORDS then Some(Inherited(key))
    else None
  }

  predicate IsPunctuation(c: char) {
    c == ',' || c == '.' || c == ';' || c == ':' || c == '!' || c == '?' || c == ')'
  }

  /** replace(/[,.;:!?)]+$/, ""). */
  function DropPunctuation(s: string): string {
    if |s| > 0 && IsPunctuation(s[|s| - 1]) then DropPunctuation(s[..|s| - 1]) else s
  }

  function HorizonOf(s: string): Option<QuickHorizon> {
    if s == "daily" then Some(DailyHorizon)
    else if s == "weekly" then Some(WeeklyHorizon)
    else if s == "monthly" then Some(MonthlyHorizon)
    else None
  }

  function FreqOf(s: string): Option<QuickFreq> {
    if s == "daily" then Some(DailyFreq)
    else if s == "weekly" then Some(WeeklyFreq)
    else if s == "monthly" then Some(MonthlyFreq)
    else if s == "weekdays" then Some(WeekdaysFreq)
    else None
  }

  /** WEEKDAYS.indexOf, Sunday being 0. */
  function WeekdayIndex(s: string): Option<int> {
    if s == "sun" then Some(0)
    else if s == "mon" then Some(1)
    else if s == "tue" then Some(2)
    else if s == "wed" then Some(3)
    else if s == "thu" then Some(4)
    else if s == "fri" then Some(5)
    else if s == "sat" then Some(6)
    else None
  }

  function MonthNumber(s: string): Option<int> {
    if s == "jan" then Some(0)
    else if s == "feb" then Some(1)
    else if s == "mar" then Some(2)
    else if s == "apr" then Some(3)
    else if s == "may" then Some(4)
    else if s == "jun" then Some(5)
    else if s == "jul" then Some(6)
    else if s == "aug" then Some(7)
    else if s == "sep" then Some(8)
    else if s == "oct" then Some(9)
    else if s == "nov" then Some(10)
    else if s == "dec" then Some(11)
    else None
  }

  /** getUTCDay: Sunday is 0. */
  function UTCDay(d: int): int {
    (d + 1) % 7
  }

  /** The earliest day from b on with this weekday. */
  function WeekdayFrom(b: int, index: int): int {
    b + (index - UTCDay(b) + 7) % 7
  }

  /** resolveWeekday. */
  function ResolveWeekday(base: string, index: int): string {
    var b := ParseUTC(base);
    AddDaysText(base, if b.Some? then (index - UTCDay(b.value) + 7) % 7 else 0)
  }

  /** The resolved day is the earliest one, on or after the base, with that weekday. */
  lemma EarliestWeekday(base: string, b: int, index: int, d: int)
    requires ParseUTC(base) == Some(b) && 0 <= index <= 6
    ensures ResolveWeekday(base, index) == DateText(TimeClip(WeekdayFrom(b, index)))
    ensures b <= WeekdayFrom(b, index) && UTCDay(WeekdayFrom(b, index)) == index
    ensures b <= d < WeekdayFrom(b, index) ==> UTCDay(d) != index
  {
    hide ParseUTC, DateText, InDateRange;
    var k := (index - UTCDay(b) + 7) % 7;
    assert (b + 1 + k) % 7 == index;
  }

  /** isIsoDate. */
  predicate IsIsoDate(s: string) {
    && |s| == 10 && s[4] == '-' && s[7] == '-' && AllDigits(s[..4]) && AllDigits(s[5..7]) && AllDigits(s[8..])
    && var y, m, d := Value(s[..4]), Value(s[5..7]), Value(s[8..]);
       1 <= m <= 12 && 1 <= d <= 31 && UTC(y, m - 1, d).Some? && CivilOf(UTC(y, m - 1, d).value) == Civil(y, m, d)
  }

  /** The literal form takes the server's dates from year 100 on, and nothing else. */
  lemma IsoDatesAre(s: string)
    ensures IsIsoDate(s) <==> ParseDate(s).Some? && YearOf(ParseDate(s).value) >= 100
  {
    hide CivilOf, DateAt, YearOf, FormatDate, Value, Pad;
    if |s| == 10 && s[4] == '-' && s[7] == '-' && AllDigits(s[..4]) && AllDigits(s[5..7]) && AllDigits(s[8..]) {
      var c := Civil(Value(s[..4]), Value(s[5..7]), Value(s[8..]));
      DayToCivil(DayUTC(c.year, c.month - 1, c.day));
      FourDigitYear(s[..4]);
      if ValidCivil(c) {
        CivilToDay(c);
        YearOfCivil(DayOf(c));
        if c.year <= 99 { CenturyMoved(c); } else { YearInRange(DayOf(c)); }
        PrintsBack(s, c);
      }
    }
  }

  lemma FourDigitYear(s: string)
    requires |s| == 4 && AllDigits(s)
    ensures Value(s) <= 9999
  {
    PowersOfTen();
    ValueBound(s);
  }

  lemma CenturyMoved(c: Civil)
    requires ValidCivil(c) && 0 <= c.year <= 99
    ensures CivilOf(DayUTC(c.year, c.month - 1, c.day)) != c
  {
    hide CivilOf, YearOf;
    ShiftedCentury(c);
    YearOfCivil(DayUTC(c.year, c.month - 1, c.day));
  }

  lemma PrintsBack(s: string, c: Civil)
    requires |s| == 10 && s[4] == '-' && s[7] == '-' && AllDigits(s[..4]) && AllDigits(s[5..7]) && AllDigits(s[8..])
    requires c == Civil(Value(s[..4]), Value(s[5..7]), Value(s[8..])) && ValidCivil(c) && CivilOf(DayOf(c)) == c
    ensures FormatDate(DayOf(c)) == s
  {
    hide Value, Pad, CivilOf, DayOf;
    PadOfValue(s[..4]);
    PadOfValue(s[5..7]);
    PadOfValue(s[8..]);
    assert s == s[..4] + ("-" + (s[5..7] + ("-" + s[8..])));
  }

  /** resolveMonthDay: this year, or the next if that day has passed. */
  function ResolveMonthDay(base: string, month: int, day: int): Option<string> {
    match ParseUTC(base)
    case None => None
    case Some(b) =>
      var year := CivilOf(b).year;
      match UTC(year, month, day)
      case None => None
      case Some(candidate) =>
        if CivilOf(candidate).month - 1 != month then None
        else if StringLess(FormatUTC(candidate), base) then Some(DateText(UTC(year + 1, month, day)))
        else Some(FormatUTC(candidate))
  }

  /** Day numbers of one or two digits from the start of month i: inside the month, or
      in one of its neighbours, never in the same month of another year. */
  lemma DayFromMonthStart(i: int, day: int)
    requires 0 <= day <= 99
    ensures CivilOf(MonthStart(i) + day - 1).month == i % 12 + 1 <==> 1 <= day <= DaysInMonth(i / 12, i % 12 + 1)
    ensures 1 <= day <= DaysInMonth(i / 12, i % 12 + 1) ==>
            CivilOf(MonthStart(i) + day - 1) == Civil(i / 12, i % 12 + 1, day)
  {
    var d := MonthStart(i) + day - 1;
    if 1 <= day <= DaysInMonth(i / 12, i % 12 + 1) { InsideMonth(i, day); }
    hide *;
    MonthReached(i, day);
    MonthField(d);
    SameMonthField(MonthIndexOf(d), i);
  }

  lemma InsideMonth(i: int, day: int)
    requires 1 <= day <= DaysInMonth(i / 12, i % 12 + 1)
    ensures CivilOf(MonthStart(i) + day - 1) == Civil(i / 12, i % 12 + 1, day)
  {
    hide CivilOf, MonthStart, DaysInMonth, DateAt;
    MonthDayNumber(i, day);
    CivilToDay(Civil(i / 12, i % 12 + 1, day));
  }

  lemma MonthField(d: int)
    ensures MonthIndexOf(d) % 12 + 1 == CivilOf(d).month
  {
    DayToCivil(d);
    hide CivilOf, DayOf;
  }

  lemma SameMonthField(n: int, i: int)
    requires i - 1 <= n <= i + 3
    ensures n % 12 == i % 12 <==> n == i
  {
  }

  lemma MonthReached(i: int, day: int)
    requires 0 <= day <= 99
    ensures var n := MonthIndexOf(MonthStart(i) + day - 1);
            i - 1 <= n <= i + 3 && (n == i <==> 1 <= day <= DaysInMonth(i / 12, i % 12 + 1))
  {
    hide MonthIndexOf, MonthStart;
    var d := MonthStart(i) + day - 1;
    NextMonthStart(i - 1);
    NextMonthStart(i);
    NextMonthStart(i + 1);
    NextMonthStart(i + 2);
    NextMonthStart(i + 3);
    MonthOfDay(d, i - 1);
    MonthOfDay(d, i);
    MonthOfDay(d, i + 1);
    MonthOfDay(d, i + 2);
    MonthOfDay(d, i + 3);
  }

  /** ^<mon><day> is recognised exactly when this year has that day; then it resolves to
      that day of this year or, if it has passed, to day number `day` of the same month
      next year, which is that day unless it is February 29 of a common year. */
  lemma MonthDayResolves(base: string, b: int, month: int, day: int)
    requires base == FormatDate(b) && 1000 <= CivilOf(b).year <= 9998 && 0 <= month <= 11 && 0 <= day <= 99
    ensures var y := CivilOf(b).year;
            var r := ResolveMonthDay(base, month, day);
            && (r.Some? <==> 1 <= day <= DaysInMonth(y, month + 1))
            && (r.Some? ==>
                 var e := MonthDayFrom(b, month, day);
                 && r == Some(FormatDate(e)) && b <= e && YearOf(e) <= y + 1
                 && (CivilOf(e).month == month + 1 && CivilOf(e).day == day <==>
                      !(DayOf(Civil(y, month + 1, day)) < b && day > DaysInMonth(y + 1, month + 1))))
  {
    hide CivilOf, FormatUTC, FormatDate, MonthStart, DateAt, YearOf, StringLess, YearStart, InDateRange;
    var y := CivilOf(b).year;
    var i := 12 * y + month;
    var j := i + 12;
    assert i / 12 == y && i % 12 == month && j / 12 == y + 1 && j % 12 == month;
    BaseReads(b);
    MonthDayNumber(i, day);
    MonthDayNumber(j, day);
    DayFromMonthStart(i, day);
    DayFromMonthStart(j, day);
    var c, e := MonthStart(i) + day - 1, MonthStart(j) + day - 1;
    assert DayUTC(y, month, day) == c && DayUTC(y + 1, month, day) == e;
    YearBounds(i, day);
    YearBounds(j, day);
    YearInRange(c);
    YearInRange(e);
    if 1 <= day <= DaysInMonth(y, month + 1) {
      assert CivilOf(c) == Civil(y, month + 1, day) && DayOf(Civil(y, month + 1, day)) == c;
      YearOfCivil(b);
      YearOfCivil(c);
      SameOrder(c, b);
      DateTextsMeet(c, c);
      DateTextsMeet(e, e);
      ClampedDate(y + 1, month + 1, day);
      NextYearLater(b, e, y);
      NextYearOnly(y, month, day);
    }
  }

  /** Day numbers of a month in year y stay in year y + 1 when moved there. */
  lemma NextYearOnly(y: int, month: int, day: int)
    requires 0 <= month <= 11 && 1 <= day <= DaysInMonth(y, month + 1)
    ensures YearOf(MonthStart(12 * (y + 1) + month) + day - 1) == y + 1
  {
    hide CivilOf, MonthStart, DateAt, YearOf, MonthIndexOf;
    var j := 12 * (y + 1) + month;
    assert j / 12 == y + 1 && j % 12 == month;
    var e := MonthStart(j) + day - 1;
    MonthReached(j, day);
    YearOfCivil(e);
    YearOfMonthIndex(e);
  }

  /** Day number `day` of the month in b's year or, if that is before b, in the next one. */
  function MonthDayFrom(b: int, month: int, day: int): int {
    var y := CivilOf(b).year;
    if DayUTC(y, month, day) < b then DayUTC(y + 1, month, day) else DayUTC(y, month, day)
  }

  lemma BaseReads(b: int)
    requires 1000 <= CivilOf(b).year <= 9999
    ensures ParseUTC(FormatDate(b)) == Some(b) && ParseDate(FormatDate(b)) == Some(b)
  {
    hide CivilOf, FormatDate, ParseUTC, ParseDate, YearOf;
    YearOfCivil(b);
    ParseOfFormatDate(b);
    ClientReadsServerDate(FormatDate(b), b);
  }

  lemma YearBounds(i: int, day: int)
    requires 0 <= day <= 99 && 12000 <= i <= 120000
    ensures i / 12 - 1 <= YearOf(MonthStart(i) + day - 1) <= i / 12 + 1
  {
    hide *;
    MonthReached(i, day);
    var d := MonthStart(i) + day - 1;
    YearOfCivil(d);
    DayToCivil(d);
    YearOfMonthIndex(d);
  }

  lemma YearOfMonthIndex(d: int)
    ensures MonthIndexOf(d) / 12 == CivilOf(d).year
  {
    DayToCivil(d);
    hide CivilOf, DayOf;
  }

  lemma SameOrder(c: int, b: int)
    requires 1000 <= YearOf(c) <= 9999 && 1000 <= YearOf(b) <= 9999
    ensures StringLess(FormatUTC(c), FormatDate(b)) <==> c < b
  {
    hide FormatUTC, FormatDate, YearOf, StringLess;
    DateTextsMeet(c, c);
    DateTextOrder(c, b);
  }

  lemma NextYearLater(b: int, e: int, y: int)
    requires YearOf(b) == y && YearOf(e) >= y + 1
    ensures b <= e
  {
    hide YearOf, YearStart;
    YearStartMonotone(y + 1, YearOf(e));
  }

  /** ^ and what follows it. */
  function DueOf(d: string, base: string): Option<string> {
    if d == "today" then Some(base)
    else if d == "tomorrow" || d == "tmrw" then Some(AddDaysText(base, 1))
    else if WeekdayIndex(d).Some? then Some(ResolveWeekday(base, WeekdayIndex(d).value))
    else if IsIsoDate(d) then Some(d)
    else if IsMonthDay(d) then ResolveMonthDay(base, MonthNumber(d[..3]).value, Value(d[3..]))
    else None
  }

  /** Three letters of a month and one or two digits. */
  predicate IsMonthDay(d: string) {
    4 <= |d| <= 5 && AllDigits(d[3..]) && MonthNumber(d[..3]).Some?
  }

  /** What a word sets; None leaves it in the title. lower is String.toLowerCase. */
  function TokenOf(w: string, base: string, lower: string -> string): Option<Token> {
    if |w| <= 1 then None
    else
      var rest := Slice1(lower(w));
      if w[0] == '!' then (match PriorityOf(rest) case Some(p) => Some(SetPriority(p)) case None => None)
      else if w[0] == '@' then Some(SetAssignee(w[1..]))
      else if w[0] == '#' then
        (var h := DropPunctuation(rest);
         if h == "" then None else match HorizonOf(h) case Some(x) => Some(SetHorizon(x)) case None => Some(AddTag(h)))
      else if w[0] == '*' then (match FreqOf(rest) case Some(f) => Some(SetRecurrence(f)) case None => None)
      else if w[0] == '^' then (match DueOf(rest, base) case Some(d) => Some(SetDue(d)) case None => None)
      else None
  }

  /** The branches of the loop body, in the source's order. */
  method ParseWord(w: string, base: string, lower: string -> string) returns (token: Option<Token>)
    ensures token == TokenOf(w, base, lower)
  {
    hide DueOf, PriorityOf, HorizonOf, FreqOf, DropPunctuation;
    var lw := lower(w);
    token := None;
    if |w| > 1 && w[0] == '!' {
      var p := PriorityOf(Slice1(lw));
      if p.Some? {
        token := Some(SetPriority(p.value));
      }
    } else if |w| > 1 && w[0] == '@' {
      token := Some(SetAssignee(w[1..]));
    } else if |w| > 1 && w[0] == '#' {
      var h := DropPunctuation(Slice1(lw));
      if h != "" {
        var horizon := HorizonOf(h);
        if horizon.Some? {
          token := Some(SetHorizon(horizon.value));
        } else {
          token := Some(AddTag(h));
        }
      }
    } else if |w| > 1 && w[0] == '*' {
      var f := FreqOf(Slice1(lw));
      if f.Some? {
        token := Some(SetRecurrence(f.value));
      }
    } else if |w| > 1 && w[0] == '^' {
      var d := ParseDue(Slice1(lw), base);
      if d.Some? {
        token := Some(SetDue(d.value));
      }
    }
  }

  method ParseDue(d: string, base: string) returns (due: Option<string>)
    ensures due == DueOf(d, base)
  {
    hide AddDaysText, WeekdayIndex, MonthNumber, ResolveMonthDay, ResolveWeekday, IsIsoDate, Value;
    if d == "today" {
      return Some(base);
    }
    if d == "tomorrow" || d == "tmrw" {
      return Some(AddDaysText(base, 1));
    }
    var index := WeekdayIndex(d);
    if index.Some? {
      return Some(ResolveWeekday(base, index.value));
    }
    if IsIsoDate(d) {
      return Some(d);
    }
    if 4 <= |d| <= 5 && AllDigits(d[3..]) {
      var month := MonthNumber(d[..3]);
      if month.Some? {
        return ResolveMonthDay(base, month.value, Value(d[3..]));
      }
    }
    return None;
  }

  // ---- what a word means ----

  const WEEKDAYS := {"sun", "mon", "tue", "wed", "thu", "fri", "sat"}

  /** The day that ^d asks for exists, seen from a base in a year of four digits. */
  predicate NamesDay(d: string, base: string, b: int) {
    || d in {"today", "tomorrow", "tmrw"} || d in WEEKDAYS
    || (ParseDate(d).Some? && YearOf(ParseDate(d).value) >= 100)
    || (IsMonthDay(d) && 1 <= Value(d[3..]) <= DaysInMonth(CivilOf(b).year, MonthNumber(d[..3]).value + 1))
  }

  /** ^d is a due date exactly if it names a day; then the server can read the date, and
      it is not before the base unless it was written out. */
  lemma DueIsServerDate(d: string, base: string, b: int)
    requires base == FormatDate(b) && 1000 <= CivilOf(b).year <= 9998
    ensures DueOf(d, base).Some? <==> NamesDay(d, base, b)
    ensures DueOf(d, base).Some? ==> ParseDate(DueOf(d, base).value).Some?
    ensures DueOf(d, base).Some? ==> d == DueOf(d, base).value || ParseDate(DueOf(d, base).value).value >= b
  {
    hide CivilOf, FormatDate, ParseDate, ParseUTC, DaysInMonth, ResolveMonthDay, ResolveWeekday, AddDaysText,
         IsIsoDate, Value, YearOf, WeekdayIndex, MonthNumber, MonthDayFrom;
    BaseReads(b);
    WeekdayNames(d);
    IsoDatesAre(d);
    if d == "today" {
    } else if d == "tomorrow" || d == "tmrw" {
      NearDay(base, b, 1);
    } else if WeekdayIndex(d).Some? {
      var index := WeekdayIndex(d).value;
      WeekdayShift(base, b, index);
      NearDay(base, b, (index - UTCDay(b) + 7) % 7);
    } else if IsMonthDay(d) {
      TwoDigits(d);
      MonthDayResolves(base, b, MonthNumber(d[..3]).value, Value(d[3..]));
      if DueOf(d, base).Some? && !IsIsoDate(d) {
        assert DueOf(d, base) == ResolveMonthDay(base, MonthNumber(d[..3]).value, Value(d[3..]));
        var e := MonthDayFrom(b, MonthNumber(d[..3]).value, Value(d[3..]));
        YearOfCivil(b);
        LaterYear(b, e);
        ParseOfFormatDate(e);
      }
    }
  }

  lemma WeekdayNames(d: string)
    ensures WeekdayIndex(d).Some? <==> d in WEEKDAYS
    ensures WeekdayIndex(d).Some? ==> 0 <= WeekdayIndex(d).value <= 6
  {
  }

  lemma WeekdayShift(base: string, b: int, index: int)
    requires ParseUTC(base) == Some(b)
    ensures ResolveWeekday(base, index) == AddDaysText(base, (index - UTCDay(b) + 7) % 7)
  {
  }

  lemma TwoDigits(d: string)
    requires IsMonthDay(d)
    ensures 0 <= Value(d[3..]) <= 99 && 0 <= MonthNumber(d[..3]).value <= 11
  {
    PowersOfTen();
    assert Power10(1) == 10 * Power10(0);
    ValueBound(d[3..]);
  }

  lemma LaterYear(b: int, e: int)
    requires b <= e
    ensures YearOf(b) <= YearOf(e)
  {
    hide YearOf, YearStart;
    if YearOf(e) < YearOf(b) { YearStartMonotone(YearOf(e) + 1, YearOf(b)); }
  }

  /** At most a week on from the base, both sides print the same day. */
  lemma NearDay(base: string, b: int, k: int)
    requires ParseUTC(base) == Some(b) && 1000 <= CivilOf(b).year <= 9998 && 0 <= k <= 6
    ensures AddDaysText(base, k) == FormatDate(b + k) && ParseDate(FormatDate(b + k)) == Some(b + k)
  {
    hide CivilOf, FormatDate, FormatUTC, ParseDate, ParseUTC, YearOf, YearStart;
    YearOfCivil(b);
    LaterYear(b, b + k);
    YearStartMonotone(YearOf(b) + 1, YearOf(b) + 2);
    if YearOf(b + k) > YearOf(b) + 1 { YearStartMonotone(YearOf(b) + 2, YearOf(b + k)); }
    YearInRange(b + k);
    DateTextsMeet(b + k, b + k);
    ParseOfFormatDate(b + k);
  }

  predicate IsBlankTag(s: string) {
    forall i :: 0 <= i < |s| ==> IsPunctuation(s[i])
  }

  lemma {:induction false} DroppedPunctuation(s: string)
    ensures DropPunctuation(s) <= s
    ensures DropPunctuation(s) == "" <==> IsBlankTag(s)
    ensures DropPunctuation(s) != "" ==> !IsPunctuation(DropPunctuation(s)[|DropPunctuation(s)| - 1])
  {
    if |s| > 0 && IsPunctuation(s[|s| - 1]) {
      DroppedPunctuation(s[..|s| - 1]);
      assert s == s[..|s| - 1] + [s[|s| - 1]];
    }
  }

  /** Exactly these words leave the title: an assignee, a known priority, horizon, tag or
      frequency, or a day; a lone sigil and everything else stays. */
  lemma StaysInTitle(w: string, base: string, b: int, lower: string -> string)
    requires base == FormatDate(b) && 1000 <= CivilOf(b).year <= 9998
    ensures var rest := Slice1(lower(w));
            TokenOf(w, base, lower) == None <==>
            !(|w| > 1
              && (w[0] == '@'
                  || (w[0] == '!' && (rest in PRIORITY_WORDS || rest in INHERITED_WORDS))
                  || (w[0] == '#' && !IsBlankTag(rest))
                  || (w[0] == '*' && rest in {"daily", "weekly", "monthly", "weekdays"})
                  || (w[0] == '^' && NamesDay(rest, base, b))))
  {
    hide CivilOf, FormatDate, DueOf, NamesDay, IsBlankTag, DropPunctuation, IsPunctuation;
    var rest := Slice1(lower(w));
    DueIsServerDate(rest, base, b);
    DroppedPunctuation(rest);
  }

  /** What a recognised word sets follows from its sigil. A tag is a prefix of the word,
      not empty, not a horizon's name, and does not end in punctuation; an assignee keeps
      its case. */
  lemma TokenFollowsSigil(w: string, base: string, lower: string -> string)
    requires TokenOf(w, base, lower).Some?
    ensures var t := TokenOf(w, base, lower).value;
            && |w| > 1
            && (t.SetPriority? <==> w[0] == '!') && (t.SetAssignee? <==> w[0] == '@')
            && (t.SetHorizon? || t.AddTag? <==> w[0] == '#')
            && (t.SetRecurrence? <==> w[0] == '*') && (t.SetDue? <==> w[0] == '^')
            && (t.SetAssignee? ==> w == "@" + t.name)
            && (t.AddTag? ==>
                 && t.tag <= Slice1(lower(w)) && t.tag !in {"", "daily", "weekly", "monthly"}
                 && !IsPunctuation(t.tag[|t.tag| - 1]))
  {
    hide DueOf, PriorityOf, FreqOf, DropPunctuation, IsPunctuation, IsBlankTag;
    DroppedPunctuation(Slice1(lower(w)));
  }

  // ---- the whole line ----

  datatype Parsed = Parsed(
    title: string,
    priority: Option<QuickPriority>,
    due: Option<string>,
    assignee: Option<string>,
    recurrence: Option<QuickFreq>,
    horizon: Option<QuickHorizon>,
    tags: seq<string>)

  const NOTHING := Parsed("", None, None, None, None, None, [])

  function Applied(p: Parsed, t: Token): Parsed {
    match t
    case SetPriority(x) => p.(priority := Some(x))
    case SetAssignee(name) => p.(assignee := Some(name))
    case SetHorizon(h) => p.(horizon := Some(h))
    case AddTag(tag) => if tag in p.tags then p else p.(tags := p.tags + [tag])
    case SetRecurrence(f) => p.(recurrence := Some(f))
    case SetDue(d) => p.(due := Some(d))
  }

  /** The tokens of the words, one after the other. */
  function ApplyWords(words: seq<string>, base: string, lower: string -> string): Parsed {
    if |words| == 0 then NOTHING
    else
      var p := ApplyWords(words[..|words| - 1], base, lower);
      match TokenOf(words[|words| - 1], base, lower)
      case Some(t) => Applied(p, t)
      case None => p
  }

  function Unrecognised(base: string, lower: string -> string): string -> bool {
    (w: string) => TokenOf(w, base, lower) == None
  }

  function HorizonOfFreq(f: QuickFreq): QuickHorizon {
    match f
    case DailyFreq => DailyHorizon
    case WeekdaysFreq => DailyHorizon
    case WeeklyFreq => WeeklyHorizon
    case MonthlyFreq => MonthlyHorizon
  }

  /** The title is the unrecognised words in their order; a recurrence decides the horizon. */
  function QuickAddOf(raw: string, base: string, lower: string -> string): Parsed {
    var words := Words(raw);
    var p := ApplyWords(words, base, lower);
    p.(title := Join(Filter(words, Unrecognised(base, lower))),
       horizon := if p.recurrence.Some? then Some(HorizonOfFreq(p.recurrence.value)) else p.horizon)
  }

  method ParseQuickAdd(raw: string, base: string, lower: string -> string) returns (result: Parsed)
    ensures result == QuickAddOf(raw, base, lower)
  {
    hide TokenOf, Filter, Trim, Join, IsWord, Words;
    var words := Words(raw);
    var titleWords: seq<string> := [];
    result := NOTHING;
    assert words[..0] == [];
    NothingLeft(base, lower);
    for k := 0 to |words|
      invariant result == ApplyWords(words[..k], base, lower)
      invariant titleWords == Filter(words[..k], Unrecognised(base, lower))
    {
      var w := words[k];
      FilterNext(words, k, Unrecognised(base, lower));
      assert words[..k + 1][..k] == words[..k];
      var token := ParseWord(w, base, lower);
      if token.Some? {
        result := Applied(result, token.value);
      } else {
        titleWords := titleWords + [w];
      }
    }
    assert words[..|words|] == words;
    if result.recurrence.Some? {
      result := result.(horizon := Some(HorizonOfFreq(result.recurrence.value)));
    }
    WordsStayWords(words, Unrecognised(base, lower));
    TrimOfJoin(titleWords);
    result := result.(title := Trim(Join(titleWords)));
  }

  lemma NothingLeft(base: string, lower: string -> string)
    ensures Filter([], Unrecognised(base, lower)) == []
  {
  }

  lemma WordsStayWords(words: seq<string>, p: string -> bool)
    requires forall i :: 0 <= i < |words| ==> IsWord(words[i])
    ensures forall i :: 0 <= i < |Filter(words, p)| ==> IsWord(Filter(words, p)[i])
  {
    hide IsWord, Filter;
    FilterMembers(words, p);
    forall i | 0 <= i < |Filter(words, p)| ensures IsWord(Filter(words, p)[i]) {
      assert Filter(words, p)[i] in words;
    }
  }

  // ---- parsing a parsed title ----

  lemma {:induction false} PlainWordsSetNothing(words: seq<string>, base: string, lower: string -> string)
    requires forall w :: w in words ==> TokenOf(w, base, lower) == None
    ensures ApplyWords(words, base, lower) == NOTHING && Filter(words, Unrecognised(base, lower)) == words
  {
    hide TokenOf;
    if |words| == 0 {
    } else {
      var init, last := words[..|words| - 1], words[|words| - 1];
      assert words == init + [last];
      PlainWordsSetNothing(init, base, lower);
      assert last in words;
    }
  }

  /** With the same base date, parsing a parsed title gives that title back and sets
      nothing, whatever toLowerCase does. */
  lemma ReparseIsNoOp(raw: string, base: string, lower: string -> string)
    ensures var title := QuickAddOf(raw, base, lower).title;
            QuickAddOf(title, base, lower) == NOTHING.(title := title)
  {
    hide TokenOf, Filter, Join, IsWord, Words;
    var words := Words(raw);
    var kept := Filter(words, Unrecognised(base, lower));
    WordsStayWords(words, Unrecognised(base, lower));
    WordsOfJoin(kept);
    FilterMembers(words, Unrecognised(base, lower));
    PlainWordsSetNothing(kept, base, lower);
  }

  /** The tags of a line are those of its words, each once. */
  lemma TagsOfLine(raw: string, base: string, lower: string -> string)
    ensures Forest.Distinct(QuickAddOf(raw, base, lower).tags)
    ensures forall tag :: tag in QuickAddOf(raw, base, lower).tags <==> HasTag(Words(raw), base, lower, tag)
  {
    hide TokenOf, Forest.Distinct, Words, HasTag, Filter;
    TagsAreDistinct(Words(raw), base, lower);
  }

  predicate HasTag(words: seq<string>, base: string, lower: string -> string, tag: string) {
    exists i :: 0 <= i < |words| && TokenOf(words[i], base, lower) == Some(AddTag(tag))
  }

  lemma {:induction false} TagsAreDistinct(words: seq<string>, base: string, lower: string -> string)
    ensures Forest.Distinct(ApplyWords(words, base, lower).tags)
    ensures forall tag :: tag in ApplyWords(words, base, lower).tags <==> HasTag(words, base, lower, tag)
  {
    hide TokenOf, Forest.Distinct;
    if |words| == 0 {
      assert Forest.Distinct<string>([]) by { NoTags(); }
    } else {
      var init, last := words[..|words| - 1], words[|words| - 1];
      var p, token := ApplyWords(init, base, lower), TokenOf(last, base, lower);
      TagsAreDistinct(init, base, lower);
      if token.Some? && token.value.AddTag? && token.value.tag !in p.tags { OneMoreTag(p.tags, token.value.tag); }
      forall tag ensures HasTag(words, base, lower, tag) <==>
          HasTag(init, base, lower, tag) || token == Some(AddTag(tag)) {
        TagOfLast(words, base, lower, tag);
      }
    }
  }

  lemma TagOfLast(words: seq<string>, base: string, lower: string -> string, tag: string)
    requires |words| > 0
    ensures HasTag(words, base, lower, tag) <==>
            HasTag(words[..|words| - 1], base, lower, tag)
                || TokenOf(words[|words| - 1], base, lower) == Some(AddTag(tag))
  {
    hide TokenOf;
    var init := words[..|words| - 1];
    if i :| 0 <= i < |init| && TokenOf(init[i], base, lower) == Some(AddTag(tag)) { assert words[i] == init[i]; }
    if i :| 0 <= i < |words| && TokenOf(words[i], base, lower) == Some(AddTag(tag)) {
      if i < |init| { assert init[i] == words[i]; }
    }
  }

  lemma NoTags()
    ensures Forest.Distinct<string>([])
  {
  }

  lemma OneMoreTag(tags: seq<string>, tag: string)
    requires Forest.Distinct(tags) && tag !in tags
    ensures Forest.Distinct(tags + [tag])
  {
  }

  /** A word after ! is swallowed without being a documented priority exactly if it is an
      inherited name. */
  lemma SwallowedExactly(w: string, base: string, lower: string -> string)
    requires |w| > 1 && w[0] == '!'
    ensures var rest, token := Slice1(lower(w)), TokenOf(w, base, lower);
            && (token.Some? <==> rest in PRIORITY_WORDS + INHERITED_WORDS)
            && (token.Some? && token.value.priority.Inherited? <==> rest in INHERITED_WORDS)
  {
    assert forall key :: key in INHERITED_WORDS ==> key !in PRIORITY_WORDS;
  }

  /** Concretely, both inherited names count as a priority, so the word leaves the title. */
  lemma InheritedNamesAreSwallowed(base: string, lower: string -> string)
    requires lower("!constructor") == "!constructor" && lower("!__proto__") == "!__proto__"
    ensures TokenOf("!constructor", base, lower) == Some(SetPriority(Inherited("constructor")))
    ensures TokenOf("!__proto__", base, lower) == Some(SetPriority(Inherited("__proto__")))
  {
    assert "!constructor"[1..] == "constructor" && "!__proto__"[1..] == "__proto__";
  }
}
