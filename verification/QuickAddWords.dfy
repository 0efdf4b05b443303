/** What the words of a quick-add line mean, in plain terms
    (ui/src/components/quickAddParser.ts). */
module QuickAddWords {
  import opened Base
  import opened Calendar
  import opened Digits
  import opened Period
  import opened ClientPeriod
  import opened QuickAdd
  import Recur
  import Tags

  // ---- splitting ----

  predicate OnlySpace(s: string) {
    forall i :: 0 <= i < |s| ==> IsJsSpace(s[i])
  }

  lemma {:induction false} SpaceHasNoWords(s: string)
    requires OnlySpace(s)
    ensures Words(s) == []
  {
    hide IsJsSpace;
    if |s| == 0 {
    } else {
      SpaceHasNoWords(s[1..]);
    }
  }

  lemma {:induction false} SpaceBeforeWords(space: string, s: string)
    requires OnlySpace(space)
    ensures Words(space + s) == Words(s)
  {
    hide IsJsSpace;
    if |space| == 0 {
      assert space + s == s;
    } else {
      SpaceBeforeWords(space[1..], s);
      assert (space + s)[1..] == space[1..] + s;
    }
  }

  /** A line is split at its runs of white space: what stands before the first word is
      dropped, and the words after it are those of the rest. */
  lemma FirstWord(space: string, w: string, rest: string)
    requires OnlySpace(space) && IsWord(w) && (rest == "" || IsJsSpace(rest[0]))
    ensures Words(space + (w + rest)) == [w] + Words(rest)
    ensures Words(space) == []
  {
    hide IsJsSpace;
    SpaceHasNoWords(space);
    SpaceBeforeWords(space, w + rest);
    RunOfWord(w, rest);
    var s := w + rest;
    assert s[0] == w[0] && s[..|w|] == w && s[|w|..] == rest;
  }

  /** The browser splits at what the server trims, but for two characters: U+0085, which is
      white space to Go only, and U+FEFF, which is to JavaScript only. */
  lemma WhiteSpaceAgrees(c: char)
    ensures (IsJsSpace(c) <==> Tags.IsSpace(c)) <==> c != '\U{85}' && c != '\U{FEFF}'
    ensures Tags.IsSpace('\U{85}') && IsJsSpace('\U{FEFF}')
  {
  }

  // ---- values and their names ----

  function PriorityText(p: QuickPriority): string {
    match p
    case HighPriority => "high"
    case MediumPriority => "medium"
    case LowPriority => "low"
    case Inherited(name) => name
  }

  function HorizonText(h: QuickHorizon): string {
    match h
    case DailyHorizon => "daily"
    case WeeklyHorizon => "weekly"
    case MonthlyHorizon => "monthly"
  }

  function FreqText(f: QuickFreq): string {
    match f
    case DailyFreq => "daily"
    case WeeklyFreq => "weekly"
    case MonthlyFreq => "monthly"
    case WeekdaysFreq => "weekdays"
  }

  predicate IsMark(c: char) {
    c in ",.;:!?)"
  }

  lemma {:induction false} DropsMarks(s: string)
    ensures DropPunctuation(s) <= s
    ensures forall i :: |DropPunctuation(s)| <= i < |s| ==> IsMark(s[i])
    ensures DropPunctuation(s) != "" ==> !IsMark(DropPunctuation(s)[|DropPunctuation(s)| - 1])
  {
    if |s| > 0 && IsPunctuation(s[|s| - 1]) {
      DropsMarks(s[..|s| - 1]);
      assert s == s[..|s| - 1] + [s[|s| - 1]];
    }
  }

  /** s is name, followed by nothing but punctuation marks. */
  predicate NameThenMarks(s: string, name: string) {
    && name <= s && name != "" && !IsMark(name[|name| - 1])
    && forall i :: |name| <= i < |s| ==> IsMark(s[i])
  }

  /** The marks at the end of s begin at one place only. */
  lemma MarksBeginOnce(s: string, a: nat, b: nat)
    requires a <= |s| && b <= |s|
    requires (forall i :: a <= i < |s| ==> IsMark(s[i])) && (a > 0 ==> !IsMark(s[a - 1]))
    requires (forall i :: b <= i < |s| ==> IsMark(s[i])) && (b > 0 ==> !IsMark(s[b - 1]))
    ensures a == b
  {
  }

  lemma NameIsDropped(s: string, name: string)
    ensures NameThenMarks(s, name) <==> name != "" && DropPunctuation(s) == name
  {
    DropsMarks(s);
    hide IsMark;
    if NameThenMarks(s, name) { MarksBeginOnce(s, |name|, |DropPunctuation(s)|); }
  }

  /** Each word says what it sets: a priority by its name, its initial or "med" (or one of
      the names that every object has), a horizon and a frequency by name, an assignee as
      written, a tag as its lower-cased word without trailing marks. */
  lemma WordSays(w: string, base: string, lower: string -> string, t: Token)
    requires !t.SetDue?
    ensures var rest := Slice1(lower(w));
            TokenOf(w, base, lower) == Some(t) <==>
            && |w| > 1
            && match t
               case SetPriority(p) =>
                 && w[0] == '!'
                 && (p.Inherited? ==> p.name == "constructor" || p.name == "__proto__")
                 && (rest == PriorityText(p) || (!p.Inherited? && rest == PriorityText(p)[..1])
                     || (p == MediumPriority && rest == "med"))
               case SetAssignee(name) => w == "@" + name
               case SetHorizon(h) => w[0] == '#' && NameThenMarks(rest, HorizonText(h))
               case AddTag(tag) =>
                 w[0] == '#' && NameThenMarks(rest, tag) && tag != "daily" && tag != "weekly" && tag != "monthly"
               case SetRecurrence(f) => w[0] == '*' && rest == FreqText(f)
               case SetDue(_) => false
  {
    hide DueOf, DropPunctuation, NameThenMarks;
    var rest := Slice1(lower(w));
    match t
    case SetPriority(p) => PriorityIs(rest, p);
    case SetHorizon(h) => NameIsDropped(rest, HorizonText(h)); HorizonIs(DropPunctuation(rest), h);
    case AddTag(tag) => NameIsDropped(rest, tag);
    case SetRecurrence(f) => FreqIs(rest, f);
    case _ =>
  }

  lemma PriorityIs(key: string, p: QuickPriority)
    ensures PriorityOf(key) == Some(p) <==>
            && (p.Inherited? ==> p.name == "constructor" || p.name == "__proto__")
            && (key == PriorityText(p) || (!p.Inherited? && key == PriorityText(p)[..1])
                || (p == MediumPriority && key == "med"))
  {
    assert "high"[..1] == "h" && "medium"[..1] == "m" && "low"[..1] == "l";
  }

  lemma HorizonIs(s: string, h: QuickHorizon)
    ensures HorizonOf(s) == Some(h) <==> s == HorizonText(h)
  {
  }

  lemma FreqIs(s: string, f: QuickFreq)
    ensures FreqOf(s) == Some(f) <==> s == FreqText(f)
  {
  }

  // ---- the horizon of a frequency, on both sides ----

  function ServerFreq(f: QuickFreq): Recur.Freq {
    match f
    case DailyFreq => Recur.EveryDay
    case WeeklyFreq => Recur.EveryWeek
    case MonthlyFreq => Recur.EveryMonth
    case WeekdaysFreq => Recur.OnWeekdays
  }

  function ServerHorizon(h: QuickHorizon): Horizon {
    match h
    case DailyHorizon => Daily
    case WeeklyHorizon => Weekly
    case MonthlyHorizon => Monthly
  }

  /** The client files a recurring task under the horizon that the server asks for. */
  lemma HorizonMirrorsServer(f: QuickFreq)
    ensures Recur.RecurrenceHorizon(ServerFreq(f)) == Some(ServerHorizon(HorizonOfFreq(f)))
    ensures f != WeekdaysFreq ==> HorizonText(HorizonOfFreq(f)) == FreqText(f)
  {
  }

  // ---- due dates ----

  /** Day 0 is a Monday. */
  const DAY_NAMES := ["mon", "tue", "wed", "thu", "fri", "sat", "sun"]

  const MONTH_NAMES := ["jan", "feb", "mar", "apr", "may", "jun", "jul", "aug", "sep", "oct", "nov", "dec"]

  /** The name of a month, then one or two digits. */
  predicate NamesMonthDay(d: string, month: int, day: int) {
    && 1 <= month <= 12 && 4 <= |d| <= 5 && d[..3] == MONTH_NAMES[month - 1]
    && AllDigits(d[3..]) && Value(d[3..]) == day
  }

  /** e is the day that d asks for on day b: b itself, the next day, the first day of that
      name from b on, the date written out, or the day of that month in b's year; if that
      is before b, as many days into the same month of the next year. */
  ghost predicate AsksFor(d: string, b: int, e: int) {
    || (d == "today" && e == b)
    || ((d == "tomorrow" || d == "tmrw") && e == b + 1)
    || (d == DAY_NAMES[e % 7] && b <= e <= b + 6)
    || (ParseDate(d) == Some(e) && YearOf(e) >= 100)
    || AsksForMonthDay(d, b, e)
  }

  ghost predicate AsksForMonthDay(d: string, b: int, e: int) {
    exists month, day :: NamesMonthDay(d, month, day) &&
      var y := CivilOf(b).year;
      && ValidCivil(Civil(y, month, day))
      && e == if DayOf(Civil(y, month, day)) >= b then DayOf(Civil(y, month, day))
              else DayOf(Civil(y + 1, month, 1)) + day - 1
  }

  lemma DayNamesAre(d: string, k: int)
    requires 0 <= k <= 6
    ensures d == DAY_NAMES[k] <==> WeekdayIndex(d) == Some((k + 1) % 7)
  {
  }

  lemma MonthNamesAre(s: string, month: int)
    requires 1 <= month <= 12
    ensures s == MONTH_NAMES[month - 1] <==> MonthNumber(s) == Some(month - 1)
    ensures MonthNumber(s).Some? ==> 0 <= MonthNumber(s).value <= 11
  {
  }

  /** The first day from b on with the name d. */
  lemma NamedDay(d: string, b: int, e: int)
    requires WeekdayIndex(d).Some?
    ensures 0 <= WeekdayIndex(d).value <= 6
    ensures d == DAY_NAMES[e % 7] && b <= e <= b + 6 <==> e == b + (WeekdayIndex(d).value - UTCDay(b) + 7) % 7
  {
    DayNamesAre(d, e % 7);
    WeekdayNames(d);
  }

  /** A month-day text has one reading. */
  lemma MonthDayReads(d: string, month: int, day: int)
    ensures NamesMonthDay(d, month, day) <==>
            IsMonthDay(d) && MonthNumber(d[..3]) == Some(month - 1) && Value(d[3..]) == day
  {
    hide MonthNumber, Value;
    if 4 <= |d| {
      if 1 <= month <= 12 { MonthNamesAre(d[..3], month); } else { MonthNamesAre(d[..3], 1); }
    }
  }

  lemma MonthDayAsks(d: string, base: string, b: int, e: int)
    requires base == FormatDate(b) && 1000 <= CivilOf(b).year <= 9998 && IsMonthDay(d)
    ensures var r := ResolveMonthDay(base, MonthNumber(d[..3]).value, Value(d[3..]));
            r.Some? && ParseDate(r.value) == Some(e) <==> AsksForMonthDay(d, b, e)
  {
    hide CivilOf, FormatDate, ParseDate, MonthNumber, Value, ResolveMonthDay, MonthDayFrom, MonthStart, NamesMonthDay,
         DayOf, DaysInMonth;
    var m, day, y := MonthNumber(d[..3]).value, Value(d[3..]), CivilOf(b).year;
    TwoDigits(d);
    MonthDayResolves(base, b, m, day);
    MonthDayReads(d, m + 1, day);
    if 1 <= day <= DaysInMonth(y, m + 1) {
      var f := MonthDayFrom(b, m, day);
      MonthDayIs(b, m, day);
      ServerReads(b, f);
    }
    forall month, n | NamesMonthDay(d, month, n) ensures month == m + 1 && n == day { MonthDayReads(d, month, n); }
  }

  lemma ServerReads(b: int, f: int)
    requires b <= f && 1000 <= CivilOf(b).year <= 9998 && YearOf(f) <= CivilOf(b).year + 1
    ensures ParseDate(FormatDate(f)) == Some(f)
  {
    hide CivilOf, FormatDate, ParseDate, YearOf;
    YearOfCivil(b);
    LaterYear(b, f);
    ParseOfFormatDate(f);
  }

  lemma MonthDayIs(b: int, m: int, day: int)
    requires 1000 <= CivilOf(b).year <= 9998 && 0 <= m <= 11 && 1 <= day <= DaysInMonth(CivilOf(b).year, m + 1)
    ensures var y := CivilOf(b).year;
            && ValidCivil(Civil(y, m + 1, day))
            && MonthDayFrom(b, m, day) == if DayOf(Civil(y, m + 1, day)) >= b then DayOf(Civil(y, m + 1, day))
                                          else DayOf(Civil(y + 1, m + 1, 1)) + day - 1
  {
    hide CivilOf, MonthStart;
    var y := CivilOf(b).year;
    MonthDayNumber(12 * y + m, day);
    MonthDayNumber(12 * (y + 1) + m, 1);
    MonthDayNumber(12 * (y + 1) + m, day);
  }

  /** Names of days, dates written out and month-days are all different texts. */
  lemma FormsApart(d: string)
    ensures WeekdayIndex(d).Some? ==> |d| == 3
    ensures ParseDate(d).Some? ==> |d| == 10
    ensures IsMonthDay(d) ==> 4 <= |d| <= 5 && IsDigit(d[|d| - 1])
    ensures d == "today" || d == "tomorrow" || d == "tmrw" ==> |d| >= 4 && !IsDigit(d[|d| - 1])
  {
    if ParseDate(d).Some? { ParseDateAccepts(d, ParseDate(d).value); }
    if IsMonthDay(d) { assert d[|d| - 1] == d[3..][|d| - 4]; }
  }

  /** A word after ^ is a due date exactly if it asks for a day, and it is that day's date. */
  lemma DueIsTheDay(d: string, base: string, b: int, e: int)
    requires base == FormatDate(b) && 1000 <= CivilOf(b).year <= 9998
    ensures DueOf(d, base).Some? && ParseDate(DueOf(d, base).value) == Some(e) <==> AsksFor(d, b, e)
  {
    hide CivilOf, FormatDate, ParseDate, ParseUTC, ResolveMonthDay, ResolveWeekday, AddDaysText, IsIsoDate, Value,
         YearOf, WeekdayIndex, AsksForMonthDay, IsMonthDay, MonthNumber;
    BaseReads(b);
    FormsApart(d);
    IsoDatesAre(d);
    NotNamed(d, e);
    if d == "today" {
      NoMonthDay(d, b, e);
    } else if d == "tomorrow" || d == "tmrw" {
      NoMonthDay(d, b, e);
      NearDay(base, b, 1);
    } else if WeekdayIndex(d).Some? {
      NoMonthDay(d, b, e);
      NamedDay(d, b, e);
      var k := (WeekdayIndex(d).value - UTCDay(b) + 7) % 7;
      WeekdayShift(base, b, WeekdayIndex(d).value);
      NearDay(base, b, k);
    } else if IsIsoDate(d) {
      NoMonthDay(d, b, e);
    } else if IsMonthDay(d) {
      MonthDayAsks(d, base, b, e);
    } else {
      NoMonthDay(d, b, e);
    }
  }

  lemma NotNamed(d: string, e: int)
    ensures WeekdayIndex(d) == None ==> d != DAY_NAMES[e % 7]
    ensures |d| != 3 ==> d != DAY_NAMES[e % 7]
  {
    DayNamesAre(d, e % 7);
    hide WeekdayIndex;
  }

  lemma NoMonthDay(d: string, b: int, e: int)
    requires !IsMonthDay(d)
    ensures !AsksForMonthDay(d, b, e)
  {
    hide IsMonthDay, NamesMonthDay, CivilOf, DayOf;
    forall month, day ensures !NamesMonthDay(d, month, day) { MonthDayReads(d, month, day); }
  }

  // ---- the whole line ----

  /** The last word that sets something of this kind sets t; None if no word does. */
  ghost predicate LastSets(words: seq<string>, base: string, lower: string -> string, kind: Token -> bool,
                           t: Option<Token>) {
    match t
    case None => forall i :: 0 <= i < |words| ==> !SetsKind(words[i], base, lower, kind)
    case Some(x) =>
      kind(x) && exists i :: 0 <= i < |words| && TokenOf(words[i], base, lower) == Some(x)
                             && forall j :: i < j < |words| ==> !SetsKind(words[j], base, lower, kind)
  }

  predicate SetsKind(w: string, base: string, lower: string -> string, kind: Token -> bool) {
    var t := TokenOf(w, base, lower);
    t.Some? && kind(t.value)
  }

  /** One word more. */
  lemma LastSetsStep(words: seq<string>, base: string, lower: string -> string, kind: Token -> bool, t: Option<Token>)
    requires |words| > 0
    requires LastSets(words[..|words| - 1], base, lower, kind, t)
    ensures var last := words[|words| - 1];
            LastSets(words, base, lower, kind,
                     if SetsKind(last, base, lower, kind) then TokenOf(last, base, lower) else t)
  {
    hide TokenOf;
    var init, last := words[..|words| - 1], words[|words| - 1];
    if t.Some? && !SetsKind(last, base, lower, kind) {
      var i :| 0 <= i < |init| && TokenOf(init[i], base, lower) == t
               && forall j :: i < j < |init| ==> !SetsKind(init[j], base, lower, kind);
      assert TokenOf(words[i], base, lower) == t;
      assert forall j :: i < j < |words| ==> j == |init| || words[j] == init[j];
    } else if SetsKind(last, base, lower, kind) {
      assert TokenOf(words[|init|], base, lower) == Some(TokenOf(last, base, lower).value);
    }
  }

  function AsPriority(p: Option<QuickPriority>): Option<Token> {
    match p case None => None case Some(x) => Some(SetPriority(x))
  }

  function AsDue(p: Option<string>): Option<Token> {
    match p case None => None case Some(x) => Some(SetDue(x))
  }

  function AsAssignee(p: Option<string>): Option<Token> {
    match p case None => None case Some(x) => Some(SetAssignee(x))
  }

  function AsFreq(p: Option<QuickFreq>): Option<Token> {
    match p case None => None case Some(x) => Some(SetRecurrence(x))
  }

  function AsHorizon(p: Option<QuickHorizon>): Option<Token> {
    match p case None => None case Some(x) => Some(SetHorizon(x))
  }

  lemma {:induction false} WordsSetLast(words: seq<string>, base: string, lower: string -> string)
    ensures var p := ApplyWords(words, base, lower);
            && LastSets(words, base, lower, (t: Token) => t.SetPriority?, AsPriority(p.priority))
            && LastSets(words, base, lower, (t: Token) => t.SetDue?, AsDue(p.due))
            && LastSets(words, base, lower, (t: Token) => t.SetAssignee?, AsAssignee(p.assignee))
            && LastSets(words, base, lower, (t: Token) => t.SetRecurrence?, AsFreq(p.recurrence))
            && LastSets(words, base, lower, (t: Token) => t.SetHorizon?, AsHorizon(p.horizon))
  {
    if |words| == 0 {
    } else {
      hide TokenOf, LastSets;
      var init := words[..|words| - 1];
      var p := ApplyWords(init, base, lower);
      WordsSetLast(init, base, lower);
      LastSetsStep(words, base, lower, (t: Token) => t.SetPriority?, AsPriority(p.priority));
      LastSetsStep(words, base, lower, (t: Token) => t.SetDue?, AsDue(p.due));
      LastSetsStep(words, base, lower, (t: Token) => t.SetAssignee?, AsAssignee(p.assignee));
      LastSetsStep(words, base, lower, (t: Token) => t.SetRecurrence?, AsFreq(p.recurrence));
      LastSetsStep(words, base, lower, (t: Token) => t.SetHorizon?, AsHorizon(p.horizon));
    }
  }

  /** Of each kind the last word wins; and a recurrence decides the horizon, whatever the
      line says of it. */
  lemma LastWordWins(raw: string, base: string, lower: string -> string)
    ensures var p, words := QuickAddOf(raw, base, lower), Words(raw);
            && LastSets(words, base, lower, (t: Token) => t.SetPriority?, AsPriority(p.priority))
            && LastSets(words, base, lower, (t: Token) => t.SetDue?, AsDue(p.due))
            && LastSets(words, base, lower, (t: Token) => t.SetAssignee?, AsAssignee(p.assignee))
            && LastSets(words, base, lower, (t: Token) => t.SetRecurrence?, AsFreq(p.recurrence))
            && (p.recurrence.None? ==> LastSets(words, base, lower, (t: Token) => t.SetHorizon?, AsHorizon(p.horizon)))
            && (p.recurrence.Some? ==>
                 p.horizon.Some?
                 && Recur.RecurrenceHorizon(ServerFreq(p.recurrence.value)) == Some(ServerHorizon(p.horizon.value)))
  {
    hide TokenOf, LastSets, Words, Filter;
    WordsSetLast(Words(raw), base, lower);
  }
}
