/** Recurrence rules and the periods a series is missing (internal/model/recur.go). */
module Recur {
  import opened Base
  import opened Calendar
  import opened Period
  import opened PeriodLine
  import opened Duration

  datatype Freq = EveryDay | OnWeekdays | EveryWeek | EveryMonth | OtherFreq(name: string)

  datatype Recurrence = Recurrence(
    freq: Freq,
    interval: Option<int>,
    anchor: string,
    weekdays: seq<int>,
    dayOfMonth: int)

  function RecurrenceHorizon(f: Freq): Option<Horizon> {
    match f
    case EveryDay => Some(Daily)
    case OnWeekdays => Some(Daily)
    case EveryWeek => Some(Weekly)
    case EveryMonth => Some(Monthly)
    case OtherFreq(_) => None
  }

  predicate ValidRecurrence(r: Recurrence) {
    && RecurrenceHorizon(r.freq).Some?
    && (if r.freq == OnWeekdays
        then |r.weekdays| > 0 && forall k :: 0 <= k < |r.weekdays| ==> 1 <= r.weekdays[k] <= 7
        else |r.weekdays| == 0)
    && (r.dayOfMonth != 0 ==> r.freq == EveryMonth && 1 <= r.dayOfMonth <= 31)
    && (r.interval.Some? ==> r.interval.value >= 1)
  }

  function EffectiveInterval(r: Recurrence): (n: int)
    ensures n >= 1
  {
    if r.interval.None? || r.interval.value < 1 then 1 else r.interval.value
  }

  function WeekOfDate(s: string): Option<string> {
    match ParseDate(s)
    case Some(d) => Some(FormatWeek(d))
    case None => None
  }

  /** The anchor the server stores; None is its error result. */
  function ComputeAnchor(f: Freq, period: string): Option<string> {
    if f == OnWeekdays then WeekOfDate(period) else Some(period)
  }

  /** ISO weekday, Monday = 1. */
  function ISOWeekday(d: int): int {
    d % 7 + 1
  }

  /** The weekdays of a week are numbered from its Monday; and 12 April 1985 is day 5 of
      1985-W15, the example of ISO 8601:2004, section 4.1.4. */
  lemma WeekdaysFromMonday(d: int, k: int)
    requires 0 <= k <= 6
    ensures ISOWeekday(MondayOf(d) + k) == k + 1
    ensures WeekOf(DayOf(Civil(1985, 4, 12))) == Week(1985, 15) && ISOWeekday(DayOf(Civil(1985, 4, 12))) == 5
  {
    hide YearStart, YearOf, DaysBeforeMonth;
    YearStartClosedForm(1985);
    YearStartClosedForm(1986);
    DaysBeforeMonthTable(1985);
    var day := DayOf(Civil(1985, 4, 12));
    assert YearStart(1985) <= MondayOf(day) + 3 < YearStart(1986);
    YearOfUnique(MondayOf(day) + 3, 1985);
  }

  predicate WeekdayMatches(date: string, days: seq<int>) {
    match ParseDate(date)
    case Some(d) => ISOWeekday(d) in days
    case None => false
  }

  function IntervalMatches(anchor: string, interval: int, distance: Option<int>): Option<bool> {
    if anchor == "" then Some(true)
    else match distance
      case Some(d) => Some(FloorMod(d, interval) == 0)
      case None => None
  }

  /** IsOccurrence; None is its error result. */
  function IsOccurrence(r: Recurrence, period: string, zone: Zone): Option<bool> {
    var n := EffectiveInterval(r);
    match r.freq
    case EveryDay => IntervalMatches(r.anchor, n, DaysBetween(r.anchor, period))
    case EveryWeek => IntervalMatches(r.anchor, n, WeeksBetween(r.anchor, period, zone))
    case EveryMonth => IntervalMatches(r.anchor, n, MonthsBetween(r.anchor, period))
    case OnWeekdays =>
      if !WeekdayMatches(period, r.weekdays) then Some(false)
      else
        (match WeekOfDate(period)
         case Some(week) => IntervalMatches(r.anchor, n, WeeksBetween(r.anchor, week, zone))
         case None => None)
    case OtherFreq(_) => None
  }

  function Occurs(r: Recurrence, h: Horizon, i: int, zone: Zone): Option<bool> {
    IsOccurrence(r, FormatPeriod(h, i), zone)
  }

  // ---- the rule in calendar terms ----

  /** The anchor as an index on the line the interval counts along. */
  function AnchorIndex(r: Recurrence): Option<int> {
    match r.freq
    case EveryDay => ParsePeriod(Daily, r.anchor)
    case EveryMonth => ParsePeriod(Monthly, r.anchor)
    case _ => ParsePeriod(Weekly, r.anchor)
  }

  /** Where period i of the rule's own horizon lies on that line. */
  function CountedIndex(r: Recurrence, i: int): int {
    if r.freq == OnWeekdays then i / 7 else i
  }

  /** Whether the interval asks for what lies this far from the anchor; one that is
      absent, or less than two, asks for everything. */
  predicate EveryNth(interval: Option<int>, distance: int) {
    interval.None? || interval.value < 2 || distance % interval.value == 0
  }

  lemma EveryNthIsRemainder(r: Recurrence, distance: int)
    ensures EveryNth(r.interval, distance) <==> distance % EffectiveInterval(r) == 0
  {
    if EffectiveInterval(r) == 1 { EveryMultipleOfOne(distance); }
  }

  /** Every interval-th day, week or month from the anchor; for weekday rules the
      listed days of every interval-th week. */
  predicate CalendarRule(r: Recurrence, i: int) {
    && (r.freq == OnWeekdays ==> ISOWeekday(i) in r.weekdays)
    && (r.anchor == "" || (AnchorIndex(r).Some?
        && EveryNth(r.interval, CountedIndex(r, i) - AnchorIndex(r).value)))
  }

  /** How much further east the offset is at the counted week than at the anchor. */
  function OffsetChange(r: Recurrence, i: int, zone: Zone): int
    requires AnchorIndex(r).Some?
  {
    zone(7 * CountedIndex(r, i)) - zone(7 * AnchorIndex(r).value)
  }

  /** When the server's count of elapsed time decides the rule for period i. Months and
      rules without an anchor or an interval are always decided rightly, days within 64-bit durations,
      weeks unless a clock change hides or moves a multiple of the interval. */
  predicate DecidesRight(r: Recurrence, i: int, zone: Zone)
    requires r.anchor != "" ==> AnchorIndex(r).Some?
  {
    r.anchor == "" || r.interval.None? || r.interval.value < 2 ||
    var n, k := CountedIndex(r, i) - AnchorIndex(r).value, r.interval.value;
    match r.freq
    case EveryDay => DaysDecide(n, k)
    case EveryWeek => WeeksDecide(n, OffsetChange(r, i, zone), k)
    case OnWeekdays => ISOWeekday(i) !in r.weekdays || WeeksDecide(n, OffsetChange(r, i, zone), k)
    case _ => true
  }

  /** Zone offsets stay within one week of each other. */
  ghost predicate OffsetsNear(zone: Zone) {
    forall d, e :: -SECONDS_PER_WEEK < zone(e) - zone(d) < SECONDS_PER_WEEK
  }

  /** An interval of one is decided by any count. */
  lemma DecidesByInterval(r: Recurrence, i: int, zone: Zone)
    requires r.anchor != "" && AnchorIndex(r).Some?
    ensures var n, k := CountedIndex(r, i) - AnchorIndex(r).value, EffectiveInterval(r);
            DecidesRight(r, i, zone) <==>
            match r.freq
            case EveryDay => DaysDecide(n, k)
            case EveryWeek => WeeksDecide(n, OffsetChange(r, i, zone), k)
            case OnWeekdays => ISOWeekday(i) !in r.weekdays || WeeksDecide(n, OffsetChange(r, i, zone), k)
            case _ => true
  {
    hide AnchorIndex, ISOWeekday;
    var n := CountedIndex(r, i) - AnchorIndex(r).value;
    EveryMultipleOfOne(n);
    EveryMultipleOfOne(15250);
    EveryMultipleOfOne(106751);
  }

  lemma NoAnchorDecides(r: Recurrence, i: int, zone: Zone)
    requires r.anchor == ""
    ensures DecidesRight(r, i, zone)
  {
  }

  predicate CountsWeeks(r: Recurrence) {
    r.freq == EveryWeek || r.freq == OnWeekdays
  }

  /** What the server looks at for a rule that counts weeks. */
  lemma OccursByCount(r: Recurrence, h: Horizon, i: int, zone: Zone)
    requires RecurrenceHorizon(r.freq) == Some(h) && Printable(h, i) && OffsetsNear(zone)
    requires CountsWeeks(r) && r.anchor != "" && AnchorIndex(r).Some?
    ensures var n, k := CountedIndex(r, i) - AnchorIndex(r).value, EffectiveInterval(r);
            Occurs(r, h, i, zone) ==
            Some((r.freq == OnWeekdays ==> ISOWeekday(i) in r.weekdays)
                 && FloorMod(WeeksCounted(n, OffsetChange(r, i, zone)), k) == 0)
  {
    hide ParseDate, ParseISOWeek, FormatDate, WeekText, WeekOf, WeekMonday, FloorMod, YearOf, WeeksCounted,
         WeeksBetween;
    ParseOfFormat(h, i);
    if r.freq == OnWeekdays {
      WeekOfDateText(i);
      WeekDistance(r.anchor, FormatPeriod(Weekly, i / 7), i / 7, zone);
    } else {
      WeekDistance(r.anchor, FormatPeriod(h, i), i, zone);
    }
  }

  /** The server's answer is the calendar rule's exactly under that condition. */
  lemma OccursIffCalendarRule(r: Recurrence, h: Horizon, i: int, zone: Zone)
    requires RecurrenceHorizon(r.freq) == Some(h) && Printable(h, i) && (CountsWeeks(r) ==> OffsetsNear(zone))
    requires r.anchor != "" ==> AnchorIndex(r).Some?
    ensures Occurs(r, h, i, zone) == Some(CalendarRule(r, i)) <==> DecidesRight(r, i, zone)
    ensures Occurs(r, h, i, zone).Some?
  {
    hide ParseDate, ParseISOWeek, ParseMonth, FormatDate, FormatMonth, WeekText, WeekOf, WeekMonday, FloorMod, YearOf,
         DaysDecide, WeeksDecide, WeeksCounted, WeeksBetween, TruncatedQuotient, Saturate, EveryNth, DecidesRight,
         EffectiveInterval;
    ParseOfFormat(h, i);
    if r.anchor == "" {
      assert DecidesRight(r, i, zone) by { NoAnchorDecides(r, i, zone); }
      if r.freq == OnWeekdays { WeekOfDateText(i); }
    } else {
      var n, k := CountedIndex(r, i) - AnchorIndex(r).value, EffectiveInterval(r);
      EveryNthIsRemainder(r, n);
      DecidesByInterval(r, i, zone);
      if CountsWeeks(r) {
        OccursByCount(r, h, i, zone);
        WeeksDecideExactly(n, OffsetChange(r, i, zone), k);
      } else if r.freq == EveryDay {
        DaysDecideExactly(n, k);
      } else {
        FloorModIsRemainder(n, k);
      }
    }
  }

  lemma WeekDistance(a: string, p: string, i: int, zone: Zone)
    requires ParsePeriod(Weekly, a).Some? && Printable(Weekly, i) && p == FormatPeriod(Weekly, i) && OffsetsNear(zone)
    ensures var j := ParsePeriod(Weekly, a).value;
            WeeksBetween(a, p, zone) == Some(WeeksCounted(i - j, zone(7 * i) - zone(7 * j)))
  {
    hide ParseISOWeek, FormatWeek, WeekMonday, WeekIndex, WeekOf, TruncatedQuotient, Saturate, WeeksCounted;
    ParseOfFormat(Weekly, i);
    var v, w := ParseISOWeek(a).value, ParseISOWeek(p).value;
    ParseISOWeekAccepts(a, v);
    ParseISOWeekAccepts(p, w);
    IndexAtWeek(v);
    IndexAtWeek(w);
    WeekMidnights(v, w, zone);
    WeekCountExact(WeekIndex(w) - WeekIndex(v), zone(WeekMonday(w)) - zone(WeekMonday(v)));
  }

  /** A four-digit year's date has a week that prints and reads back. */
  lemma WeekOfDateText(i: int)
    requires FourDigit(Daily, i)
    ensures WeekOfDate(FormatDate(i)) == Some(FormatPeriod(Weekly, i / 7))
    ensures Printable(Weekly, i / 7)
  {
    ParseOfFormatDate(i);
    hide YearStart, YearOf, WeekMonday, WeekText, FormatDate, ParseDate;
    WeekOfIsIndex(i, i / 7);
    WeekYearNear(i);
    LastFourDigitWeek(i);
  }

  /** The ISO year is at least the calendar year less one. */
  lemma WeekYearNear(d: int)
    ensures YearOf(d) - 1 <= WeekOf(d).year
  {
    hide YearStart, YearOf;
    var t := MondayOf(d) + 3;
    var y, z := YearOf(d), YearOf(t);
    if z < y - 1 {
      YearStartMonotone(z + 1, y - 1);
      NextYearStart(y - 1);
    }
  }

  /** A rule with a readable anchor can be decided on every period of its horizon. */
  lemma RuleDecides(r: Recurrence, h: Horizon, k: int, zone: Zone)
    requires RecurrenceHorizon(r.freq) == Some(h) && (r.anchor == "" || AnchorIndex(r).Some?) && Printable(h, k)
    ensures Occurs(r, h, k, zone).Some?
  {
    hide ParseDate, ParseISOWeek, ParseMonth, FormatDate, FormatMonth, WeekText, WeekOf, WeekMonday, FloorMod, YearOf;
    ParseOfFormat(h, k);
    if r.freq == OnWeekdays {
      DateIsFourDigit(k);
      WeekOfDateText(k);
      ParseOfFormat(Weekly, k / 7);
    }
  }

  lemma DateIsFourDigit(k: int)
    requires Printable(Daily, k)
    ensures FourDigit(Daily, k)
  {
  }

  /** The anchor that the server stores makes the anchored period an occurrence, for
      any interval and any zone; a weekday rule still asks for a listed weekday. */
  lemma AnchoredPeriodOccurs(r: Recurrence, h: Horizon, i: int, zone: Zone)
    requires RecurrenceHorizon(r.freq) == Some(h) && Printable(h, i)
    requires ComputeAnchor(r.freq, FormatPeriod(h, i)) == Some(r.anchor)
    ensures Occurs(r, h, i, zone) == Some(r.freq == OnWeekdays ==> ISOWeekday(i) in r.weekdays)
  {
    hide ParseDate, ParseISOWeek, ParseMonth, FormatDate, FormatMonth, WeekText, WeekOf, WeekMonday, FloorMod, YearOf;
    ParseOfFormat(h, i);
    FloorModIsRemainder(0, EffectiveInterval(r));
    if r.freq == OnWeekdays {
      WeekOfDateText(i);
      ParseOfFormat(Weekly, i / 7);
      NoDistance(r.anchor, zone);
    } else if r.freq == EveryWeek {
      NoDistance(r.anchor, zone);
    }
  }

  lemma NoDistance(a: string, zone: Zone)
    requires ParseISOWeek(a).Some?
    ensures WeeksBetween(a, a, zone) == Some(0)
  {
    hide ParseISOWeek, WeekMonday;
  }

  /** One week of a weekly or weekday rule, in periods of the rule's horizon. */
  function PeriodsPerWeek(r: Recurrence): int {
    if r.freq == OnWeekdays then 7 else 1
  }

  /** Past a forward clock change every period is decided as the one a week before it
      should be: a rule with an interval of two or more misses what it asks for, and
      fires one week after every due week, the anchor's own included. */
  lemma ForwardClockChangeDelaysRule(r: Recurrence, h: Horizon, i: int, zone: Zone)
    requires RecurrenceHorizon(r.freq) == Some(h) && Printable(h, i) && OffsetsNear(zone)
    requires CountsWeeks(r) && r.anchor != "" && AnchorIndex(r).Some? && OffsetChange(r, i, zone) > 0
    requires 0 < CountedIndex(r, i) - AnchorIndex(r).value <= 15250
    ensures Occurs(r, h, i, zone) == Some(CalendarRule(r, i - PeriodsPerWeek(r)))
    ensures r.interval.Some? && r.interval.value >= 2 ==>
              !(CalendarRule(r, i) && CalendarRule(r, i - PeriodsPerWeek(r)))
  {
    hide IsOccurrence, ParsePeriod, FormatPeriod, FloorMod, YearOfIndex;
    var n, k := CountedIndex(r, i) - AnchorIndex(r).value, EffectiveInterval(r);
    EveryNthIsRemainder(r, n - 1);
    OccursByCount(r, h, i, zone);
    FloorModIsRemainder(n - 1, k);
    if k >= 2 && n % k == 0 { NeighboursOfMultiple(n, k); }
  }

  /** Concretely: every second week from 2026-W12, where summer time begins between W13
      and W14. W14 is due and missed; W15 is not due and fires. */
  lemma SummerTimeShiftsBiweekly(r: Recurrence, zone: Zone)
    requires r == Recurrence(EveryWeek, Some(2), WeekText(Week(2026, 12)), [], 0) && OffsetsNear(zone)
    requires zone(WeekMonday(Week(2026, 12))) == 3600
    requires zone(WeekMonday(Week(2026, 14))) == 7200 && zone(WeekMonday(Week(2026, 15))) == 7200
    ensures var i := WeekIndex(Week(2026, 14));
            && CalendarRule(r, i) && Occurs(r, Weekly, i, zone) == Some(false)
            && !CalendarRule(r, i + 1) && Occurs(r, Weekly, i + 1, zone) == Some(true)
  {
    hide ParseISOWeek, FormatPeriod, WeekText, WeekOf, WeekMonday, WeekIndex, IsOccurrence, WeeksInYear;
    var a, i := Week(2026, 12), WeekIndex(Week(2026, 14));
    WeeksOf2026();
    ParseOfWeekText(a);
    IndexAtWeek(a);
    IndexAtWeek(Week(2026, 14));
    IndexAtWeek(Week(2026, 15));
    assert r.anchor != "" by { WeekTextParts(a); }
    assert AnchorIndex(r) == Some(i - 2) && EffectiveInterval(r) == 2;
    assert CalendarRule(r, i) && !CalendarRule(r, i + 1) && CalendarRule(r, i - 1) == false;
    ForwardClockChangeDelaysRule(r, Weekly, i, zone);
    ForwardClockChangeDelaysRule(r, Weekly, i + 1, zone);
  }

  lemma WeeksOf2026()
    ensures WeekExists(Week(2026, 12)) && WeekExists(Week(2026, 14)) && WeekExists(Week(2026, 15))
    ensures WeekIndex(Week(2026, 14)) == WeekIndex(Week(2026, 12)) + 2
    ensures WeekIndex(Week(2026, 15)) == WeekIndex(Week(2026, 12)) + 3
  {
  }

  // ---- the periods a series is missing ----

  /** A period the server itself prints: read back, it is the same text. */
  predicate Canonical(h: Horizon, s: string) {
    && Ranked(h)
    && ParsePeriod(h, s).Some?
    && FourDigit(h, ParsePeriod(h, s).value)
    && s == FormatPeriod(h, ParsePeriod(h, s).value)
  }

  /** The occurrences with lo <= index < hi, in order. */
  function Occurrences(r: Recurrence, h: Horizon, lo: int, hi: int, zone: Zone): seq<string>
    decreases hi - lo
  {
    if lo >= hi then []
    else (if Occurs(r, h, lo, zone) == Some(true) then [FormatPeriod(h, lo)] else [])
         + Occurrences(r, h, lo + 1, hi, zone)
  }

  predicate Decidable(r: Recurrence, h: Horizon, lo: int, hi: int, zone: Zone) {
    forall k :: lo <= k < hi ==> Occurs(r, h, k, zone).Some?
  }

  /** What a catch-up to the canonical period current yields. It fails on an
      unreadable latest period, on an undecidable rule, and at the last period of
      year 9999, whose successor no longer sorts after it. */
  function Missing(r: Recurrence, h: Horizon, latest: string, current: string, zone: Zone): Option<seq<string>>
    requires Canonical(h, current)
  {
    var c := ParsePeriod(h, current).value;
    if StringAtMost(current, latest) then Some([])
    else match ParsePeriod(h, latest)
      case None => None
      case Some(i) =>
        if c < LastIndex(h) && Decidable(r, h, i + 1, c + 1, zone)
        then Some(Occurrences(r, h, i + 1, c + 1, zone))
        else None
  }

  function Prepend(out: seq<string>, rest: Option<seq<string>>): Option<seq<string>> {
    match rest
    case Some(s) => Some(out + s)
    case None => None
  }

  /** Walking the line from index k while the text sorts at or before current. */
  function Walk(r: Recurrence, h: Horizon, k: int, current: string, zone: Zone): Option<seq<string>>
    decreases LastIndex(h) + 1 - k
  {
    var p := FormatPeriod(h, k);
    if !StringAtMost(p, current) then Some([])
    else if Occurs(r, h, k, zone) == None || k > LastIndex(h) then None
    else Prepend(if Occurs(r, h, k, zone) == Some(true) then [p] else [], Walk(r, h, k + 1, current, zone))
  }

  method MissingPeriods(r: Recurrence, h: Horizon, latest: string, current: string, zone: Zone)
    returns (res: Option<seq<string>>)
    ensures Canonical(h, current) ==> res == Missing(r, h, latest, current, zone)
  {
    hide *;
    MissingIsWalk(r, h, latest, current, zone);
    if StringAtMost(current, latest) {
      return Some([]);
    }
    var out: seq<string> := [];
    var next := NextPeriod(h, latest);
    FirstStep(h, latest);
    if next == None {
      return None;
    }
    var p := next.value;
    ghost var i := ParsePeriod(h, latest).value;
    ghost var k := i + 1;
    PrependNothing(Walk(r, h, k, current, zone));
    while StringAtMost(p, current)
      invariant Printable(h, i) && i < k <= LastIndex(h) + 1 && p == FormatPeriod(h, k)
      invariant Prepend(out, Walk(r, h, k, current, zone)) == Walk(r, h, i + 1, current, zone)
      decreases LastIndex(h) + 1 - k
    {
      WalkStep(r, h, i, k, current, zone, out);
      var ok := IsOccurrence(r, p, zone);
      if ok == None {
        return None;
      }
      if ok.value {
        out := out + [p];
      }
      next := NextPeriod(h, p);
      if next == None {
        return None;
      }
      k := k + 1;
      p := next.value;
    }
    WalkEnds(r, h, k, current, zone, out);
    return Some(out);
  }

  lemma MissingIsWalk(r: Recurrence, h: Horizon, latest: string, current: string, zone: Zone)
    ensures Canonical(h, current) ==>
              (Missing(r, h, latest, current, zone) ==
               if StringAtMost(current, latest) then Some([])
               else if ParsePeriod(h, latest) == None then None
               else Walk(r, h, ParsePeriod(h, latest).value + 1, current, zone))
  {
    hide ParsePeriod, FormatPeriod, StringLess, Walk, LastIndex, Occurrences, Decidable, YearOfIndex;
    if Canonical(h, current) && !StringAtMost(current, latest) && ParsePeriod(h, latest).Some? {
      StringLessTotal(current, latest);
      WalkIsMissing(r, h, latest, current, zone);
    }
  }

  lemma FirstStep(h: Horizon, latest: string)
    ensures NextPeriod(h, latest).Some? <==> ParsePeriod(h, latest).Some?
    ensures ParsePeriod(h, latest).Some? ==>
            var i := ParsePeriod(h, latest).value;
            Printable(h, i) && i <= LastIndex(h) && NextPeriod(h, latest) == Some(FormatPeriod(h, i + 1))
  {
    hide ParsePeriod, FormatPeriod, NextPeriod, LastIndex, YearOfIndex;
    NextPeriodIsSuccessor(h, latest);
    if ParsePeriod(h, latest).Some? {
      ParsedIsPrintable(h, latest);
      PrintableUpToLast(h, ParsePeriod(h, latest).value, ParsePeriod(h, latest).value);
    }
  }

  /** One round of the loop, against the recursive walk. */
  lemma WalkStep(r: Recurrence, h: Horizon, i: int, k: int, current: string, zone: Zone, out: seq<string>)
    requires Printable(h, i) && i < k <= LastIndex(h) + 1 && StringAtMost(FormatPeriod(h, k), current)
    ensures NextPeriod(h, FormatPeriod(h, k)) == if k <= LastIndex(h) then Some(FormatPeriod(h, k + 1)) else None
    ensures var ok := IsOccurrence(r, FormatPeriod(h, k), zone);
            Prepend(out, Walk(r, h, k, current, zone)) ==
            if ok == None || k > LastIndex(h) then None
            else Prepend(if ok.value then out + [FormatPeriod(h, k)] else out, Walk(r, h, k + 1, current, zone))
  {
    hide ParsePeriod, FormatPeriod, StringLess, NextPeriod, LastIndex, IsOccurrence, YearOfIndex;
    NextPeriodIsSuccessor(h, FormatPeriod(h, k));
    PrintableUpToLast(h, i, k);
    if k > LastIndex(h) { FormatBeyondLast(h, k); } else { ParseOfFormat(h, k); }
    PrependConcat(out, [FormatPeriod(h, k)], Walk(r, h, k + 1, current, zone));
    PrependConcat(out, [], Walk(r, h, k + 1, current, zone));
    assert out + [] == out;
  }

  lemma WalkEnds(r: Recurrence, h: Horizon, k: int, current: string, zone: Zone, out: seq<string>)
    requires !StringAtMost(FormatPeriod(h, k), current)
    ensures Prepend(out, Walk(r, h, k, current, zone)) == Some(out)
  {
    hide FormatPeriod, StringLess, LastIndex, Occurs;
    assert out + [] == out;
  }

  lemma PrependNothing(rest: Option<seq<string>>)
    ensures Prepend([], rest) == rest
  {
    if rest.Some? { assert [] + rest.value == rest.value; }
  }

  lemma CanonicalWithinLast(h: Horizon, current: string)
    requires Canonical(h, current)
    ensures ParsePeriod(h, current).value <= LastIndex(h)
  {
    var c := ParsePeriod(h, current).value;
    hide YearOfIndex, YearIndex, ParsePeriod, FormatPeriod;
    PrintableUpToLast(h, c, c);
  }

  lemma PrependConcat(a: seq<string>, b: seq<string>, rest: Option<seq<string>>)
    ensures Prepend(a, Prepend(b, rest)) == Prepend(a + b, rest)
  {
    match rest
    case Some(s) => assert a + (b + s) == (a + b) + s;
    case None =>
  }

  lemma WalkIsMissing(r: Recurrence, h: Horizon, latest: string, current: string, zone: Zone)
    requires Canonical(h, current) && StringLess(latest, current) && ParsePeriod(h, latest).Some?
    ensures Walk(r, h, ParsePeriod(h, latest).value + 1, current, zone) == Missing(r, h, latest, current, zone)
  {
    hide ParsePeriod, FormatPeriod, YearOfIndex, YearIndex, LastIndex, Walk, Occurs;
    var i, c := ParsePeriod(h, latest).value, ParsePeriod(h, current).value;
    ParsedIsPrintable(h, latest);
    CanonicalWithinLast(h, current);
    StringLessAsymmetric(latest, current);
    EarlierTextBeforeLast(h, latest, c);
    WalkUpTo(r, h, i, i + 1, c, zone);
  }

  lemma {:induction false} WalkUpTo(r: Recurrence, h: Horizon, i: int, k: int, c: int, zone: Zone)
    requires Printable(h, i) && i < k && FourDigit(h, c) && i < LastIndex(h) && c <= LastIndex(h)
    requires k <= c + 1 || k == i + 1
    ensures Walk(r, h, k, FormatPeriod(h, c), zone) ==
            if c < LastIndex(h) && Decidable(r, h, k, c + 1, zone) then Some(Occurrences(r, h, k, c + 1, zone))
                else None
    decreases c + 1 - k
  {
    hide FormatPeriod, YearOfIndex, YearIndex, LastIndex, Occurs, StringLess;
    PrintableUpToLast(h, i, k);
    if k <= LastIndex(h) { AtMostIsIndex(h, k, c); } else { TextWrapsAfterLast(h); }
    if k <= c {
      WalkUpTo(r, h, i, k + 1, c, zone);
      DecidableStep(r, h, k, c + 1, zone);
    }
  }

  lemma DecidableStep(r: Recurrence, h: Horizon, k: int, hi: int, zone: Zone)
    requires k < hi
    ensures Decidable(r, h, k, hi, zone) <==> Occurs(r, h, k, zone).Some? && Decidable(r, h, k + 1, hi, zone)
  {
    hide Occurs;
  }

  // ---- what the result is ----

  lemma {:induction false} OccurrencesMembers(r: Recurrence, h: Horizon, lo: int, hi: int, zone: Zone, p: string)
    ensures p in Occurrences(r, h, lo, hi, zone) <==>
            exists k :: lo <= k < hi && p == FormatPeriod(h, k) && Occurs(r, h, k, zone) == Some(true)
    decreases hi - lo
  {
    hide FormatPeriod, Occurs;
    if lo >= hi {
    } else {
      OccurrencesMembers(r, h, lo + 1, hi, zone, p);
      var here := if Occurs(r, h, lo, zone) == Some(true) then [FormatPeriod(h, lo)] else [];
      assert p in here + Occurrences(r, h, lo + 1, hi, zone) <==> p in here || p in Occurrences(r, h, lo + 1, hi, zone);
      assert p in here <==> p == FormatPeriod(h, lo) && Occurs(r, h, lo, zone) == Some(true);
    }
  }

  /** Strictly increasing, as indices and so as strings. */
  lemma {:induction false} OccurrencesIncrease(r: Recurrence, h: Horizon, lo: int, hi: int, zone: Zone, a: int, b: int)
    requires Ranked(h) && (lo < hi ==> FourDigit(h, lo) && FourDigit(h, hi - 1))
    requires 0 <= a < b < |Occurrences(r, h, lo, hi, zone)|
    ensures StringLess(Occurrences(r, h, lo, hi, zone)[a], Occurrences(r, h, lo, hi, zone)[b])
    decreases hi - lo
  {
    hide FormatPeriod, Occurs, StringLess, YearOfIndex;
    var rest := Occurrences(r, h, lo + 1, hi, zone);
    if lo + 1 < hi {
      YearOfIndexMonotone(h, lo, lo + 1);
      YearOfIndexMonotone(h, lo + 1, hi - 1);
    }
    if Occurs(r, h, lo, zone) == Some(true) {
      if a == 0 {
        var p := rest[b - 1];
        assert p in rest;
        OccurrencesMembers(r, h, lo + 1, hi, zone, p);
        var k :| lo + 1 <= k < hi && p == FormatPeriod(h, k) && Occurs(r, h, k, zone) == Some(true);
        YearOfIndexMonotone(h, lo, k);
        YearOfIndexMonotone(h, k, hi - 1);
        FormatOrder(h, lo, k);
      } else {
        OccurrencesIncrease(r, h, lo + 1, hi, zone, a - 1, b - 1);
      }
    } else {
      OccurrencesIncrease(r, h, lo + 1, hi, zone, a, b);
    }
  }

  /** For every readable latest period, the missing periods are exactly the
      occurrences after it and up to the current one. */
  lemma MissingIsExact(r: Recurrence, h: Horizon, latest: string, current: string, zone: Zone, p: string)
    requires Canonical(h, current) && ParsePeriod(h, latest).Some?
    requires Missing(r, h, latest, current, zone).Some?
    ensures p in Missing(r, h, latest, current, zone).value <==>
            exists k :: ParsePeriod(h, latest).value < k <= ParsePeriod(h, current).value
                        && p == FormatPeriod(h, k) && Occurs(r, h, k, zone) == Some(true)
  {
    hide ParsePeriod, FormatPeriod, Occurs, StringLess, YearOfIndex, LastIndex, Decidable;
    var i, c := ParsePeriod(h, latest).value, ParsePeriod(h, current).value;
    if StringAtMost(current, latest) {
      StringLessTotal(latest, current);
      assert !StringLess(latest, current) by {
        if current != latest { StringLessAsymmetric(current, latest); } else { NotLessThanItself(current); }
      }
      NotBeforeCanonical(h, latest, c);
    } else {
      OccurrencesMembers(r, h, i + 1, c + 1, zone, p);
    }
  }

  /** The catch-up creates what the calendar rule asks for, no more and no less, if and
      only if the server decides every period between the latest and the current one
      rightly: so always for monthly rules, and for the others, within 64-bit durations,
      wherever the clock never changes. */
  lemma MissingFollowsRule(r: Recurrence, h: Horizon, latest: string, current: string, zone: Zone)
    requires RecurrenceHorizon(r.freq) == Some(h) && (CountsWeeks(r) ==> OffsetsNear(zone))
    requires Canonical(h, current) && ParsePeriod(h, latest).Some? && (r.anchor != "" ==> AnchorIndex(r).Some?)
    requires Missing(r, h, latest, current, zone).Some?
    ensures var i, c := ParsePeriod(h, latest).value, ParsePeriod(h, current).value;
            (forall p :: p in Missing(r, h, latest, current, zone).value <==> RuleAsksFor(r, h, i, c, p)) <==>
            forall k :: i < k <= c ==> DecidesRight(r, k, zone)
  {
    hide ParsePeriod, FormatPeriod, IsOccurrence, Missing, CalendarRule, DecidesRight, LastIndex, YearOfIndex;
    var i, c := ParsePeriod(h, latest).value, ParsePeriod(h, current).value;
    ParsedIsPrintable(h, latest);
    forall k | i < k <= c
      ensures Printable(h, k) && Occurs(r, h, k, zone).Some?
      ensures Occurs(r, h, k, zone) == Some(CalendarRule(r, k)) <==> DecidesRight(r, k, zone)
    {
      PrintableUpToLast(h, i, k);
      FourDigitWithinLast(h, c);
      OccursIffCalendarRule(r, h, k, zone);
    }
    forall p ensures p in Missing(r, h, latest, current, zone).value <==> ServerCreates(r, h, i, c, zone, p) {
      MissingIsExact(r, h, latest, current, zone, p);
    }
    if k :| i < k <= c && !DecidesRight(r, k, zone) {
      OnlyIndexOfText(r, h, i, c, zone, k);
      var p := FormatPeriod(h, k);
      assert Occurs(r, h, k, zone).value != CalendarRule(r, k);
      assert p in Missing(r, h, latest, current, zone).value <==> ServerCreates(r, h, i, c, zone, p);
      assert !(ServerCreates(r, h, i, c, zone, p) <==> RuleAsksFor(r, h, i, c, p));
    } else {
      assert forall p :: ServerCreates(r, h, i, c, zone, p) <==> RuleAsksFor(r, h, i, c, p);
    }
  }

  /** The calendar rule asks for text p after index i and up to c. */
  ghost predicate RuleAsksFor(r: Recurrence, h: Horizon, i: int, c: int, p: string) {
    exists k :: i < k <= c && p == FormatPeriod(h, k) && CalendarRule(r, k)
  }

  ghost predicate ServerCreates(r: Recurrence, h: Horizon, i: int, c: int, zone: Zone, p: string) {
    exists k :: i < k <= c && p == FormatPeriod(h, k) && Occurs(r, h, k, zone) == Some(true)
  }

  lemma OnlyIndexOfText(r: Recurrence, h: Horizon, i: int, c: int, zone: Zone, k: int)
    requires i < k <= c && forall j :: i < j <= c ==> Printable(h, j)
    ensures ServerCreates(r, h, i, c, zone, FormatPeriod(h, k)) <==> Occurs(r, h, k, zone) == Some(true)
    ensures RuleAsksFor(r, h, i, c, FormatPeriod(h, k)) <==> CalendarRule(r, k)
  {
    hide ParsePeriod, FormatPeriod, IsOccurrence, CalendarRule, YearOfIndex;
    forall j | i < j <= c && FormatPeriod(h, j) == FormatPeriod(h, k) ensures j == k {
      ParseOfFormat(h, j);
      ParseOfFormat(h, k);
    }
  }

  /** A catch-up fails on an unreadable latest period and at the last period of the year
      9999, and on no other, if the rule's anchor can be read. */
  lemma MissingExists(r: Recurrence, h: Horizon, latest: string, current: string, zone: Zone)
    requires RecurrenceHorizon(r.freq) == Some(h) && (r.anchor == "" || AnchorIndex(r).Some?) && Canonical(h, current)
    ensures Missing(r, h, latest, current, zone) == None <==>
            !StringAtMost(current, latest)
            && (ParsePeriod(h, latest) == None || YearOfIndex(h, ParsePeriod(h, current).value + 1) > 9999)
  {
    hide ParsePeriod, FormatPeriod, Occurs, StringLess, YearOfIndex, YearIndex, AnchorIndex;
    var c := ParsePeriod(h, current).value;
    YearOfIndexOrder(h, c + 1, 10000);
    if ParsePeriod(h, latest).Some? && c < LastIndex(h) {
      var i := ParsePeriod(h, latest).value;
      ParsedIsPrintable(h, latest);
      forall k | i + 1 <= k < c + 1 ensures Occurs(r, h, k, zone).Some? {
        PrintableUpToLast(h, i, k);
        RuleDecides(r, h, k, zone);
      }
    }
  }

  /** A rule without an interval asks for every period after the latest and up to the
      current one, or for every listed weekday there, whatever the clock does. */
  lemma PlainRuleMissesNothing(r: Recurrence, h: Horizon, latest: string, current: string, zone: Zone, p: string)
    requires RecurrenceHorizon(r.freq) == Some(h) && r.interval == None && (r.anchor == "" || AnchorIndex(r).Some?)
    requires Canonical(h, current) && ParsePeriod(h, latest).Some?
    requires YearOfIndex(h, ParsePeriod(h, current).value + 1) <= 9999
    ensures Missing(r, h, latest, current, zone).Some?
    ensures p in Missing(r, h, latest, current, zone).value <==>
            exists k :: ParsePeriod(h, latest).value < k <= ParsePeriod(h, current).value && p == FormatPeriod(h, k)
                        && (r.freq == OnWeekdays ==> ISOWeekday(k) in r.weekdays)
  {
    hide ParsePeriod, FormatPeriod, Occurs, Missing, YearOfIndex, AnchorIndex, ISOWeekday, LastIndex, StringLess;
    MissingExists(r, h, latest, current, zone);
    MissingIsExact(r, h, latest, current, zone, p);
    var i, c := ParsePeriod(h, latest).value, ParsePeriod(h, current).value;
    ParsedIsPrintable(h, latest);
    forall k | i < k <= c
      ensures Occurs(r, h, k, zone) == Some(r.freq == OnWeekdays ==> ISOWeekday(k) in r.weekdays)
    {
      PrintableUpToLast(h, i, k);
      FourDigitWithinLast(h, c);
      PlainRuleOccurs(r, h, k, zone);
    }
  }

  lemma PlainRuleOccurs(r: Recurrence, h: Horizon, k: int, zone: Zone)
    requires RecurrenceHorizon(r.freq) == Some(h) && r.interval == None && (r.anchor == "" || AnchorIndex(r).Some?)
    requires Printable(h, k)
    ensures Occurs(r, h, k, zone) == Some(r.freq == OnWeekdays ==> ISOWeekday(k) in r.weekdays)
  {
    hide ParseDate, ParseISOWeek, ParseMonth, FormatDate, FormatMonth, WeekText, WeekOf, WeekMonday, YearOf,
         DaysBetween, WeeksBetween, MonthsBetween, AnchorIndex, ISOWeekday;
    RuleDecides(r, h, k, zone);
    ParseOfFormat(h, k);
    assert forall d :: FloorMod(d, 1) == 0 by {
      forall d ensures FloorMod(d, 1) == 0 { FloorModIsRemainder(d, 1); EveryMultipleOfOne(d); }
    }
  }

  /** The days, weeks or months from the anchor to period k. */
  function FromAnchor(r: Recurrence, h: Horizon, k: int): int
    requires ParsePeriod(if r.freq == OnWeekdays then Weekly else h, r.anchor).Some?
  {
    if r.freq == OnWeekdays then k / 7 - ParsePeriod(Weekly, r.anchor).value else k - ParsePeriod(h, r.anchor).value
  }

  /** The days or weeks that a 64-bit duration holds. */
  function Countable(f: Freq): int {
    if f == EveryDay then 106751 else 15250
  }

  /** A rule with an interval n asks for exactly the periods whose distance from the
      anchor is a multiple of n, counted in days, weeks or months, as long as the clock
      keeps its offset and the distances fit 64-bit durations. */
  lemma IntervalRuleMissesNothing(r: Recurrence, h: Horizon, latest: string, current: string, zone: Zone, n: int,
                                  p: string)
    requires RecurrenceHorizon(r.freq) == Some(h) && r.interval == Some(n) && n >= 1
    requires r.anchor != "" && ParsePeriod(if r.freq == OnWeekdays then Weekly else h, r.anchor).Some?
    requires Canonical(h, current) && ParsePeriod(h, latest).Some?
    requires YearOfIndex(h, ParsePeriod(h, current).value + 1) <= 9999
    requires forall d, e :: zone(d) == zone(e)
    requires forall k :: ParsePeriod(h, latest).value < k <= ParsePeriod(h, current).value ==>
               -Countable(r.freq) <= FromAnchor(r, h, k) <= Countable(r.freq) || r.freq == EveryMonth
    ensures Missing(r, h, latest, current, zone).Some?
    ensures p in Missing(r, h, latest, current, zone).value <==>
            exists k :: ParsePeriod(h, latest).value < k <= ParsePeriod(h, current).value && p == FormatPeriod(h, k)
                        && (r.freq == OnWeekdays ==> ISOWeekday(k) in r.weekdays) && FromAnchor(r, h, k) % n == 0
  {
    hide ParsePeriod, FormatPeriod, Missing, YearOfIndex, ISOWeekday, StringLess;
    MissingExists(r, h, latest, current, zone);
    MissingFollowsRule(r, h, latest, current, zone);
    var i, c := ParsePeriod(h, latest).value, ParsePeriod(h, current).value;
    forall k | i < k <= c ensures DecidesRight(r, k, zone) {
      assert FromAnchor(r, h, k) == CountedIndex(r, k) - AnchorIndex(r).value;
    }
    assert p in Missing(r, h, latest, current, zone).value <==> RuleAsksFor(r, h, i, c, p);
    forall k ensures CalendarRule(r, k) <==>
              (r.freq == OnWeekdays ==> ISOWeekday(k) in r.weekdays) && FromAnchor(r, h, k) % n == 0 {
      if n == 1 { EveryMultipleOfOne(FromAnchor(r, h, k)); }
    }
  }

  /** In terms of strings alone: with a canonical latest period, the result holds
      exactly the canonical periods strictly after it, up to the current one, that
      are occurrences; each once, in strictly increasing string order. */
  lemma MissingInStringOrder(r: Recurrence, h: Horizon, latest: string, current: string, zone: Zone, p: string)
    requires Canonical(h, current) && Canonical(h, latest)
    requires Missing(r, h, latest, current, zone).Some?
    ensures p in Missing(r, h, latest, current, zone).value <==>
            Canonical(h, p) && StringLess(latest, p) && StringAtMost(p, current)
                && IsOccurrence(r, p, zone) == Some(true)
    ensures var out := Missing(r, h, latest, current, zone).value;
            forall a, b :: 0 <= a < b < |out| ==> StringLess(out[a], out[b])
  {
    hide ParsePeriod, FormatPeriod, IsOccurrence, StringLess, YearOfIndex, LastIndex, Missing;
    var i, c := ParsePeriod(h, latest).value, ParsePeriod(h, current).value;
    MissingIsExact(r, h, latest, current, zone, p);
    if Canonical(h, p) {
      var k := ParsePeriod(h, p).value;
      FormatOrder(h, i, k);
      AtMostIsIndex(h, k, c);
    }
    if p in Missing(r, h, latest, current, zone).value {
      var k :| i < k <= c && p == FormatPeriod(h, k) && Occurs(r, h, k, zone) == Some(true);
      YearOfIndexMonotone(h, i, k);
      YearOfIndexMonotone(h, k, c);
      ParseOfFormat(h, k);
    }
    var out := Missing(r, h, latest, current, zone).value;
    forall a, b | 0 <= a < b < |out| ensures StringLess(out[a], out[b]) {
      MissingIncreases(r, h, latest, current, zone, a, b);
    }
  }

  lemma MissingIncreases(r: Recurrence, h: Horizon, latest: string, current: string, zone: Zone, a: int, b: int)
    requires Canonical(h, current) && Canonical(h, latest)
    requires Missing(r, h, latest, current, zone).Some?
    requires 0 <= a < b < |Missing(r, h, latest, current, zone).value|
    ensures StringLess(Missing(r, h, latest, current, zone).value[a], Missing(r, h, latest, current, zone).value[b])
  {
    hide ParsePeriod, FormatPeriod, Occurs, StringLess, YearOfIndex, LastIndex, Decidable;
    var i, c := ParsePeriod(h, latest).value, ParsePeriod(h, current).value;
    if i < c {
      YearOfIndexMonotone(h, i, i + 1);
      YearOfIndexMonotone(h, i + 1, c);
    }
    OccurrencesIncrease(r, h, i + 1, c + 1, zone, a, b);
  }
}
