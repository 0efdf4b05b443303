/** Summary: what happened between two dates, from a prefiltered read
    (internal/service/task_summary.go). */
module Summary {
  import opened Base
  import opened Calendar
  import opened Period
  import opened PeriodLine
  import opened Model

  // ---- local days ----

  /** A time zone: the local day of an instant, and the instant at which a day begins. */
  datatype LocalTime = LocalTime(dayOf: int -> int, midnight: int -> int)

  /** Days are the intervals between successive midnights. */
  ghost predicate Coherent(z: LocalTime) {
    forall t, d :: z.midnight(d) <= t <==> d <= z.dayOf(t)
  }

  const DAY_MICROS := 86400000000

  /** A zone at a fixed offset from UTC. */
  function FixedZone(offset: int): LocalTime {
    LocalTime(t => (t + offset) / DAY_MICROS, d => d * DAY_MICROS - offset)
  }

  lemma FixedZoneIsCoherent(offset: int)
    ensures Coherent(FixedZone(offset))
  {
  }

  /** Summary's range: two readable dates in order. */
  datatype Range = Range(from: string, to: string)

  predicate ValidRange(r: Range) {
    ParseDate(r.from).Some? && ParseDate(r.to).Some? && !StringLess(r.to, r.from)
  }

  predicate InRange(date: string, r: Range) {
    StringAtMost(r.from, date) && StringAtMost(date, r.to)
  }

  /** fromStart <= t < toEnd. */
  predicate Within(t: int, r: Range, z: LocalTime)
    requires ValidRange(r)
  {
    z.midnight(ParseDate(r.from).value) <= t < z.midnight(ParseDate(r.to).value + 1)
  }

  function LocalDate(t: int, z: LocalTime): string {
    FormatDate(z.dayOf(t))
  }

  /** Comparing instants with local midnights is comparing local dates. */
  lemma WithinIsInRange(t: int, r: Range, z: LocalTime)
    requires ValidRange(r) && Coherent(z) && FourDigit(Daily, z.dayOf(t))
    ensures Within(t, r, z) <==> InRange(LocalDate(t, z), r)
  {
    hide YearOfIndex, FormatDate, ParseDate, StringLess;
    var a, b := ParseDate(r.from).value, ParseDate(r.to).value;
    ParseDateAccepts(r.from, a);
    ParseDateAccepts(r.to, b);
    DateAtMost(a, z.dayOf(t));
    DateAtMost(z.dayOf(t), b);
  }

  lemma DateAtMost(a: int, b: int)
    requires FourDigit(Daily, a) && FourDigit(Daily, b)
    ensures StringAtMost(FormatDate(a), FormatDate(b)) <==> a <= b
  {
    hide YearOfIndex, StringLess, CivilOf;
    AtMostIsIndex(Daily, a, b);
    assert FormatPeriod(Daily, a) == FormatDate(a) && FormatPeriod(Daily, b) == FormatDate(b);
  }

  // ---- classification ----

  predicate Cancels(e: Entry) {
    e.kind == StatusEntry && e.to == Some(Cancelled)
  }

  /** The date of the last entry that cancelled the task. */
  function LastCancel(activity: seq<Entry>): Option<string> {
    if |activity| == 0 then None
    else if Cancels(activity[|activity| - 1]) then Some(activity[|activity| - 1].date)
    else LastCancel(activity[..|activity| - 1])
  }

  function ClosedDate(doc: Doc, z: LocalTime): string {
    var t := doc.task;
    if !Terminal(t.status) then ""
    else if t.status == Done && t.completedAt.Some? then LocalDate(t.completedAt.value, z)
    else if t.status == Cancelled && LastCancel(doc.activity).Some? then LastCancel(doc.activity).value
    else if |doc.activity| > 0 then ""
    else LocalDate(t.updatedAt, z)
  }

  method SummaryClosedDate(doc: Doc, z: LocalTime) returns (date: string)
    ensures date == ClosedDate(doc, z)
  {
    var t := doc.task;
    match t.status {
      case Done =>
        if t.completedAt.Some? {
          return LocalDate(t.completedAt.value, z);
        }
      case Cancelled =>
        var i := |doc.activity|;
        assert doc.activity[..i] == doc.activity;
        while i > 0
          invariant 0 <= i <= |doc.activity| && LastCancel(doc.activity) == LastCancel(doc.activity[..i])
        {
          i := i - 1;
          var e := doc.activity[i];
          assert doc.activity[..i + 1][..i] == doc.activity[..i];
          if e.kind == StatusEntry && e.to == Some(Cancelled) {
            return e.date;
          }
        }
      case _ =>
        return "";
    }
    if |doc.activity| > 0 {
      return "";
    }
    return LocalDate(t.updatedAt, z);
  }

  datatype Section = Completed | Updated | Added | Nowhere

  predicate Notes(doc: Doc, r: Range) {
    exists i :: 0 <= i < |doc.activity| && InRange(doc.activity[i].date, r)
  }

  /** The classification switch. */
  function SectionOf(doc: Doc, r: Range, z: LocalTime): Section
    requires ValidRange(r)
  {
    if !Open(doc.task.status) && InRange(ClosedDate(doc, z), r) then Completed
    else if Notes(doc, r) then Updated
    else if Open(doc.task.status) && doc.task.horizon != Backlog && Within(doc.task.createdAt, r, z) then Added
    else Nowhere
  }

  // ---- the candidate filter ----

  predicate Candidate(doc: Doc, r: Range, z: LocalTime)
    requires ValidRange(r)
  {
    var t := doc.task;
    || (t.completedAt.Some? && Within(t.completedAt.value, r, z))
    || (t.status == Cancelled && Within(t.updatedAt, r, z))
    || Notes(doc, r)
    || Within(t.createdAt, r, z)
  }

  /** A done task without completion time or timeline, last written in the range and
      created outside it. */
  predicate Overlooked(doc: Doc, r: Range, z: LocalTime)
    requires ValidRange(r)
  {
    var t := doc.task;
    && t.status == Done && t.completedAt.None? && doc.activity == []
    && Within(t.updatedAt, r, z) && !Within(t.createdAt, r, z)
  }

  /** Every local date of the row lies in a year from 0 to 9999. */
  predicate DatesPrintable(t: Task, z: LocalTime) {
    && FourDigit(Daily, z.dayOf(t.updatedAt)) && FourDigit(Daily, z.dayOf(t.createdAt))
    && (t.completedAt.Some? ==> FourDigit(Daily, z.dayOf(t.completedAt.value)))
  }

  lemma {:induction false} LastCancelIsThere(activity: seq<Entry>) returns (i: nat)
    requires LastCancel(activity).Some?
    ensures i < |activity| && LastCancel(activity) == Some(activity[i].date)
  {
    if Cancels(activity[|activity| - 1]) {
      i := |activity| - 1;
    } else {
      i := LastCancelIsThere(activity[..|activity| - 1]);
    }
  }

  lemma NoDateOutOfRange(r: Range)
    requires ValidRange(r)
    ensures !InRange("", r)
  {
    assert ParseDate("") == None;
  }

  /** The prefilter drops a row that belongs to a section exactly when it overlooks it. */
  lemma PrefilterMisses(doc: Doc, r: Range, z: LocalTime)
    requires ValidRange(r) && Coherent(z) && DatesPrintable(doc.task, z)
    ensures !Candidate(doc, r, z) && SectionOf(doc, r, z) != Nowhere <==> Overlooked(doc, r, z)
  {
    hide ParseDate, FormatDate, YearOfIndex, StringLess, InRange, Within, Coherent;
    NoDateOutOfRange(r);
    var t := doc.task;
    WithinIsInRange(t.updatedAt, r, z);
    if t.completedAt.Some? { WithinIsInRange(t.completedAt.value, r, z); }
    if LastCancel(doc.activity).Some? { var i := LastCancelIsThere(doc.activity); }
  }

  /** A done task without completion time or timeline, created the day before it was
      last written. */
  function UnstampedDoc(d: int): Doc {
    Doc(Task("a", "T", "", Daily, FormatDate(d), "", Done, NoPriority, [], None, None, None, "", Some("u"), None, None,
             (d - 1) * DAY_MICROS, d * DAY_MICROS, None), [])
  }

  /** Concretely: on the day it was written, in a zone on UTC, the summary of that day
      should list it as completed, and the filter drops it. */
  lemma UnstampedIsDropped(d: int)
    requires FourDigit(Daily, d - 1) && FourDigit(Daily, d)
    ensures var r, z := Range(FormatDate(d), FormatDate(d)), FixedZone(0);
            && ValidRange(r) && Coherent(z)
            && SectionOf(UnstampedDoc(d), r, z) == Completed && !Candidate(UnstampedDoc(d), r, z)
  {
    hide FormatDate, ParseDate, YearOfIndex, Coherent;
    var r, z, doc := Range(FormatDate(d), FormatDate(d)), FixedZone(0), UnstampedDoc(d);
    FixedZoneIsCoherent(0);
    ParseOfFormatDate(d);
    NotLessThanItself(FormatDate(d));
    assert z.dayOf(doc.task.updatedAt) == d && z.dayOf(doc.task.createdAt) == d - 1;
    assert Overlooked(doc, r, z);
    PrefilterMisses(doc, r, z);
    OverlookedIsCompleted(doc, r, z);
  }

  // ---- Summary ----

  function InSection(sec: Section, r: Range, z: LocalTime): Doc -> bool
    requires ValidRange(r)
  {
    (doc: Doc) => SectionOf(doc, r, z) == sec
  }

  function Candidates(r: Range, z: LocalTime): Doc -> bool
    requires ValidRange(r)
  {
    (doc: Doc) => Candidate(doc, r, z)
  }

  datatype Sections = Sections(completed: seq<Doc>, updated: seq<Doc>, added: seq<Doc>)

  /** The sections of some rows, before each is sorted by title. */
  function SectionsOf(docs: seq<Doc>, r: Range, z: LocalTime): Sections
    requires ValidRange(r)
  {
    Sections(Filter(docs, InSection(Completed, r, z)), Filter(docs, InSection(Updated, r, z)),
             Filter(docs, InSection(Added, r, z)))
  }

  /** The loop over the candidate rows of a scope. */
  method Summarize(scope: seq<Doc>, r: Range, z: LocalTime) returns (res: Sections)
    requires ValidRange(r)
    ensures res == SectionsOf(Filter(scope, Candidates(r, z)), r, z)
  {
    hide ValidRange, Within, InRange, ClosedDate, Notes, SectionsOf, SectionOf, Open;
    var tasks := Filter(scope, Candidates(r, z));
    res := Sections([], [], []);
    NoSections(r, z);
    assert tasks[..0] == [];
    for k := 0 to |tasks|
      invariant res == SectionsOf(tasks[..k], r, z)
    {
      var doc := tasks[k];
      SectionStep(tasks, k, r, z);
      SectionCases(doc, r, z);
      var open := Open(doc.task.status);
      var closed := SummaryClosedDate(doc, z);
      if !open && InRange(closed, r) {
        res := res.(completed := res.completed + [doc]);
      } else if Notes(doc, r) {
        res := res.(updated := res.updated + [doc]);
      } else if open && doc.task.horizon != Backlog && Within(doc.task.createdAt, r, z) {
        res := res.(added := res.added + [doc]);
      }
    }
    assert tasks[..|tasks|] == tasks;
  }

  lemma NoSections(r: Range, z: LocalTime)
    requires ValidRange(r)
    ensures SectionsOf([], r, z) == Sections([], [], [])
  {
  }

  lemma SectionCases(doc: Doc, r: Range, z: LocalTime)
    requires ValidRange(r)
    ensures SectionOf(doc, r, z) ==
            if !Open(doc.task.status) && InRange(ClosedDate(doc, z), r) then Completed
            else if Notes(doc, r) then Updated
            else if Open(doc.task.status) && doc.task.horizon != Backlog && Within(doc.task.createdAt, r, z) then Added
            else Nowhere
  {
  }

  lemma SectionStep(docs: seq<Doc>, k: nat, r: Range, z: LocalTime)
    requires ValidRange(r) && k < |docs|
    ensures var before, doc := SectionsOf(docs[..k], r, z), docs[k];
            SectionsOf(docs[..k + 1], r, z) ==
            match SectionOf(doc, r, z)
            case Completed => before.(completed := before.completed + [doc])
            case Updated => before.(updated := before.updated + [doc])
            case Added => before.(added := before.added + [doc])
            case Nowhere => before
  {
    hide SectionOf, Filter, ValidRange;
    FilterNext(docs, k, InSection(Completed, r, z));
    FilterNext(docs, k, InSection(Updated, r, z));
    FilterNext(docs, k, InSection(Added, r, z));
  }

  // ---- nothing is lost ----

  lemma {:induction false} FilterThrough<T>(s: seq<T>, p: T -> bool, q: T -> bool)
    requires forall x :: x in s && q(x) ==> p(x)
    ensures Filter(Filter(s, p), q) == Filter(s, q)
  {
    if |s| == 0 {
    } else {
      var init, last := s[..|s| - 1], s[|s| - 1];
      assert last in s;
      FilterThrough(init, p, q);
      FilterConcat(Filter(init, p), if p(last) then [last] else [], q);
      FilterOne(last, q);
    }
  }

  lemma {:induction false} FilterDrops<T>(s: seq<T>, p: T -> bool, q: T -> bool, x: T)
    requires x in s && q(x) && !p(x)
    ensures |Filter(Filter(s, p), q)| < |Filter(s, q)|
  {
    var init, last := s[..|s| - 1], s[|s| - 1];
    assert s == init + [last];
    FilterConcat(Filter(init, p), if p(last) then [last] else [], q);
    FilterOne(last, q);
    FilterShrinks(init, p, q);
    if x in init { FilterDrops(init, p, q, x); }
  }

  lemma {:induction false} FilterShrinks<T>(s: seq<T>, p: T -> bool, q: T -> bool)
    ensures |Filter(Filter(s, p), q)| <= |Filter(s, q)|
  {
    if |s| == 0 {
    } else {
      var init, last := s[..|s| - 1], s[|s| - 1];
      FilterShrinks(init, p, q);
      FilterConcat(Filter(init, p), if p(last) then [last] else [], q);
      FilterOne(last, q);
    }
  }

  /** Classifying the candidates gives the sections of the whole scope, row for row,
      exactly when the scope has no overlooked row. */
  lemma PrefilterLosesNothing(scope: seq<Doc>, r: Range, z: LocalTime)
    requires ValidRange(r) && Coherent(z) && forall doc :: doc in scope ==> DatesPrintable(doc.task, z)
    ensures SectionsOf(Filter(scope, Candidates(r, z)), r, z) == SectionsOf(scope, r, z) <==>
            forall doc :: doc in scope ==> !Overlooked(doc, r, z)
  {
    hide ValidRange, Coherent, DatesPrintable, Candidate, SectionOf, Overlooked, Filter;
    forall doc | doc in scope
      ensures !Candidate(doc, r, z) && SectionOf(doc, r, z) != Nowhere <==> Overlooked(doc, r, z)
      ensures Overlooked(doc, r, z) ==> SectionOf(doc, r, z) == Completed
    {
      PrefilterMisses(doc, r, z);
      OverlookedIsCompleted(doc, r, z);
    }
    if doc :| doc in scope && Overlooked(doc, r, z) {
      FilterDrops(scope, Candidates(r, z), InSection(Completed, r, z), doc);
    } else {
      FilterThrough(scope, Candidates(r, z), InSection(Completed, r, z));
      FilterThrough(scope, Candidates(r, z), InSection(Updated, r, z));
      FilterThrough(scope, Candidates(r, z), InSection(Added, r, z));
    }
  }

  lemma OverlookedIsCompleted(doc: Doc, r: Range, z: LocalTime)
    requires ValidRange(r) && Coherent(z) && DatesPrintable(doc.task, z)
    ensures Overlooked(doc, r, z) ==> SectionOf(doc, r, z) == Completed
  {
    hide ValidRange, Within, InRange, Coherent, YearOfIndex, LocalDate;
    WithinIsInRange(doc.task.updatedAt, r, z);
  }

  /** With completedAt set exactly on done tasks nothing is overlooked. */
  lemma CompletionKeepsAll(scope: seq<Doc>, r: Range, z: LocalTime)
    requires ValidRange(r) && Coherent(z) && forall doc :: doc in scope ==> DatesPrintable(doc.task, z)
    requires forall doc :: doc in scope ==> (doc.task.completedAt.Some? <==> doc.task.status == Done)
    ensures SectionsOf(Filter(scope, Candidates(r, z)), r, z) == SectionsOf(scope, r, z)
  {
    hide ValidRange, Coherent, DatesPrintable, Filter, SectionsOf, Candidates, Within;
    PrefilterLosesNothing(scope, r, z);
  }

  // ---- the sections in plain terms ----

  /** Entry i cancels the task, and no later one does. */
  predicate CancelsLast(activity: seq<Entry>, i: int) {
    && 0 <= i < |activity| && activity[i].kind == StatusEntry && activity[i].to == Some(Cancelled)
    && forall j :: i < j < |activity| ==> activity[j].kind != StatusEntry || activity[j].to != Some(Cancelled)
  }

  /** A done task closes on the local day of its completion, a cancelled one on the date
      of its last cancellation; for want of that and of any entry, on the day of its last write. */
  ghost predicate ClosesOn(doc: Doc, z: LocalTime, date: string) {
    var t := doc.task;
    if t.status == Done && t.completedAt.Some? then date == FormatDate(z.dayOf(t.completedAt.value))
    else if t.status == Cancelled && exists i :: CancelsLast(doc.activity, i)
    then exists i :: CancelsLast(doc.activity, i) && date == doc.activity[i].date
    else (t.status == Done || t.status == Cancelled) && doc.activity == [] && date == FormatDate(z.dayOf(t.updatedAt))
  }

  lemma {:induction false} LastCancelIs(activity: seq<Entry>, i: int)
    ensures LastCancel(activity).Some? ==> exists k :: CancelsLast(activity, k)
    ensures CancelsLast(activity, i) ==> LastCancel(activity) == Some(activity[i].date)
  {
    if |activity| == 0 {
    } else {
      var n := |activity| - 1;
      var init := activity[..n];
      LastCancelIs(init, i);
      if Cancels(activity[n]) {
        assert CancelsLast(activity, n);
      } else {
        if CancelsLast(activity, i) { assert CancelsLast(init, i); }
        if k :| CancelsLast(init, k) { assert CancelsLast(activity, k); }
      }
    }
  }

  lemma ClosedDateIs(doc: Doc, z: LocalTime, date: string)
    requires date != ""
    ensures ClosedDate(doc, z) == date <==> ClosesOn(doc, z, date)
  {
    hide FormatDate, LastCancel;
    LastCancelIs(doc.activity, 0);
    if i :| CancelsLast(doc.activity, i) { LastCancelIs(doc.activity, i); }
    forall k | CancelsLast(doc.activity, k) ensures LastCancel(doc.activity) == Some(doc.activity[k].date) {
      LastCancelIs(doc.activity, k);
    }
  }

  ghost predicate ClosesIn(doc: Doc, r: Range, z: LocalTime) {
    exists date :: ClosesOn(doc, z, date) && StringAtMost(r.from, date) && StringAtMost(date, r.to)
  }

  predicate HasEntryIn(doc: Doc, r: Range) {
    exists i :: 0 <= i < |doc.activity| && StringAtMost(r.from, doc.activity[i].date)
                && StringAtMost(doc.activity[i].date, r.to)
  }

  /** Created on a local day of the range, still open, and out of the backlog. */
  predicate OpenAndNew(doc: Doc, r: Range, z: LocalTime)
    requires ValidRange(r)
  {
    && (doc.task.status == Todo || doc.task.status == InProgress) && doc.task.horizon != Backlog
    && ParseDate(r.from).value <= z.dayOf(doc.task.createdAt) <= ParseDate(r.to).value
  }

  lemma ClosesInIs(doc: Doc, r: Range, z: LocalTime)
    requires ValidRange(r)
    ensures !Open(doc.task.status) && InRange(ClosedDate(doc, z), r) <==> ClosesIn(doc, r, z)
  {
    hide FormatDate, ParseDate, StringLess, ClosedDate, ClosesOn;
    NoDateOutOfRange(r);
    var closed := ClosedDate(doc, z);
    if closed != "" { ClosedDateIs(doc, z, closed); }
    if ClosesIn(doc, r, z) {
      var date :| ClosesOn(doc, z, date) && StringAtMost(r.from, date) && StringAtMost(date, r.to);
      ClosedDateIs(doc, z, date);
      OnlyClosedClose(doc, z, date);
    }
    OnlyClosedDated(doc, z);
  }

  lemma OnlyClosedClose(doc: Doc, z: LocalTime, date: string)
    requires ClosesOn(doc, z, date)
    ensures !Open(doc.task.status)
  {
  }

  lemma OnlyClosedDated(doc: Doc, z: LocalTime)
    ensures ClosedDate(doc, z) != "" ==> !Open(doc.task.status)
  {
  }

  /** A row is completed if it closes in the range; else updated if an entry is dated
      there; else added if it is open and new. So no row is in two sections. */
  lemma SectionsAre(docs: seq<Doc>, r: Range, z: LocalTime, doc: Doc)
    requires ValidRange(r) && Coherent(z) && doc in docs
    ensures var s := SectionsOf(docs, r, z);
            && (doc in s.completed <==> ClosesIn(doc, r, z))
            && (doc in s.updated <==> !ClosesIn(doc, r, z) && HasEntryIn(doc, r))
            && (doc in s.added <==> !ClosesIn(doc, r, z) && !HasEntryIn(doc, r) && OpenAndNew(doc, r, z))
  {
    hide ValidRange, Filter, ClosedDate, ClosesIn, HasEntryIn, Notes, ParseDate, StringLess, InRange;
    FilterMembers(docs, InSection(Completed, r, z));
    FilterMembers(docs, InSection(Updated, r, z));
    FilterMembers(docs, InSection(Added, r, z));
    ClosesInIs(doc, r, z);
    assert Notes(doc, r) <==> HasEntryIn(doc, r) by { NotesAre(doc, r); }
    CreatedWithin(doc.task.createdAt, r, z);
  }

  lemma NotesAre(doc: Doc, r: Range)
    ensures Notes(doc, r) <==> HasEntryIn(doc, r)
  {
    hide StringLess;
  }

  lemma CreatedWithin(t: int, r: Range, z: LocalTime)
    requires ValidRange(r) && Coherent(z)
    ensures Within(t, r, z) <==> ParseDate(r.from).value <= z.dayOf(t) <= ParseDate(r.to).value
  {
    hide ParseDate, StringLess;
  }
}
