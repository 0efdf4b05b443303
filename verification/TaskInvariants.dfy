/** What every committed state keeps: consistent tables, an acyclic forest whose
    children are never coarser than their parents, and the derived fields. */
module TaskInvariants {
  import opened Base
  import opened Calendar
  import opened Forest
  import opened Period
  import opened PeriodLine
  import opened Recur
  import opened Model
  import opened Tags
  import opened Transitions
  import opened TaskRules

  /** A rule that can be evaluated: valid, on its own horizon, with a readable anchor. */
  predicate GoodRecurrence(t: Task) {
    t.recurrence.Some? ==>
      && ValidRecurrence(t.recurrence.value)
      && RecurrenceHorizon(t.recurrence.value.freq) == Some(t.horizon)
      && AnchorIndex(t.recurrence.value).Some?
  }

  predicate GoodRow(t: Task, lower: Fold) {
    && (t.ownerId.Some? <==> t.teamId.None?)
    && (if t.teamId.Some? then ParseISOWeek(t.weekOf).Some? else t.weekOf == "")
    && (t.completedAt.Some? <==> t.status == Done)
    && (t.assigneeId.Some? ==> t.teamId.Some?)
    && ValidPeriod(t.horizon, t.period)
    && GoodRecurrence(t)
    && (t.horizon == Backlog ==> t.teamId.None? && t.dueDate == "" && t.recurrence.None?)
    && IsNormal(t.tags, lower)
  }

  /** A child's rank is at most its parent's, the backlog counting as 0. */
  predicate RanksDescend(tasks: map<Id, Task>) {
    forall x :: x in tasks && tasks[x].parentId.Some? && tasks[x].parentId.value in tasks ==>
      HorizonRank(tasks[x].horizon) <= HorizonRank(tasks[tasks[x].parentId.value].horizon)
  }

  ghost predicate GoodForest(tasks: map<Id, Task>) {
    ParentsExist(tasks) && Acyclic(ParentsOf(tasks)) && RanksDescend(tasks)
  }

  ghost predicate Good(db: DB, lower: Fold) {
    && Consistent(db)
    && IdsGiven(db.log)
    && GoodForest(db.tasks)
    && forall x :: x in db.tasks ==> GoodRow(db.tasks[x], lower)
  }

  /** The clock shows a year from 1 to 9999. */
  predicate GoodClock(clock: Clock) {
    1 <= YearOf(clock.today) <= 9999
  }

  // ---- periods printed by the clock ----

  lemma ClockPeriodValid(h: Horizon, clock: Clock)
    requires GoodClock(clock) && Ranked(h)
    ensures ValidPeriod(h, PeriodOfDay(h, clock.today))
    ensures Canonical(h, PeriodOfDay(h, clock.today))
    ensures PeriodOfDay(h, clock.today) != ""
  {
    var i := IndexOfDay(h, clock.today);
    hide ParsePeriod, FormatPeriod, PeriodOfDay;
    PeriodOfDayIsFormat(h, clock.today);
    ClockYear(h, clock);
    assert FourDigit(h, i);
    ParseOfFormat(h, i);
    EmptyIsNoPeriod(h);
  }

  lemma ClockYear(h: Horizon, clock: Clock)
    requires GoodClock(clock) && Ranked(h)
    ensures FourDigit(h, IndexOfDay(h, clock.today))
  {
    hide YearOf, YearStart, CivilOf, WeekMonday;
    var d := clock.today;
    match h
    case Daily =>
    case Weekly =>
      WeekOfIsIndex(d, d / 7);
      WeekYearNear(d);
      LastFourDigitWeek(d);
    case Monthly =>
      YearOfCivil(d);
      MonthYear(d);
  }

  lemma MonthYear(d: int)
    ensures MonthIndexOf(d) / 12 == CivilOf(d).year
  {
    DayToCivil(d);
    hide CivilOf;
  }

  lemma EmptyIsNoPeriod(h: Horizon)
    requires Ranked(h)
    ensures ParsePeriod(h, "") == None
  {
  }

  lemma AnchorReadable(f: Freq, h: Horizon, period: string)
    requires RecurrenceHorizon(f) == Some(h) && ValidPeriod(h, period)
    ensures ComputeAnchor(f, period).Some?
    ensures forall r: Recurrence :: r.freq == f && r.anchor == ComputeAnchor(f, period).value ==> AnchorIndex(r).Some?
  {
    hide ParseISOWeek, ParseMonth, FormatDate, FormatMonth, WeekText, WeekAt;
    if f == OnWeekdays {
      var d := ParseDate(period).value;
      ParseDateAccepts(period, d);
      hide ParseDate;
      WeekOfDateText(d);
      ParseOfFormat(Weekly, d / 7);
    }
  }

  // ---- one row written ----

  lemma WriteKeepsConsistent(db: DB, row: Task)
    requires Consistent(db) && RowFits(db, row)
    ensures Consistent(db.(tasks := db.tasks[row.id := row]))
  {
    hide ValuesAllowed;
  }

  lemma StaysInTable(tasks: map<Id, Task>, x: Id, a: Id)
    requires ParentsExist(tasks) && x in tasks && Reaches(ParentsOf(tasks), x, a)
    ensures a in tasks
  {
    var k: nat :| Up(ParentsOf(tasks), x, k) == Some(a);
    UpStaysInTable(tasks, x, k);
  }

  lemma {:induction false} UpStaysInTable(tasks: map<Id, Task>, x: Id, k: nat)
    requires ParentsExist(tasks) && x in tasks && Up(ParentsOf(tasks), x, k).Some?
    ensures Up(ParentsOf(tasks), x, k).value in tasks
    decreases k
  {
    if k == 0 {
    } else {
      UpStaysInTable(tasks, tasks[x].parentId.value, k - 1);
    }
  }

  /** Writing a row under an existing parent that it is not above, and no finer
      than its children, keeps the forest. */
  lemma WriteKeepsForest(tasks: map<Id, Task>, row: Task)
    requires Keyed(tasks) && GoodForest(tasks)
    requires row.parentId.Some? ==>
               && row.parentId.value in tasks && row.parentId.value != row.id
               && !Reaches(ParentsOf(tasks), row.parentId.value, row.id)
               && HorizonRank(row.horizon) <= HorizonRank(tasks[row.parentId.value].horizon)
    requires forall x :: x in tasks && tasks[x].parentId == Some(row.id) && x != row.id ==>
               HorizonRank(tasks[x].horizon) <= HorizonRank(row.horizon)
    ensures GoodForest(tasks[row.id := row])
  {
    hide HorizonRank, Acyclic, Reaches;
    var par, after := ParentsOf(tasks), tasks[row.id := row];
    WriteKeepsRanks(tasks, row);
    hide RanksDescend;
    ParentsAfterWrite(tasks, row);
    if row.parentId.Some? {
      AttachKeepsAcyclic(par, row.id, row.parentId.value);
    } else {
      hide ParentsOf;
      SubrelationAcyclic(ParentsOf(after), par);
    }
  }

  lemma WriteKeepsRanks(tasks: map<Id, Task>, row: Task)
    requires RanksDescend(tasks)
    requires row.parentId.Some? && row.parentId.value != row.id && row.parentId.value in tasks ==>
               HorizonRank(row.horizon) <= HorizonRank(tasks[row.parentId.value].horizon)
    requires forall x :: x in tasks && tasks[x].parentId == Some(row.id) && x != row.id ==>
               HorizonRank(tasks[x].horizon) <= HorizonRank(row.horizon)
    ensures RanksDescend(tasks[row.id := row])
  {
    hide HorizonRank;
  }

  lemma ParentsAfterWrite(tasks: map<Id, Task>, row: Task)
    ensures row.parentId.Some? ==> ParentsOf(tasks[row.id := row]) == ParentsOf(tasks)[row.id := row.parentId.value]
    ensures row.parentId.None? ==>
              forall y :: y in ParentsOf(tasks[row.id := row]) ==>
                  y in ParentsOf(tasks) && ParentsOf(tasks)[y] == ParentsOf(tasks[row.id := row])[y]
  {
  }

  // ---- create ----

  lemma ValidatedRow(db: DB, t: Task, self: Option<Id>, u: Option<User>, lower: Fold)
    requires Validated(db, t, self, u, lower).Ok?
    ensures Validated(db, t, self, u, lower).value == t.(tags := Validated(db, t, self, u, lower).value.tags)
    ensures var v := Validated(db, t, self, u, lower).value;
            && ValidPeriod(v.horizon, v.period)
            && (v.assigneeId.Some? ==> v.teamId.Some?)
            && (v.horizon == Backlog ==> v.teamId.None? && v.dueDate == "" && v.recurrence.None?)
            && (v.recurrence.Some? ==> ValidRecurrence(v.recurrence.value)
                                       && RecurrenceHorizon(v.recurrence.value.freq) == Some(v.horizon))
            && IsNormal(v.tags, lower)
    ensures t.parentId.Some? ==>
              && t.parentId.value in db.tasks && self != t.parentId
              && HorizonRank(t.horizon) <= HorizonRank(db.tasks[t.parentId.value].horizon)
              && (self.Some? ==> !Reaches(ParentsOf(db.tasks), t.parentId.value, self.value))
  {
    hide ValidPeriod, ValidRecurrence, RecurrenceHorizon, HorizonRank, Reaches, Normalized, Blank, IsNormal;
    NormalizedIsNormal(t.tags, lower);
  }

  lemma CreateKeepsGood(db: DB, t: Task, newId: Id, u: Option<User>, clock: Clock, lower: Fold)
    requires Good(db, lower) && u.Some? && GoodClock(clock)
    ensures var r := Created(db, t, newId, u, clock, lower);
            r.Ok? ==> Good(db.(tasks := db.tasks[newId := r.value]), lower)
  {
    var r := Created(db, t, newId, u, clock, lower);
    if r.Ok? {
      var p := Prepared(t, newId, u, clock);
      var v := Validated(db, p, None, u, lower).value;
      CreatedRow(db, t, newId, u, clock, lower);
      hide Validated, RowFits, GoodRow, Created, Reaches, HorizonRank;
      assert newId !in db.tasks && RowFits(db, r.value) && r.value.id == newId;
      if r.value.parentId.Some? && Reaches(ParentsOf(db.tasks), r.value.parentId.value, newId) {
        StaysInTable(db.tasks, r.value.parentId.value, newId);
      }
      WriteKeepsConsistent(db, r.value);
      WriteKeepsForest(db.tasks, r.value);
    }
  }

  lemma CreatedRow(db: DB, t: Task, newId: Id, u: Option<User>, clock: Clock, lower: Fold)
    requires Created(db, t, newId, u, clock, lower).Ok? && u.Some? && GoodClock(clock)
    ensures var row := Created(db, t, newId, u, clock, lower).value;
            && GoodRow(row, lower) && row.id == newId && newId !in db.tasks && RowFits(db, row)
            && (row.parentId.Some? ==>
                 && row.parentId.value in db.tasks
                 && HorizonRank(row.horizon) <= HorizonRank(db.tasks[row.parentId.value].horizon))
  {
    hide ValidPeriod, RecurrenceHorizon, HorizonRank, Reaches, Normalized, IsNormal, ComputeAnchor, RowFits,
         Validated, ParseISOWeek, CurrentWeek, AnchorIndex;
    var v := Validated(db, Prepared(t, newId, u, clock), None, u, lower).value;
    ValidatedRow(db, Prepared(t, newId, u, clock), None, u, lower);
    CurrentWeekValid(clock);
    if v.recurrence.Some? {
      AnchorReadable(v.recurrence.value.freq, v.horizon, v.period);
      assert AnchorIndex(Created(db, t, newId, u, clock, lower).value.recurrence.value).Some?;
    }
  }

  lemma CurrentWeekValid(clock: Clock)
    requires GoodClock(clock)
    ensures ParseISOWeek(CurrentWeek(clock)).Some?
  {
    hide ParseISOWeek, PeriodOfDay;
    ClockPeriodValid(Weekly, clock);
  }

  // ---- patch ----

  lemma PatchKeepsGood(db: DB, id: Id, p: Patch, u: Option<User>, clock: Clock, table: seq<Transition>, entryId: Id,
                       lower: Fold)
    requires Good(db, lower) && u.Some? && GoodClock(clock) && entryId != "" && !EntryIdTaken(db.log, entryId)
    ensures var r := Patched(db, id, p, u, clock, table, lower);
            r.Ok? ==> Good(AfterPatch(db, id, r.value, u, clock, entryId), lower)
  {
    var r := Patched(db, id, p, u, clock, table, lower);
    if r.Ok? {
      hide *;
      PatchedRow(db, id, p, u, clock, table, lower);
      PatchCommits(db, id, r.value, u, clock, entryId, lower);
    }
  }

  lemma PatchCommits(db: DB, id: Id, row: Task, u: Option<User>, clock: Clock, entryId: Id, lower: Fold)
    requires Good(db, lower) && entryId != "" && !EntryIdTaken(db.log, entryId)
    requires id in db.tasks && GoodRow(row, lower) && row.id == id && RowFits(db, row)
    requires row.status != db.tasks[id].status ==> AuthorExists(db, u)
    requires row.parentId.Some? ==>
               && row.parentId.value in db.tasks && row.parentId.value != id
               && !Reaches(ParentsOf(db.tasks), row.parentId.value, id)
               && HorizonRank(row.horizon) <= HorizonRank(db.tasks[row.parentId.value].horizon)
    requires forall x :: x in db.tasks && db.tasks[x].parentId == Some(id) && x != id ==>
               HorizonRank(db.tasks[x].horizon) <= HorizonRank(row.horizon)
    ensures Good(AfterPatch(db, id, row, u, clock, entryId), lower)
  {
    hide RowFits, GoodRow, Reaches, HorizonRank, GoodForest;
    WriteKeepsConsistent(db, row);
    WriteKeepsForest(db.tasks, row) by { ForestParts(db.tasks); }
    LogAppendKeepsConsistent(db.(tasks := db.tasks[id := row]),
                             StatusActivity(entryId, id, db.tasks[id].status, row.status, clock, u));
  }

  lemma ForestParts(tasks: map<Id, Task>)
    requires GoodForest(tasks)
    ensures ParentsExist(tasks) && Acyclic(ParentsOf(tasks)) && RanksDescend(tasks)
  {
  }

  lemma LogAppendKeepsConsistent(db: DB, e: Entry)
    requires Consistent(db) && !EntryIdTaken(db.log, e.id)
    ensures e.taskId in db.tasks && !e.kind.OtherKind? && (e.author.Some? ==> e.author.value in db.members) ==>
            Consistent(db.(log := db.log + [e]))
  {
    var after := db.(log := db.log + [e]);
    assert forall x :: x in db.tasks && RowFits(db, db.tasks[x]) ==> RowFits(after, db.tasks[x]);
  }

  /** The state that PatchTask commits. */
  function AfterPatch(db: DB, id: Id, row: Task, u: Option<User>, clock: Clock, entryId: Id): DB
    requires id in db.tasks
  {
    db.(tasks := db.tasks[id := row],
        log := if db.tasks[id].status == row.status then db.log
               else db.log + [StatusActivity(entryId, id, db.tasks[id].status, row.status, clock, u)])
  }

  lemma PatchedRow(db: DB, id: Id, p: Patch, u: Option<User>, clock: Clock, table: seq<Transition>, lower: Fold)
    requires Good(db, lower) && u.Some? && GoodClock(clock) && Patched(db, id, p, u, clock, table, lower).Ok?
    ensures var row := Patched(db, id, p, u, clock, table, lower).value;
            && id in db.tasks && GoodRow(row, lower) && row.id == id && RowFits(db, row)
            && (row.status != db.tasks[id].status ==> AuthorExists(db, u))
            && (row.parentId.Some? ==>
                 && row.parentId.value in db.tasks && row.parentId.value != id
                 && !Reaches(ParentsOf(db.tasks), row.parentId.value, id)
                 && HorizonRank(row.horizon) <= HorizonRank(db.tasks[row.parentId.value].horizon))
            && (forall x :: x in db.tasks && db.tasks[x].parentId == Some(id) && x != id ==>
                 HorizonRank(db.tasks[x].horizon) <= HorizonRank(row.horizon))
  {
    hide ValidPeriod, ValidRecurrence, RecurrenceHorizon, HorizonRank, Reaches, IsNormal, ComputeAnchor, RowFits,
         Validated, ParseISOWeek, AnchorIndex, Derived, Merged, SharedOrig, Acyclic, Refusal, EffectiveInterval;
    var prior := db.tasks[id];
    var d := Derived(SharedOrig(prior, p), Merged(prior, p), p, u, clock).value;
    DerivedRow(prior, p, u, clock, lower);
    ValidatedRow(db, d, Some(id), u, lower);
    var v := Validated(db, d, Some(id), u, lower).value;
    AnchoredRow(prior, v, lower);
  }

  /** The fields that a patch derives stay in step, even though orig shares the
      values that the patch writes through. */
  lemma DerivedRow(prior: Task, p: Patch, u: Option<User>, clock: Clock, lower: Fold)
    requires GoodRow(prior, lower) && u.Some? && GoodClock(clock)
    requires Derived(SharedOrig(prior, p), Merged(prior, p), p, u, clock).Ok?
    ensures var d := Derived(SharedOrig(prior, p), Merged(prior, p), p, u, clock).value;
            && d.id == prior.id
            && (d.ownerId.Some? <==> d.teamId.None?)
            && (if d.teamId.Some? then ParseISOWeek(d.weekOf).Some? else d.weekOf == "")
            && (d.completedAt.Some? <==> d.status == Done)
            && d.parentId == Merged(prior, p).parentId
  {
    hide ValidPeriod, GoodRecurrence, IsNormal, ParseISOWeek, PeriodOfDay;
    CurrentWeekValid(clock);
  }

  lemma AnchoredRow(prior: Task, v: Task, lower: Fold)
    requires GoodRow(prior, lower) && Anchored(prior.recurrence, v).Some?
    requires ValidPeriod(v.horizon, v.period)
    requires v.recurrence.Some? ==>
             ValidRecurrence(v.recurrence.value) && RecurrenceHorizon(v.recurrence.value.freq) == Some(v.horizon)
    ensures var row := Anchored(prior.recurrence, v).value;
            row == v.(recurrence := row.recurrence) && GoodRecurrence(row)
            && (row.recurrence.Some? <==> v.recurrence.Some?)
  {
    hide ValidPeriod, ComputeAnchor, ParsePeriod, IsNormal;
    if v.recurrence.Some? {
      var r := v.recurrence.value;
      AnchorReadable(r.freq, v.horizon, v.period);
      if prior.recurrence.Some? && prior.recurrence.value.freq == r.freq {
        assert AnchorIndex(prior.recurrence.value).Some?;
      }
    }
  }

  // ---- reschedule ----

  lemma {:induction false} RescheduleKeepsGood(db: DB, ids: seq<Id>, u: Option<User>, clock: Clock, lower: Fold)
    requires Good(db, lower) && GoodClock(clock)
    ensures Good(Rescheduled(db, ids, u, clock).db, lower)
    decreases |ids|
  {
    hide RowFits, CanAccess, GoodForest, GoodRow, PeriodOfDay, Consistent;
    if |ids| == 0 {
    } else {
      if Skipped(db, ids[0], u) {
        RescheduleKeepsGood(db, ids[1..], u, clock, lower);
      } else {
        var row := RescheduledRow(db.tasks[ids[0]], clock);
        if RowFits(db, row) {
          RescheduledRowGood(db, ids[0], clock, lower);
          RescheduleKeepsGood(db.(tasks := db.tasks[ids[0] := row]), ids[1..], u, clock, lower);
        }
      }
    }
  }

  lemma RescheduledRowGood(db: DB, id: Id, clock: Clock, lower: Fold)
    requires Good(db, lower) && GoodClock(clock) && id in db.tasks && db.tasks[id].horizon != Backlog
    requires RowFits(db, RescheduledRow(db.tasks[id], clock))
    ensures Good(db.(tasks := db.tasks[id := RescheduledRow(db.tasks[id], clock)]), lower)
  {
    var row := RescheduledRow(db.tasks[id], clock);
    RescheduledFields(db.tasks[id], clock, lower);
    hide RowFits, GoodRow, HorizonRank, PeriodOfDay;
    WriteKeepsConsistent(db, row);
    SamePlaceKeepsForest(db.tasks, row);
  }

  /** Rewriting a row with its old parent and horizon leaves the forest alone. */
  lemma SamePlaceKeepsForest(tasks: map<Id, Task>, row: Task)
    requires Keyed(tasks) && GoodForest(tasks) && row.id in tasks
    requires row.parentId == tasks[row.id].parentId && row.horizon == tasks[row.id].horizon
    ensures GoodForest(tasks[row.id := row])
  {
    assert ParentsOf(tasks[row.id := row]) == ParentsOf(tasks);
  }

  lemma RescheduledFields(t: Task, clock: Clock, lower: Fold)
    requires GoodRow(t, lower) && GoodClock(clock) && t.horizon != Backlog
    ensures GoodRow(RescheduledRow(t, clock), lower)
  {
    hide ParsePeriod, PeriodOfDay, ParseISOWeek, IsNormal, ValidRecurrence;
    ClockPeriodValid(t.horizon, clock);
  }
}
