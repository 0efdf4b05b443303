/** The three team screens: board, rollover and history, and why a run never drops a
    task from all of them (internal/service/task_views.go). */
module TeamScreens {
  import opened Base
  import opened Calendar
  import opened Forest
  import opened Period
  import opened PeriodLine
  import opened Recur
  import opened Model
  import opened Tags
  import opened Transitions
  import opened TaskRules
  import opened TaskInvariants
  import opened CascadeDelete
  import opened Materialization
  import opened Runs
  import Restore

  // ---- the filters, for current week w; a NULL week_of is "" and matches nothing ----

  /** boardVisibility. */
  predicate OnBoard(t: Task, w: string) {
    || (Open(t.status) && (t.dueDate != "" || (t.weekOf != "" && t.weekOf == w)))
    || (Terminal(t.status) && t.weekOf != "" && t.weekOf == w)
  }

  /** staleOpenCond. */
  predicate InRollover(t: Task, w: string) {
    Open(t.status) && t.dueDate == "" && t.weekOf != "" && StringLess(t.weekOf, w)
  }

  predicate InHistory(t: Task, w: string) {
    Terminal(t.status) && t.weekOf != "" && StringLess(t.weekOf, w)
  }

  function Screens(t: Task, w: string): nat {
    (if OnBoard(t, w) then 1 else 0) + (if InRollover(t, w) then 1 else 0) + (if InHistory(t, w) then 1 else 0)
  }

  /** The board shows this week and every open dated task, the rollover screen the open
      undated tasks of earlier weeks, the history what was closed in earlier weeks. No task
      is on two screens; and one is on none exactly when it is closed or undated, and its
      week is missing or still to come. */
  lemma ExactlyOneScreen(t: Task, w: string)
    requires ValidStatus(t.status) && w != ""
    ensures var closed := t.status == Done || t.status == Cancelled;
            && (OnBoard(t, w) <==> t.weekOf == w || (!closed && t.dueDate != ""))
            && (InRollover(t, w) <==> !closed && t.dueDate == "" && t.weekOf != "" && StringLess(t.weekOf, w))
            && (InHistory(t, w) <==> closed && t.weekOf != "" && StringLess(t.weekOf, w))
    ensures Screens(t, w) <= 1
    ensures Screens(t, w) == 1 <==> (Open(t.status) && t.dueDate != "") || (t.weekOf != "" && StringAtMost(t.weekOf, w))
  {
    hide StringLess;
    if StringLess(t.weekOf, w) { StringLessAsymmetric(t.weekOf, w); }
  }

  // ---- the week never lies ahead of the clock ----

  /** No team task's week is after w. */
  predicate WeeksUpTo(tasks: map<Id, Task>, w: string) {
    forall x :: x in tasks && tasks[x].teamId.Some? ==> StringAtMost(tasks[x].weekOf, w)
  }

  function ClockOf(call: Call): Option<Clock> {
    match call
    case Create(_, _, _, clock) => Some(clock)
    case PatchCall(_, _, _, clock, _, _) => Some(clock)
    case Reschedule(_, _, clock) => Some(clock)
    case Materialize(clock, _, _) => Some(clock)
    case _ => None
  }

  /** A patch that names weekOf does not name a week after the current one. */
  predicate NoPostdating(call: Call) {
    call.PatchCall? && call.patch.weekOf.Given? ==> StringAtMost(call.patch.weekOf.value, CurrentWeek(call.clock))
  }

  /** Week texts grow with the days. */
  lemma LaterDayLaterWeek(c: Clock, d: Clock)
    requires GoodClock(c) && GoodClock(d) && c.today <= d.today
    ensures StringAtMost(CurrentWeek(c), CurrentWeek(d))
  {
    hide StringLess, YearOfIndex, WeekOf, WeekMonday, YearOf, FormatPeriod;
    ClockYear(Weekly, c);
    ClockYear(Weekly, d);
    PeriodOfDayIsFormat(Weekly, c.today);
    PeriodOfDayIsFormat(Weekly, d.today);
    hide PeriodOfDay;
    AtMostIsIndex(Weekly, c.today / 7, d.today / 7);
  }

  lemma AtMostTransitive(a: string, b: string, c: string)
    requires StringAtMost(a, b) && StringAtMost(b, c)
    ensures StringAtMost(a, c)
  {
    hide StringLess;
    if StringLess(a, b) && StringLess(b, c) { StringLessTransitive(a, b, c); }
  }

  lemma CreatedWeek(db: DB, t: Task, newId: Id, u: Option<User>, clock: Clock, lower: Fold)
    requires Created(db, t, newId, u, clock, lower).Ok?
    ensures var row := Created(db, t, newId, u, clock, lower).value;
            row.weekOf == (if row.teamId.Some? then CurrentWeek(clock) else "")
  {
    hide ComputeAnchor, RowFits, CurrentWeek, Validated;
    ValidatedSame(db, Prepared(t, newId, u, clock), None, u, lower);
  }

  lemma DerivedWeekOf(orig: Task, merged: Task, p: Patch, u: Option<User>, clock: Clock)
    requires Derived(orig, merged, p, u, clock).Ok?
    ensures var d := Derived(orig, merged, p, u, clock).value;
            d.teamId.Some? && d.weekOf != CurrentWeek(clock) ==>
              d.weekOf == merged.weekOf && (orig.teamId.Some? || ParseISOWeek(merged.weekOf).Some?)
  {
    hide ParseISOWeek, CurrentWeek, OutsideTeam;
  }

  lemma DerivedWeek(t: Task, p: Patch, u: Option<User>, clock: Clock, lower: Fold)
    requires GoodRow(t, lower) && Derived(SharedOrig(t, p), Merged(t, p), p, u, clock).Ok?
    ensures var d := Derived(SharedOrig(t, p), Merged(t, p), p, u, clock).value;
            d.teamId.Some? ==>
              || d.weekOf == CurrentWeek(clock)
              || (p.weekOf.Given? && d.weekOf == p.weekOf.value)
              || (t.teamId.Some? && d.weekOf == t.weekOf)
  {
    SharedTeam(t, p);
    PersonalHasNoWeek(t, lower);
    hide *;
    DerivedWeekOf(SharedOrig(t, p), Merged(t, p), p, u, clock);
  }

  lemma PersonalHasNoWeek(t: Task, lower: Fold)
    requires GoodRow(t, lower)
    ensures t.teamId.None? ==> ParseISOWeek(t.weekOf) == None
  {
    EmptyIsNoPeriod(Weekly);
    assert ParseISOWeek("") == None;
  }

  lemma SharedTeam(t: Task, p: Patch)
    ensures SharedOrig(t, p).teamId.Some? <==> t.teamId.Some?
    ensures Merged(t, p).weekOf == if p.weekOf.Given? then p.weekOf.value else t.weekOf
  {
    hide MergedRecurrence;
  }

  /** A patched row has the current week, the week its body names, or its old one. */
  lemma PatchedWeek(db: DB, id: Id, p: Patch, u: Option<User>, clock: Clock, table: seq<Transition>, lower: Fold)
    requires Patched(db, id, p, u, clock, table, lower).Ok? && id in db.tasks && GoodRow(db.tasks[id], lower)
    ensures var row := Patched(db, id, p, u, clock, table, lower).value;
            row.teamId.Some? ==>
              || row.weekOf == CurrentWeek(clock)
              || (p.weekOf.Given? && row.weekOf == p.weekOf.value)
              || (db.tasks[id].teamId.Some? && row.weekOf == db.tasks[id].weekOf)
  {
    hide Validated, Refusal, EffectiveInterval, CanAccess, RowFits, HasCoarserChild, ComputeAnchor, Derived,
         SharedOrig, Merged, GoodRow, CurrentWeek;
    var t := db.tasks[id];
    var d := Derived(SharedOrig(t, p), Merged(t, p), p, u, clock).value;
    DerivedWeek(t, p, u, clock, lower);
    ValidatedSame(db, d, Some(id), u, lower);
  }

  lemma {:induction false} RescheduledWeeks(db: DB, ids: seq<Id>, u: Option<User>, clock: Clock, w: string)
    requires Keyed(db.tasks) && WeeksUpTo(db.tasks, w)
    ensures WeeksUpTo(Rescheduled(db, ids, u, clock).db.tasks, w)
    decreases |ids|
  {
    hide RowFits, CanAccess, PeriodOfDay, StringLess;
    if |ids| == 0 {
    } else {
      if Skipped(db, ids[0], u) {
        RescheduledWeeks(db, ids[1..], u, clock, w);
      } else {
        var row := RescheduledRow(db.tasks[ids[0]], clock);
        if RowFits(db, row) { RescheduledWeeks(db.(tasks := db.tasks[ids[0] := row]), ids[1..], u, clock, w); }
      }
    }
  }

  lemma {:induction false} InsertedWeeks(start: DB, spawns: seq<Spawn>, newId: (Id, string) -> Id, clock: Clock,
                                         w: string)
    requires WeeksUpTo(start.tasks, w) && StringAtMost(CurrentWeek(clock), w)
    ensures WeeksUpTo(InsertAll(start, start, spawns, newId, clock).tasks, w)
    decreases |spawns|
  {
    hide SeriesSlotFree, DueDateForSpawn, CurrentWeek, StringLess, Live;
    if |spawns| == 0 {
    } else {
      InsertedWeeks(start, spawns[..|spawns| - 1], newId, clock, w);
    }
  }

  /** One call, made no later than the day of clock d, keeps every week at or before d's. */
  lemma StepKeepsWeeks(db: DB, call: Call, after: DB, d: Clock, lower: Fold)
    requires Good(db, lower) && Step(db, call, after, lower) && NoPostdating(call) && GoodClock(d)
             && WeeksUpTo(db.tasks, CurrentWeek(d))
    requires ClockOf(call).Some? ==> ClockOf(call).value.today <= d.today
    ensures WeeksUpTo(after.tasks, CurrentWeek(d))
  {
    hide GoodClock, EntryIdTaken, FreshIds, SpawnsFrom, Subtree, Created, Patched, Rescheduled, InsertAll, StringLess,
         CurrentWeek, LogWithout, GoodForest, GoodRow, Collected, Restore.Restored, Restore.LogAfter, LogOf;
    if ClockOf(call).Some? && GoodClock(ClockOf(call).value) { LaterDayLaterWeek(ClockOf(call).value, d); }
    match call
    case Create(row, newId, user, clock) =>
      if Created(db, row, newId, Some(user), clock, lower).Ok? {
        CreatedWeek(db, row, newId, Some(user), clock, lower);
      }
    case PatchCall(id, patch, user, clock, table, entryId) =>
      var r := Patched(db, id, patch, Some(user), clock, table, lower);
      if r.Ok? && id in db.tasks {
        PatchedWeek(db, id, patch, Some(user), clock, table, lower);
        if patch.weekOf.Given? { AtMostTransitive(patch.weekOf.value, CurrentWeek(clock), CurrentWeek(d)); }
      }
    case Reschedule(ids, user, clock) => RescheduledWeeks(db, ids, Some(user), clock, CurrentWeek(d));
    case Materialize(clock, zone, newIds) =>
      var spawns :| SpawnsFrom(db, spawns, clock, zone) && after == InsertAll(db, db, spawns, newIds, clock);
      InsertedWeeks(db, spawns, newIds, clock, CurrentWeek(d));
    case Delete(root) =>
    case DeleteThenRestore(root, draw) =>
      if root in db.tasks {
        var subtree :| Collected(db.tasks, root, subtree) && after == Undone(db, root, subtree, lower, draw);
        Restore.RestoreUndoesDelete(db, root, subtree, lower, draw);
      }
    case Administer(teams, members, memberTeams) =>
  }

  lemma {:induction false} RunKeepsWeeks(states: seq<DB>, calls: seq<Call>, i: nat, d: Clock, lower: Fold)
    requires Run(states, calls, lower) && states[0].tasks == map[] && states[0].log == [] && i <= |calls|
             && GoodClock(d)
    requires forall k :: 0 <= k < i ==>
             NoPostdating(calls[k]) && (ClockOf(calls[k]).Some? ==> ClockOf(calls[k]).value.today <= d.today)
    ensures WeeksUpTo(states[i].tasks, CurrentWeek(d))
  {
    hide Step, Good, CurrentWeek, NoPostdating, StringLess;
    if i == 0 {
    } else {
      EmptyIsGood(states[0], lower);
      RunStaysGood(states, calls, i - 1, lower);
      RunKeepsWeeks(states, calls, i - 1, d, lower);
      StepKeepsWeeks(states[i - 1], calls[i - 1], states[i], d, lower);
    }
  }

  /** On a run whose calls are made no later than the day d, and whose patches name no
      week after their own, every team task is on exactly one screen on day d. */
  lemma NothingFallsOffTheScreens(states: seq<DB>, calls: seq<Call>, i: nat, d: Clock, x: Id, lower: Fold)
    requires Run(states, calls, lower) && states[0].tasks == map[] && states[0].log == [] && i <= |calls|
             && GoodClock(d)
    requires forall k :: 0 <= k < i ==>
             NoPostdating(calls[k]) && (ClockOf(calls[k]).Some? ==> ClockOf(calls[k]).value.today <= d.today)
    requires x in states[i].tasks && states[i].tasks[x].teamId.Some?
    ensures Screens(states[i].tasks[x], CurrentWeek(d)) == 1
  {
    hide Step, Good, GoodClock, NoPostdating, StringLess, Screens, ParseISOWeek, CurrentWeek;
    RunKeepsWeeks(states, calls, i, d, lower);
    EveryRunIsSafe(states, calls, i, lower);
    TeamRow(states[i], x, d, lower);
    ExactlyOneScreen(states[i].tasks[x], CurrentWeek(d));
  }

  lemma TeamRow(db: DB, x: Id, d: Clock, lower: Fold)
    requires Consistent(db) && x in db.tasks && db.tasks[x].teamId.Some? && GoodRow(db.tasks[x], lower) && GoodClock(d)
    ensures ValidStatus(db.tasks[x].status) && db.tasks[x].weekOf != "" && CurrentWeek(d) != ""
  {
    CurrentWeekValid(d);
    hide ParsePeriod, CurrentWeek, GoodRecurrence;
    assert RowFits(db, db.tasks[x]);
    assert ParseISOWeek("") == None;
  }
}
