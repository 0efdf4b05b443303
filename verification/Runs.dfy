/** Serial runs of the task store: every state of every run, from a store without
    tasks, keeps the forest and the derived fields; and what the shallow copy in
    patchTaskTx lets a patch body change (internal/service/tasks.go). */
module Runs {
  import opened Base
  import opened Forest
  import opened Period
  import opened Duration
  import opened Recur
  import opened Model
  import opened Tags
  import opened Transitions
  import opened TaskRules
  import opened TaskInvariants
  import opened CascadeDelete
  import opened Materialization
  import Restore

  /** One call, made with a session user; Materialize needs none. Administration adds
      teams and members and redraws who belongs to which team. */
  datatype Call =
    | Create(row: Task, newId: Id, user: User, clock: Clock)
    | PatchCall(id: Id, patch: Patch, user: User, clock: Clock, table: seq<Transition>, entryId: Id)
    | Reschedule(ids: seq<Id>, user: User, clock: Clock)
    | Materialize(clock: Clock, zone: Zone, newIds: (Id, string) -> Id)
    | Delete(root: Id)
    | DeleteThenRestore(root: Id, draw: Restore.Draw)
    | Administer(teams: set<Id>, members: set<Id>, memberTeams: set<(Id, Id)>)

  /** What one call commits, accepted or refused. */
  ghost predicate Step(db: DB, call: Call, after: DB, lower: Fold) {
    match call
    case Create(row, newId, user, clock) =>
      && GoodClock(clock)
      && var r := Created(db, row, newId, Some(user), clock, lower);
         after == if r.Ok? then db.(tasks := db.tasks[newId := r.value]) else db
    case PatchCall(id, patch, user, clock, table, entryId) =>
      && GoodClock(clock) && entryId != "" && !EntryIdTaken(db.log, entryId)
      && var r := Patched(db, id, patch, Some(user), clock, table, lower);
         after == if r.Ok? && id in db.tasks then AfterPatch(db, id, r.value, Some(user), clock, entryId) else db
    case Reschedule(ids, user, clock) =>
      GoodClock(clock) && after == Rescheduled(db, ids, Some(user), clock).db
    case Materialize(clock, zone, newIds) =>
      && GoodClock(clock) && FreshIds(db.tasks, newIds)
      && exists spawns :: SpawnsFrom(db, spawns, clock, zone) && after == InsertAll(db, db, spawns, newIds, clock)
    case Delete(root) =>
      after == if root in db.tasks then Without(db, Subtree(db.tasks, root)) else db
    case DeleteThenRestore(root, draw) =>
      if root in db.tasks then
        exists subtree :: Collected(db.tasks, root, subtree) && after == Undone(db, root, subtree, lower, draw)
      else after == db
    case Administer(teams, members, memberTeams) =>
      db.teams <= teams && db.members <= members
          && after == db.(teams := teams, members := members, memberTeams := memberTeams)
  }

  /** A deleted subtree put back by restoring the delete's own response. */
  ghost function Undone(db: DB, root: Id, subtree: seq<Id>, lower: Fold, draw: Restore.Draw): DB
    requires Collected(db.tasks, root, subtree)
  {
    match Restore.Restored(Without(db, Subtree(db.tasks, root)), DocsOf(db, subtree), lower, draw)
    case Ok(r) => r.db
    case Err(_) => Without(db, Subtree(db.tasks, root))
  }

  /** The inserts of a materialisation, complete or cut short by an error. */
  ghost predicate SpawnsFrom(db: DB, spawns: seq<Spawn>, clock: Clock, zone: Zone)
    requires GoodClock(clock)
  {
    Distinct(spawns) && forall i :: 0 <= i < |spawns| ==> SpawnWanted(db, spawns[i], clock, zone)
  }

  ghost predicate Run(states: seq<DB>, calls: seq<Call>, lower: Fold) {
    && |states| == |calls| + 1
    && forall i :: 0 <= i < |calls| ==> Step(states[i], calls[i], states[i + 1], lower)
  }

  lemma StepKeepsGood(db: DB, call: Call, after: DB, lower: Fold)
    requires Good(db, lower) && Step(db, call, after, lower)
    ensures Good(after, lower)
  {
    hide Good, GoodClock, EntryIdTaken, FreshIds, SpawnsFrom, Subtree, Without, Created, Patched, Rescheduled,
         InsertAll, AfterPatch, Collected, Undone;
    match call
    case Create(row, newId, user, clock) => CreateKeepsGood(db, row, newId, Some(user), clock, lower);
    case PatchCall(id, patch, user, clock, table, entryId) => PatchKeepsGood(db, id, patch, Some(user), clock, table,
            entryId, lower);
    case Reschedule(ids, user, clock) => RescheduleKeepsGood(db, ids, Some(user), clock, lower);
    case Materialize(clock, zone, newIds) =>
      var spawns :| SpawnsFrom(db, spawns, clock, zone) && after == InsertAll(db, db, spawns, newIds, clock);
      SpawnsKeepGood(db, spawns, newIds, clock, zone, lower);
    case Delete(root) => if root in db.tasks { DeleteKeepsGood(db, root, lower); }
    case DeleteThenRestore(root, draw) =>
      if root in db.tasks {
        var subtree :| Collected(db.tasks, root, subtree) && after == Undone(db, root, subtree, lower, draw);
        UndoKeepsGood(db, root, subtree, lower, draw);
      }
    case Administer(teams, members, memberTeams) => AdministerKeepsGood(db, teams, members, memberTeams, lower);
  }

  lemma SpawnsKeepGood(db: DB, spawns: seq<Spawn>, newIds: (Id, string) -> Id, clock: Clock, zone: Zone, lower: Fold)
    requires Good(db, lower) && GoodClock(clock) && FreshIds(db.tasks, newIds) && SpawnsFrom(db, spawns, clock, zone)
    ensures Good(InsertAll(db, db, spawns, newIds, clock), lower)
  {
    hide Good, GoodClock, FreshIds, SpawnWanted, InsertAll, Distinct;
    MaterializeKeepsGood(db, spawns, newIds, clock, zone, lower);
  }

  lemma AdministerKeepsGood(db: DB, teams: set<Id>, members: set<Id>, memberTeams: set<(Id, Id)>, lower: Fold)
    requires Good(db, lower) && db.teams <= teams && db.members <= members
    ensures Good(db.(teams := teams, members := members, memberTeams := memberTeams), lower)
  {
    hide GoodForest, GoodRow, SeriesSlotFree, ValuesAllowed;
    var after := db.(teams := teams, members := members, memberTeams := memberTeams);
    assert forall x :: x in db.tasks && RowFits(db, db.tasks[x]) ==> RowFits(after, db.tasks[x]);
  }

  // ---- cascade delete ----

  /** What is left after a cascade delete is a good store: no row points into the
      deleted subtree, and no timeline row is left behind. */
  lemma DeleteKeepsGood(db: DB, root: Id, lower: Fold)
    requires Good(db, lower) && root in db.tasks
    ensures Good(Without(db, Subtree(db.tasks, root)), lower)
  {
    var gone := Subtree(db.tasks, root);
    var rest := Without(db, gone);
    hide Subtree, GoodRow, LogWithout, Reaches, Acyclic;
    NothingPointsIn(db.tasks, root);
    RemainingForest(db.tasks, gone);
    RemainingRows(db, gone);
    RemainingLog(db, gone);
  }

  lemma NothingPointsIn(tasks: map<Id, Task>, root: Id)
    ensures forall x :: x in tasks && tasks[x].parentId.Some? && tasks[x].parentId.value in Subtree(tasks, root) ==>
            x in Subtree(tasks, root)
  {
    hide Reaches, ParentsOf;
    forall x | x in tasks && tasks[x].parentId.Some? && tasks[x].parentId.value in Subtree(tasks, root)
      ensures x in Subtree(tasks, root) {
      ParentOfRow(tasks, x);
      ReachesParent(ParentsOf(tasks), x, root);
    }
  }

  lemma RemainingForest(tasks: map<Id, Task>, gone: set<Id>)
    requires GoodForest(tasks)
    requires forall x :: x in tasks && tasks[x].parentId.Some? && tasks[x].parentId.value in gone ==> x in gone
    ensures GoodForest(tasks - gone)
  {
    hide HorizonRank;
    SubrelationAcyclic(ParentsOf(tasks - gone), ParentsOf(tasks));
  }

  lemma RemainingRows(db: DB, gone: set<Id>)
    requires Consistent(db)
    requires forall x :: x in db.tasks && db.tasks[x].parentId.Some? && db.tasks[x].parentId.value in gone ==> x in gone
    ensures var rest := Without(db, gone);
            Keyed(rest.tasks) && forall x :: x in rest.tasks ==> RowFits(rest, rest.tasks[x])
  {
    hide ValuesAllowed, LogWithout;
    var rest := Without(db, gone);
    forall x | x in rest.tasks ensures RowFits(rest, rest.tasks[x]) {
      assert RowFits(db, db.tasks[x]);
    }
  }

  lemma RemainingLog(db: DB, gone: set<Id>)
    requires Consistent(db) && IdsGiven(db.log)
    ensures var rest := Without(db, gone);
            && IdsGiven(rest.log)
            && (forall i :: 0 <= i < |rest.log| ==> rest.log[i].taskId in rest.tasks && !rest.log[i].kind.OtherKind?)
            && (forall i :: 0 <= i < |rest.log| ==> rest.log[i].author.Some? ==> rest.log[i].author.value in db.members)
            && DistinctEntryIds(rest.log)
  {
    hide LogWithout, RowFits;
    Restore.LogWithoutEntries(db.log, gone);
    Restore.LogWithoutDistinct(db.log, gone);
    var log := LogWithout(db.log, gone);
    forall i | 0 <= i < |log|
      ensures log[i].id != "" && log[i].taskId in db.tasks - gone && !log[i].kind.OtherKind?
              && (log[i].author.Some? ==> log[i].author.value in db.members)
    {
      assert log[i] in log;
      var k :| 0 <= k < |db.log| && db.log[k] == log[i];
    }
  }

  /** Undoing a delete leaves a good store: every row is back, and the timeline rows,
      though renumbered, are the old ones, each once. */
  lemma UndoKeepsGood(db: DB, root: Id, subtree: seq<Id>, lower: Fold, draw: Restore.Draw)
    requires Good(db, lower) && root in db.tasks && Collected(db.tasks, root, subtree)
    ensures Good(Undone(db, root, subtree, lower, draw), lower)
  {
    var n := |subtree|;
    var log := Restore.LogAfter(db, subtree, n);
    Restore.RestoreUndoesDelete(db, root, subtree, lower, draw);
    Restore.EntryIdsStayDistinct(db, subtree, n);
    Restore.LogAfterEntries(db, subtree, n);
    assert Undone(db, root, subtree, lower, draw) == db.(log := log);
    hide Restore.LogAfter, Restore.Restored, Undone, Collected, GoodForest, GoodRow, RowFits, SeriesSlotFree;
    SubLogKeepsGood(db, log, lower);
  }

  lemma SubLogKeepsGood(db: DB, log: seq<Entry>, lower: Fold)
    requires Good(db, lower) && DistinctEntryIds(log) && forall e :: e in log ==> e in db.log
    ensures Good(db.(log := log), lower)
  {
    hide GoodForest, GoodRow, SeriesSlotFree, ValuesAllowed;
    var after := db.(log := log);
    assert forall x :: x in db.tasks && RowFits(db, db.tasks[x]) ==> RowFits(after, db.tasks[x]);
    forall i | 0 <= i < |log|
      ensures log[i].id != "" && log[i].taskId in db.tasks && !log[i].kind.OtherKind?
              && (log[i].author.Some? ==> log[i].author.value in db.members)
    {
      assert log[i] in log;
      var k :| 0 <= k < |db.log| && db.log[k] == log[i];
    }
  }

  // ---- runs ----

  lemma {:induction false} RunStaysGood(states: seq<DB>, calls: seq<Call>, i: nat, lower: Fold)
    requires Run(states, calls, lower) && Good(states[0], lower) && i <= |calls|
    ensures Good(states[i], lower)
  {
    hide Good, Step;
    if i == 0 {
    } else {
      RunStaysGood(states, calls, i - 1, lower);
      StepKeepsGood(states[i - 1], calls[i - 1], states[i], lower);
    }
  }

  /** Every state of every serial run that starts without tasks: the parents form an
      acyclic forest, a child's rank is at most its parent's, the derived fields are
      in step, and no table constraint is broken. */
  lemma EveryRunIsSafe(states: seq<DB>, calls: seq<Call>, i: nat, lower: Fold)
    requires Run(states, calls, lower) && states[0].tasks == map[] && states[0].log == [] && i <= |calls|
    ensures Consistent(states[i]) && ParentsExist(states[i].tasks) && Acyclic(ParentsOf(states[i].tasks))
            && RanksDescend(states[i].tasks)
    ensures forall x :: x in states[i].tasks ==> GoodRow(states[i].tasks[x], lower)
  {
    EmptyIsGood(states[0], lower);
    hide Step, GoodRow, Acyclic, RanksDescend, Consistent;
    RunStaysGood(states, calls, i, lower);
  }

  lemma EmptyIsGood(db: DB, lower: Fold)
    requires db.tasks == map[] && db.log == []
    ensures Good(db, lower)
  {
    RankedIsAcyclic(ParentsOf(db.tasks), map[]);
  }

  // ---- what a patch body can change through a shared value ----

  /** A nullable field that is set, and set to something else by the patch. */
  predicate Overwrites<T(==)>(prior: Option<T>, f: Field<T>) {
    prior.Some? && f.Given? && f.value != prior.value
  }

  /** The server means to keep seriesId and ownerId, and completedAt while the status
      stays done. An accepted patch keeps each exactly when its body does not overwrite
      a value that is already set: the copy it is restored from shares that value. */
  lemma KeptFieldsExactly(db: DB, id: Id, p: Patch, u: User, clock: Clock, table: seq<Transition>, lower: Fold)
    requires Patched(db, id, p, Some(u), clock, table, lower).Ok?
    ensures id in db.tasks
    ensures var t, row := db.tasks[id], Patched(db, id, p, Some(u), clock, table, lower).value;
            && (row.seriesId == t.seriesId <==> !Overwrites(t.seriesId, p.seriesId))
            && (t.teamId.Some? == row.teamId.Some? ==>
                (row.ownerId == t.ownerId <==> !Overwrites(t.ownerId, p.ownerId)))
            && (t.status == Done && row.status == Done ==>
                 (row.completedAt == t.completedAt <==> !Overwrites(t.completedAt, p.completedAt)))
  {
    hide Validated, Refusal, EffectiveInterval, CanAccess, RowFits, HasCoarserChild, ParseISOWeek, PeriodOfDay,
         ComputeAnchor, MergedRecurrence;
    var t := db.tasks[id];
    var d := Derived(SharedOrig(t, p), Merged(t, p), p, Some(u), clock).value;
    ValidatedSame(db, d, Some(id), Some(u), lower);
  }

  const EMPTY_PATCH := Patch(Absent, Absent, Absent, Absent, Absent, Absent, Absent, Absent, Absent, Absent, Absent,
                             Absent, Absent,
                             Absent, Absent, Absent)

  /** A daily task of the given owner that recurs every day, first instance of its series. */
  function DailyTask(d: int, owner: Id): Task {
    Task("a", "T", "", Daily, FormatDate(d), "", Todo, NoPriority, [], None, None, None, "", Some(owner),
         Some(Recurrence(EveryDay, None, FormatDate(d), [], 0)), Some("s"), 0, 0, None)
  }

  /** Concretely: a body that names only seriesId moves a recurring task to another
      series, although the server puts the old series back. */
  lemma BodyMovesSeries(db: DB, d: int, u: User, clock: Clock, table: seq<Transition>, lower: Fold)
    requires FourDigit(Daily, d) && db.tasks == map["a" := DailyTask(d, u.id)] && u.id in db.members
    ensures var r := Patched(db, "a", EMPTY_PATCH.(seriesId := Given("x")), Some(u), clock, table, lower);
            r.Ok? && r.value.seriesId == Some("x")
  {
    hide PeriodOfDay, ParseISOWeek, Reaches, FormatDate, ParseDate, YearOfIndex;
    PlainRow(DailyTask(d, u.id), d, lower);
  }

  /** One that names only ownerId gives a personal task away. */
  lemma BodyGivesTaskAway(db: DB, d: int, u: User, clock: Clock, table: seq<Transition>, lower: Fold)
    requires FourDigit(Daily, d) && db.tasks == map["a" := DailyTask(d, u.id)]
    requires "other" in db.members && u.id != "other"
    ensures var r := Patched(db, "a", EMPTY_PATCH.(ownerId := Given("other")), Some(u), clock, table, lower);
            r.Ok? && r.value.ownerId == Some("other") && !CanAccess(u, r.value)
  {
    hide PeriodOfDay, ParseISOWeek, Reaches, FormatDate, ParseDate, YearOfIndex;
    PlainRow(DailyTask(d, u.id), d, lower);
  }

  /** One that names only completedAt dates the completion of a done task anew. */
  lemma BodyRedatesCompletion(db: DB, d: int, u: User, clock: Clock, table: seq<Transition>, lower: Fold)
    requires FourDigit(Daily, d) && u.id in db.members
    requires db.tasks == map["a" := DailyTask(d, u.id).(status := Done, completedAt := Some(1))]
    ensures var r := Patched(db, "a", EMPTY_PATCH.(completedAt := Given(2)), Some(u), clock, table, lower);
            r.Ok? && r.value.completedAt == Some(2)
  {
    hide PeriodOfDay, ParseISOWeek, Reaches, FormatDate, ParseDate, YearOfIndex;
    PlainRow(DailyTask(d, u.id).(status := Done), d, lower);
  }

  /** And a member of two teams, no admin, moves a task from one to the other. */
  lemma BodyMovesTeam(db: DB, d: int, u: User, clock: Clock, table: seq<Transition>, lower: Fold)
    requires FourDigit(Daily, d) && !u.admin && u.teams == {"x", "y"} && "y" in db.teams
    requires db.tasks == map["a" := DailyTask(d, u.id).(ownerId := None, teamId := Some("x"), weekOf := FormatWeek(d))]
    ensures var r := Patched(db, "a", EMPTY_PATCH.(teamId := Given("y")), Some(u), clock, table, lower);
            r.Ok? && r.value.teamId == Some("y")
  {
    hide PeriodOfDay, ParseISOWeek, Reaches, FormatDate, FormatWeek, ParseDate, YearOfIndex;
    PlainRow(DailyTask(d, u.id), d, lower);
  }

  /** What validation asks of such a row's own fields. */
  lemma PlainRow(t: Task, d: int, lower: Fold)
    requires t.title == "T" && t.horizon == Daily && t.period == FormatDate(d) && FourDigit(Daily, d)
    ensures !Blank(t.title) && ValidPeriod(t.horizon, t.period) && Normalized([], lower) == Some([])
  {
    hide FormatDate, ParseDate, YearOfIndex;
    assert TrimSpace("T") == "T";
    ParseOfFormatDate(d);
  }

  lemma ValidatedSame(db: DB, t: Task, self: Option<Id>, u: Option<User>, lower: Fold)
    requires Validated(db, t, self, u, lower).Ok?
    ensures Validated(db, t, self, u, lower).value == t.(tags := Validated(db, t, self, u, lower).value.tags)
  {
    hide PlainFieldError, BacklogError, ParentError, ReferenceError, RecurrenceError;
  }

  /** A member who is no admin is stopped only when the task would gain or lose its
      team; moving it from one team to another is not seen as a change of team. */
  lemma TeamChangeSeen(t: Task, p: Patch, u: User, clock: Clock)
    ensures Derived(SharedOrig(t, p), Merged(t, p), p, Some(u), clock) == Err(TeamChangeForbidden) <==>
            !u.admin && ((t.teamId.None? && p.teamId.Given?) || (t.teamId.Some? && p.teamId.Null?))
  {
    hide ParseISOWeek, PeriodOfDay, MergedRecurrence;
  }

  // ---- what a reschedule moves ----

  lemma RescheduledTwice(t: Task, clock: Clock)
    ensures RescheduledRow(RescheduledRow(t, clock), clock) == RescheduledRow(t, clock)
  {
    hide PeriodOfDay;
    if t.dueDate != "" { DateNotEmpty(clock.today); }
  }

  lemma DateNotEmpty(d: int)
    ensures PeriodOfDay(Daily, d) != ""
  {
  }

  /** A reschedule that runs to its end moves exactly the listed tasks that exist, that
      the caller may see and that are not in the backlog, and leaves every other row and
      the timelines alone; a repeated id is counted again but moved once. */
  lemma {:induction false} RescheduleMovesExactly(db: DB, ids: seq<Id>, u: Option<User>, clock: Clock, x: Id)
    requires Keyed(db.tasks) && Rescheduled(db, ids, u, clock).error == None
    ensures var r := Rescheduled(db, ids, u, clock);
            && r.db == db.(tasks := r.db.tasks) && r.db.tasks.Keys == db.tasks.Keys
            && (x in db.tasks ==>
                 r.db.tasks[x] ==
                 if x in ids && !Skipped(db, x, u) then RescheduledRow(db.tasks[x], clock) else db.tasks[x])
            && r.updated == NotSkipped(db, ids, u)
    decreases |ids|
  {
    hide RowFits, PeriodOfDay;
    if |ids| > 0 && !Skipped(db, ids[0], u) {
      var after := db.(tasks := db.tasks[ids[0] := RescheduledRow(db.tasks[ids[0]], clock)]);
      SameSkips(db, ids[0], u, clock, ids[1..]);
      RescheduleMovesExactly(after, ids[1..], u, clock, x);
      RescheduledTwice(db.tasks[ids[0]], clock);
      assert ids == [ids[0]] + ids[1..];
    } else if |ids| > 0 {
      RescheduleMovesExactly(db, ids[1..], u, clock, x);
      assert ids == [ids[0]] + ids[1..];
    }
  }

  function NotSkipped(db: DB, ids: seq<Id>, u: Option<User>): nat {
    if |ids| == 0 then 0 else (if Skipped(db, ids[0], u) then 0 else 1) + NotSkipped(db, ids[1..], u)
  }

  /** Moving a row changes neither who sees it nor its horizon. */
  lemma {:induction false} SameSkips(db: DB, id: Id, u: Option<User>, clock: Clock, ids: seq<Id>)
    requires Keyed(db.tasks) && id in db.tasks
    ensures var after := db.(tasks := db.tasks[id := RescheduledRow(db.tasks[id], clock)]);
            && (forall y :: Skipped(after, y, u) == Skipped(db, y, u))
            && NotSkipped(after, ids, u) == NotSkipped(db, ids, u)
  {
    hide PeriodOfDay;
    if |ids| == 0 {
    } else {
      SameSkips(db, id, u, clock, ids[1..]);
    }
  }
}
