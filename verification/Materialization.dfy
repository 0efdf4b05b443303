/** The instances that Materialize spawns (internal/service/task_views.go). */
module Materialization {
  import opened Base
  import opened Calendar
  import opened Forest
  import opened Period
  import opened PeriodLine
  import opened Duration
  import opened Recur
  import opened Model
  import opened Tags
  import opened TaskRules
  import opened TaskInvariants

  // ---- due dates of monthly instances ----

  /** DateForDayOfMonth: the day, held inside the month. */
  function DateForDayOfMonth(y: int, m: int, day: int): int {
    var firstOfNext := AddDate(DateAt(y, m, 1), 1, 0);
    var lastDay := CivilOf(AddDate(firstOfNext, 0, -1)).day;
    var capped := if day > lastDay then lastDay else day;
    DateAt(y, m, if capped < 1 then 1 else capped)
  }

  function DueDateForSpawn(r: Recurrence, h: Horizon, period: string): string {
    if h != Monthly || r.dayOfMonth == 0 then ""
    else match ParseMonth(period)
      case None => ""
      case Some(i) => FormatDate(DateForDayOfMonth(i / 12, i % 12 + 1, r.dayOfMonth))
  }

  /** The due date is the asked-for day of the instance's month, or the month's
      last day when the month is shorter. */
  lemma DateForDayOfMonthIsClamped(i: int, day: int)
    requires day >= 1
    ensures var y, m := i / 12, i % 12 + 1;
            CivilOf(DateForDayOfMonth(y, m, day)) ==
                Civil(y, m, if day <= DaysInMonth(y, m) then day else DaysInMonth(y, m))
  {
    hide CivilOf, YearStart, DaysBeforeMonth;
    var y, m := i / 12, i % 12 + 1;
    var last := DaysInMonth(y, m);
    FirstOfMonth(i);
    FirstOfNextMonth(i);
    NextMonthStart(i);
    AddDaysIsPlus(MonthStart(i + 1), -1);
    CivilToDay(Civil(y, m, last));
    CivilToDay(Civil(y, m, if day <= last then day else last));
  }

  /** Only monthly instances with an asked-for day get a due date, and it lies in their month. */
  lemma SpawnDueDate(r: Recurrence, h: Horizon, period: string, i: int)
    requires h == Monthly && ParseMonth(period) == Some(i) && r.dayOfMonth >= 1
    ensures var day := if r.dayOfMonth <= DaysInMonth(i / 12, i % 12 + 1) then r.dayOfMonth
            else DaysInMonth(i / 12, i % 12 + 1);
            ParseDate(DueDateForSpawn(r, h, period)) == Some(MonthStart(i) + day - 1)
  {
    hide CivilOf, FormatDate, ParseDate, ParseMonth, MonthStart, DateForDayOfMonth, YearOf, DateAt;
    ParseMonthAccepts(period, i);
    var d := DateForDayOfMonth(i / 12, i % 12 + 1, r.dayOfMonth);
    DateForDayOfMonthIsClamped(i, r.dayOfMonth);
    DayToCivil(d);
    YearOfCivil(d);
    ParseDateAccepts(FormatDate(d), d);
    MonthDayNumber(i, CivilOf(d).day);
  }

  lemma FirstOfNextMonth(i: int)
    ensures AddDate(DateAt(i / 12, i % 12 + 1, 1), 1, 0) == MonthStart(i + 1)
  {
    FirstOfMonth(i);
    hide CivilOf;
    var y, m := i / 12, i % 12 + 1;
    if m == 12 {
      assert (i + 1) / 12 == y + 1 && (i + 1) % 12 == 0;
      assert DateAt(y, 13, 1) == DateAt(y + 1, 1, 1);
    } else {
      assert (i + 1) / 12 == y && (i + 1) % 12 == m;
    }
  }

  // ---- series ----

  function SeriesRows(tasks: map<Id, Task>, s: Id): set<Id> {
    set x | x in tasks && tasks[x].seriesId == Some(s)
  }

  /** The row of the series with the greatest period, as strings compare. */
  predicate IsLatest(tasks: map<Id, Task>, s: Id, x: Id) {
    x in SeriesRows(tasks, s) && forall y :: y in SeriesRows(tasks, s) && y != x ==>
        StringLess(tasks[y].period, tasks[x].period)
  }

  /** A series goes on while its latest row carries a recurrence. */
  predicate Live(t: Task) {
    t.recurrence.Some? && RecurrenceHorizon(t.recurrence.value.freq).Some?
  }

  function SpawnHorizon(t: Task): Horizon
    requires Live(t)
  {
    RecurrenceHorizon(t.recurrence.value.freq).value
  }

  /** An instance copies the series' fields, but neither parent nor due date. */
  function SpawnRow(t: Task, period: string, newId: Id, clock: Clock): Task
    requires Live(t)
  {
    Task(newId, t.title, t.notes, SpawnHorizon(t), period, DueDateForSpawn(t.recurrence.value, SpawnHorizon(t), period),
         Todo, t.priority, t.tags, None, t.teamId, t.assigneeId, if t.teamId.Some? then CurrentWeek(clock) else "",
         t.ownerId, t.recurrence, t.seriesId, clock.now, clock.now, None)
  }

  /** The periods that one run adds after row t. */
  function Wanted(t: Task, clock: Clock, zone: Zone): Option<seq<string>>
    requires Live(t) && Canonical(SpawnHorizon(t), PeriodOfDay(SpawnHorizon(t), clock.today))
  {
    Missing(t.recurrence.value, SpawnHorizon(t), t.period, PeriodOfDay(SpawnHorizon(t), clock.today), zone)
  }

  /** ON CONFLICT (series_id, period) DO NOTHING. */
  function InsertSpawn(db: DB, t: Task, period: string, newId: Id, clock: Clock): DB
    requires Live(t)
  {
    var row := SpawnRow(t, period, newId, clock);
    if SeriesSlotFree(db.tasks, row) then db.(tasks := db.tasks[newId := row]) else db
  }

  // ---- each insert keeps the store good ----

  lemma MissingAreValid(r: Recurrence, h: Horizon, latest: string, current: string, zone: Zone, p: string)
    requires Canonical(h, current) && ParsePeriod(h, latest).Some? && Missing(r, h, latest, current, zone).Some?
    requires p in Missing(r, h, latest, current, zone).value
    ensures ValidPeriod(h, p) && p != ""
  {
    hide ParsePeriod, FormatPeriod, Occurs, YearOfIndex, Missing, LastIndex;
    MissingIsExact(r, h, latest, current, zone, p);
    var k :| ParsePeriod(h, latest).value < k <= ParsePeriod(h, current).value && p == FormatPeriod(h, k);
    ParsedIsPrintable(h, latest);
    CanonicalWithinLast(h, current);
    PrintableUpToLast(h, ParsePeriod(h, latest).value, k);
    ParseOfFormat(h, k);
    EmptyIsNoPeriod(h);
  }

  lemma SpawnIsGoodRow(t: Task, period: string, newId: Id, clock: Clock, lower: Fold)
    requires GoodRow(t, lower) && Live(t) && ValidPeriod(t.horizon, period) && GoodClock(clock)
    ensures GoodRow(SpawnRow(t, period, newId, clock), lower)
  {
    hide ParsePeriod, ParseISOWeek, IsNormal, ValidRecurrence, CurrentWeek, DueDateForSpawn, AnchorIndex;
    CurrentWeekValid(clock);
  }

  /** One spawned row, under a fresh id, copied from a row that was there before. */
  lemma InsertSpawnKeepsGood(db: DB, t: Task, period: string, newId: Id, clock: Clock, lower: Fold)
    requires Good(db, lower) && GoodRow(t, lower) && RowRefsHold(db, t) && Live(t) && newId !in db.tasks
    requires ValidPeriod(t.horizon, period) && GoodClock(clock)
    ensures Good(InsertSpawn(db, t, period, newId, clock), lower)
    ensures SeriesSlotFree(db.tasks, SpawnRow(t, period, newId, clock)) ==>
            RowFits(db, SpawnRow(t, period, newId, clock))
  {
    var row := SpawnRow(t, period, newId, clock);
    SpawnIsGoodRow(t, period, newId, clock, lower);
    hide GoodRow, DueDateForSpawn, CurrentWeek, SeriesSlotFree, HorizonRank;
    if SeriesSlotFree(db.tasks, row) {
      NobodyPointsToFresh(db, newId, lower);
      WriteKeepsConsistent(db, row);
      WriteKeepsForest(db.tasks, row);
    }
  }

  /** The references and values that a spawned row inherits. */
  predicate RowRefsHold(db: DB, t: Task) {
    && (t.teamId.Some? ==> t.teamId.value in db.teams)
    && (t.assigneeId.Some? ==> t.assigneeId.value in db.members)
    && (t.ownerId.Some? ==> t.ownerId.value in db.members)
    && ValidPriority(t.priority) && !t.horizon.OtherHorizon?
    && (Live(t) ==> SpawnHorizon(t) == t.horizon)
  }

  lemma NobodyPointsToFresh(db: DB, newId: Id, lower: Fold)
    requires Good(db, lower) && newId !in db.tasks
    ensures forall x :: x in db.tasks ==> db.tasks[x].parentId != Some(newId)
  {
  }

  lemma GoodRowRefs(db: DB, x: Id, lower: Fold)
    requires Good(db, lower) && x in db.tasks
    ensures RowRefsHold(db, db.tasks[x])
  {
    assert RowFits(db, db.tasks[x]);
    hide GoodForest;
  }

  // ---- a whole run ----

  /** One instance to insert: the row it continues, and its period. */
  datatype Spawn = Spawn(latest: Id, period: string)

  /** The inserts of one run, each statement on its own, all from rows read at the start. */
  function InsertAll(start: DB, db: DB, spawns: seq<Spawn>, newId: (Id, string) -> Id, clock: Clock): DB
    decreases |spawns|
  {
    if |spawns| == 0 then db
    else
      var s := spawns[|spawns| - 1];
      var sofar := InsertAll(start, db, spawns[..|spawns| - 1], newId, clock);
      if s.latest in start.tasks && Live(start.tasks[s.latest])
      then InsertSpawn(sofar, start.tasks[s.latest], s.period, newId(s.latest, s.period), clock)
      else sofar
  }

  /** Exactly the missing periods of every live series, each after its latest row. */
  ghost predicate RunOf(start: DB, spawns: seq<Spawn>, clock: Clock, zone: Zone)
    requires GoodClock(clock)
  {
    && (forall i :: 0 <= i < |spawns| ==> SpawnWanted(start, spawns[i], clock, zone))
    && (forall s, x, p :: IsLatest(start.tasks, s, x) && SpawnWanted(start, Spawn(x, p), clock, zone) ==>
          exists i :: 0 <= i < |spawns| && spawns[i] == Spawn(x, p))
  }

  ghost predicate SpawnWanted(start: DB, spawn: Spawn, clock: Clock, zone: Zone)
    requires GoodClock(clock)
  {
    && spawn.latest in start.tasks
    && start.tasks[spawn.latest].seriesId.Some?
    && IsLatest(start.tasks, start.tasks[spawn.latest].seriesId.value, spawn.latest)
    && Live(start.tasks[spawn.latest])
    && (ClockPeriodValid(SpawnHorizon(start.tasks[spawn.latest]), clock);
        Wanted(start.tasks[spawn.latest], clock, zone).Some?)
    && spawn.period in Wanted(start.tasks[spawn.latest], clock, zone).value
  }

  /** Ids drawn by NewID: unused, and different for different instances. */
  ghost predicate FreshIds(tasks: map<Id, Task>, newId: (Id, string) -> Id) {
    && (forall x, p :: newId(x, p) !in tasks)
    && (forall x, p, y, q :: newId(x, p) == newId(y, q) ==> x == y && p == q)
  }

  lemma {:induction false} InsertAllKeepsGood(start: DB, spawns: seq<Spawn>, newId: (Id, string) -> Id, clock: Clock,
                                              lower: Fold)
    requires Good(start, lower) && GoodClock(clock) && FreshIds(start.tasks, newId) && Distinct(spawns)
    requires forall i :: 0 <= i < |spawns| ==>
               && spawns[i].latest in start.tasks && Live(start.tasks[spawns[i].latest])
               && ValidPeriod(start.tasks[spawns[i].latest].horizon, spawns[i].period)
    ensures Good(InsertAll(start, start, spawns, newId, clock), lower)
  {
    hide *;
    if |spawns| > 0 {
      var init, s := spawns[..|spawns| - 1], spawns[|spawns| - 1];
      assert spawns == init + [s];
      PrefixDistinct(init, s);
      InsertAllKeepsGood(start, init, newId, clock, lower);
      InsertAllRows(start, init, newId, clock);
      var db := InsertAll(start, start, init, newId, clock);
      ExtendsTables(start, db, init, newId);
      GoodRowRefs(start, s.latest, lower);
      GoodRowOf(start, s.latest, lower);
      SameRefs(start, db, start.tasks[s.latest]);
      FreshAfter(start, db, init, s, newId);
      InsertOneMore(start, init, s, newId, clock);
      InsertSpawnKeepsGood(db, start.tasks[s.latest], s.period, newId(s.latest, s.period), clock, lower);
    } else {
      NoInserts(start, spawns, newId, clock);
    }
  }

  lemma NoInserts(start: DB, spawns: seq<Spawn>, newId: (Id, string) -> Id, clock: Clock)
    requires |spawns| == 0
    ensures InsertAll(start, start, spawns, newId, clock) == start
  {
  }

  lemma GoodRowOf(db: DB, x: Id, lower: Fold)
    requires Good(db, lower) && x in db.tasks
    ensures GoodRow(db.tasks[x], lower)
  {
    hide GoodForest, Consistent, GoodRow;
  }

  /** Old rows stay, and new ones are filed under the ids of their spawns. */
  ghost predicate Extends(start: DB, db: DB, spawns: seq<Spawn>, newId: (Id, string) -> Id) {
    && db == start.(tasks := db.tasks)
    && (forall x :: x in start.tasks ==> x in db.tasks && db.tasks[x] == start.tasks[x])
    && (forall x :: x in db.tasks ==>
        x in start.tasks || exists i :: 0 <= i < |spawns| && x == newId(spawns[i].latest, spawns[i].period))
  }

  lemma FreshAfter(start: DB, db: DB, spawns: seq<Spawn>, s: Spawn, newId: (Id, string) -> Id)
    requires FreshIds(start.tasks, newId) && Extends(start, db, spawns, newId) && Distinct(spawns + [s])
    ensures newId(s.latest, s.period) !in db.tasks
  {
    var all := spawns + [s];
    forall i | 0 <= i < |spawns| ensures spawns[i] != s {
      assert all[i] == spawns[i] && all[|spawns|] == s;
    }
  }

  lemma {:induction false} InsertAllRows(start: DB, spawns: seq<Spawn>, newId: (Id, string) -> Id, clock: Clock)
    requires FreshIds(start.tasks, newId)
    ensures Extends(start, InsertAll(start, start, spawns, newId, clock), spawns, newId)
  {
    hide SeriesSlotFree, SpawnRow;
    if |spawns| == 0 {
    } else {
      var init, s := spawns[..|spawns| - 1], spawns[|spawns| - 1];
      InsertAllRows(start, init, newId, clock);
      assert forall i :: 0 <= i < |init| ==> spawns[i] == init[i];
    }
  }

  /** A run leaves the store good. */
  lemma MaterializeKeepsGood(start: DB, spawns: seq<Spawn>, newId: (Id, string) -> Id, clock: Clock, zone: Zone,
                             lower: Fold)
    requires Good(start, lower) && GoodClock(clock) && FreshIds(start.tasks, newId) && Distinct(spawns)
    requires forall i :: 0 <= i < |spawns| ==> SpawnWanted(start, spawns[i], clock, zone)
    ensures Good(InsertAll(start, start, spawns, newId, clock), lower)
  {
    hide *;
    forall i | 0 <= i < |spawns|
      ensures && spawns[i].latest in start.tasks && Live(start.tasks[spawns[i].latest])
              && ValidPeriod(start.tasks[spawns[i].latest].horizon, spawns[i].period)
    {
      WantedIsValid(start, spawns[i], clock, zone, lower);
    }
    InsertAllKeepsGood(start, spawns, newId, clock, lower);
  }

  lemma WantedIsValid(start: DB, spawn: Spawn, clock: Clock, zone: Zone, lower: Fold)
    requires Good(start, lower) && GoodClock(clock) && SpawnWanted(start, spawn, clock, zone)
    ensures spawn.latest in start.tasks && Live(start.tasks[spawn.latest])
    ensures ValidPeriod(start.tasks[spawn.latest].horizon, spawn.period)
  {
    hide ParsePeriod, Missing, GoodForest, Consistent, PeriodOfDay, IsLatest, ValidRecurrence, ParseISOWeek,
         AnchorIndex, IsNormal;
    var t := start.tasks[spawn.latest];
    var h := SpawnHorizon(t);
    ClockPeriodValid(h, clock);
    assert GoodRow(t, lower);
    MissingAreValid(t.recurrence.value, h, t.period, PeriodOfDay(h, clock.today), zone, spawn.period);
  }

  // ---- a run does not fail ----

  /** Until the last period of year 9999, a live series' run has a result. */
  lemma WantedExists(t: Task, clock: Clock, zone: Zone, lower: Fold)
    requires GoodRow(t, lower) && Live(t) && GoodClock(clock)
    requires IndexOfDay(SpawnHorizon(t), clock.today) < LastIndex(SpawnHorizon(t))
    ensures Canonical(SpawnHorizon(t), PeriodOfDay(SpawnHorizon(t), clock.today))
    ensures Wanted(t, clock, zone).Some?
  {
    var h, r := SpawnHorizon(t), t.recurrence.value;
    ClockPeriodValid(h, clock);
    ClockIndex(h, clock);
    hide PeriodOfDay, ParseISOWeek, IsNormal, ValidRecurrence, IndexOfDay, LastIndex, StringLess, AnchorIndex, Occurs,
         YearOfIndex, FormatPeriod, ParsePeriod;
    var i, c := ParsePeriod(h, t.period).value, IndexOfDay(h, clock.today);
    ParsedIsPrintable(h, t.period);
    forall k | i + 1 <= k < c + 1 ensures Occurs(r, h, k, zone).Some? {
      PrintableUpToLast(h, i, k);
      RuleDecides(r, h, k, zone);
    }
  }

  lemma ClockIndex(h: Horizon, clock: Clock)
    requires GoodClock(clock) && Ranked(h)
    ensures ParsePeriod(h, PeriodOfDay(h, clock.today)) == Some(IndexOfDay(h, clock.today))
  {
    hide ParsePeriod, FormatPeriod, PeriodOfDay, IndexOfDay;
    PeriodOfDayIsFormat(h, clock.today);
    ClockYear(h, clock);
    ParseOfFormat(h, IndexOfDay(h, clock.today));
  }

  /** No horizon has reached its last period of year 9999. */
  ghost predicate BeforeLastPeriods(clock: Clock) {
    forall h :: Ranked(h) ==> IndexOfDay(h, clock.today) < LastIndex(h)
  }

  // ---- the loops of Materialize ----

  function InSeries(tasks: map<Id, Task>): set<Id> {
    set x | x in tasks && tasks[x].seriesId.Some?
  }

  /** After the rows in seen: for each of their series, its row with the greatest period. */
  predicate LatestAmong(tasks: map<Id, Task>, seen: set<Id>, latest: map<Id, Task>) {
    && (forall s :: s in latest ==>
         && latest[s].id in seen && latest[s].id in tasks && tasks[latest[s].id] == latest[s]
         && latest[s].seriesId == Some(s)
         && forall y :: y in seen && y in tasks && y != latest[s].id && tasks[y].seriesId == Some(s) ==>
              StringLess(tasks[y].period, latest[s].period))
    && (forall y :: y in seen && y in tasks && tasks[y].seriesId.Some? ==> tasks[y].seriesId.value in latest)
  }

  lemma LatestStep(db: DB, seen: set<Id>, latest: map<Id, Task>, x: Id)
    requires Consistent(db) && LatestAmong(db.tasks, seen, latest) && x !in seen && x in db.tasks
             && db.tasks[x].seriesId.Some?
    ensures var t := db.tasks[x];
            var s := t.seriesId.value;
            LatestAmong(db.tasks, seen + {x},
                        if s !in latest || StringLess(latest[s].period, t.period) then latest[s := t] else latest)
  {
    hide StringLess, Consistent, SeriesSlotFree, RowFits;
    var t := db.tasks[x];
    var s := t.seriesId.value;
    if s in latest {
      var e := latest[s];
      OneRowPerSlot(db, x, e.id);
      StringLessTotal(t.period, e.period);
      if StringLess(e.period, t.period) {
        forall y | y in seen && y in db.tasks && y != e.id && db.tasks[y].seriesId == Some(s)
          ensures StringLess(db.tasks[y].period, t.period)
        {
          StringLessTransitive(db.tasks[y].period, e.period, t.period);
        }
      }
    }
    ConsistentRowId(db, x);
  }

  lemma OneRowPerSlot(db: DB, x: Id, y: Id)
    requires Consistent(db) && x in db.tasks && y in db.tasks && x != y
    requires db.tasks[x].seriesId.Some? && db.tasks[x].seriesId == db.tasks[y].seriesId
    ensures db.tasks[x].period != db.tasks[y].period
  {
    assert RowFits(db, db.tasks[x]);
  }

  lemma ConsistentRowId(db: DB, x: Id)
    requires Consistent(db) && x in db.tasks
    ensures db.tasks[x].id == x
  {
  }

  lemma LatestIsLatest(tasks: map<Id, Task>, latest: map<Id, Task>)
    requires Keyed(tasks) && LatestAmong(tasks, InSeries(tasks), latest)
    ensures forall s :: s in latest ==> IsLatest(tasks, s, latest[s].id)
    ensures forall s, x :: IsLatest(tasks, s, x) ==> s in latest && latest[s].id == x
  {
    hide StringLess;
    forall s, x | IsLatest(tasks, s, x) ensures s in latest && latest[s].id == x {
      if latest[s].id != x { StringLessAsymmetric(tasks[x].period, latest[s].period); }
    }
  }

  function SpawnsOf(x: Id, periods: seq<string>): (s: seq<Spawn>)
    ensures |s| == |periods|
  {
    seq(|periods|, i requires 0 <= i < |periods| => Spawn(x, periods[i]))
  }

  /** The missing periods repeat nothing. */
  lemma WantedDistinct(t: Task, clock: Clock, zone: Zone)
    requires Live(t) && GoodClock(clock)
    requires Canonical(SpawnHorizon(t), PeriodOfDay(SpawnHorizon(t), clock.today))
    requires Wanted(t, clock, zone).Some?
    ensures Distinct(Wanted(t, clock, zone).value)
  {
    hide ParsePeriod, FormatPeriod, PeriodOfDay, Occurs, Decidable, YearOfIndex, LastIndex, StringLess, Occurrences;
    var h, current := SpawnHorizon(t), PeriodOfDay(SpawnHorizon(t), clock.today);
    if !StringAtMost(current, t.period) {
      var i, c := ParsePeriod(h, t.period).value, ParsePeriod(h, current).value;
      ParsedIsPrintable(h, t.period);
      forall k | i < k < c + 1 ensures Printable(h, k) { PrintableUpToLast(h, i, k); }
      OccurrencesDistinct(t.recurrence.value, h, i + 1, c + 1, zone);
    }
  }

  lemma {:induction false} OccurrencesDistinct(r: Recurrence, h: Horizon, lo: int, hi: int, zone: Zone)
    requires forall k :: lo <= k < hi ==> Printable(h, k)
    ensures Distinct(Occurrences(r, h, lo, hi, zone))
    decreases hi - lo
  {
    hide FormatPeriod, ParsePeriod, Occurs, Printable;
    if lo >= hi {
    } else {
      OccurrencesDistinct(r, h, lo + 1, hi, zone);
      var p, rest := FormatPeriod(h, lo), Occurrences(r, h, lo + 1, hi, zone);
      forall b | 0 <= b < |rest| ensures rest[b] != p {
        assert rest[b] in rest;
        OccurrencesMembers(r, h, lo + 1, hi, zone, rest[b]);
        var k :| lo + 1 <= k < hi && rest[b] == FormatPeriod(h, k);
        ParseOfFormat(h, lo);
        ParseOfFormat(h, k);
      }
    }
  }

  /** One more insert, in the order of the statements. */
  lemma InsertOneMore(start: DB, spawns: seq<Spawn>, s: Spawn, newId: (Id, string) -> Id, clock: Clock)
    requires s.latest in start.tasks && Live(start.tasks[s.latest])
    ensures InsertAll(start, start, spawns + [s], newId, clock) ==
            InsertSpawn(InsertAll(start, start, spawns, newId, clock), start.tasks[s.latest], s.period,
                        newId(s.latest, s.period), clock)
  {
    hide InsertSpawn;
    assert (spawns + [s])[..|spawns|] == spawns;
  }

  /** In a good store no insert of a run can violate a constraint. */
  lemma NextInsertFits(start: DB, spawns: seq<Spawn>, s: Spawn, newId: (Id, string) -> Id, clock: Clock, zone: Zone,
                       lower: Fold)
    requires GoodClock(clock) && FreshIds(start.tasks, newId) && Distinct(spawns + [s])
    requires forall i :: 0 <= i < |spawns| ==> SpawnWanted(start, spawns[i], clock, zone)
    requires SpawnWanted(start, s, clock, zone)
    ensures s.latest in start.tasks && Live(start.tasks[s.latest])
    ensures var db := InsertAll(start, start, spawns, newId, clock);
            var row := SpawnRow(start.tasks[s.latest], s.period, newId(s.latest, s.period), clock);
            && newId(s.latest, s.period) !in db.tasks
            && db == start.(tasks := db.tasks)
            && (Good(start, lower) && SeriesSlotFree(db.tasks, row) ==> RowFits(db, row))
  {
    var db := InsertAll(start, start, spawns, newId, clock);
    hide *;
    WantedRow(start, s, clock, zone);
    InsertAllRows(start, spawns, newId, clock);
    ExtendsTables(start, db, spawns, newId);
    FreshAfter(start, db, spawns, s, newId);
    assert Distinct(spawns) by { PrefixDistinct(spawns, s); }
    if Good(start, lower) {
      MaterializeKeepsGood(start, spawns, newId, clock, zone, lower);
      WantedIsValid(start, s, clock, zone, lower);
      GoodRowOf(start, s.latest, lower);
      GoodRowRefs(start, s.latest, lower);
      SameRefs(start, db, start.tasks[s.latest]);
      InsertSpawnKeepsGood(db, start.tasks[s.latest], s.period, newId(s.latest, s.period), clock, lower);
    }
  }

  lemma PrefixDistinct<T>(s: seq<T>, x: T)
    requires Distinct(s + [x])
    ensures Distinct(s)
  {
    forall i, j | 0 <= i < j < |s| ensures s[i] != s[j] {
      assert (s + [x])[i] == s[i] && (s + [x])[j] == s[j];
    }
  }

  lemma SameRefs(start: DB, db: DB, t: Task)
    requires db == start.(tasks := db.tasks) && RowRefsHold(start, t)
    ensures RowRefsHold(db, t)
  {
  }

  lemma ExtendsTables(start: DB, db: DB, spawns: seq<Spawn>, newId: (Id, string) -> Id)
    requires Extends(start, db, spawns, newId)
    ensures db == start.(tasks := db.tasks)
  {
    hide Distinct;
  }

  lemma WantedRow(start: DB, spawn: Spawn, clock: Clock, zone: Zone)
    requires GoodClock(clock) && SpawnWanted(start, spawn, clock, zone)
    ensures spawn.latest in start.tasks && Live(start.tasks[spawn.latest])
  {
    hide Wanted, PeriodOfDay, IsLatest, ParsePeriod;
  }

  /** What the inserts of a run have covered while the series in pending are still to come. */
  ghost predicate Covered(start: DB, latest: map<Id, Task>, pending: set<Id>, spawns: seq<Spawn>, clock: Clock,
                          zone: Zone)
    requires GoodClock(clock)
  {
    && Distinct(spawns)
    && (forall i :: 0 <= i < |spawns| ==> SpawnWanted(start, spawns[i], clock, zone))
    && (forall i, s :: 0 <= i < |spawns| && s in pending && s in latest ==> spawns[i].latest != latest[s].id)
    && (forall s, p :: s in latest && s !in pending && SpawnWanted(start, Spawn(latest[s].id, p), clock, zone) ==>
          Spawn(latest[s].id, p) in spawns)
  }

  lemma SkipSeries(start: DB, latest: map<Id, Task>, pending: set<Id>, spawns: seq<Spawn>, s: Id, clock: Clock,
                   zone: Zone)
    requires GoodClock(clock) && Covered(start, latest, pending, spawns, clock, zone)
    requires s in latest && latest[s].id in start.tasks && start.tasks[latest[s].id] == latest[s] && !Live(latest[s])
    ensures Covered(start, latest, pending - {s}, spawns, clock, zone)
  {
    hide Live, Wanted, IsLatest, PeriodOfDay, ParsePeriod, FormatPeriod;
  }

  /** Part way through one series the inserts so far are wanted and distinct; at its end it is covered. */
  lemma CoverSeries(start: DB, latest: map<Id, Task>, pending: set<Id>, spawns: seq<Spawn>, s: Id, k: nat,
                    clock: Clock, zone: Zone)
    requires GoodClock(clock) && Covered(start, latest, pending, spawns, clock, zone)
    requires LatestAmong(start.tasks, InSeries(start.tasks), latest)
    requires s in latest && s in pending && Live(latest[s]) && IsLatest(start.tasks, s, latest[s].id)
    requires Canonical(SpawnHorizon(latest[s]), PeriodOfDay(SpawnHorizon(latest[s]), clock.today))
    requires Wanted(latest[s], clock, zone).Some? && k <= |Wanted(latest[s], clock, zone).value|
    ensures var periods := Wanted(latest[s], clock, zone).value;
            var sofar := spawns + SpawnsOf(latest[s].id, periods[..k]);
            && Distinct(sofar)
            && (forall i :: 0 <= i < |sofar| ==> SpawnWanted(start, sofar[i], clock, zone))
            && (k == |periods| ==> Covered(start, latest, pending - {s}, sofar, clock, zone))
  {
    var t := latest[s];
    var periods := Wanted(t, clock, zone).value;
    WantedDistinct(t, clock, zone);
    assert forall i :: 0 <= i < |spawns| ==> spawns[i].latest != t.id;
    assert t.id in start.tasks && start.tasks[t.id] == t && t.seriesId == Some(s);
    CoveredDistinct(start, latest, pending, spawns, clock, zone);
    hide *;
    AddedAreWanted(start, t, periods, k, clock, zone);
    ConcatWanted(start, spawns, SpawnsOf(t.id, periods[..k]), clock, zone);
    AddedDistinct(spawns, t.id, periods, k);
    if k == |periods| {
      assert periods[..k] == periods;
      SeriesCovered(start, latest, pending, spawns, s, clock, zone);
    }
  }

  lemma CoveredDistinct(start: DB, latest: map<Id, Task>, pending: set<Id>, spawns: seq<Spawn>, clock: Clock,
                        zone: Zone)
    requires GoodClock(clock) && Covered(start, latest, pending, spawns, clock, zone)
    ensures Distinct(spawns) && forall i :: 0 <= i < |spawns| ==> SpawnWanted(start, spawns[i], clock, zone)
  {
    hide SpawnWanted, GoodClock;
  }

  lemma ConcatWanted(start: DB, a: seq<Spawn>, b: seq<Spawn>, clock: Clock, zone: Zone)
    requires GoodClock(clock)
    requires (forall i :: 0 <= i < |a| ==> SpawnWanted(start, a[i], clock, zone))
             && (forall i :: 0 <= i < |b| ==> SpawnWanted(start, b[i], clock, zone))
    ensures forall i :: 0 <= i < |a + b| ==> SpawnWanted(start, (a + b)[i], clock, zone)
  {
    hide SpawnWanted, GoodClock;
  }

  lemma AddedDistinct(spawns: seq<Spawn>, x: Id, periods: seq<string>, k: nat)
    requires Distinct(spawns) && Distinct(periods) && k <= |periods|
             && forall i :: 0 <= i < |spawns| ==> spawns[i].latest != x
    ensures Distinct(spawns + SpawnsOf(x, periods[..k]))
  {
  }

  lemma AddedAreWanted(start: DB, t: Task, periods: seq<string>, k: nat, clock: Clock, zone: Zone)
    requires GoodClock(clock) && t.id in start.tasks && start.tasks[t.id] == t && t.seriesId.Some? && Live(t)
    requires IsLatest(start.tasks, t.seriesId.value, t.id)
    requires Canonical(SpawnHorizon(t), PeriodOfDay(SpawnHorizon(t), clock.today))
    requires Wanted(t, clock, zone) == Some(periods) && k <= |periods|
    ensures forall i :: 0 <= i < k ==> SpawnWanted(start, SpawnsOf(t.id, periods[..k])[i], clock, zone)
  {
    hide Live, Wanted, PeriodOfDay, ParsePeriod, FormatPeriod, IsLatest, GoodClock;
  }

  lemma SeriesCovered(start: DB, latest: map<Id, Task>, pending: set<Id>, spawns: seq<Spawn>, s: Id, clock: Clock,
                      zone: Zone)
    requires GoodClock(clock) && Covered(start, latest, pending, spawns, clock, zone)
    requires LatestAmong(start.tasks, InSeries(start.tasks), latest)
    requires s in latest && s in pending && Live(latest[s])
    requires Canonical(SpawnHorizon(latest[s]), PeriodOfDay(SpawnHorizon(latest[s]), clock.today))
    requires Wanted(latest[s], clock, zone).Some?
    requires var sofar := spawns + SpawnsOf(latest[s].id, Wanted(latest[s], clock, zone).value);
             Distinct(sofar) && forall i :: 0 <= i < |sofar| ==> SpawnWanted(start, sofar[i], clock, zone)
    ensures Covered(start, latest, pending - {s},
                    spawns + SpawnsOf(latest[s].id, Wanted(latest[s], clock, zone).value), clock, zone)
  {
    var t := latest[s];
    var periods := Wanted(t, clock, zone).value;
    var sofar := spawns + SpawnsOf(t.id, periods);
    forall p | SpawnWanted(start, Spawn(t.id, p), clock, zone) ensures p in periods { }
    hide SpawnWanted, Live, Wanted, PeriodOfDay, ParsePeriod, FormatPeriod, IsLatest, Canonical, GoodClock, InSeries,
         Distinct;
    OtherSeriesApart(start, latest, pending, spawns, s, periods);
    forall v, p | v in latest && v !in pending - {s} && SpawnWanted(start, Spawn(latest[v].id, p), clock, zone)
      ensures Spawn(latest[v].id, p) in sofar
    {
      if v == s { InAdded(spawns, t.id, periods, p); }
    }
  }

  lemma OtherSeriesApart(start: DB, latest: map<Id, Task>, pending: set<Id>, spawns: seq<Spawn>, s: Id,
                         periods: seq<string>)
    requires LatestAmong(start.tasks, InSeries(start.tasks), latest) && s in latest
    requires forall i, v :: 0 <= i < |spawns| && v in pending && v in latest ==> spawns[i].latest != latest[v].id
    ensures var sofar := spawns + SpawnsOf(latest[s].id, periods);
            forall i, v :: 0 <= i < |sofar| && v in pending - {s} && v in latest ==> sofar[i].latest != latest[v].id
  {
    hide InSeries, StringLess;
    var t := latest[s];
    forall v | v in latest && v != s ensures latest[v].id != t.id {
      assert latest[v].seriesId == Some(v) && t.seriesId == Some(s);
      assert latest[v] == start.tasks[latest[v].id] && t == start.tasks[t.id];
    }
    AddedFacts(spawns, t.id, periods);
  }

  lemma InAdded(spawns: seq<Spawn>, x: Id, periods: seq<string>, p: string)
    requires p in periods
    ensures Spawn(x, p) in spawns + SpawnsOf(x, periods)
  {
    var i :| 0 <= i < |periods| && periods[i] == p;
    assert (spawns + SpawnsOf(x, periods))[|spawns| + i] == Spawn(x, p);
  }

  lemma AddedFacts(spawns: seq<Spawn>, x: Id, periods: seq<string>)
    ensures var sofar := spawns + SpawnsOf(x, periods);
            forall i :: 0 <= i < |sofar| ==> (i < |spawns| && sofar[i] == spawns[i]) || sofar[i].latest == x
  {
  }

  lemma EndOfRun(start: DB, latest: map<Id, Task>, spawns: seq<Spawn>, clock: Clock, zone: Zone)
    requires GoodClock(clock) && Covered(start, latest, {}, spawns, clock, zone)
    requires forall s, x :: IsLatest(start.tasks, s, x) ==> s in latest && latest[s].id == x
    ensures RunOf(start, spawns, clock, zone)
  {
    hide SpawnWanted, IsLatest, Distinct;
  }
}
