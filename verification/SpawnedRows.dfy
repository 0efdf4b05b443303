/** What a catch-up leaves in the task table, row by row and field by field
    (internal/service/task_views.go, internal/model/recur.go). */
module SpawnedRows {
  import opened Base
  import opened Calendar
  import opened Forest
  import opened Period
  import opened PeriodLine
  import opened Duration
  import opened Recur
  import opened Model
  import opened Tags
  import opened TaskRules
  import opened TaskInvariants
  import opened TaskFaults
  import opened Materialization

  /** The asked-for day of the month, or the month's last day. */
  function DayInMonth(day: int, month: int): int {
    if day <= DaysInMonth(month / 12, month % 12 + 1) then day else DaysInMonth(month / 12, month % 12 + 1)
  }

  /** A monthly instance with an asked-for day is due on it; no other has a due date. */
  predicate DueRight(n: Task, r: Recurrence) {
    if r.freq == EveryMonth && r.dayOfMonth >= 1
    then && ParseMonth(n.period).Some?
         && ParseDate(n.dueDate) ==
            Some(DayOf(Civil(ParseMonth(n.period).value / 12, ParseMonth(n.period).value % 12 + 1, 1))
                 + DayInMonth(r.dayOfMonth, ParseMonth(n.period).value) - 1)
    else n.dueDate == ""
  }

  /** n is an instance of the series whose latest row is t: the fields it copies, those it
      starts with, and no parent. */
  predicate InstanceOf(n: Task, t: Task, period: string, clock: Clock)
    requires t.recurrence.Some?
  {
    && n.title == t.title && n.notes == t.notes && n.priority == t.priority && n.tags == t.tags
    && n.teamId == t.teamId && n.assigneeId == t.assigneeId && n.ownerId == t.ownerId
    && n.recurrence == t.recurrence && n.seriesId == t.seriesId
    && n.period == period && RuleFitsHorizon(t.recurrence.value, n.horizon)
    && n.status == Todo && n.parentId == None && n.completedAt == None
    && n.createdAt == clock.now && n.updatedAt == clock.now
    && (n.teamId.Some? ==> n.weekOf == WeekText(WeekOf(clock.today))) && (n.teamId.None? ==> n.weekOf == "")
    && DueRight(n, t.recurrence.value)
  }

  lemma SpawnIsDue(t: Task, period: string, newId: Id, clock: Clock)
    requires Live(t) && ValidRecurrence(t.recurrence.value) && ValidPeriod(SpawnHorizon(t), period)
    ensures DueRight(SpawnRow(t, period, newId, clock), t.recurrence.value)
  {
    hide ParseDate, ParseMonth, ParseISOWeek, WeekText, WeekOf, DateForDayOfMonth, MonthStart, CurrentWeek,
         FormatDate, DaysInMonth;
    var r := t.recurrence.value;
    if r.freq == EveryMonth && r.dayOfMonth >= 1 {
      var i := ParseMonth(period).value;
      SpawnDueDate(r, Monthly, period, i);
      MonthDayNumber(i, 1);
    }
  }

  lemma SpawnIsInstance(t: Task, period: string, newId: Id, clock: Clock)
    requires Live(t) && ValidRecurrence(t.recurrence.value) && ValidPeriod(SpawnHorizon(t), period)
    ensures InstanceOf(SpawnRow(t, period, newId, clock), t, period, clock)
    ensures SpawnRow(t, period, newId, clock).id == newId
  {
    hide DueRight, DueDateForSpawn, ValidRecurrence, ValidPeriod, WeekText, WeekOf;
    SpawnIsDue(t, period, newId, clock);
  }

  // ---- one run ----

  /** Some row is the instance of t for that period. */
  ghost predicate HasInstance(tasks: map<Id, Task>, t: Task, period: string) {
    exists x :: x in tasks && tasks[x].seriesId == t.seriesId && tasks[x].period == period
  }

  /** Every row that was there is as it was, and every other one is an instance that the
      run was to add, filed under the id drawn for it. */
  ghost predicate OnlyWantedAdded(start: DB, after: DB, newId: (Id, string) -> Id, clock: Clock, zone: Zone)
    requires GoodClock(clock)
  {
    && after == start.(tasks := after.tasks)
    && (forall x :: x in start.tasks ==> x in after.tasks && after.tasks[x] == start.tasks[x])
    && (forall x :: x in after.tasks && x !in start.tasks ==> AddedFor(start, after.tasks[x], x, newId, clock, zone))
  }

  ghost predicate AddedFor(start: DB, n: Task, x: Id, newId: (Id, string) -> Id, clock: Clock, zone: Zone)
    requires GoodClock(clock)
  {
    exists y, p :: SpawnWanted(start, Spawn(y, p), clock, zone) && x == newId(y, p) && n.id == x
                   && InstanceOf(n, start.tasks[y], p, clock)
  }

  lemma {:induction false} InsertsAdd(start: DB, spawns: seq<Spawn>, newId: (Id, string) -> Id, clock: Clock,
                                      zone: Zone, lower: Fold)
    requires Good(start, lower) && GoodClock(clock) && FreshIds(start.tasks, newId) && Distinct(spawns)
    requires forall i :: 0 <= i < |spawns| ==> SpawnWanted(start, spawns[i], clock, zone)
    ensures OnlyWantedAdded(start, InsertAll(start, start, spawns, newId, clock), newId, clock, zone)
    ensures forall i :: 0 <= i < |spawns| ==>
              && spawns[i].latest in start.tasks
              && HasInstance(InsertAll(start, start, spawns, newId, clock).tasks, start.tasks[spawns[i].latest],
                             spawns[i].period)
  {
    hide *;
    if |spawns| == 0 {
      NoInserts(start, spawns, newId, clock);
      NothingAdded(start, newId, clock, zone);
    } else {
      var init, s := spawns[..|spawns| - 1], spawns[|spawns| - 1];
      assert spawns == init + [s];
      PrefixDistinct(init, s);
      InsertsAdd(start, init, newId, clock, zone, lower);
      var db := InsertAll(start, start, init, newId, clock);
      InsertAllRows(start, init, newId, clock);
      FreshAfter(start, db, init, s, newId);
      WantedRow(start, s, clock, zone);
      WantedIsValid(start, s, clock, zone, lower);
      GoodRowOf(start, s.latest, lower);
      InsertOneMore(start, init, s, newId, clock);
      OneMoreAdded(start, db, s, newId, clock, zone, lower);
      forall i | 0 <= i < |spawns|
        ensures && spawns[i].latest in start.tasks
                && HasInstance(InsertAll(start, start, spawns, newId, clock).tasks, start.tasks[spawns[i].latest],
                               spawns[i].period)
      {
        if i < |init| {
          InstanceStays(start, db, s, newId, clock, start.tasks[init[i].latest], init[i].period);
        }
      }
    }
  }

  lemma NothingAdded(start: DB, newId: (Id, string) -> Id, clock: Clock, zone: Zone)
    requires GoodClock(clock)
    ensures OnlyWantedAdded(start, start, newId, clock, zone)
  {
    hide AddedFor, GoodClock;
  }

  lemma InstanceStays(start: DB, db: DB, s: Spawn, newId: (Id, string) -> Id, clock: Clock, t: Task, period: string)
    requires s.latest in start.tasks && Live(start.tasks[s.latest]) && newId(s.latest, s.period) !in db.tasks
    requires HasInstance(db.tasks, t, period)
    ensures HasInstance(InsertSpawn(db, start.tasks[s.latest], s.period, newId(s.latest, s.period), clock).tasks, t,
                        period)
  {
    hide SpawnRow, SeriesSlotFree, Live;
    var after := InsertSpawn(db, start.tasks[s.latest], s.period, newId(s.latest, s.period), clock);
    var x :| x in db.tasks && db.tasks[x].seriesId == t.seriesId && db.tasks[x].period == period;
    assert x in after.tasks && after.tasks[x] == db.tasks[x];
  }

  lemma OneMoreAdded(start: DB, db: DB, s: Spawn, newId: (Id, string) -> Id, clock: Clock, zone: Zone, lower: Fold)
    requires GoodClock(clock) && OnlyWantedAdded(start, db, newId, clock, zone) && SpawnWanted(start, s, clock, zone)
    requires s.latest in start.tasks && Live(start.tasks[s.latest]) && GoodRow(start.tasks[s.latest], lower)
    requires ValidPeriod(start.tasks[s.latest].horizon, s.period) && newId(s.latest, s.period) !in db.tasks
    ensures var after := InsertSpawn(db, start.tasks[s.latest], s.period, newId(s.latest, s.period), clock);
            && OnlyWantedAdded(start, after, newId, clock, zone)
            && HasInstance(after.tasks, start.tasks[s.latest], s.period)
  {
    var t, x := start.tasks[s.latest], newId(s.latest, s.period);
    var row := SpawnRow(t, s.period, x, clock);
    LiveIsGood(t, s.period, lower);
    SpawnIsInstance(t, s.period, x, clock);
    InstanceFields(row, t, s.period, clock);
    assert AddedFor(start, row, x, newId, clock, zone) by { AddedBySpawn(start, row, s, newId, clock, zone); }
    hide SpawnWanted, InstanceOf, SpawnRow, Live, GoodRow, ValidPeriod, GoodClock, OnlyWantedAdded, AddedFor;
    var after := InsertSpawn(db, t, s.period, x, clock);
    if SeriesSlotFree(db.tasks, row) {
      RowAdded(start, db, row, x, newId, clock, zone);
      assert after.tasks[x] == row;
    } else {
      var y :| y in db.tasks && y != row.id && db.tasks[y].seriesId == row.seriesId && db.tasks[y].period == row.period;
    }
  }

  lemma AddedBySpawn(start: DB, row: Task, s: Spawn, newId: (Id, string) -> Id, clock: Clock, zone: Zone)
    requires GoodClock(clock) && SpawnWanted(start, s, clock, zone) && row.id == newId(s.latest, s.period)
    requires s.latest in start.tasks && start.tasks[s.latest].recurrence.Some?
    requires InstanceOf(row, start.tasks[s.latest], s.period, clock)
    ensures AddedFor(start, row, row.id, newId, clock, zone)
  {
    hide SpawnWanted, InstanceOf, GoodClock;
    assert Spawn(s.latest, s.period) == s;
  }

  lemma RowAdded(start: DB, db: DB, row: Task, x: Id, newId: (Id, string) -> Id, clock: Clock, zone: Zone)
    requires GoodClock(clock) && OnlyWantedAdded(start, db, newId, clock, zone) && x !in db.tasks
    requires AddedFor(start, row, x, newId, clock, zone)
    ensures OnlyWantedAdded(start, db.(tasks := db.tasks[x := row]), newId, clock, zone)
  {
    hide AddedFor, GoodClock;
  }

  lemma LiveIsGood(t: Task, period: string, lower: Fold)
    requires Live(t) && GoodRow(t, lower) && ValidPeriod(t.horizon, period)
    ensures ValidRecurrence(t.recurrence.value) && ValidPeriod(SpawnHorizon(t), period)
  {
  }

  lemma InstanceFields(n: Task, t: Task, period: string, clock: Clock)
    requires t.recurrence.Some? && InstanceOf(n, t, period, clock)
    ensures n.seriesId == t.seriesId && n.period == period
  {
  }

  /** After a run that reaches its end every wanted instance is there, every row from before
      is untouched, and nothing but wanted instances has come in. */
  lemma RunCatchesUp(start: DB, spawns: seq<Spawn>, newId: (Id, string) -> Id, clock: Clock, zone: Zone, lower: Fold,
                     y: Id, p: string)
    requires Good(start, lower) && GoodClock(clock) && FreshIds(start.tasks, newId) && Distinct(spawns)
    requires RunOf(start, spawns, clock, zone)
    ensures var after := InsertAll(start, start, spawns, newId, clock);
            && OnlyWantedAdded(start, after, newId, clock, zone)
            && (SpawnWanted(start, Spawn(y, p), clock, zone) ==>
                 y in start.tasks && HasInstance(after.tasks, start.tasks[y], p))
  {
    hide Good, GoodClock, FreshIds, SpawnWanted, OnlyWantedAdded, HasInstance, InsertAll, Distinct, IsLatest;
    InsertsAdd(start, spawns, newId, clock, zone, lower);
    if SpawnWanted(start, Spawn(y, p), clock, zone) {
      WantedIsOfLatest(start, y, p, clock, zone);
      var i :| 0 <= i < |spawns| && spawns[i] == Spawn(y, p);
    }
  }

  lemma WantedIsOfLatest(start: DB, y: Id, p: string, clock: Clock, zone: Zone)
    requires GoodClock(clock) && SpawnWanted(start, Spawn(y, p), clock, zone)
    ensures y in start.tasks && start.tasks[y].seriesId.Some?
    ensures IsLatest(start.tasks, start.tasks[y].seriesId.value, y)
  {
    hide Wanted, IsLatest, PeriodOfDay, ParsePeriod, FormatPeriod;
  }

  // ---- which instances are wanted ----

  /** The newest row of a series, by its period. */
  predicate Newest(tasks: map<Id, Task>, y: Id) {
    && y in tasks && tasks[y].seriesId.Some?
    && forall x :: x in tasks && x != y && tasks[x].seriesId == tasks[y].seriesId ==>
         StringLess(tasks[x].period, tasks[y].period)
  }

  /** Today, this week or this month, as an index of the horizon. */
  function IndexNow(h: Horizon, clock: Clock): int {
    match h
    case Weekly => clock.today / 7
    case Monthly => MonthIndexOf(clock.today)
    case _ => clock.today
  }

  lemma WantedOfNewest(start: DB, y: Id, p: string, clock: Clock, zone: Zone, lower: Fold)
    requires Good(start, lower) && GoodClock(clock) && Newest(start.tasks, y) && start.tasks[y].recurrence.Some?
    ensures var t := start.tasks[y];
            && Live(t) && SpawnHorizon(t) == t.horizon && Canonical(t.horizon, PeriodOfDay(t.horizon, clock.today))
            && ParsePeriod(t.horizon, PeriodOfDay(t.horizon, clock.today)) == Some(IndexNow(t.horizon, clock))
            && ParsePeriod(t.horizon, t.period).Some? && RecurrenceHorizon(t.recurrence.value.freq) == Some(t.horizon)
            && AnchorIndex(t.recurrence.value).Some?
            && (SpawnWanted(start, Spawn(y, p), clock, zone) <==>
                 var m := Missing(t.recurrence.value, t.horizon, t.period, PeriodOfDay(t.horizon, clock.today), zone);
                 m.Some? && p in m.value)
  {
    hide ParsePeriod, Missing, PeriodOfDay, StringLess, AnchorIndex, ValidRecurrence, GoodForest, Consistent,
         GoodClock, ParseISOWeek, IsNormal, FormatPeriod;
    var t := start.tasks[y];
    assert GoodRow(t, lower);
    ClockPeriodValid(t.horizon, clock);
    ClockIndex(t.horizon, clock);
    assert IsLatest(start.tasks, t.seriesId.value, y);
    assert SpawnHorizon(t) == t.horizon;
    assert Canonical(SpawnHorizon(t), PeriodOfDay(SpawnHorizon(t), clock.today));
  }

  /** A series whose rule has no interval wants every period after its newest row, up to
      the current one; for a weekday rule, every listed day. */
  lemma PlainSeriesWants(start: DB, y: Id, p: string, clock: Clock, zone: Zone, lower: Fold)
    requires Good(start, lower) && GoodClock(clock) && Newest(start.tasks, y) && start.tasks[y].recurrence.Some?
    requires var t := start.tasks[y];
             t.recurrence.value.interval == None && YearOfIndex(t.horizon, IndexNow(t.horizon, clock) + 1) <= 9999
    ensures var t := start.tasks[y];
            && ParsePeriod(t.horizon, t.period).Some?
            && (SpawnWanted(start, Spawn(y, p), clock, zone) <==>
                exists k :: ParsePeriod(t.horizon, t.period).value < k <= IndexNow(t.horizon, clock)
                            && p == FormatPeriod(t.horizon, k)
                            && (t.recurrence.value.freq == OnWeekdays ==> ISOWeekday(k) in t.recurrence.value.weekdays))
  {
    hide Good, GoodClock, Live, Canonical, ParsePeriod, FormatPeriod, Missing, SpawnWanted, YearOfIndex, PeriodOfDay,
         IndexNow, AnchorIndex, ISOWeekday, RecurrenceHorizon;
    WantedOfNewest(start, y, p, clock, zone, lower);
    var t := start.tasks[y];
    PlainRuleMissesNothing(t.recurrence.value, t.horizon, t.period, PeriodOfDay(t.horizon, clock.today), zone, p);
  }

  /** One whose rule has the interval n wants those of them whose distance from the anchor
      is a multiple of n, while the clock keeps its offset and distances fit a duration. */
  lemma IntervalSeriesWants(start: DB, y: Id, p: string, clock: Clock, zone: Zone, lower: Fold, n: int)
    requires Good(start, lower) && GoodClock(clock) && Newest(start.tasks, y) && start.tasks[y].recurrence.Some?
    requires var t := start.tasks[y];
             && t.recurrence.value.interval == Some(n) && t.recurrence.value.anchor != ""
             && YearOfIndex(t.horizon, IndexNow(t.horizon, clock) + 1) <= 9999
    requires forall d, e :: zone(d) == zone(e)
    ensures var t := start.tasks[y];
            && n >= 1 && ParsePeriod(t.horizon, t.period).Some?
            && ParsePeriod(if t.recurrence.value.freq == OnWeekdays then Weekly else t.horizon,
                           t.recurrence.value.anchor).Some?
            && ((forall k :: ParsePeriod(t.horizon, t.period).value < k <= IndexNow(t.horizon, clock) ==>
                   -Countable(t.recurrence.value.freq) <= FromAnchor(t.recurrence.value, t.horizon, k)
                       <= Countable(t.recurrence.value.freq)
                   || t.recurrence.value.freq == EveryMonth) ==>
                (SpawnWanted(start, Spawn(y, p), clock, zone) <==>
                 exists k :: ParsePeriod(t.horizon, t.period).value < k <= IndexNow(t.horizon, clock)
                   && p == FormatPeriod(t.horizon, k)
                   && (t.recurrence.value.freq == OnWeekdays ==> ISOWeekday(k) in t.recurrence.value.weekdays)
                   && FromAnchor(t.recurrence.value, t.horizon, k) % n == 0))
  {
    hide GoodClock, Live, Canonical, ParsePeriod, FormatPeriod, Missing, SpawnWanted, YearOfIndex, PeriodOfDay,
         IndexNow, ISOWeekday, Consistent, GoodForest, ParseISOWeek, IsNormal;
    WantedOfNewest(start, y, p, clock, zone, lower);
    var t := start.tasks[y];
    var r := t.recurrence.value;
    assert n >= 1 by { assert GoodRow(t, lower); assert ValidRecurrence(r); }
    if forall k :: ParsePeriod(t.horizon, t.period).value < k <= IndexNow(t.horizon, clock) ==>
         -Countable(r.freq) <= FromAnchor(r, t.horizon, k) <= Countable(r.freq) || r.freq == EveryMonth {
      IntervalRuleMissesNothing(r, t.horizon, t.period, PeriodOfDay(t.horizon, clock.today), zone, n, p);
    }
  }
}
