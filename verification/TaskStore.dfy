/** The task tables and the operations that write single rows
    (internal/service/tasks.go); one call stands for one transaction. */
module TaskStore {
  import opened Base
  import opened Forest
  import opened Period
  import opened PeriodLine
  import opened Recur
  import opened Model
  import opened Tags
  import opened Transitions
  import opened TaskRules
  import opened Duration
  import opened CascadeDelete
  import opened Materialization
  import opened TaskInvariants
  import Restore
  import RestoreOrder

  /** The walk up from a new parent. guard tells whether the visited set, kept
      against pre-existing loops, ever stopped it. */
  method WalkFinds(tasks: map<Id, Task>, start: Id, self: Id) returns (found: bool, ghost guard: bool)
    requires Keyed(tasks) && start in tasks && self in tasks
    ensures found <==> Reaches(ParentsOf(tasks), start, self)
    ensures guard ==> !Acyclic(ParentsOf(tasks))
  {
    ghost var par := ParentsOf(tasks);
    guard := false;
    var visited: set<Id> := {};
    var cur := tasks[start];
    while true
      invariant cur.id in tasks && cur == tasks[cur.id]
      invariant visited <= tasks.Keys && self !in visited
      invariant Reaches(par, start, self) <==> Reaches(par, cur.id, self)
      invariant forall v :: v in visited ==> v in par && Reaches(par, par[v], cur.id)
      invariant forall v :: v in visited ==> par[v] in visited || par[v] == cur.id
      decreases tasks.Keys - visited
    {
      if cur.id == self {
        ReachesParent(par, cur.id, self);
        return true, guard;
      }
      if cur.id in visited {
        guard := true;
        ParentReachingBackIsCycle(par, cur.id);
        ClosedAvoids(par, visited, cur.id, self);
        return false, guard;
      }
      visited := visited + {cur.id};
      ReachesParent(par, cur.id, self);
      if cur.parentId == None {
        return false, guard;
      }
      if cur.parentId.value !in tasks {
        OutsideReachesNothing(par, cur.parentId.value, self);
        return false, guard;
      }
      StepUp(par, visited, cur.id);
      cur := tasks[cur.parentId.value];
    }
  }

  lemma StepUp(par: Parents, visited: set<Id>, c: Id)
    requires c in par && forall v :: v in visited ==> v in par && (v == c || Reaches(par, par[v], c))
    ensures forall v :: v in visited ==> Reaches(par, par[v], par[c])
  {
    assert Reaches(par, c, c) by { ReachesParent(par, c, c); }
    assert Reaches(par, par[c], par[c]) by { ReachesParent(par, par[c], par[c]); }
    ReachesParent(par, c, par[c]);
    forall v | v in visited ensures Reaches(par, par[v], par[c]) {
      if v != c { ReachesTransitive(par, par[v], c, par[c]); }
    }
  }

  lemma ClosedAvoids(par: Parents, u: set<Id>, x: Id, a: Id)
    requires x in u && a !in u && forall v :: v in u ==> v in par && par[v] in u
    ensures !Reaches(par, x, a)
  {
    forall k: nat ensures Up(par, x, k) != Some(a) { StaysInside(par, u, x, k); }
  }

  class Store {
    var tasks: map<Id, Task>
    var log: seq<Entry>
    var teams: set<Id>
    var members: set<Id>
    var memberTeams: set<(Id, Id)>

    const lower: Fold

    constructor (lower: Fold)
      ensures State() == DB(map[], [], {}, {}, {}) && this.lower == lower
    {
      this.lower := lower;
      tasks, log, teams, members, memberTeams := map[], [], {}, {}, {};
    }

    function State(): DB
      reads this
    {
      DB(tasks, log, teams, members, memberTeams)
    }

    /** The checks of one field at a time; the tags come back normalised. */
    static method CheckPlainFields(t: Task, lower: Fold) returns (error: Option<ApiError>, tags: seq<string>)
      ensures error == PlainFieldError(t, lower)
      ensures error == None ==> Normalized(t.tags, lower) == Some(tags)
    {
      hide ValidPeriod, ParseDate, Normalized, Blank, ValidStatus, ValidPriority;
      tags := [];
      if Blank(t.title) { return Some(TitleRequired), tags; }
      if t.horizon.OtherHorizon? { return Some(InvalidHorizon), tags; }
      if !ValidPeriod(t.horizon, t.period) { return Some(InvalidPeriod), tags; }
      if t.dueDate != "" && ParseDate(t.dueDate) == None { return Some(InvalidDueDate), tags; }
      if !ValidStatus(t.status) { return Some(InvalidStatus), tags; }
      if !ValidPriority(t.priority) { return Some(InvalidPriority), tags; }
      var normal := NormalizeTags(t.tags, lower);
      if normal == None { return Some(InvalidTags), tags; }
      return None, normal.value;
    }

    /** The parent: there, visible, no finer than the child, and not below it. */
    method CheckParent(t: Task, self: Option<Id>, u: Option<User>) returns (error: Option<ApiError>)
      requires Keyed(tasks) && (self.Some? ==> self.value in tasks)
      ensures error == ParentError(State(), t, self, u)
    {
      hide Reaches, CanAccess, ParentsOf, HorizonRank, Acyclic;
      if t.parentId == None { return None; }
      if self == Some(t.parentId.value) { return Some(OwnParent); }
      if t.parentId.value !in tasks { return Some(ParentNotFound); }
      var parent := tasks[t.parentId.value];
      if u.Some? && !CanAccess(u.value, parent) { return Some(ParentForbidden); }
      if HorizonRank(t.horizon) > HorizonRank(parent.horizon) { return Some(CoarserThanParent); }
      if self.Some? {
        var found, _ := WalkFinds(tasks, t.parentId.value, self.value);
        if found { return Some(ParentCycle); }
      }
      return None;
    }

    method ValidateTaskFields(t: Task, self: Option<Id>, u: Option<User>) returns (res: Result<Task, ApiError>)
      requires Keyed(tasks) && (self.Some? ==> self.value in tasks)
      ensures res == Validated(State(), t, self, u, lower)
    {
      hide PlainFieldError, ParentError, Normalized, ValidRecurrence, RecurrenceHorizon;
      var error, tags := CheckPlainFields(t, lower);
      if error.Some? { return Err(error.value); }
      if t.horizon == Backlog {
        if t.teamId.Some? { return Err(BacklogIsPersonal); }
        if t.dueDate != "" { return Err(BacklogHasNoDueDate); }
        if t.recurrence.Some? { return Err(BacklogDoesNotRecur); }
      }
      error := CheckParent(t, self, u);
      if error.Some? { return Err(error.value); }
      if t.teamId.Some? && t.teamId.value !in teams { return Err(TeamNotFound); }
      if t.assigneeId.Some? {
        if t.teamId == None { return Err(AssigneeNeedsTeam); }
        if t.assigneeId.value !in members { return Err(AssigneeNotFound); }
        if (t.assigneeId.value, t.teamId.value) !in memberTeams { return Err(AssigneeNotInTeam); }
      }
      if t.recurrence.Some? {
        if !ValidRecurrence(t.recurrence.value) { return Err(InvalidRecurrence); }
        if RecurrenceHorizon(t.recurrence.value.freq) != Some(t.horizon) { return Err(RecurrenceHorizonMismatch); }
      }
      return Ok(t.(tags := tags));
    }

    method CreateTask(t0: Task, newId: Id, u: Option<User>, clock: Clock) returns (res: Result<Task, ApiError>)
      requires Keyed(tasks)
      modifies this
      ensures res == old(Created(State(), t0, newId, u, clock, lower))
      ensures State() == if res.Ok? then old(State()).(tasks := old(tasks)[newId := res.value]) else old(State())
    {
      hide ValidPeriod, RecurrenceError, PlainFieldError, Validated, ComputeAnchor, RowFits, PeriodOfDay;
      var t := t0.(id := newId, seriesId := None);
      if t.status == OtherStatus("") {
        t := t.(status := Todo);
      }
      t := t.(createdAt := clock.now, updatedAt := clock.now);
      t := t.(completedAt := if t.status == Done then Some(clock.now) else None);
      if u.Some? {
        if t.teamId == None {
          t := t.(ownerId := Some(u.value.id));
        } else {
          t := t.(ownerId := None);
          if !u.value.admin && t.teamId.value !in u.value.teams {
            return Err(NotTeamMember);
          }
        }
      }
      t := t.(weekOf := if t.teamId.Some? then CurrentWeek(clock) else "");
      assert t == Prepared(t0, newId, u, clock);
      var valid := ValidateTaskFields(t, None, u);
      if valid.Err? {
        return Err(valid.error);
      }
      t := valid.value;
      if t.recurrence.Some? {
        var anchor := ComputeAnchor(t.recurrence.value.freq, t.period);
        if anchor == None {
          return Err(InvalidAnchor);
        }
        t := t.(seriesId := Some(newId), recurrence := Some(t.recurrence.value.(anchor := anchor.value)));
      }
      if newId in tasks || !RowFits(State(), t) {
        return Err(ConstraintViolation);
      }
      tasks := tasks[newId := t];
      return Ok(t);
    }

    /** The middle of patchTaskTx: decode onto the row, then derive the
        system-managed fields, orig sharing the values that were already set. */
    static method MergeAndDerive(stored: Task, p: Patch, u: Option<User>, clock: Clock)
      returns (res: Result<Task, ApiError>)
      ensures res == Derived(SharedOrig(stored, p), Merged(stored, p), p, u, clock)
    {
      hide PeriodOfDay, ParseISOWeek;
      var orig := SharedOrig(stored, p);
      var t := Merged(stored, p);
      var patchedWeekOf := t.weekOf;
      t := t.(seriesId := orig.seriesId);
      if u.Some? && !u.value.admin && orig.teamId != t.teamId {
        return Err(TeamChangeForbidden);
      }
      if orig.teamId == None && t.teamId.Some? {
        t := t.(ownerId := None, weekOf := CurrentWeek(clock));
      } else if orig.teamId.Some? && t.teamId == None {
        t := t.(ownerId := if u.Some? then Some(u.value.id) else orig.ownerId, weekOf := "");
      } else {
        t := t.(ownerId := orig.ownerId);
      }
      if OutsideTeam(u, t) {
        return Err(NotTeamMember);
      }
      if !p.weekOf.Absent? {
        if u.Some? && !u.value.admin {
          return Err(WeekOfForbidden);
        }
        t := t.(weekOf := patchedWeekOf);
        if t.teamId == None {
          return Err(WeekOfOnPersonal);
        }
        if ParseISOWeek(t.weekOf) == None {
          return Err(InvalidWeekOf);
        }
      }
      if orig.status != Done && t.status == Done {
        t := t.(completedAt := Some(clock.now));
      } else if orig.status == Done && t.status != Done {
        t := t.(completedAt := None);
      } else {
        t := t.(completedAt := orig.completedAt);
      }
      t := t.(updatedAt := clock.now);
      if !Terminal(orig.status) && Terminal(t.status) && t.teamId.Some? {
        t := t.(weekOf := CurrentWeek(clock));
      }
      return Ok(t);
    }

    method PatchTask(id: Id, p: Patch, u: Option<User>, clock: Clock, table: seq<Transition>, entryId: Id)
      returns (res: Result<Task, ApiError>)
      requires Keyed(tasks) && !EntryIdTaken(log, entryId)
      modifies this
      ensures res == old(Patched(State(), id, p, u, clock, table, lower))
      ensures State() ==
              if res.Err? then old(State())
              else old(State()).(
                tasks := old(tasks)[id := res.value],
                log := if old(tasks)[id].status == res.value.status then old(log)
                       else old(log) + [StatusActivity(entryId, id, old(tasks)[id].status, res.value.status, clock, u)])
    {
      hide Validated, ComputeAnchor, RowFits, StatusActivity, Refusal, Derived, Merged, SharedOrig, CanAccess,
           HasCoarserChild, EffectiveInterval, PeriodOfDay;
      if id !in tasks {
        return Err(TaskNotFound);
      }
      var stored := tasks[id];
      if u.Some? && !CanAccess(u.value, stored) {
        return Err(NotAllowed);
      }
      var derived := MergeAndDerive(stored, p, u, clock);
      if derived.Err? {
        return Err(derived.error);
      }
      var t := derived.value;
      var valid := ValidateTaskFields(t, Some(id), u);
      if valid.Err? {
        return Err(valid.error);
      }
      t := valid.value;
      if t.horizon != stored.horizon && HasCoarserChild(tasks, id, t.horizon) {
        return Err(CoarserThanChild);
      }
      if t.recurrence.Some? {
        var r := t.recurrence.value;
        if stored.recurrence == None || stored.recurrence.value.freq != r.freq
           || EffectiveInterval(stored.recurrence.value) != EffectiveInterval(r) {
          var anchor := ComputeAnchor(r.freq, t.period);
          if anchor == None {
            return Err(InvalidAnchor);
          }
          t := t.(recurrence := Some(r.(anchor := anchor.value)));
        } else {
          t := t.(recurrence := Some(r.(anchor := stored.recurrence.value.anchor)));
        }
      }
      assert Anchored(stored.recurrence, valid.value) == Some(t);
      if t.status != stored.status && Refusal(table, stored.status, t.status).Some? {
        return Err(Refusal(table, stored.status, t.status).value);
      }
      if !RowFits(State(), t) || (t.status != stored.status && !AuthorExists(State(), u)) {
        return Err(ConstraintViolation);
      }
      tasks := tasks[id := t];
      if t.status != stored.status {
        var e := Entry(entryId, id, StatusEntry, PeriodOfDay(Daily, clock.today), clock.now, None, "", "",
                       Some(stored.status), Some(t.status), None);
        if u.Some? {
          e := e.(author := Some(u.value.id), byName := u.value.name);
        }
        EntryFields(entryId, id, stored.status, t.status, clock, u);
        log := log + [e];
      }
      return Ok(t);
    }

    method Reschedule(ids: seq<Id>, u: Option<User>, clock: Clock) returns (updated: nat, error: Option<ApiError>)
      modifies this
      ensures var r := old(Rescheduled(State(), ids, u, clock));
              State() == r.db && updated == r.updated && error == r.error
    {
      hide RowFits, PeriodOfDay, CanAccess;
      updated := 0;
      ghost var goal := Rescheduled(State(), ids, u, clock);
      assert ids[0..] == ids;
      for k := 0 to |ids|
        invariant var r := Rescheduled(State(), ids[k..], u, clock);
                  goal == r.(updated := updated + r.updated)
      {
        var id := ids[k];
        assert ids[k..][0] == id && ids[k..][1..] == ids[k + 1..];
        if id !in tasks {
          continue;
        }
        var t := tasks[id];
        if u.Some? && !CanAccess(u.value, t) {
          continue;
        }
        if t.horizon == Backlog {
          continue;
        }
        var row := t.(period := PeriodOfDay(t.horizon, clock.today), updatedAt := clock.now);
        if t.dueDate != "" {
          row := row.(dueDate := PeriodOfDay(Daily, clock.today));
        }
        if !RowFits(State(), row) {
          return updated, Some(ConstraintViolation);
        }
        tasks := tasks[id := row];
        updated := updated + 1;
      }
      return updated, None;
    }

    /** loadActivityFor: the timelines of many tasks, filled in one pass over the log. */
    method LoadDocs(ids: seq<Id>) returns (docs: seq<Doc>)
      requires forall x :: x in ids ==> x in tasks
      ensures docs == DocsOf(State(), ids)
    {
      hide LogOf, TimelinesUpTo, Timeline, DocsOf;
      var byTask: map<Id, seq<Entry>> := map[];
      NoTimelines(log, ids);
      for k := 0 to |log|
        invariant TimelinesUpTo(log, k, ids, byTask)
      {
        var e := log[k];
        TimelinesStep(log, k, ids, byTask);
        if e.taskId in ids {
          byTask := byTask[e.taskId := Timeline(byTask, e.taskId) + [e]];
        }
      }
      docs := [];
      assert ids[..0] == [];
      NoDocs(State());
      for i := 0 to |ids|
        invariant forall x :: x in ids[..i] ==> x in State().tasks
        invariant docs == DocsOf(State(), ids[..i])
      {
        DocStep(State(), ids, i, byTask);
        docs := docs + [Doc(tasks[ids[i]], Timeline(byTask, ids[i]))];
      }
      assert ids[..|ids|] == ids;
    }

    /** The rows go children first; a row that another one still points to stops the
        transaction, which then leaves no trace. */
    method DeleteTaskCascade(id: Id) returns (res: Result<seq<Doc>, ApiError>, ghost subtree: seq<Id>)
      requires Keyed(tasks)
      modifies this
      ensures id !in old(tasks) ==> res == Err(TaskNotFound)
      ensures res.Err? ==> State() == old(State())
      ensures id in old(tasks) && Acyclic(ParentsOf(old(tasks))) ==> res.Ok? && BreadthFirst(old(tasks), id, subtree)
      ensures res.Ok? ==>
                && id in old(tasks)
                && Collected(old(tasks), id, subtree)
                && res.value == DocsOf(old(State()), subtree)
                && State() == Without(old(State()), Subtree(old(tasks), id))
    {
      hide Collected, Acyclic, ParentsOf, LogOf, LogWithout, BreadthFirst, Subtree, HasChild;
      subtree := [];
      if id !in tasks {
        return Err(TaskNotFound), subtree;
      }
      var rows := CollectSubtree(tasks, id);
      subtree := rows;
      assert forall x :: x in rows ==> x in tasks by { RowsInTable(tasks, id, rows); }
      var views := LoadDocs(rows);
      var before := State();
      var i := |rows|;
      assert rows[i..] == [];
      Restore.LogWithoutNone(log);
      assert Members([]) == {} && tasks - {} == tasks;
      while i > 0
        invariant 0 <= i <= |rows|
        invariant State() == Without(before, Members(rows[i..]))
        decreases i
      {
        i := i - 1;
        if Acyclic(ParentsOf(before.tasks)) { Restore.DeletedChildless(before.tasks, id, rows, i); }
        if HasChild(tasks, rows[i]) {
          tasks, log := before.tasks, before.log;
          return Err(ChangedConcurrently), subtree;
        }
        DeleteOne(before, rows, i);
        log := LogWithout(log, {rows[i]});
        tasks := tasks - {rows[i]};
      }
      assert rows[0..] == rows;
      Restore.CollectedIsSubtree(before.tasks, id, rows);
      return Ok(views), subtree;
    }

    /** The payload with its tags normalised. */
    static method NormalDocs(docs: seq<Doc>, lower: Fold) returns (res: Option<seq<Doc>>)
      ensures res == if Restore.TagsNormalise(docs, lower) then Some(Restore.WithNormalTags(docs, lower)) else None
    {
      hide Normalized;
      var clean: seq<Doc> := [];
      for i := 0 to |docs|
        invariant Restore.TagsNormalise(docs[..i], lower) && clean == Restore.WithNormalTags(docs[..i], lower)
      {
        assert docs[..i + 1] == docs[..i] + [docs[i]];
        var tags := NormalizeTags(docs[i].task.tags, lower);
        if tags == None {
          return None;
        }
        clean := clean + [docs[i].(task := docs[i].task.(tags := tags.value))];
      }
      assert docs[..|docs|] == docs;
      return Some(clean);
    }

    /** Every reference points into the payload or at a row that is there. */
    method ValidateRestoreRefs(docs: seq<Doc>) returns (ok: bool)
      ensures ok <==> forall i :: 0 <= i < |docs| ==>
              Restore.RefsResolve(State(), RestoreOrder.IdsOf(docs), docs[i].task)
    {
      hide Restore.RefsResolve, RestoreOrder.IdsOf;
      var inPayload := RestoreOrder.IdsOf(docs);
      for i := 0 to |docs|
        invariant forall k :: 0 <= k < i ==> Restore.RefsResolve(State(), inPayload, docs[k].task)
      {
        if !Restore.RefsResolve(State(), inPayload, docs[i].task) {
          return false;
        }
      }
      return true;
    }

    method RestoreTasks(docs: seq<Doc>, draw: Restore.Draw) returns (res: Result<nat, ApiError>)
      modifies this
      ensures res == match Restore.Restored(old(State()), docs, lower,
                                            draw) case Ok(r) => Ok(r.inserted) case Err(e) => Err(e)
      ensures State() == match Restore.Restored(old(State()), docs, lower,
                                                draw) case Ok(r) => r.db case Err(_) => old(State())
    {
      hide Restore.WithEntries, Restore.Conflicts, RowFits, Restore.RefsResolve, Normalized, RestoreOrder.Ordered,
           RestoreOrder.IdsOf, Restore.Restored;
      var before := State();
      RestoredCases(before, docs, lower, draw);
      if |docs| == 0 {
        return Ok(0);
      }
      var sorted := RestoreOrder.RestoreOrder(docs);
      if sorted.Err? {
        return Err(sorted.error);
      }
      var ordered := sorted.value;
      var normal := NormalDocs(ordered, lower);
      if normal == None {
        return Err(InvalidTags);
      }
      var clean := normal.value;
      var resolved := ValidateRestoreRefs(clean);
      if !resolved {
        return Err(RestoreMissingRef);
      }
      var inserted := 0;
      assert clean[0..] == clean;
      for i := 0 to |clean|
        invariant State() == before.(tasks := tasks, log := log)
        invariant Restore.Restored(before, docs, lower, draw) ==
                  Restore.WithDocs(Restore.Restoring(State(), inserted), clean[i..], draw)
      {
        var doc := clean[i];
        assert clean[i..][0] == doc && clean[i..][1..] == clean[i + 1..];
        if Restore.Conflicts(State(), doc.task) {
          continue;
        }
        if !RowFits(State(), doc.task) {
          tasks, log := before.tasks, before.log;
          return Err(ConstraintViolation);
        }
        tasks := tasks[doc.task.id := doc.task];
        var replayed := ReplayEntries(doc.task.id, doc.activity, draw);
        if replayed.Some? {
          tasks, log := before.tasks, before.log;
          return Err(replayed.value);
        }
        inserted := inserted + 1;
      }
      return Ok(inserted);
    }

    /** The first loop of Materialize: of each series, the row with the greatest period. */
    method LatestBySeries() returns (latest: map<Id, Task>)
      requires Consistent(State())
      ensures LatestAmong(tasks, InSeries(tasks), latest)
      ensures forall s :: s in latest ==> IsLatest(tasks, s, latest[s].id)
      ensures forall s, x :: IsLatest(tasks, s, x) ==> s in latest && latest[s].id == x
    {
      hide LatestAmong, InSeries, Consistent, IsLatest, StringLess, Keyed;
      var todo := InSeries(tasks);
      latest := map[];
      LatestOfNone(tasks);
      while todo != {}
        invariant todo <= InSeries(tasks)
        invariant LatestAmong(tasks, InSeries(tasks) - todo, latest)
      {
        var x :| x in todo;
        MemberRow(tasks, x);
        var t := tasks[x];
        LatestStep(State(), InSeries(tasks) - todo, latest, x);
        assert InSeries(tasks) - (todo - {x}) == InSeries(tasks) - todo + {x};
        if t.seriesId.value !in latest || StringLess(latest[t.seriesId.value].period, t.period) {
          latest := latest[t.seriesId.value := t];
        }
        todo := todo - {x};
      }
      assert InSeries(tasks) - {} == InSeries(tasks);
      LatestIsLatest(tasks, latest) by { ConsistentKeyed(State()); }
    }

    /** The inner loop of Materialize: one ON CONFLICT DO NOTHING insert a period,
        stopped by the first row that breaks another constraint. */
    method SpawnMissing(t: Task, periods: seq<string>, clock: Clock, newId: (Id, string) -> Id, ghost start: DB,
                        ghost earlier: seq<Spawn>, ghost zone: Zone)
      returns (error: Option<ApiError>, ghost done: nat)
      requires GoodClock(clock) && FreshIds(start.tasks, newId) && t.id in start.tasks && start.tasks[t.id] == t
               && Live(t)
      requires Distinct(earlier + SpawnsOf(t.id, periods))
      requires forall i :: 0 <= i < |earlier| ==> SpawnWanted(start, earlier[i], clock, zone)
      requires forall k :: 0 <= k < |periods| ==> SpawnWanted(start, Spawn(t.id, periods[k]), clock, zone)
      requires State() == InsertAll(start, start, earlier, newId, clock)
      modifies this
      ensures done <= |periods| && (error == None ==> done == |periods|) && (Good(start, lower) ==> error == None)
      ensures State() == InsertAll(start, start, earlier + SpawnsOf(t.id, periods[..done]), newId, clock)
    {
      hide LatestAmong, InSeries, Consistent, Covered, SpawnWanted, InsertAll, Live, Wanted, Good, RunOf, IsLatest,
           StringLess, SpawnRow, SeriesSlotFree, RowFits, InsertSpawn, PeriodOfDay, SpawnHorizon, FreshIds, GoodClock,
           BeforeLastPeriods, Canonical, Missing, Keyed, Distinct, CurrentWeek, DueDateForSpawn;
      SpawnHorizonRanked(t);
      var h := SpawnHorizon(t);
      assert earlier + SpawnsOf(t.id, periods[..0]) == earlier;
      for k := 0 to |periods|
        invariant State() == InsertAll(start, start, earlier + SpawnsOf(t.id, periods[..k]), newId, clock)
      {
        SpawnNext(start, earlier, t, periods, k, newId, clock, zone, lower);
        var due := DueDateForSpawn(t.recurrence.value, h, periods[k]);
        var week := if t.teamId.Some? then CurrentWeek(clock) else "";
        var row := Task(newId(t.id, periods[k]), t.title, t.notes, h, periods[k], due, Todo, t.priority, t.tags, None,
                        t.teamId, t.assigneeId,
                        week, t.ownerId, t.recurrence, t.seriesId, clock.now, clock.now, None);
        SpawnedFields(t, h, periods[k], newId(t.id, periods[k]), clock);
        if SeriesSlotFree(tasks, row) {
          if row.id in tasks || !RowFits(State(), row) {
            return Some(ConstraintViolation), k;
          }
          tasks := tasks[row.id := row];
        }
      }
      return None, |periods|;
    }

    /** Catches every live series up to the clock. There is no transaction: an error
        keeps the instances already inserted. */
    method Materialize(clock: Clock, zone: Zone, newId: (Id, string) -> Id)
      returns (error: Option<ApiError>, ghost spawns: seq<Spawn>)
      requires Consistent(State()) && GoodClock(clock) && FreshIds(tasks, newId)
      modifies this
      ensures Distinct(spawns) && forall i :: 0 <= i < |spawns| ==> SpawnWanted(old(State()), spawns[i], clock, zone)
      ensures State() == InsertAll(old(State()), old(State()), spawns, newId, clock)
      ensures error == None ==> RunOf(old(State()), spawns, clock, zone)
      ensures Good(old(State()), lower) && BeforeLastPeriods(clock) ==> error == None
    {
      hide LatestAmong, InSeries, Consistent, Covered, SpawnWanted, InsertAll, Live, Wanted, Good, RunOf, IsLatest,
           StringLess, SpawnRow, SeriesSlotFree, RowFits, InsertSpawn, PeriodOfDay, SpawnHorizon, FreshIds, GoodClock,
           BeforeLastPeriods, Canonical, Missing, Keyed, Distinct;
      ghost var before := State();
      var latest := LatestBySeries();
      spawns := [];
      var pending := latest.Keys;
      StartOfRun(before, latest, newId, clock, zone);
      while pending != {}
        invariant pending <= latest.Keys && Covered(before, latest, pending, spawns, clock, zone)
        invariant State() == InsertAll(before, before, spawns, newId, clock)
      {
        var s :| s in pending;
        var t := latest[s];
        LatestRow(before.tasks, latest, s);
        if !Live(t) {
          SkipSeries(before, latest, pending, spawns, s, clock, zone);
          pending := pending - {s};
          continue;
        }
        var h := SpawnHorizon(t);
        SpawnHorizonRanked(t);
        ClockPeriodValid(h, clock);
        var missing := MissingPeriods(t.recurrence.value, h, t.period, PeriodOfDay(h, clock.today), zone);
        WantedIsMissing(before, t, clock, zone, lower);
        CoveredFacts(before, latest, pending, spawns, clock, zone);
        if missing == None {
          return Some(InvalidSpawnPeriod), spawns;
        }
        assert missing.value[..|missing.value|] == missing.value;
        CoverSeries(before, latest, pending, spawns, s, |missing.value|, clock, zone);
        AllOf(spawns, t.id, missing.value);
        var failed, done := SpawnMissing(t, missing.value, clock, newId, before, spawns, zone);
        CoverSeries(before, latest, pending, spawns, s, done, clock, zone);
        spawns := spawns + SpawnsOf(t.id, missing.value[..done]);
        if failed.Some? {
          return failed, spawns;
        }
        pending := pending - {s};
      }
      EndOfRun(before, latest, spawns, clock, zone);
      CoveredFacts(before, latest, {}, spawns, clock, zone);
      return None, spawns;
    }

    /** The inner loop of RestoreTasks: entries in order, missing ids drawn, known ids skipped. */
    method ReplayEntries(taskId: Id, acts: seq<Entry>, draw: Restore.Draw) returns (error: Option<ApiError>)
      modifies this`log
      ensures match Restore.WithEntries(old(State()), taskId, acts, draw)
              case Ok(db) => error == None && State() == db
              case Err(e) => error == Some(e)
    {
      ghost var goal := Restore.WithEntries(State(), taskId, acts, draw);
      assert acts[0..] == acts;
      for i := 0 to |acts|
        invariant State() == old(State()).(log := log)
        invariant goal == Restore.WithEntries(State(), taskId, acts[i..], draw)
      {
        var e := acts[i];
        assert acts[i..][0] == e && acts[i..][1..] == acts[i + 1..];
        if e.id == "" {
          e := e.(id := draw(taskId, |acts| - i));
        }
        if EntryIdTaken(log, e.id) {
          continue;
        }
        if e.kind.OtherKind? {
          return Some(ConstraintViolation);
        }
        e := e.(taskId := taskId);
        if e.author.Some? && e.author.value !in members {
          e := e.(author := None);
        }
        log := log + [e];
      }
      return None;
    }
  }

  function Timeline(byTask: map<Id, seq<Entry>>, x: Id): seq<Entry> {
    if x in byTask then byTask[x] else []
  }

  /** After k log rows, byTask holds the timelines of the wanted tasks. */
  ghost predicate TimelinesUpTo(log: seq<Entry>, k: nat, ids: seq<Id>, byTask: map<Id, seq<Entry>>) {
    k <= |log| && forall x :: Timeline(byTask, x) == if x in ids then LogOf(log[..k], x) else []
  }

  lemma NoTimelines(log: seq<Entry>, ids: seq<Id>)
    ensures TimelinesUpTo(log, 0, ids, map[])
  {
  }

  lemma TimelinesStep(log: seq<Entry>, k: nat, ids: seq<Id>, byTask: map<Id, seq<Entry>>)
    requires k < |log| && TimelinesUpTo(log, k, ids, byTask)
    ensures var e := log[k];
            TimelinesUpTo(log, k + 1, ids,
                          if e.taskId in ids then byTask[e.taskId := Timeline(byTask, e.taskId) + [e]] else byTask)
  {
    hide LogOf;
    LogStep(log, k);
    var e := log[k];
    var after := if e.taskId in ids then byTask[e.taskId := Timeline(byTask, e.taskId) + [e]] else byTask;
    forall x ensures Timeline(after, x) == if x in ids then LogOf(log[..k + 1], x) else [] {
      assert Timeline(byTask, x) == if x in ids then LogOf(log[..k], x) else [];
    }
  }

  lemma NoDocs(db: DB)
    ensures DocsOf(db, []) == []
  {
  }

  lemma DocStep(db: DB, ids: seq<Id>, i: nat, byTask: map<Id, seq<Entry>>)
    requires i < |ids| && (forall x :: x in ids ==> x in db.tasks) && TimelinesUpTo(db.log, |db.log|, ids, byTask)
    ensures forall x :: x in ids[..i] || x in ids[..i + 1] ==> x in db.tasks
    ensures DocsOf(db, ids[..i + 1]) == DocsOf(db, ids[..i]) + [Doc(db.tasks[ids[i]], Timeline(byTask, ids[i]))]
  {
    hide LogOf;
    assert db.log[..|db.log|] == db.log;
    assert ids[i] in ids && ids[..i + 1] == ids[..i] + [ids[i]];
  }

  lemma RestoredCases(db: DB, docs: seq<Doc>, lower: Fold, draw: Restore.Draw)
    ensures |docs| == 0 ==> Restore.Restored(db, docs, lower, draw) == Ok(Restore.Restoring(db, 0))
    ensures |docs| > 0 && RestoreOrder.Ordered(docs).Err? ==>
              Restore.Restored(db, docs, lower, draw) == Err(RestoreOrder.Ordered(docs).error)
    ensures |docs| > 0 && RestoreOrder.Ordered(docs).Ok?
            && !Restore.TagsNormalise(RestoreOrder.Ordered(docs).value, lower) ==>
              Restore.Restored(db, docs, lower, draw) == Err(InvalidTags)
    ensures |docs| > 0 && RestoreOrder.Ordered(docs).Ok?
            && Restore.TagsNormalise(RestoreOrder.Ordered(docs).value, lower) ==>
              var clean := Restore.WithNormalTags(RestoreOrder.Ordered(docs).value, lower);
              && ((forall i :: 0 <= i < |clean| ==>
                   Restore.RefsResolve(db, RestoreOrder.IdsOf(clean), clean[i].task)) ==>
                  Restore.Restored(db, docs, lower, draw) == Restore.WithDocs(Restore.Restoring(db, 0), clean, draw))
              && ((exists i ::
                     0 <= i < |clean| && !Restore.RefsResolve(db, RestoreOrder.IdsOf(clean), clean[i].task)) ==>
                  Restore.Restored(db, docs, lower, draw) == Err(RestoreMissingRef))
  {
    hide RestoreOrder.Ordered, RestoreOrder.IdsOf, Restore.RefsResolve, Restore.WithDocs, Restore.TagsNormalise,
         Normalized;
  }

  lemma LogStep(log: seq<Entry>, k: nat)
    requires k < |log|
    ensures forall x :: LogOf(log[..k + 1], x) == LogOf(log[..k], x) + (if log[k].taskId == x then [log[k]] else [])
  {
    assert log[..k + 1] == log[..k] + [log[k]];
    forall x ensures LogOf(log[..k + 1], x) == LogOf(log[..k], x) + (if log[k].taskId == x then [log[k]] else []) {
      Restore.LogOfAppend(log[..k], log[k], x);
    }
  }

  lemma RowsInTable(tasks: map<Id, Task>, root: Id, rows: seq<Id>)
    requires Collected(tasks, root, rows)
    ensures forall x :: x in rows ==> x in tasks
  {
  }

  lemma DeleteOne(before: DB, rows: seq<Id>, i: nat)
    requires i < |rows|
    ensures LogWithout(LogWithout(before.log, Members(rows[i + 1..])), {rows[i]}) ==
            LogWithout(before.log, Members(rows[i..]))
    ensures (before.tasks - Members(rows[i + 1..])) - {rows[i]} == before.tasks - Members(rows[i..])
  {
    Restore.LogWithoutTwice(before.log, Members(rows[i + 1..]), {rows[i]});
    assert rows[i..] == [rows[i]] + rows[i + 1..];
    assert Members(rows[i..]) == Members(rows[i + 1..]) + {rows[i]};
  }

  lemma EntryFields(entryId: Id, taskId: Id, from: Status, to: Status, clock: Clock, u: Option<User>)
    ensures StatusActivity(entryId, taskId, from, to, clock, u) ==
            Entry(entryId, taskId, StatusEntry, PeriodOfDay(Daily, clock.today), clock.now,
                  if u.Some? then Some(u.value.id) else None,
                  if u.Some? then u.value.name else "", "", Some(from), Some(to), None)
  {
    hide PeriodOfDay;
  }

  // ---- facts for the loops of Materialize ----

  lemma LatestOfNone(tasks: map<Id, Task>)
    ensures LatestAmong(tasks, InSeries(tasks) - InSeries(tasks), map[])
  {
  }

  lemma MemberRow(tasks: map<Id, Task>, x: Id)
    requires x in InSeries(tasks)
    ensures x in tasks && tasks[x].seriesId.Some?
  {
  }

  lemma ConsistentKeyed(db: DB)
    requires Consistent(db)
    ensures Keyed(db.tasks)
  {
  }

  lemma StartOfRun(before: DB, latest: map<Id, Task>, newId: (Id, string) -> Id, clock: Clock, zone: Zone)
    requires GoodClock(clock)
    ensures Covered(before, latest, latest.Keys, [], clock, zone)
    ensures InsertAll(before, before, [], newId, clock) == before
  {
  }

  lemma LatestRow(tasks: map<Id, Task>, latest: map<Id, Task>, s: Id)
    requires LatestAmong(tasks, InSeries(tasks), latest) && s in latest
    ensures latest[s].id in tasks && tasks[latest[s].id] == latest[s] && latest[s].seriesId == Some(s)
  {
  }

  lemma SpawnHorizonRanked(t: Task)
    requires Live(t)
    ensures t.recurrence.Some? && Ranked(SpawnHorizon(t))
            && RecurrenceHorizon(t.recurrence.value.freq) == Some(SpawnHorizon(t))
  {
  }

  lemma WantedIsMissing(db: DB, t: Task, clock: Clock, zone: Zone, lower: Fold)
    requires Live(t) && GoodClock(clock)
    requires Canonical(SpawnHorizon(t), PeriodOfDay(SpawnHorizon(t), clock.today))
    ensures t.recurrence.Some?
    ensures Wanted(t, clock, zone) ==
            Missing(t.recurrence.value, SpawnHorizon(t), t.period, PeriodOfDay(SpawnHorizon(t), clock.today), zone)
    ensures Good(db, lower) && t.id in db.tasks && db.tasks[t.id] == t && BeforeLastPeriods(clock) ==>
            Wanted(t, clock, zone).Some?
  {
    hide Missing, GoodRow, PeriodOfDay, IndexOfDay, LastIndex, GoodForest, Consistent;
    if Good(db, lower) && t.id in db.tasks && db.tasks[t.id] == t && BeforeLastPeriods(clock) {
      GoodRowOf(db, t.id, lower);
      WantedExists(t, clock, zone, lower);
    }
  }

  lemma CoveredFacts(start: DB, latest: map<Id, Task>, pending: set<Id>, spawns: seq<Spawn>, clock: Clock, zone: Zone)
    requires GoodClock(clock) && Covered(start, latest, pending, spawns, clock, zone)
    ensures Distinct(spawns) && forall i :: 0 <= i < |spawns| ==> SpawnWanted(start, spawns[i], clock, zone)
  {
  }

  lemma SpawnedFields(t: Task, h: Horizon, period: string, newId: Id, clock: Clock)
    requires Live(t) && t.recurrence.Some? && h == SpawnHorizon(t)
    ensures SpawnRow(t, period, newId, clock) ==
            Task(newId, t.title, t.notes, h, period, DueDateForSpawn(t.recurrence.value, h, period), Todo, t.priority,
                 t.tags, None, t.teamId,
                 t.assigneeId, if t.teamId.Some? then CurrentWeek(clock)
                     else "", t.ownerId, t.recurrence, t.seriesId, clock.now, clock.now, None)
  {
    hide DueDateForSpawn, CurrentWeek;
  }

  /** The k-th insert of one series, after those of earlier series. */
  lemma SpawnNext(start: DB, earlier: seq<Spawn>, t: Task, periods: seq<string>, k: nat, newId: (Id, string) -> Id,
                  clock: Clock, zone: Zone, lower: Fold)
    requires GoodClock(clock) && FreshIds(start.tasks, newId) && t.id in start.tasks && start.tasks[t.id] == t
             && Live(t)
    requires k < |periods| && Distinct(earlier + SpawnsOf(t.id, periods))
    requires forall i :: 0 <= i < |earlier| ==> SpawnWanted(start, earlier[i], clock, zone)
    requires forall k :: 0 <= k < |periods| ==> SpawnWanted(start, Spawn(t.id, periods[k]), clock, zone)
    ensures var done, more := earlier + SpawnsOf(t.id, periods[..k]), earlier + SpawnsOf(t.id, periods[..k + 1]);
            && var db := InsertAll(start, start, done, newId, clock);
               var row := SpawnRow(t, periods[k], newId(t.id, periods[k]), clock);
               && row.id !in db.tasks
               && (Good(start, lower) && SeriesSlotFree(db.tasks, row) ==> RowFits(db, row))
               && InsertAll(start, start, more, newId, clock) ==
                  if SeriesSlotFree(db.tasks, row) then db.(tasks := db.tasks[row.id := row]) else db
  {
    hide *;
    var done, next := earlier + SpawnsOf(t.id, periods[..k]), Spawn(t.id, periods[k]);
    SoFar(earlier, t.id, periods, k);
    SoFarWanted(start, earlier, t.id, periods, k, clock, zone);
    NextInsertFits(start, done, next, newId, clock, zone, lower);
    InsertOneMore(start, done, next, newId, clock);
    InsertApplies(InsertAll(start, start, done, newId, clock), t, periods[k], newId(t.id, periods[k]), clock);
  }

  lemma SoFarWanted(start: DB, earlier: seq<Spawn>, x: Id, periods: seq<string>, k: nat, clock: Clock, zone: Zone)
    requires GoodClock(clock) && k < |periods|
    requires forall i :: 0 <= i < |earlier| ==> SpawnWanted(start, earlier[i], clock, zone)
    requires forall k :: 0 <= k < |periods| ==> SpawnWanted(start, Spawn(x, periods[k]), clock, zone)
    ensures var done, next := earlier + SpawnsOf(x, periods[..k]), Spawn(x, periods[k]);
            && (forall i :: 0 <= i < |done| ==> SpawnWanted(start, done[i], clock, zone))
            && (forall i :: 0 <= i < |done + [next]| ==> SpawnWanted(start, (done + [next])[i], clock, zone))
            && done + [next] == earlier + SpawnsOf(x, periods[..k + 1])
  {
    hide SpawnWanted, GoodClock;
    var done := earlier + SpawnsOf(x, periods[..k]);
    forall i | 0 <= i < |done| ensures SpawnWanted(start, done[i], clock, zone) {
      if i >= |earlier| { assert done[i] == Spawn(x, periods[i - |earlier|]); }
    }
  }

  lemma InsertApplies(db: DB, t: Task, period: string, newId: Id, clock: Clock)
    requires Live(t)
    ensures var row := SpawnRow(t, period, newId, clock);
            && row.id == newId
            && InsertSpawn(db, t, period, newId, clock) ==
               if SeriesSlotFree(db.tasks, row) then db.(tasks := db.tasks[newId := row]) else db
  {
    hide SeriesSlotFree, RowFits;
  }

  lemma SoFar(earlier: seq<Spawn>, x: Id, periods: seq<string>, k: nat)
    requires k < |periods| && Distinct(earlier + SpawnsOf(x, periods))
    ensures Distinct(earlier + SpawnsOf(x, periods[..k]) + [Spawn(x, periods[k])])
    ensures forall i :: 0 <= i < k ==> SpawnsOf(x, periods[..k])[i] == Spawn(x, periods[i])
  {
    var all := earlier + SpawnsOf(x, periods);
    assert earlier + SpawnsOf(x, periods[..k]) + [Spawn(x, periods[k])] == all[..|earlier| + k + 1];
  }

  lemma AllOf(earlier: seq<Spawn>, x: Id, periods: seq<string>)
    ensures forall k :: 0 <= k < |periods| ==> (earlier + SpawnsOf(x, periods))[|earlier| + k] == Spawn(x, periods[k])
  {
  }
}
