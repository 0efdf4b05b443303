/** What create, patch and reschedule make of a row: validation in the source's
    order, JSON merging, and the system-managed fields (internal/service/tasks.go). */
module TaskRules {
  import opened Base
  import opened Calendar
  import opened Forest
  import opened Period
  import opened Recur
  import opened Model
  import opened Tags
  import opened Transitions

  predicate Blank(s: string) {
    |TrimSpace(s)| == 0
  }

  // ---- validateTaskFields ----

  function PlainFieldError(t: Task, lower: Fold): Option<ApiError> {
    if Blank(t.title) then Some(TitleRequired)
    else if t.horizon.OtherHorizon? then Some(InvalidHorizon)
    else if !ValidPeriod(t.horizon, t.period) then Some(InvalidPeriod)
    else if t.dueDate != "" && ParseDate(t.dueDate) == None then Some(InvalidDueDate)
    else if !ValidStatus(t.status) then Some(InvalidStatus)
    else if !ValidPriority(t.priority) then Some(InvalidPriority)
    else if Normalized(t.tags, lower) == None then Some(InvalidTags)
    else None
  }

  function BacklogError(t: Task): Option<ApiError> {
    if t.horizon != Backlog then None
    else if t.teamId.Some? then Some(BacklogIsPersonal)
    else if t.dueDate != "" then Some(BacklogHasNoDueDate)
    else if t.recurrence.Some? then Some(BacklogDoesNotRecur)
    else None
  }

  ghost function ParentError(db: DB, t: Task, self: Option<Id>, u: Option<User>): Option<ApiError> {
    match t.parentId
    case None => None
    case Some(p) =>
      if self == Some(p) then Some(OwnParent)
      else if p !in db.tasks then Some(ParentNotFound)
      else if u.Some? && !CanAccess(u.value, db.tasks[p]) then Some(ParentForbidden)
      else if HorizonRank(t.horizon) > HorizonRank(db.tasks[p].horizon) then Some(CoarserThanParent)
      else if self.Some? && Reaches(ParentsOf(db.tasks), p, self.value) then Some(ParentCycle)
      else None
  }

  function ReferenceError(db: DB, t: Task): Option<ApiError> {
    if t.teamId.Some? && t.teamId.value !in db.teams then Some(TeamNotFound)
    else match t.assigneeId
      case None => None
      case Some(a) =>
        if t.teamId == None then Some(AssigneeNeedsTeam)
        else if a !in db.members then Some(AssigneeNotFound)
        else if (a, t.teamId.value) !in db.memberTeams then Some(AssigneeNotInTeam)
        else None
  }

  function RecurrenceError(t: Task): Option<ApiError> {
    match t.recurrence
    case None => None
    case Some(r) =>
      if !ValidRecurrence(r) then Some(InvalidRecurrence)
      else if RecurrenceHorizon(r.freq) != Some(t.horizon) then Some(RecurrenceHorizonMismatch)
      else None
  }

  /** The first error of validateTaskFields, or the row with normalised tags. */
  ghost function Validated(db: DB, t: Task, self: Option<Id>, u: Option<User>, lower: Fold): Result<Task, ApiError> {
    if PlainFieldError(t, lower).Some? then Err(PlainFieldError(t, lower).value)
    else if BacklogError(t).Some? then Err(BacklogError(t).value)
    else if ParentError(db, t, self, u).Some? then Err(ParentError(db, t, self, u).value)
    else if ReferenceError(db, t).Some? then Err(ReferenceError(db, t).value)
    else if RecurrenceError(t).Some? then Err(RecurrenceError(t).value)
    else Ok(t.(tags := Normalized(t.tags, lower).value))
  }

  // ---- CreateTask ----

  function CurrentWeek(clock: Clock): string {
    PeriodOfDay(Weekly, clock.today)
  }

  /** The system-managed fields of a new row; a session user owns personal tasks. */
  function Prepared(t: Task, newId: Id, u: Option<User>, clock: Clock): Task {
    t.(id := newId,
       seriesId := None,
       status := if t.status == OtherStatus("") then Todo else t.status,
       createdAt := clock.now,
       updatedAt := clock.now,
       completedAt := if t.status == Done then Some(clock.now) else None,
       ownerId := if u.None? then t.ownerId else if t.teamId == None then Some(u.value.id) else None,
       weekOf := if t.teamId.Some? then CurrentWeek(clock) else "")
  }

  predicate OutsideTeam(u: Option<User>, t: Task) {
    u.Some? && t.teamId.Some? && !u.value.admin && t.teamId.value !in u.value.teams
  }

  ghost function Created(db: DB, t: Task, newId: Id, u: Option<User>, clock: Clock, lower: Fold): Result<Task,
      ApiError> {
    if OutsideTeam(u, t) then Err(NotTeamMember)
    else
      match Validated(db, Prepared(t, newId, u, clock), None, u, lower)
      case Err(e) => Err(e)
      case Ok(v) =>
        var row := if v.recurrence.None? then v else v.(
          seriesId := Some(newId),
          recurrence := Some(v.recurrence.value.(anchor := ComputeAnchor(v.recurrence.value.freq,
                  v.period).GetOr(""))));
        if v.recurrence.Some? && ComputeAnchor(v.recurrence.value.freq, v.period) == None then Err(InvalidAnchor)
        else if newId in db.tasks || !RowFits(db, row) then Err(ConstraintViolation)
        else Ok(row)
  }

  // ---- JSON merging ----

  /** A field of a JSON patch. */
  datatype Field<T> = Absent | Null | Given(value: T)

  datatype RecurrencePatch = RecurrencePatch(
    freq: Field<Freq>,
    interval: Field<int>,
    anchor: Field<string>,
    weekdays: Field<seq<int>>,
    dayOfMonth: Field<int>)

  datatype Patch = Patch(
    title: Field<string>,
    notes: Field<string>,
    horizon: Field<Horizon>,
    period: Field<string>,
    dueDate: Field<string>,
    status: Field<Status>,
    priority: Field<Priority>,
    tags: Field<seq<string>>,
    parentId: Field<Id>,
    teamId: Field<Id>,
    assigneeId: Field<Id>,
    weekOf: Field<string>,
    ownerId: Field<Id>,
    recurrence: Field<RecurrencePatch>,
    seriesId: Field<Id>,
    completedAt: Field<int>)

  /** null leaves a plain JSON-decoded field alone. */
  function Plain<T>(prior: T, f: Field<T>): T {
    if f.Given? then f.value else prior
  }

  /** null clears a nullable field. */
  function Nullable<T>(prior: Option<T>, f: Field<T>): Option<T> {
    match f
    case Absent => prior
    case Null => None
    case Given(v) => Some(v)
  }

  /** What the shallow copy orig sees afterwards: decoding writes into a value
      that is already set, and orig shares it; null only detaches the patched row. */
  function Shared<T>(prior: Option<T>, f: Field<T>): Option<T> {
    if prior.Some? && f.Given? then Some(f.value) else prior
  }

  const ZERO_RECURRENCE := Recurrence(OtherFreq(""), None, "", [], 0)

  function MergedRecurrence(prior: Option<Recurrence>, f: Field<RecurrencePatch>): Option<Recurrence> {
    match f
    case Absent => prior
    case Null => None
    case Given(p) =>
      var r := if prior.Some? then prior.value else ZERO_RECURRENCE;
      Some(Recurrence(Plain(r.freq, p.freq), Nullable(r.interval, p.interval), Plain(r.anchor, p.anchor),
                      if p.weekdays.Null? then [] else Plain(r.weekdays, p.weekdays),
                          Plain(r.dayOfMonth, p.dayOfMonth)))
  }

  /** json.Unmarshal onto the row; id, createdAt and the timeline are put back. */
  function Merged(t: Task, p: Patch): Task {
    t.(title := Plain(t.title, p.title),
       notes := Plain(t.notes, p.notes),
       horizon := Plain(t.horizon, p.horizon),
       period := Plain(t.period, p.period),
       dueDate := Plain(t.dueDate, p.dueDate),
       status := Plain(t.status, p.status),
       priority := Plain(t.priority, p.priority),
       tags := if p.tags.Null? then [] else Plain(t.tags, p.tags),
       parentId := Nullable(t.parentId, p.parentId),
       teamId := Nullable(t.teamId, p.teamId),
       assigneeId := Nullable(t.assigneeId, p.assigneeId),
       weekOf := Plain(t.weekOf, p.weekOf),
       ownerId := Nullable(t.ownerId, p.ownerId),
       recurrence := MergedRecurrence(t.recurrence, p.recurrence),
       seriesId := Nullable(t.seriesId, p.seriesId),
       completedAt := Nullable(t.completedAt, p.completedAt))
  }

  /** orig after decoding, shared values included. */
  function SharedOrig(t: Task, p: Patch): Task {
    t.(teamId := Shared(t.teamId, p.teamId),
       ownerId := Shared(t.ownerId, p.ownerId),
       seriesId := Shared(t.seriesId, p.seriesId),
       completedAt := Shared(t.completedAt, p.completedAt))
  }

  // ---- patchTaskTx ----

  /** Team, owner, week, completion: the fields a patch derives, in the source's order. */
  function Derived(orig: Task, merged: Task, p: Patch, u: Option<User>, clock: Clock): Result<Task, ApiError> {
    var toTeam := orig.teamId.None? && merged.teamId.Some?;
    var toPersonal := orig.teamId.Some? && merged.teamId.None?;
    var owner := if toTeam then None
                 else if toPersonal && u.Some? then Some(u.value.id)
                 else orig.ownerId;
    var week := if toTeam then CurrentWeek(clock) else if toPersonal then "" else merged.weekOf;
    var completed := if orig.status != Done && merged.status == Done then Some(clock.now)
                     else if orig.status == Done && merged.status != Done then None
                     else orig.completedAt;
    if u.Some? && !u.value.admin && orig.teamId != merged.teamId then Err(TeamChangeForbidden)
    else if OutsideTeam(u, merged) then Err(NotTeamMember)
    else if !p.weekOf.Absent? && u.Some? && !u.value.admin then Err(WeekOfForbidden)
    else if !p.weekOf.Absent? && merged.teamId.None? then Err(WeekOfOnPersonal)
    else if !p.weekOf.Absent? && ParseISOWeek(merged.weekOf) == None then Err(InvalidWeekOf)
    else
      Ok(merged.(
        seriesId := orig.seriesId,
        ownerId := owner,
        weekOf := if !Terminal(orig.status) && Terminal(merged.status) && merged.teamId.Some? then CurrentWeek(clock)
                  else if !p.weekOf.Absent? then merged.weekOf
                  else week,
        completedAt := completed,
        updatedAt := clock.now))
  }

  /** validateChildrenHorizon: a child coarser than the new horizon. */
  predicate HasCoarserChild(tasks: map<Id, Task>, id: Id, h: Horizon) {
    exists x :: x in tasks && tasks[x].parentId == Some(id) && HorizonRank(tasks[x].horizon) > HorizonRank(h)
  }

  /** Re-anchor on a change of frequency or interval only. */
  function Anchored(prior: Option<Recurrence>, t: Task): Option<Task> {
    match t.recurrence
    case None => Some(t)
    case Some(r) =>
      if prior.Some? && prior.value.freq == r.freq && EffectiveInterval(prior.value) == EffectiveInterval(r) then
        Some(t.(recurrence := Some(r.(anchor := prior.value.anchor))))
      else
        match ComputeAnchor(r.freq, t.period)
        case Some(a) => Some(t.(recurrence := Some(r.(anchor := a))))
        case None => None
  }

  /** What a patch makes of the stored row before anything is written. */
  ghost function Proposed(db: DB, id: Id, p: Patch, u: Option<User>, clock: Clock, lower: Fold)
    : (res: Result<Task, ApiError>)
    ensures res.Ok? ==> id in db.tasks
  {
    if id !in db.tasks then Err(TaskNotFound)
    else
      var prior := db.tasks[id];
      if u.Some? && !CanAccess(u.value, prior) then Err(NotAllowed)
      else
        match Derived(SharedOrig(prior, p), Merged(prior, p), p, u, clock)
        case Err(e) => Err(e)
        case Ok(d) =>
          match Validated(db, d, Some(id), u, lower)
          case Err(e) => Err(e)
          case Ok(v) =>
            if v.horizon != prior.horizon && HasCoarserChild(db.tasks, id, v.horizon) then Err(CoarserThanChild)
            else
              match Anchored(prior.recurrence, v)
              case None => Err(InvalidAnchor)
              case Some(row) => Ok(row)
  }

  /** The row that a patch writes, or the error that stops it. */
  ghost function Patched(db: DB, id: Id, p: Patch, u: Option<User>, clock: Clock, table: seq<Transition>, lower: Fold)
    : Result<Task, ApiError>
  {
    match Proposed(db, id, p, u, clock, lower)
    case Err(e) => Err(e)
    case Ok(row) =>
      var prior := db.tasks[id];
      if row.status != prior.status && Refusal(table, prior.status, row.status).Some?
      then Err(Refusal(table, prior.status, row.status).value)
      else if !Writable(db, prior, row, u) then Err(ConstraintViolation)
      else Ok(row)
  }

  /** The tables accept the row and, on a change of status, its timeline entry. */
  predicate Writable(db: DB, prior: Task, row: Task, u: Option<User>) {
    RowFits(db, row) && (row.status != prior.status ==> AuthorExists(db, u))
  }

  /** task_activity.by_id references a member. */
  predicate AuthorExists(db: DB, u: Option<User>) {
    u.Some? ==> u.value.id in db.members
  }

  /** The timeline row that records a change of status. */
  function StatusActivity(entryId: Id, taskId: Id, from: Status, to: Status, clock: Clock, u: Option<User>): Entry {
    Entry(entryId, taskId, StatusEntry, PeriodOfDay(Daily, clock.today), clock.now,
          if u.Some? then Some(u.value.id) else None, if u.Some? then u.value.name else "",
          "", Some(from), Some(to), None)
  }

  // ---- Reschedule ----

  function RescheduledRow(t: Task, clock: Clock): Task {
    t.(period := PeriodOfDay(t.horizon, clock.today),
       dueDate := if t.dueDate != "" then PeriodOfDay(Daily, clock.today) else "",
       updatedAt := clock.now)
  }

  /** Unknown, invisible and backlog tasks are skipped silently. */
  predicate Skipped(db: DB, id: Id, u: Option<User>) {
    id !in db.tasks || (u.Some? && !CanAccess(u.value, db.tasks[id])) || db.tasks[id].horizon == Backlog
  }

  datatype RescheduleResult = RescheduleResult(db: DB, updated: nat, error: Option<ApiError>)

  /** Row by row, without a transaction: an error keeps the rows already moved. */
  function Rescheduled(db: DB, ids: seq<Id>, u: Option<User>, clock: Clock): RescheduleResult
    decreases |ids|
  {
    if |ids| == 0 then RescheduleResult(db, 0, None)
    else if Skipped(db, ids[0], u) then Rescheduled(db, ids[1..], u, clock)
    else
      var row := RescheduledRow(db.tasks[ids[0]], clock);
      if !RowFits(db, row) then RescheduleResult(db, 0, Some(ConstraintViolation))
      else
        var rest := Rescheduled(db.(tasks := db.tasks[ids[0] := row]), ids[1..], u, clock);
        rest.(updated := rest.updated + 1)
  }
}
