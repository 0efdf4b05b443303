/** The rows of the task store and the constraints its tables enforce
    (internal/model/task.go, internal/repo/migrations). */
module Model {
  import opened Base
  import opened Forest
  import opened Period
  import opened Recur

  datatype Status = Todo | InProgress | Done | Cancelled | OtherStatus(name: string)

  datatype Priority = NoPriority | Low | Medium | High | OtherPriority(name: string)

  predicate ValidStatus(s: Status) {
    !s.OtherStatus?
  }

  predicate ValidPriority(p: Priority) {
    !p.OtherPriority?
  }

  predicate Open(s: Status) {
    s == Todo || s == InProgress
  }

  predicate Terminal(s: Status) {
    s == Done || s == Cancelled
  }

  /** A task row. Optional plain columns (dueDate, weekOf, notes) use "" for NULL,
      as NullStr does; instants are microsecond counts. */
  datatype Task = Task(
    id: Id,
    title: string,
    notes: string,
    horizon: Horizon,
    period: string,
    dueDate: string,
    status: Status,
    priority: Priority,
    tags: seq<string>,
    parentId: Option<Id>,
    teamId: Option<Id>,
    assigneeId: Option<Id>,
    weekOf: string,
    ownerId: Option<Id>,
    recurrence: Option<Recurrence>,
    seriesId: Option<Id>,
    createdAt: int,
    updatedAt: int,
    completedAt: Option<int>)

  datatype EntryKind = NoteEntry | StatusEntry | OtherKind(name: string)

  /** A timeline row. Its place in DB.log stands for its seq. */
  datatype Entry = Entry(
    id: Id,
    taskId: Id,
    kind: EntryKind,
    date: string,
    at: int,
    author: Option<Id>,
    byName: string,
    text: string,
    from: Option<Status>,
    to: Option<Status>,
    editedAt: Option<int>)

  /** A task with its timeline: the unit of delete responses and restore payloads. */
  datatype Doc = Doc(task: Task, activity: seq<Entry>)

  datatype DB = DB(
    tasks: map<Id, Task>,
    log: seq<Entry>,
    teams: set<Id>,
    members: set<Id>,
    memberTeams: set<(Id, Id)>)

  /** The session user; roles other than ADMIN behave as USER. */
  datatype User = User(id: Id, name: string, admin: bool, teams: set<Id>)

  /** One reading of the clock: the instant and the local day it falls on. */
  datatype Clock = Clock(now: int, today: int)

  datatype ApiError =
    | TitleRequired | InvalidHorizon | InvalidPeriod | InvalidDueDate | InvalidStatus | InvalidPriority | InvalidTags
    | BacklogIsPersonal | BacklogHasNoDueDate | BacklogDoesNotRecur
    | OwnParent | ParentNotFound | ParentForbidden | CoarserThanParent | ParentCycle
    | TeamNotFound | AssigneeNeedsTeam | AssigneeNotFound | AssigneeNotInTeam
    | InvalidRecurrence | RecurrenceHorizonMismatch
    | TaskNotFound | NotAllowed | NotTeamMember | TeamChangeForbidden | WeekOfForbidden
    | WeekOfOnPersonal | InvalidWeekOf | CoarserThanChild | InvalidAnchor
    | IllegalTransition | ConstraintViolation | ChangedConcurrently | InvalidJSON
    | TransitionMismatch
    | RestoreOwnParent | RestoreCycle | RestoreMissingRef | InvalidSpawnPeriod

  // ---- the parent relation of a table ----

  function ParentsOf(tasks: map<Id, Task>): Parents {
    map x | x in tasks && tasks[x].parentId.Some? :: tasks[x].parentId.value
  }

  predicate ParentsExist(tasks: map<Id, Task>) {
    forall x :: x in tasks && tasks[x].parentId.Some? ==> tasks[x].parentId.value in tasks
  }

  /** Every row is filed under its own id. */
  predicate Keyed(tasks: map<Id, Task>) {
    forall x :: x in tasks ==> tasks[x].id == x
  }

  // ---- timelines ----

  predicate EntryIdTaken(log: seq<Entry>, id: Id) {
    exists i :: 0 <= i < |log| && log[i].id == id
  }

  /** Ids are drawn before a row is written. */
  predicate IdsGiven(log: seq<Entry>) {
    forall i :: 0 <= i < |log| ==> log[i].id != ""
  }

  predicate DistinctEntryIds(log: seq<Entry>) {
    forall i, j :: 0 <= i < j < |log| ==> log[i].id != log[j].id
  }

  // ---- table constraints ----

  predicate SeriesSlotFree(tasks: map<Id, Task>, t: Task) {
    t.seriesId.Some? ==>
      forall x :: x in tasks && x != t.id ==> !(tasks[x].seriesId == t.seriesId && tasks[x].period == t.period)
  }

  predicate RefsExist(db: DB, t: Task) {
    && (t.parentId.Some? ==> t.parentId.value in db.tasks || t.parentId.value == t.id)
    && (t.teamId.Some? ==> t.teamId.value in db.teams)
    && (t.assigneeId.Some? ==> t.assigneeId.value in db.members)
    && (t.ownerId.Some? ==> t.ownerId.value in db.members)
  }

  predicate ValuesAllowed(t: Task) {
    && !t.horizon.OtherHorizon?
    && ValidStatus(t.status)
    && ValidPriority(t.priority)
  }

  /** What Postgres checks of one written row, apart from its primary key. */
  predicate RowFits(db: DB, t: Task) {
    RefsExist(db, t) && ValuesAllowed(t) && SeriesSlotFree(db.tasks, t)
  }

  /** The constraints that hold of every committed state. */
  predicate Consistent(db: DB) {
    && Keyed(db.tasks)
    && (forall x :: x in db.tasks ==> RowFits(db, db.tasks[x]))
    && (forall i :: 0 <= i < |db.log| ==> db.log[i].taskId in db.tasks && !db.log[i].kind.OtherKind?)
    && (forall i :: 0 <= i < |db.log| ==> db.log[i].author.Some? ==> db.log[i].author.value in db.members)
    && DistinctEntryIds(db.log)
  }

  // ---- visibility ----

  /** Personal tasks are visible to their owner only; team tasks to admins and the team. */
  predicate CanAccess(u: User, t: Task) {
    match t.teamId
    case None => t.ownerId == Some(u.id)
    case Some(team) => u.admin || team in u.teams
  }

  /** A task's timeline in append order. */
  function LogOf(log: seq<Entry>, id: Id): seq<Entry> {
    if |log| == 0 then []
    else LogOf(log[..|log| - 1], id) + (if log[|log| - 1].taskId == id then [log[|log| - 1]] else [])
  }
}
