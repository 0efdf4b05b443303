/** What an accepted create, patch or reschedule leaves in every field of a row, and
    exactly when it is accepted (internal/service/tasks.go). */
module TaskWrites {
  import opened Base
  import opened Calendar
  import opened Forest
  import opened Period
  import opened Recur
  import opened Model
  import opened Tags
  import opened Transitions
  import opened TaskRules
  import opened TaskFaults
  import opened Runs
  import opened TaskInvariants

  // ---- one field of a body ----

  /** A plain field takes the value the body gives; null and absence leave it. */
  predicate Written<T(==)>(after: T, before: T, f: Field<T>) {
    (f.Given? ==> after == f.value) && (!f.Given? ==> after == before)
  }

  /** A nullable field is cleared by null. */
  predicate SetOrCleared<T(==)>(after: Option<T>, before: Option<T>, f: Field<T>) {
    (f.Given? ==> after == Some(f.value)) && (f.Null? ==> after == None) && (f.Absent? ==> after == before)
  }

  /** A list that null empties. */
  predicate ListWritten<T(==)>(after: seq<T>, before: seq<T>, f: Field<seq<T>>) {
    (f.Given? ==> after == f.value) && (f.Null? ==> after == []) && (f.Absent? ==> after == before)
  }

  // ---- recurrence ----

  predicate EveryOne(interval: Option<int>) {
    interval.None? || interval.value <= 1
  }

  predicate SameSteps(a: Option<int>, b: Option<int>) {
    a == b || (EveryOne(a) && EveryOne(b))
  }

  /** A series starts at its period; for weekday rules, at the week of that date. */
  predicate AnchoredAt(r: Recurrence, period: string) {
    if r.freq == OnWeekdays
    then ParseDate(period).Some? && r.anchor == WeekText(WeekOf(ParseDate(period).value))
    else r.anchor == period
  }

  /** The anchor moves only with the frequency or the interval. */
  predicate AnchorKept(r: Recurrence, prior: Option<Recurrence>, period: string) {
    if prior.Some? && prior.value.freq == r.freq && SameSteps(prior.value.interval, r.interval)
    then r.anchor == prior.value.anchor
    else AnchoredAt(r, period)
  }

  /** A rule that the body does not name stays; one that it names takes the sub-fields it
      gives, the others from the stored rule or, without one, from nothing. */
  predicate RuleWritten(after: Option<Recurrence>, prior: Option<Recurrence>, f: Field<RecurrencePatch>,
                        period: string) {
    match f
    case Null => after == None
    case Absent =>
      && (after.Some? <==> prior.Some?)
      && (after.Some? ==> after.value == prior.value.(anchor := after.value.anchor)
                          && AnchorKept(after.value, prior, period))
    case Given(q) =>
      var base := if prior.Some? then prior.value else Recurrence(OtherFreq(""), None, "", [], 0);
      && after.Some?
      && Written(after.value.freq, base.freq, q.freq)
      && SetOrCleared(after.value.interval, base.interval, q.interval)
      && ListWritten(after.value.weekdays, base.weekdays, q.weekdays)
      && Written(after.value.dayOfMonth, base.dayOfMonth, q.dayOfMonth)
      && AnchorKept(after.value, prior, period)
  }

  // ---- a whole row ----

  /** The fields a body writes directly. */
  predicate BodyWritten(row: Task, t: Task, p: Patch) {
    && Written(row.title, t.title, p.title)
    && Written(row.notes, t.notes, p.notes)
    && Written(row.horizon, t.horizon, p.horizon)
    && Written(row.period, t.period, p.period)
    && Written(row.dueDate, t.dueDate, p.dueDate)
    && Written(row.status, t.status, p.status)
    && Written(row.priority, t.priority, p.priority)
    && SetOrCleared(row.parentId, t.parentId, p.parentId)
    && SetOrCleared(row.teamId, t.teamId, p.teamId)
    && SetOrCleared(row.assigneeId, t.assigneeId, p.assigneeId)
    && RuleWritten(row.recurrence, t.recurrence, p.recurrence, row.period)
  }

  /** The tags a body asks for, before they are normalised. */
  function RawTags(t: Task, p: Patch): seq<string> {
    match p.tags
    case Given(v) => v
    case Null => []
    case Absent => t.tags
  }

  /** A team's task shows the week it was closed in, or else the week the body names, or
      else the one it came to the team in; a personal task shows none. */
  predicate WeekWritten(row: Task, t: Task, p: Patch, thisWeek: string) {
    if row.teamId.Some? && t.status != Done && t.status != Cancelled && (row.status == Done || row.status == Cancelled)
    then row.weekOf == thisWeek
    else if p.weekOf.Given? then row.weekOf == p.weekOf.value
    else if p.weekOf.Null? then row.weekOf == t.weekOf
    else if t.teamId.None? && row.teamId.Some? then row.weekOf == thisWeek
    else if t.teamId.Some? && row.teamId.None? then row.weekOf == ""
    else row.weekOf == t.weekOf
  }

  /** A team's task has no owner; one taken from a team belongs to whoever took it. */
  predicate OwnerWritten(row: Task, t: Task, p: Patch, u: Option<User>) {
    if t.teamId.None? && row.teamId.Some? then row.ownerId == None
    else if t.teamId.Some? && row.teamId.None? && u.Some? then row.ownerId == Some(u.value.id)
    else row.ownerId == if t.ownerId.Some? && p.ownerId.Given? then Some(p.ownerId.value) else t.ownerId
  }

  /** Completion is dated when the task becomes done, and cleared when it is done no more. */
  predicate CompletionWritten(row: Task, t: Task, p: Patch, now: int) {
    if t.status != Done && row.status == Done then row.completedAt == Some(now)
    else if t.status == Done && row.status != Done then row.completedAt == None
    else row.completedAt == if t.completedAt.Some? && p.completedAt.Given? then Some(p.completedAt.value)
                            else t.completedAt
  }

  /** Every field of the row that a patch leaves. */
  predicate PatchWritten(row: Task, t: Task, p: Patch, u: Option<User>, clock: Clock, lower: Fold) {
    && BodyWritten(row, t, p)
    && Normalized(RawTags(t, p), lower) == Some(row.tags)
    && WeekWritten(row, t, p, WeekText(WeekOf(clock.today)))
    && OwnerWritten(row, t, p, u)
    && CompletionWritten(row, t, p, clock.now)
    && row.seriesId == (if t.seriesId.Some? && p.seriesId.Given? then Some(p.seriesId.value) else t.seriesId)
    && row.id == t.id && row.createdAt == t.createdAt && row.updatedAt == clock.now
  }

  // ---- the patched row ----

  /** A member who is no admin neither adds nor removes a team, hands a task only to a team
      of hers, and does not set its week; a week is set on a team's task only, and readable. */
  predicate MayWrite(row: Task, t: Task, p: Patch, u: Option<User>) {
    && (u.Some? && !u.value.admin ==>
         && (t.teamId.Some? <==> row.teamId.Some?)
         && (row.teamId.Some? ==> row.teamId.value in u.value.teams)
         && p.weekOf.Absent?)
    && (!p.weekOf.Absent? ==>
         && row.teamId.Some?
         && ParseISOWeek(if p.weekOf.Given? then p.weekOf.value else t.weekOf).Some?)
  }

  /** The row that the body and the rules make of t, tags as they come. */
  function Candidate(t: Task, p: Patch, u: Option<User>, clock: Clock): Result<Task, ApiError> {
    Derived(SharedOrig(t, p), Merged(t, p), p, u, clock)
  }

  /** Re-anchoring does not fail on a row whose date, for a weekday rule, is readable. */
  lemma AnchoredIs(prior: Option<Recurrence>, t: Task)
    requires t.recurrence.Some? && t.recurrence.value.freq == OnWeekdays ==> ParseDate(t.period).Some?
    ensures var a := Anchored(prior, t);
            && a.Some?
            && a.value == t.(recurrence := a.value.recurrence)
            && (t.recurrence.None? <==> a.value.recurrence.None?)
            && (t.recurrence.Some? ==>
                 var r := a.value.recurrence.value;
                 && r == t.recurrence.value.(anchor := r.anchor)
                 && AnchorKept(r, prior, t.period))
  {
    hide ParseDate, WeekText, WeekOf;
  }

  /** The middle of a patch fails exactly on what u may not write. */
  lemma CandidateIff(row: Task, t: Task, p: Patch, u: Option<User>, clock: Clock)
    requires SetOrCleared(row.teamId, t.teamId, p.teamId)
    ensures Candidate(t, p, u, clock).Ok? <==> MayWrite(row, t, p, u)
  {
    hide ParseISOWeek, PeriodOfDay, MergedRecurrence;
  }

  lemma CandidateWritten(t: Task, p: Patch, u: Option<User>, clock: Clock)
    requires Candidate(t, p, u, clock).Ok?
    ensures var d := Candidate(t, p, u, clock).value;
            && WeekWritten(d, t, p, WeekText(WeekOf(clock.today)))
            && OwnerWritten(d, t, p, u)
            && CompletionWritten(d, t, p, clock.now)
            && d.seriesId == (if t.seriesId.Some? && p.seriesId.Given? then Some(p.seriesId.value) else t.seriesId)
            && d.id == t.id && d.createdAt == t.createdAt && d.updatedAt == clock.now
            && d.tags == RawTags(t, p)
  {
    hide ParseISOWeek, WeekText, WeekOf, MergedRecurrence;
  }

  lemma CandidateBody(t: Task, p: Patch, u: Option<User>, clock: Clock)
    requires Candidate(t, p, u, clock).Ok?
    ensures var d := Candidate(t, p, u, clock).value;
            && Written(d.title, t.title, p.title)
            && Written(d.notes, t.notes, p.notes)
            && Written(d.horizon, t.horizon, p.horizon)
            && Written(d.period, t.period, p.period)
            && Written(d.dueDate, t.dueDate, p.dueDate)
            && Written(d.status, t.status, p.status)
            && Written(d.priority, t.priority, p.priority)
            && SetOrCleared(d.parentId, t.parentId, p.parentId)
            && SetOrCleared(d.teamId, t.teamId, p.teamId)
            && SetOrCleared(d.assigneeId, t.assigneeId, p.assigneeId)
            && d.recurrence == MergedRecurrence(t.recurrence, p.recurrence)
  {
    hide ParseISOWeek, PeriodOfDay, MergedRecurrence;
  }

  lemma RuleMerged(t: Task, p: Patch, row: Task)
    requires row.recurrence.Some? <==> MergedRecurrence(t.recurrence, p.recurrence).Some?
    requires row.recurrence.Some? ==>
               && row.recurrence.value ==
                  MergedRecurrence(t.recurrence, p.recurrence).value.(anchor := row.recurrence.value.anchor)
               && AnchorKept(row.recurrence.value, t.recurrence, row.period)
    ensures RuleWritten(row.recurrence, t.recurrence, p.recurrence, row.period)
  {
    hide AnchorKept;
  }

  /** What the rules leave open is nothing: two rows that they allow are one. */
  lemma PatchWrittenOnce(a: Task, b: Task, t: Task, p: Patch, u: Option<User>, clock: Clock, lower: Fold)
    requires PatchWritten(a, t, p, u, clock, lower) && PatchWritten(b, t, p, u, clock, lower)
    ensures a == b
  {
    hide WeekText, WeekOf, ParseDate, Normalized, RuleWritten;
    RuleWrittenOnce(a.recurrence, b.recurrence, t.recurrence, p.recurrence, a.period);
  }

  lemma RuleWrittenOnce(a: Option<Recurrence>, b: Option<Recurrence>, prior: Option<Recurrence>,
                        f: Field<RecurrencePatch>, period: string)
    requires RuleWritten(a, prior, f, period) && RuleWritten(b, prior, f, period)
    ensures a == b
  {
    hide WeekText, WeekOf, ParseDate;
  }

  /** Faults do not depend on the fields a server fills in later. */
  lemma SameFaults(db: DB, a: Task, b: Task, self: Option<Id>, u: Option<User>, lower: Fold)
    requires && a.title == b.title && a.horizon == b.horizon && a.period == b.period && a.dueDate == b.dueDate
             && a.status == b.status && a.priority == b.priority && a.tags == b.tags
             && a.parentId == b.parentId && a.teamId == b.teamId && a.assigneeId == b.assigneeId
    requires a.recurrence.Some? <==> b.recurrence.Some?
    requires a.recurrence.Some? ==> a.recurrence.value == b.recurrence.value.(anchor := a.recurrence.value.anchor)
    ensures Faultless(db, a, self, u, lower) <==> Faultless(db, b, self, u, lower)
  {
    hide AllSpace, ReadablePeriod, ParseDate, Normalized, Sees, CoarserThan, Reaches;
    forall f ensures HasFault(db, a, self, u, lower, f) <==> HasFault(db, b, self, u, lower, f) {
    }
    hide HasFault;
  }

  // ---- when a patch is accepted ----

  /** What only the tables check of a faultless row: its owner, and its series' slot. */
  predicate LastConstraints(db: DB, row: Task) {
    && (row.ownerId.Some? ==> row.ownerId.value in db.members)
    && (row.seriesId.Some? ==>
         forall x :: x in db.tasks && x != row.id ==>
           db.tasks[x].seriesId != row.seriesId || db.tasks[x].period != row.period)
  }

  lemma FitsIs(db: DB, row: Task, raw: Task, self: Option<Id>, u: Option<User>, lower: Fold)
    requires row == raw.(tags := row.tags) && Faultless(db, raw, self, u, lower)
    ensures RowFits(db, row) <==> LastConstraints(db, row)
  {
    hide AllSpace, ReadablePeriod, ParseDate, Normalized, Sees, CoarserThan, Reaches, RuleWrong, RuleFitsHorizon;
    assert !HasFault(db, raw, self, u, lower, InvalidHorizon) && !HasFault(db, raw, self, u, lower, InvalidStatus)
           && !HasFault(db, raw, self, u, lower, InvalidPriority)
           && !HasFault(db, raw, self, u, lower, ParentNotFound)
           && !HasFault(db, raw, self, u, lower, TeamNotFound)
           && !HasFault(db, raw, self, u, lower, AssigneeNotFound);
  }

  /** Row id is seen by u, who may write the new row; that has no fault, and no child of
      it would be coarser. */
  ghost predicate Proposes(db: DB, id: Id, row: Task, p: Patch, u: Option<User>, lower: Fold)
    requires id in db.tasks
  {
    var t := db.tasks[id];
    && Sees(u, t)
    && MayWrite(row, t, p, u)
    && Faultless(db, row.(tags := RawTags(t, p)), Some(id), u, lower)
    && (row.horizon != t.horizon ==>
         forall x :: x in db.tasks && db.tasks[x].parentId == Some(id) ==>
           !CoarserThan(db.tasks[x].horizon, row.horizon))
  }

  /** And the change of status is one the engine makes, and the tables agree. */
  ghost predicate Accepts(db: DB, id: Id, row: Task, p: Patch, u: Option<User>, table: seq<Transition>, lower: Fold)
    requires id in db.tasks
  {
    var t := db.tasks[id];
    && Proposes(db, id, row, p, u, lower)
    && (row.status != t.status ==>
         Refusal(table, t.status, row.status) == None && (u.Some? ==> u.value.id in db.members))
    && LastConstraints(db, row)
  }

  lemma SeesIs(u: Option<User>, t: Task)
    ensures Sees(u, t) <==> u.None? || CanAccess(u.value, t)
  {
  }

  lemma CoarserChildIs(tasks: map<Id, Task>, id: Id, h: Horizon)
    ensures HasCoarserChild(tasks, id, h) <==>
            exists x :: x in tasks && tasks[x].parentId == Some(id) && CoarserThan(tasks[x].horizon, h)
  {
    hide HorizonRank, CoarserThan;
    forall x | x in tasks ensures HorizonRank(tasks[x].horizon) > HorizonRank(h) <==>
                                  CoarserThan(tasks[x].horizon, h) {
      CoarserIsRank(tasks[x].horizon, h);
    }
  }

  /** The row that comes out of validation and re-anchoring. */
  lemma ValidatedCandidate(db: DB, id: Id, d: Task, p: Patch, u: Option<User>, clock: Clock, lower: Fold)
    requires id in db.tasks && Candidate(db.tasks[id], p, u, clock) == Ok(d)
    requires Faultless(db, d, Some(id), u, lower)
    ensures Validated(db, d, Some(id), u, lower).Ok?
    ensures var t := db.tasks[id];
            var c := Anchored(t.recurrence, Validated(db, d, Some(id), u, lower).value);
            && c.Some?
            && PatchWritten(c.value, t, p, u, clock, lower)
            && (Faultless(db, c.value.(tags := RawTags(t, p)), Some(id), u, lower))
  {
    hide Validated, Anchored, Derived, Merged, SharedOrig, ParseISOWeek, ParseDate, WeekText, WeekOf, Normalized,
         MergedRecurrence, Sees, WeekWritten, OwnerWritten, CompletionWritten, MayWrite, AnchorKept, Faultless,
         HasFault, RuleWritten, Candidate;
    var t := db.tasks[id];
    CandidateWritten(t, p, u, clock);
    CandidateBody(t, p, u, clock);
    FirstFaultIsReported(db, d, Some(id), u, lower, TitleRequired);
    var v := Validated(db, d, Some(id), u, lower).value;
    WeekdayDateReadable(db, d, Some(id), u, lower);
    AnchoredIs(t.recurrence, v);
    var c := Anchored(t.recurrence, v).value;
    RuleMerged(t, p, c);
    SameFaults(db, c.(tags := RawTags(t, p)), d, Some(id), u, lower);
    SameSystemFields(c, d, t, p, u, clock);
  }

  lemma WeekdayDateReadable(db: DB, t: Task, self: Option<Id>, u: Option<User>, lower: Fold)
    requires Faultless(db, t, self, u, lower)
    ensures t.recurrence.Some? && t.recurrence.value.freq == OnWeekdays ==> ParseDate(t.period).Some?
  {
    hide AllSpace, ParseDate, Normalized, Sees, CoarserThan, Reaches, RuleWrong;
    assert !HasFault(db, t, self, u, lower, InvalidPeriod)
           && !HasFault(db, t, self, u, lower, RecurrenceHorizonMismatch);
  }

  lemma SameSystemFields(c: Task, d: Task, t: Task, p: Patch, u: Option<User>, clock: Clock)
    requires c == d.(tags := c.tags, recurrence := c.recurrence)
    ensures WeekWritten(c, t, p, WeekText(WeekOf(clock.today))) <==>
            WeekWritten(d, t, p, WeekText(WeekOf(clock.today)))
    ensures OwnerWritten(c, t, p, u) <==> OwnerWritten(d, t, p, u)
    ensures CompletionWritten(c, t, p, clock.now) <==> CompletionWritten(d, t, p, clock.now)
  {
    hide WeekText, WeekOf;
  }

  /** The rule that was written is the merged one, but for its anchor. */
  lemma RuleWrittenMerges(t: Task, p: Patch, row: Task)
    requires RuleWritten(row.recurrence, t.recurrence, p.recurrence, row.period)
    ensures var m := MergedRecurrence(t.recurrence, p.recurrence);
            && (row.recurrence.Some? <==> m.Some?)
            && (m.Some? ==> m.value == row.recurrence.value.(anchor := m.value.anchor))
  {
    hide AnchorKept;
  }

  lemma ProposedWrites(db: DB, id: Id, p: Patch, u: Option<User>, clock: Clock, lower: Fold)
    requires Proposed(db, id, p, u, clock, lower).Ok?
    ensures var row := Proposed(db, id, p, u, clock, lower).value;
            PatchWritten(row, db.tasks[id], p, u, clock, lower) && Proposes(db, id, row, p, u, lower)
  {
    hide Validated, Anchored, Derived, Merged, SharedOrig, PatchWritten, Normalized, Sees, MayWrite, Faultless,
         CanAccess, HasCoarserChild, CoarserThan;
    var t := db.tasks[id];
    var row := Proposed(db, id, p, u, clock, lower).value;
    SeesIs(u, t);
    var d := Candidate(t, p, u, clock).value;
    FirstFaultIsReported(db, d, Some(id), u, lower, TitleRequired);
    ValidatedCandidate(db, id, d, p, u, clock, lower);
    TeamWritten(row, t, p, u, clock, lower);
    CandidateIff(row, t, p, u, clock);
    CoarserChildIs(db.tasks, id, row.horizon);
    HorizonStays(db, d, Some(id), u, lower, t.recurrence);
  }

  lemma TeamWritten(row: Task, t: Task, p: Patch, u: Option<User>, clock: Clock, lower: Fold)
    requires PatchWritten(row, t, p, u, clock, lower)
    ensures SetOrCleared(row.teamId, t.teamId, p.teamId)
  {
  }

  lemma HorizonStays(db: DB, d: Task, self: Option<Id>, u: Option<User>, lower: Fold, prior: Option<Recurrence>)
    requires Validated(db, d, self, u, lower).Ok?
    ensures var v := Validated(db, d, self, u, lower).value;
            v.horizon == d.horizon && (Anchored(prior, v).Some? ==> Anchored(prior, v).value.horizon == d.horizon)
  {
    hide Normalized, ComputeAnchor;
    FirstFaultIsReported(db, d, self, u, lower, TitleRequired);
    hide Validated;
  }

  lemma ProposedFrom(db: DB, id: Id, p: Patch, u: Option<User>, clock: Clock, lower: Fold, row: Task)
    requires id in db.tasks && PatchWritten(row, db.tasks[id], p, u, clock, lower)
    requires Proposes(db, id, row, p, u, lower)
    ensures Proposed(db, id, p, u, clock, lower) == Ok(row)
  {
    hide Validated, Anchored, Derived, Merged, SharedOrig, PatchWritten, Normalized, Sees, MayWrite, Faultless,
         CanAccess, HasCoarserChild, CoarserThan, MergedRecurrence;
    var t := db.tasks[id];
    SeesIs(u, t);
    TeamWritten(row, t, p, u, clock, lower);
    CandidateIff(row, t, p, u, clock);
    var d := Candidate(t, p, u, clock).value;
    CandidateFaults(db, id, d, row, p, u, clock, lower);
    ValidatedCandidate(db, id, d, p, u, clock, lower);
    var v := Validated(db, d, Some(id), u, lower).value;
    PatchWrittenOnce(Anchored(t.recurrence, v).value, row, t, p, u, clock, lower);
    CoarserChildIs(db.tasks, id, row.horizon);
    HorizonStays(db, d, Some(id), u, lower, t.recurrence);
  }

  lemma CandidateFaults(db: DB, id: Id, d: Task, row: Task, p: Patch, u: Option<User>, clock: Clock, lower: Fold)
    requires id in db.tasks && Candidate(db.tasks[id], p, u, clock) == Ok(d)
    requires PatchWritten(row, db.tasks[id], p, u, clock, lower)
    ensures Faultless(db, row.(tags := RawTags(db.tasks[id], p)), Some(id), u, lower) <==>
            Faultless(db, d, Some(id), u, lower)
  {
    hide Derived, Merged, SharedOrig, Normalized, Faultless, MergedRecurrence, WeekWritten, OwnerWritten,
         CompletionWritten, RuleWritten, Candidate;
    var t := db.tasks[id];
    CandidateBody(t, p, u, clock);
    CandidateWritten(t, p, u, clock);
    RuleWrittenMerges(t, p, row);
    SameFaults(db, row.(tags := RawTags(t, p)), d, Some(id), u, lower);
  }

  /** A patch is accepted with this row exactly if every field of the row is as the body
      and the rules say, and the row is one that may be written. */
  lemma PatchedIs(db: DB, id: Id, p: Patch, u: Option<User>, clock: Clock, table: seq<Transition>, lower: Fold,
                  row: Task)
    ensures Patched(db, id, p, u, clock, table, lower) == Ok(row) <==>
            && id in db.tasks
            && PatchWritten(row, db.tasks[id], p, u, clock, lower)
            && Accepts(db, id, row, p, u, table, lower)
  {
    hide Proposed, PatchWritten, Refusal, Sees, MayWrite, Faultless, CoarserThan, LastConstraints, RowFits;
    var r := Proposed(db, id, p, u, clock, lower);
    if r.Ok? {
      ProposedWrites(db, id, p, u, clock, lower);
      TagsWritten(r.value, db.tasks[id], p, u, clock, lower);
      FitsIs(db, r.value, r.value.(tags := RawTags(db.tasks[id], p)), Some(id), u, lower);
    }
    if id in db.tasks && PatchWritten(row, db.tasks[id], p, u, clock, lower)
       && Accepts(db, id, row, p, u, table, lower) {
      ProposedFrom(db, id, p, u, clock, lower, row);
    }
  }

  lemma TagsWritten(row: Task, t: Task, p: Patch, u: Option<User>, clock: Clock, lower: Fold)
    requires PatchWritten(row, t, p, u, clock, lower)
    ensures row == row.(tags := RawTags(t, p)).(tags := row.tags)
  {
  }

  // ---- create ----

  /** Every field of a new row. */
  predicate CreateWritten(row: Task, t: Task, newId: Id, u: Option<User>, clock: Clock, lower: Fold) {
    && row.id == newId && row.title == t.title && row.notes == t.notes
    && row.horizon == t.horizon && row.period == t.period && row.dueDate == t.dueDate && row.priority == t.priority
    && row.parentId == t.parentId && row.teamId == t.teamId && row.assigneeId == t.assigneeId
    && (if t.status == OtherStatus("") then row.status == Todo else row.status == t.status)
    && Normalized(t.tags, lower) == Some(row.tags)
    && row.createdAt == clock.now && row.updatedAt == clock.now
    && (if row.status == Done then row.completedAt == Some(clock.now) else row.completedAt == None)
    && (if row.teamId.Some? then row.weekOf == WeekText(WeekOf(clock.today)) else row.weekOf == "")
    && (if u.None? then row.ownerId == t.ownerId
        else if row.teamId.Some? then row.ownerId == None
        else row.ownerId == Some(u.value.id))
    && (if t.recurrence.None? then row.recurrence == None && row.seriesId == None
        else && row.seriesId == Some(newId) && row.recurrence.Some?
             && row.recurrence.value == t.recurrence.value.(anchor := row.recurrence.value.anchor)
             && AnchoredAt(row.recurrence.value, row.period))
  }

  /** A member who is no admin creates for her own teams only. */
  ghost predicate MayCreate(db: DB, row: Task, t: Task, newId: Id, u: Option<User>, lower: Fold) {
    && (u.Some? && !u.value.admin && row.teamId.Some? ==> row.teamId.value in u.value.teams)
    && Faultless(db, row.(tags := t.tags), None, u, lower)
    && newId !in db.tasks && LastConstraints(db, row)
  }

  lemma CreatedWrites(db: DB, t: Task, newId: Id, u: Option<User>, clock: Clock, lower: Fold)
    requires Created(db, t, newId, u, clock, lower).Ok?
    ensures var row := Created(db, t, newId, u, clock, lower).value;
            CreateWritten(row, t, newId, u, clock, lower) && MayCreate(db, row, t, newId, u, lower)
  {
    hide Validated, ParseDate, WeekText, WeekOf, Normalized, Faultless, RowFits, LastConstraints;
    var row, prepared := Created(db, t, newId, u, clock, lower).value, Prepared(t, newId, u, clock);
    FirstFaultIsReported(db, prepared, None, u, lower, TitleRequired);
    SameFaults(db, row.(tags := t.tags), prepared, None, u, lower);
    FitsIs(db, row, row.(tags := t.tags), None, u, lower);
  }

  lemma CreatedFrom(db: DB, t: Task, newId: Id, u: Option<User>, clock: Clock, lower: Fold, row: Task)
    requires CreateWritten(row, t, newId, u, clock, lower) && MayCreate(db, row, t, newId, u, lower)
    ensures Created(db, t, newId, u, clock, lower) == Ok(row)
  {
    hide Validated, ParseDate, WeekText, WeekOf, Normalized, Faultless, RowFits, LastConstraints;
    var prepared := Prepared(t, newId, u, clock);
    SameFaults(db, row.(tags := t.tags), prepared, None, u, lower);
    FirstFaultIsReported(db, prepared, None, u, lower, TitleRequired);
    FitsIs(db, row, row.(tags := t.tags), None, u, lower);
    WeekdayDateReadable(db, prepared, None, u, lower);
  }

  /** A create is accepted with this row exactly if every field of the row is as the body
      and the rules say, and the row is one that may be written. */
  lemma CreatedIs(db: DB, t: Task, newId: Id, u: Option<User>, clock: Clock, lower: Fold, row: Task)
    ensures Created(db, t, newId, u, clock, lower) == Ok(row) <==>
            CreateWritten(row, t, newId, u, clock, lower) && MayCreate(db, row, t, newId, u, lower)
  {
    hide Created, CreateWritten, MayCreate;
    if Created(db, t, newId, u, clock, lower).Ok? { CreatedWrites(db, t, newId, u, clock, lower); }
    if CreateWritten(row, t, newId, u, clock, lower) && MayCreate(db, row, t, newId, u, lower) {
      CreatedFrom(db, t, newId, u, clock, lower, row);
    }
  }

  // ---- reschedule ----

  /** Today's period of the horizon, today's date if there was one, and a new time stamp. */
  predicate Moved(row: Task, t: Task, clock: Clock) {
    && row == t.(period := row.period, dueDate := row.dueDate, updatedAt := clock.now)
    && (t.horizon == Daily ==> row.period == FormatDate(clock.today))
    && (t.horizon == Weekly ==> row.period == WeekText(WeekOf(clock.today)))
    && (t.horizon == Monthly ==> row.period == FormatMonth(MonthIndexOf(clock.today)))
    && (if t.dueDate == "" then row.dueDate == "" else row.dueDate == FormatDate(clock.today))
  }

  /** A reschedule that runs to its end moves each listed task that is there, seen and not
      in the backlog, and leaves every other row and the timelines alone. */
  lemma RescheduledIs(db: DB, ids: seq<Id>, u: Option<User>, clock: Clock, x: Id)
    requires Keyed(db.tasks) && Rescheduled(db, ids, u, clock).error == None && x in db.tasks
    ensures var after := Rescheduled(db, ids, u, clock).db;
            && after == db.(tasks := after.tasks) && after.tasks.Keys == db.tasks.Keys
            && (x in ids && Sees(u, db.tasks[x]) && db.tasks[x].horizon != Backlog ==>
                 Moved(after.tasks[x], db.tasks[x], clock))
            && (x !in ids || !Sees(u, db.tasks[x]) || db.tasks[x].horizon == Backlog ==>
                 after.tasks[x] == db.tasks[x])
  {
    hide Rescheduled, Sees, CanAccess, FormatDate, WeekText, WeekOf, FormatMonth;
    SeesIs(u, db.tasks[x]);
    RescheduleMovesExactly(db, ids, u, clock, x);
  }

  /** The row would take a period that another row of its series has. */
  ghost predicate Collides(db: DB, id: Id, clock: Clock)
    requires id in db.tasks
  {
    var t := db.tasks[id];
    t.seriesId.Some? && exists y :: y in db.tasks && y != id && db.tasks[y].seriesId == t.seriesId
                                    && db.tasks[y].period == PeriodOfDay(t.horizon, clock.today)
  }

  lemma MovedFits(db: DB, id: Id, clock: Clock)
    requires Consistent(db) && id in db.tasks
    ensures RowFits(db, RescheduledRow(db.tasks[id], clock)) <==> !Collides(db, id, clock)
  {
    hide PeriodOfDay, DistinctEntryIds;
    assert RowFits(db, db.tasks[id]);
  }

  /** A reschedule that stops does so at a listed row that it is to move and that collides
      with another of its series; the rows listed before it stay moved, as if no more had
      been listed. */
  lemma {:induction false} RescheduleStops(db: DB, ids: seq<Id>, u: Option<User>, clock: Clock) returns (k: nat)
    requires Consistent(db) && Rescheduled(db, ids, u, clock).error.Some?
    ensures k < |ids|
    ensures var r, done := Rescheduled(db, ids, u, clock), Rescheduled(db, ids[..k], u, clock);
            && r == done.(error := Some(ConstraintViolation)) && done.error == None
            && ids[k] in done.db.tasks && Sees(u, done.db.tasks[ids[k]]) && done.db.tasks[ids[k]].horizon != Backlog
            && Collides(done.db, ids[k], clock)
    decreases |ids|
  {
    hide PeriodOfDay, Consistent, RowFits, Sees, CanAccess, Collides;
    if Skipped(db, ids[0], u) {
      var j := RescheduleStops(db, ids[1..], u, clock);
      k := j + 1;
      assert ids[..k][1..] == ids[1..][..j];
    } else {
      MovedFits(db, ids[0], clock);
      SeesIs(u, db.tasks[ids[0]]);
      var row := RescheduledRow(db.tasks[ids[0]], clock);
      if RowFits(db, row) {
        var next := db.(tasks := db.tasks[ids[0] := row]);
        assert Consistent(next) by { MovedKeepsConsistent(db, ids[0], clock); }
        var j := RescheduleStops(next, ids[1..], u, clock);
        k := j + 1;
        assert ids[..k][1..] == ids[1..][..j];
      } else {
        k := 0;
      }
    }
  }

  lemma MovedKeepsConsistent(db: DB, id: Id, clock: Clock)
    requires Consistent(db) && id in db.tasks && RowFits(db, RescheduledRow(db.tasks[id], clock))
    ensures Consistent(db.(tasks := db.tasks[id := RescheduledRow(db.tasks[id], clock)]))
  {
    hide RowFits, PeriodOfDay;
    WriteKeepsConsistent(db, RescheduledRow(db.tasks[id], clock));
  }
}
