/** What is refused of a task's fields, each fault looked at alone, and which fault a
    caller is told (internal/service/tasks.go). */
module TaskFaults {
  import opened Base
  import opened Forest
  import opened Period
  import opened Recur
  import opened Model
  import opened Tags
  import opened TaskRules

  // ---- each fault alone ----

  /** Nothing but white space. */
  predicate AllSpace(s: string) {
    forall k :: 0 <= k < |s| ==> IsSpace(s[k])
  }

  predicate ReadablePeriod(h: Horizon, s: string) {
    match h
    case Daily => ParseDate(s).Some?
    case Weekly => ParseISOWeek(s).Some?
    case Monthly => ParseMonth(s).Some?
    case Backlog => s == ""
    case OtherHorizon(_) => false
  }

  /** Months are coarser than weeks, weeks than days, and days than the backlog. */
  predicate CoarserThan(h: Horizon, g: Horizon) {
    match h
    case Monthly => g != Monthly
    case Weekly => g != Monthly && g != Weekly
    case Daily => g == Backlog || g.OtherHorizon?
    case _ => false
  }

  /** A personal task is for its owner, a team's task for the team and for admins. */
  predicate Sees(u: Option<User>, t: Task) {
    || u.None?
    || (t.teamId.None? && t.ownerId == Some(u.value.id))
    || (t.teamId.Some? && (u.value.admin || t.teamId.value in u.value.teams))
  }

  predicate RuleWrong(r: Recurrence) {
    || r.freq.OtherFreq?
    || (r.freq == OnWeekdays && r.weekdays == [])
    || (r.freq == OnWeekdays && exists k :: 0 <= k < |r.weekdays| && (r.weekdays[k] < 1 || r.weekdays[k] > 7))
    || (r.freq != OnWeekdays && r.weekdays != [])
    || (r.freq != EveryMonth && r.dayOfMonth != 0)
    || r.dayOfMonth < 0 || r.dayOfMonth > 31
    || (r.interval.Some? && r.interval.value <= 0)
  }

  predicate RuleFitsHorizon(r: Recurrence, h: Horizon) {
    match h
    case Daily => r.freq == EveryDay || r.freq == OnWeekdays
    case Weekly => r.freq == EveryWeek
    case Monthly => r.freq == EveryMonth
    case _ => false
  }

  /** Task t has this fault, as a new row or in place of row self, written by u. */
  ghost predicate HasFault(db: DB, t: Task, self: Option<Id>, u: Option<User>, lower: Fold, fault: ApiError) {
    var parent := t.parentId;
    match fault
    case TitleRequired => AllSpace(t.title)
    case InvalidHorizon => t.horizon.OtherHorizon?
    case InvalidPeriod => !ReadablePeriod(t.horizon, t.period)
    case InvalidDueDate => t.dueDate != "" && ParseDate(t.dueDate) == None
    case InvalidStatus => t.status.OtherStatus?
    case InvalidPriority => t.priority.OtherPriority?
    case InvalidTags => Normalized(t.tags, lower) == None
    case BacklogIsPersonal => t.horizon == Backlog && t.teamId.Some?
    case BacklogHasNoDueDate => t.horizon == Backlog && t.dueDate != ""
    case BacklogDoesNotRecur => t.horizon == Backlog && t.recurrence.Some?
    case OwnParent => parent.Some? && self == parent
    case ParentNotFound => parent.Some? && parent.value !in db.tasks
    case ParentForbidden => parent.Some? && parent.value in db.tasks && !Sees(u, db.tasks[parent.value])
    case CoarserThanParent =>
      parent.Some? && parent.value in db.tasks && CoarserThan(t.horizon, db.tasks[parent.value].horizon)
    case ParentCycle => parent.Some? && self.Some? && Reaches(ParentsOf(db.tasks), parent.value, self.value)
    case TeamNotFound => t.teamId.Some? && t.teamId.value !in db.teams
    case AssigneeNeedsTeam => t.assigneeId.Some? && t.teamId.None?
    case AssigneeNotFound => t.assigneeId.Some? && t.assigneeId.value !in db.members
    case AssigneeNotInTeam =>
      t.assigneeId.Some? && t.teamId.Some? && (t.assigneeId.value, t.teamId.value) !in db.memberTeams
    case InvalidRecurrence => t.recurrence.Some? && RuleWrong(t.recurrence.value)
    case RecurrenceHorizonMismatch => t.recurrence.Some? && !RuleFitsHorizon(t.recurrence.value, t.horizon)
    case _ => false
  }

  /** The order in which faults are reported. */
  function ReportingRank(e: ApiError): nat {
    match e
    case TitleRequired => 0
    case InvalidHorizon => 1
    case InvalidPeriod => 2
    case InvalidDueDate => 3
    case InvalidStatus => 4
    case InvalidPriority => 5
    case InvalidTags => 6
    case BacklogIsPersonal => 7
    case BacklogHasNoDueDate => 8
    case BacklogDoesNotRecur => 9
    case OwnParent => 10
    case ParentNotFound => 11
    case ParentForbidden => 12
    case CoarserThanParent => 13
    case ParentCycle => 14
    case TeamNotFound => 15
    case AssigneeNeedsTeam => 16
    case AssigneeNotFound => 17
    case AssigneeNotInTeam => 18
    case InvalidRecurrence => 19
    case _ => 20
  }

  ghost predicate Faultless(db: DB, t: Task, self: Option<Id>, u: Option<User>, lower: Fold) {
    forall f :: !HasFault(db, t, self, u, lower, f)
  }

  /** The fault is there, and none that comes before it. */
  ghost predicate FirstFault(db: DB, t: Task, self: Option<Id>, u: Option<User>, lower: Fold, e: ApiError) {
    && HasFault(db, t, self, u, lower, e)
    && forall f :: HasFault(db, t, self, u, lower, f) ==> ReportingRank(e) <= ReportingRank(f)
  }

  // ---- what the validation looks at ----

  lemma {:induction false} TrimLeftIsEmpty(s: string)
    ensures TrimLeft(s) == "" <==> AllSpace(s)
    ensures TrimLeft(s) != "" ==> !IsSpace(TrimLeft(s)[0])
  {
    hide IsSpace;
    if |s| == 0 {
    } else if IsSpace(s[0]) {
      TrimLeftIsEmpty(s[1..]);
      assert s == [s[0]] + s[1..];
    }
  }

  lemma {:induction false} TrimRightIsEmpty(s: string)
    ensures TrimRight(s) == "" <==> AllSpace(s)
  {
    hide IsSpace;
    if |s| == 0 {
    } else if IsSpace(s[|s| - 1]) {
      TrimRightIsEmpty(s[..|s| - 1]);
      assert s == s[..|s| - 1] + [s[|s| - 1]];
    }
  }

  lemma BlankIsAllSpace(s: string)
    ensures Blank(s) <==> AllSpace(s)
  {
    hide IsSpace, TrimLeft, TrimRight;
    TrimLeftIsEmpty(s);
    TrimRightIsEmpty(TrimLeft(s));
  }

  lemma CoarserIsRank(h: Horizon, g: Horizon)
    ensures HorizonRank(h) > HorizonRank(g) <==> CoarserThan(h, g)
  {
  }

  lemma RuleIsRight(r: Recurrence, h: Horizon)
    ensures !ValidRecurrence(r) <==> RuleWrong(r)
    ensures RecurrenceHorizon(r.freq) == Some(h) <==> RuleFitsHorizon(r, h)
  {
  }

  lemma PlainFaults(db: DB, t: Task, self: Option<Id>, u: Option<User>, lower: Fold)
    ensures var e := PlainFieldError(t, lower);
            && (e.Some? ==> FirstFault(db, t, self, u, lower, e.value))
            && (e.None? ==> forall f :: ReportingRank(f) < 7 ==> !HasFault(db, t, self, u, lower, f))
  {
    hide Blank, ParseDate, ParseISOWeek, ParseMonth, Normalized, Sees, CoarserThan, Reaches, RuleWrong,
         RuleFitsHorizon, AllSpace;
    BlankIsAllSpace(t.title);
  }

  lemma BacklogFaults(db: DB, t: Task, self: Option<Id>, u: Option<User>, lower: Fold)
    requires forall f :: ReportingRank(f) < 7 ==> !HasFault(db, t, self, u, lower, f)
    ensures var e := BacklogError(t);
            && (e.Some? ==> FirstFault(db, t, self, u, lower, e.value))
            && (e.None? ==> forall f :: ReportingRank(f) < 10 ==> !HasFault(db, t, self, u, lower, f))
  {
    hide ParseDate, ReadablePeriod, Normalized, Sees, CoarserThan, Reaches, RuleWrong, RuleFitsHorizon, AllSpace;
  }

  lemma ParentFaults(db: DB, t: Task, self: Option<Id>, u: Option<User>, lower: Fold)
    requires forall f :: ReportingRank(f) < 10 ==> !HasFault(db, t, self, u, lower, f)
    ensures var e := ParentError(db, t, self, u);
            && (e.Some? ==> FirstFault(db, t, self, u, lower, e.value))
            && (e.None? ==> forall f :: ReportingRank(f) < 15 ==> !HasFault(db, t, self, u, lower, f))
  {
    hide ParseDate, ReadablePeriod, Normalized, CoarserThan, HorizonRank, Reaches, RuleWrong, RuleFitsHorizon,
         AllSpace;
    if t.parentId.Some? && t.parentId.value in db.tasks {
      CoarserIsRank(t.horizon, db.tasks[t.parentId.value].horizon);
    }
  }

  lemma ReferenceFaults(db: DB, t: Task, self: Option<Id>, u: Option<User>, lower: Fold)
    requires forall f :: ReportingRank(f) < 15 ==> !HasFault(db, t, self, u, lower, f)
    ensures var e := ReferenceError(db, t);
            && (e.Some? ==> FirstFault(db, t, self, u, lower, e.value))
            && (e.None? ==> forall f :: ReportingRank(f) < 19 ==> !HasFault(db, t, self, u, lower, f))
  {
    hide ParseDate, ReadablePeriod, Normalized, Sees, CoarserThan, Reaches, RuleWrong, RuleFitsHorizon, AllSpace;
  }

  lemma RecurrenceFaults(db: DB, t: Task, self: Option<Id>, u: Option<User>, lower: Fold)
    requires forall f :: ReportingRank(f) < 19 ==> !HasFault(db, t, self, u, lower, f)
    ensures var e := RecurrenceError(t);
            && (e.Some? ==> FirstFault(db, t, self, u, lower, e.value))
            && (e.None? ==> Faultless(db, t, self, u, lower))
  {
    hide ParseDate, ReadablePeriod, Normalized, Sees, CoarserThan, Reaches, RuleWrong, RuleFitsHorizon, AllSpace,
         ValidRecurrence, RecurrenceHorizon;
    if t.recurrence.Some? { RuleIsRight(t.recurrence.value, t.horizon); }
  }

  /** A caller is told nothing exactly if nothing is wrong, and otherwise the fault that
      comes first in the reporting order: that one is there, the ones before it are ruled
      out, the ones after it are not. What is accepted is the task with normalised tags. */
  lemma FirstFaultIsReported(db: DB, t: Task, self: Option<Id>, u: Option<User>, lower: Fold, e: ApiError)
    ensures var r := Validated(db, t, self, u, lower);
            && (r.Ok? <==> Faultless(db, t, self, u, lower))
            && (r == Err(e) <==> FirstFault(db, t, self, u, lower, e))
            && (r.Ok? ==> Normalized(t.tags, lower).Some? && r.value == t.(tags := Normalized(t.tags, lower).value))
  {
    hide HasFault, PlainFieldError, BacklogError, ParentError, ReferenceError, RecurrenceError, Normalized,
         FirstFault, Faultless;
    PlainFaults(db, t, self, u, lower);
    if PlainFieldError(t, lower).None? {
      BacklogFaults(db, t, self, u, lower);
      if BacklogError(t).None? {
        ParentFaults(db, t, self, u, lower);
        if ParentError(db, t, self, u).None? {
          ReferenceFaults(db, t, self, u, lower);
          if ReferenceError(db, t).None? { RecurrenceFaults(db, t, self, u, lower); }
        }
      }
    }
    TagsAreFaultless(db, t, self, u, lower);
    var r := Validated(db, t, self, u, lower);
    if r.Err? { OneFirstFault(db, t, self, u, lower, r.error, e); }
  }

  lemma TagsAreFaultless(db: DB, t: Task, self: Option<Id>, u: Option<User>, lower: Fold)
    ensures Faultless(db, t, self, u, lower) ==> Normalized(t.tags, lower).Some?
    ensures forall e :: FirstFault(db, t, self, u, lower, e) ==> !Faultless(db, t, self, u, lower)
  {
    hide Normalized;
    assert HasFault(db, t, self, u, lower, InvalidTags) <==> Normalized(t.tags, lower) == None;
  }

  /** No two faults share a place in the order. */
  lemma RanksDiffer(e: ApiError, f: ApiError)
    requires ReportingRank(e) == ReportingRank(f) && ReportingRank(e) < 20
    ensures e == f
  {
  }

  lemma FaultsAreRanked(db: DB, t: Task, self: Option<Id>, u: Option<User>, lower: Fold, e: ApiError)
    requires HasFault(db, t, self, u, lower, e)
    ensures ReportingRank(e) <= 20 && (ReportingRank(e) == 20 ==> e == RecurrenceHorizonMismatch)
  {
    hide ParseDate, ReadablePeriod, Normalized, Sees, CoarserThan, Reaches, RuleWrong, RuleFitsHorizon, AllSpace;
  }

  lemma OneFirstFault(db: DB, t: Task, self: Option<Id>, u: Option<User>, lower: Fold, e: ApiError, f: ApiError)
    requires FirstFault(db, t, self, u, lower, e)
    ensures FirstFault(db, t, self, u, lower, f) <==> e == f
  {
    hide HasFault, ReportingRank;
    if FirstFault(db, t, self, u, lower, f) {
      FaultsAreRanked(db, t, self, u, lower, e);
      FaultsAreRanked(db, t, self, u, lower, f);
      if ReportingRank(e) < 20 { RanksDiffer(e, f); }
    }
  }
}
