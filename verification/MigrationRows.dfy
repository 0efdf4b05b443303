/** What a migration carries over, field by field: from the source documents to the plan
    (cmd/migrate-mongo/plan.go) and from the plan to the tables (cmd/migrate-mongo/target.go). */
module MigrationRows {
  import opened Base
  import opened Columns
  import opened Forest
  import opened Model
  import opened MigrationChecks
  import opened MigrationPlan
  import opened MigrationTarget

  predicate CarriesTeam(row: TeamRow, m: MTeam) {
    row.id == m.id && row.name == m.name && row.createdAt == m.createdAt
  }

  predicate CarriesMember(row: MemberRow, m: MMember) {
    && row.id == m.id && row.name == m.name && row.email == m.email && row.role == m.role
    && row.createdAt == m.createdAt && row.lastLoginAt == m.lastLoginAt
    && row.passwordHash == m.passwordHash && row.systemRole == m.systemRole
    && row.mustChangePassword == m.mustChangePassword && row.disabled == m.disabled
  }

  /** Every field of the document but its tags, of which the source has none. */
  predicate CarriesTask(row: Task, t: Task) {
    && row.id == t.id && row.title == t.title && row.notes == t.notes
    && row.horizon == t.horizon && row.period == t.period && row.dueDate == t.dueDate
    && row.status == t.status && row.priority == t.priority && row.tags == []
    && row.parentId == t.parentId && row.teamId == t.teamId && row.assigneeId == t.assigneeId
    && row.weekOf == t.weekOf && row.ownerId == t.ownerId
    && row.recurrence == t.recurrence && row.seriesId == t.seriesId
    && row.createdAt == t.createdAt && row.updatedAt == t.updatedAt && row.completedAt == t.completedAt
  }

  /** The author goes if no member has that id; everything else stays. */
  predicate CarriesEntry(row: Entry, e: MEntry, task: Id, members: seq<MMember>) {
    && row.id == e.id && row.taskId == task && row.kind == e.kind
    && row.date == e.date && row.at == e.at && row.editedAt == e.editedAt
    && row.byName == e.byName && row.text == e.text && row.from == e.from && row.to == e.to
    && (e.author.Some? && IsMember(members, e.author.value) ==> row.author == e.author)
    && (e.author.Some? && !IsMember(members, e.author.value) ==> row.author == None)
    && (e.author.None? ==> row.author == None)
  }

  predicate CarriesTimeline(rows: seq<Entry>, mt: MTask, members: seq<MMember>) {
    |rows| == |mt.activity| && forall k :: 0 <= k < |rows| ==>
      CarriesEntry(rows[k], mt.activity[k], mt.row.id, members)
  }

  predicate CarriesDoc(doc: Doc, mt: MTask, members: seq<MMember>) {
    CarriesTask(doc.task, mt.row) && CarriesTimeline(doc.activity, mt, members)
  }

  /** Entry k of the member's list names the team, and no entry before it does. */
  predicate FirstNamedAt(m: MMember, team: Id, k: int) {
    0 <= k < |m.teamIds| && m.teamIds[k] == team && forall j :: 0 <= j < k ==> m.teamIds[j] != team
  }

  /** The member lists the team, first at the position of r. */
  predicate Named(members: seq<MMember>, r: MemberTeamRow) {
    exists i :: 0 <= i < |members| && members[i].id == r.memberId && FirstNamedAt(members[i], r.teamId, r.pos)
  }

  // ---- from the documents to the plan ----

  /** Teams and members are planned in their order, with every field they have. */
  lemma PlanCarriesMembers(p: Plan, src: Source)
    requires PlanOf(p, src)
    ensures |p.teams| == |src.teams| && |p.members| == |src.members|
    ensures forall i :: 0 <= i < |p.teams| ==> CarriesTeam(p.teams[i], src.teams[i])
    ensures forall i :: 0 <= i < |p.members| ==> CarriesMember(p.members[i], src.members[i])
  {
    hide PlansTasks, WithStatus, MemberTeamRows;
  }

  lemma PlannedTaskCarries(mt: MTask)
    ensures CarriesTask(PlannedRow(mt), mt.row)
  {
  }

  lemma PlannedEntriesCarry(mt: MTask, members: seq<MMember>)
    ensures CarriesTimeline(EntryRows(mt.activity, mt.row.id, MemberIds(members)), mt, members)
  {
    forall k | 0 <= k < |mt.activity| && mt.activity[k].author.Some?
      ensures mt.activity[k].author.value in MemberIds(members) <==> IsMember(members, mt.activity[k].author.value) {
    }
  }

  /** Every task is planned once, with every field and its whole timeline in order, and
      nothing else is. */
  lemma PlanCarriesTasks(p: Plan, src: Source, fold: string -> string)
    requires SourceValid(src, fold) && PlanOf(p, src)
    ensures |p.tasks| == |src.tasks|
    ensures forall i :: 0 <= i < |src.tasks| ==>
              exists a :: 0 <= a < |p.tasks| && CarriesDoc(p.tasks[a], src.tasks[i], src.members)
    ensures forall a :: 0 <= a < |p.tasks| ==>
              exists i :: 0 <= i < |src.tasks| && CarriesDoc(p.tasks[a], src.tasks[i], src.members)
  {
    hide TeamsValid, MembersValid, TeamRefsValid, TasksValid, TaskTable, Timelines, WithStatus, Acyclic, TeamIds,
         MemberIds, TeamRows, MemberRows, MemberTeamRows, EntryRows, PlannedRow, CarriesTask, CarriesTimeline;
    var teamIDs, memberIDs := TeamIds(src.teams), MemberIds(src.members);
    forall i: nat | i < |src.tasks|
      ensures exists a :: 0 <= a < |p.tasks| && CarriesDoc(p.tasks[a], src.tasks[i], src.members)
    {
      var a := DocOfTask(p.tasks, src.tasks, teamIDs, memberIDs, i);
      PlannedTaskCarries(src.tasks[i]);
      PlannedEntriesCarry(src.tasks[i], src.members);
      assert CarriesDoc(p.tasks[a], src.tasks[i], src.members);
    }
    forall a: nat | a < |p.tasks|
      ensures exists i :: 0 <= i < |src.tasks| && CarriesDoc(p.tasks[a], src.tasks[i], src.members)
    {
      var i := TaskOfDoc(p.tasks, a, src.tasks, teamIDs, memberIDs);
      PlannedTaskCarries(src.tasks[i]);
      PlannedEntriesCarry(src.tasks[i], src.members);
      assert CarriesDoc(p.tasks[a], src.tasks[i], src.members);
    }
  }

  lemma {:induction false} KeptTeamsAre(m: MMember, n: nat, r: MemberTeamRow)
    requires n <= |m.teamIds|
    ensures r in KeptTeams(m, n) <==> r.memberId == m.id && r.pos < n && FirstNamedAt(m, r.teamId, r.pos)
  {
    if n == 0 {
    } else {
      KeptTeamsAre(m, n - 1, r);
      assert m.teamIds[n - 1] in m.teamIds[..n - 1] <==> exists j :: 0 <= j < n - 1 && m.teamIds[j] == m.teamIds[n - 1];
    }
  }

  lemma {:induction false} MemberTeamRowsAre(members: seq<MMember>, r: MemberTeamRow)
    ensures r in MemberTeamRows(members) <==> Named(members, r)
  {
    if |members| == 0 {
    } else {
      var n := |members| - 1;
      MemberTeamRowsAre(members[..n], r);
      KeptTeamsAre(members[n], |members[n].teamIds|, r);
      hide KeptTeams;
      assert r in MemberTeamRows(members) <==>
             r in MemberTeamRows(members[..n]) || r in KeptTeams(members[n], |members[n].teamIds|);
      assert forall i :: 0 <= i < n ==> members[..n][i] == members[i];
    }
  }

  /** A member belongs to each team of the list, at the position that names it first. */
  lemma PlanCarriesMemberTeams(p: Plan, src: Source, r: MemberTeamRow)
    requires PlanOf(p, src)
    ensures r in p.memberTeams <==> Named(src.members, r)
  {
    hide PlansTasks, WithStatus, MemberTeamRows;
    MemberTeamRowsAre(src.members, r);
  }

  // ---- from the plan to the tables ----

  /** The table holds what it held before and, under its key, each row that went in. */
  ghost predicate Holds<R(!new), V>(before: map<Id, V>, after: map<Id, V>, rows: seq<R>, key: R -> Id, value: R -> V) {
    && (forall i :: 0 <= i < |rows| ==> key(rows[i]) in after && after[key(rows[i])] == value(rows[i]))
    && (forall x :: x in before ==> x in after && after[x] == before[x])
    && |after| == |before| + |rows|
  }

  lemma HoldsOneMore<R(!new), V>(before: map<Id, V>, mid: map<Id, V>, rows: seq<R>, row: R, key: R -> Id, value: R -> V)
    requires Holds(before, mid, rows, key, value) && key(row) !in mid
    ensures Holds(before, mid[key(row) := value(row)], rows + [row], key, value)
  {
    var after := mid[key(row) := value(row)];
    assert |after| == |mid| + 1 by {
      assert after.Keys == mid.Keys + {key(row)};
      assert |after.Keys| == |after| && |mid.Keys| == |mid|;
    }
  }

  ghost predicate HoldsTeams(before: map<Id, TeamRow>, after: map<Id, TeamRow>, rows: seq<TeamRow>) {
    Holds(before, after, rows, (r: TeamRow) => r.id, (r: TeamRow) => r)
  }

  ghost predicate HoldsMembers(before: map<Id, MemberRow>, after: map<Id, MemberRow>, rows: seq<MemberRow>) {
    Holds(before, after, rows, (r: MemberRow) => r.id, (r: MemberRow) => r)
  }

  ghost predicate HoldsTasks(before: map<Id, Task>, after: map<Id, Task>, docs: seq<Doc>) {
    Holds(before, after, docs, (d: Doc) => d.task.id, (d: Doc) => d.task)
  }

  lemma TeamGoesIn(t: Tables, row: TeamRow)
    requires AddTeam(t, row).Some?
    ensures AddTeam(t, row).value == t.(teams := t.teams[row.id := row]) && row.id !in t.teams
  {
  }

  lemma {:induction false} TeamsHeld(t: Tables, rows: seq<TeamRow>)
    requires AddAll(t, rows, AddTeam).Some?
    ensures var u := AddAll(t, rows, AddTeam).value; u == t.(teams := u.teams) && HoldsTeams(t.teams, u.teams, rows)
  {
    if |rows| == 0 {
    } else {
      var init, last := rows[..|rows| - 1], rows[|rows| - 1];
      TeamsHeld(t, init);
      assert rows == init + [last];
      hide Holds, AddTeam;
      var u := AddAll(t, init, AddTeam).value;
      TeamGoesIn(u, last);
      HoldsOneMore(t.teams, u.teams, init, last, (r: TeamRow) => r.id, (r: TeamRow) => r);
    }
  }

  lemma MemberGoesIn(t: Tables, row: MemberRow)
    requires AddMember(t, row).Some?
    ensures AddMember(t, row).value == t.(members := t.members[row.id := row]) && row.id !in t.members
  {
    hide LoginTaken, StorableMember;
  }

  lemma {:induction false} MembersHeld(t: Tables, rows: seq<MemberRow>)
    requires AddAll(t, rows, AddMember).Some?
    ensures var u := AddAll(t, rows, AddMember).value;
            u == t.(members := u.members) && HoldsMembers(t.members, u.members, rows)
  {
    if |rows| == 0 {
    } else {
      var init, last := rows[..|rows| - 1], rows[|rows| - 1];
      MembersHeld(t, init);
      assert rows == init + [last];
      hide Holds, AddMember;
      var u := AddAll(t, init, AddMember).value;
      MemberGoesIn(u, last);
      HoldsOneMore(t.members, u.members, init, last, (r: MemberRow) => r.id, (r: MemberRow) => r);
    }
  }

  lemma {:induction false} TasksHeld(t: Tables, docs: seq<Doc>)
    requires AddAll(t, docs, AddTask).Some?
    ensures var u := AddAll(t, docs, AddTask).value; u == t.(tasks := u.tasks) && HoldsTasks(t.tasks, u.tasks, docs)
  {
    if |docs| == 0 {
    } else {
      var init, last := docs[..|docs| - 1], docs[|docs| - 1];
      TasksHeld(t, init);
      assert docs == init + [last];
      hide Holds, RowFits, StorableTask;
      HoldsOneMore(t.tasks, AddAll(t, init, AddTask).value.tasks, init, last, (d: Doc) => d.task.id,
                   (d: Doc) => d.task);
    }
  }

  lemma {:induction false} EntriesHeld(t: Tables, rows: seq<Entry>)
    requires AddAll(t, rows, AddEntry).Some?
    ensures AddAll(t, rows, AddEntry).value == t.(log := t.log + rows)
  {
    if |rows| == 0 {
      assert t.log + rows == t.log;
    } else {
      var init, last := rows[..|rows| - 1], rows[|rows| - 1];
      EntriesHeld(t, init);
      assert t.log + rows == (t.log + init) + [last];
    }
  }

  lemma {:induction false} TimelinesHeld(t: Tables, docs: seq<Doc>)
    requires AddAll(t, docs, AddTimeline).Some?
    ensures AddAll(t, docs, AddTimeline).value == t.(log := t.log + LogOfDocs(docs, |docs|))
  {
    var n := |docs|;
    if n == 0 {
      assert t.log + LogOfDocs(docs, 0) == t.log;
    } else {
      TimelinesHeld(t, docs[..n - 1]);
      SameLog(docs, n - 1);
      var u := AddAll(t, docs[..n - 1], AddTimeline).value;
      EntriesHeld(u, docs[n - 1].activity);
      assert t.log + LogOfDocs(docs, n) == u.log + docs[n - 1].activity;
    }
  }

  lemma {:induction false} SameLog(docs: seq<Doc>, k: nat)
    requires k <= |docs|
    ensures LogOfDocs(docs[..k], k) == LogOfDocs(docs, k)
    decreases k
  {
    if k == 0 {
    } else {
      SameLog(docs, k - 1);
      SameLog(docs[..k], k - 1);
      assert docs[..k][..k - 1] == docs[..k - 1];
    }
  }

  /** The row is in member_teams. */
  predicate Belongs(t: Tables, r: MemberTeamRow) {
    (r.memberId, r.teamId) in t.memberTeams && t.memberTeams[(r.memberId, r.teamId)] == r.pos
  }

  lemma {:induction false} MemberTeamsHeld(t: Tables, rows: seq<MemberTeamRow>)
    requires AddAll(t, rows, AddMemberTeam).Some? && t.memberTeams == map[]
    ensures var u := AddAll(t, rows, AddMemberTeam).value;
            && u == t.(memberTeams := u.memberTeams)
            && forall r :: Belongs(u, r) <==> r in rows
  {
    if |rows| == 0 {
    } else {
      var init, last := rows[..|rows| - 1], rows[|rows| - 1];
      MemberTeamsHeld(t, init);
      assert rows == init + [last];
      var u, v := AddAll(t, init, AddMemberTeam).value, AddAll(t, rows, AddMemberTeam).value;
      assert v == u.(memberTeams := u.memberTeams[(last.memberId, last.teamId) := last.pos]);
    }
  }

  /** Whatever the plan, a transaction that goes through leaves exactly its rows: one for
      each, under its own id, and the timelines one after the other. */
  lemma TablesHoldPlan(p: Plan, t: Tables)
    requires Inserted(EMPTY, p) == Some(t)
    ensures HoldsTeams(map[], t.teams, p.teams) && HoldsMembers(map[], t.members, p.members)
            && HoldsTasks(map[], t.tasks, p.tasks)
    ensures forall r :: Belongs(t, r) <==> r in p.memberTeams
    ensures t.log == LogOfDocs(p.tasks, |p.tasks|)
  {
    hide AddAll, AddTeam, AddMember, AddMemberTeam, AddTask, AddTimeline, LogOfDocs, Holds;
    TeamsHeld(EMPTY, p.teams);
    var a := AddAll(EMPTY, p.teams, AddTeam).value;
    MembersHeld(a, p.members);
    var b := AddAll(a, p.members, AddMember).value;
    MemberTeamsHeld(b, p.memberTeams);
    var c := AddAll(b, p.memberTeams, AddMemberTeam).value;
    TasksHeld(c, p.tasks);
    var d := AddAll(c, p.tasks, AddTask).value;
    TimelinesHeld(d, p.tasks);
    assert t.log == [] + LogOfDocs(p.tasks, |p.tasks|);
  }

  /** What the committed tables say of the source's teams and members. */
  ghost predicate KeepsMembers(t: Tables, src: Source) {
    && |t.teams| == |src.teams| && |t.members| == |src.members|
    && (forall i :: 0 <= i < |src.teams| ==>
         src.teams[i].id in t.teams && CarriesTeam(t.teams[src.teams[i].id], src.teams[i]))
    && (forall i :: 0 <= i < |src.members| ==>
         src.members[i].id in t.members && CarriesMember(t.members[src.members[i].id], src.members[i]))
  }

  /** And of its tasks, each with its timeline read in append order. */
  ghost predicate KeepsTasks(t: Tables, src: Source) {
    && |t.tasks| == |src.tasks|
    && forall i :: 0 <= i < |src.tasks| ==>
         var mt := src.tasks[i];
         && mt.row.id in t.tasks && CarriesTask(t.tasks[mt.row.id], mt.row)
         && CarriesTimeline(LogOf(t.log, mt.row.id), mt, src.members)
  }

  /** End to end: if a migration of a valid source goes through, nothing of it is lost,
      changed or added: no field of a team, member or task, no membership and no position
      of one, and no timeline entry. */
  lemma MigrationKeepsEverything(src: Source, fold: string -> string, p: Plan, t: Tables)
    requires SourceValid(src, fold) && PlanOf(p, src) && Inserted(EMPTY, p) == Some(t)
    ensures KeepsMembers(t, src) && KeepsTasks(t, src)
    ensures forall r :: Belongs(t, r) <==> Named(src.members, r)
  {
    hide SourceValid, PlanOf, Inserted, LogOfDocs, CarriesTask, CarriesTimeline, LogOf, Named, Belongs;
    TablesHoldPlan(p, t);
    PlanCarriesMembers(p, src);
    TasksKept(src, fold, p, t);
    forall r ensures Belongs(t, r) <==> Named(src.members, r) {
      PlanCarriesMemberTeams(p, src, r);
    }
  }

  lemma TasksKept(src: Source, fold: string -> string, p: Plan, t: Tables)
    requires SourceValid(src, fold) && PlanOf(p, src) && HoldsTasks(map[], t.tasks, p.tasks)
    requires t.log == LogOfDocs(p.tasks, |p.tasks|)
    ensures KeepsTasks(t, src)
  {
    hide SourceValid, PlanOf, LogOfDocs, LogOf, CarriesTask, CarriesTimeline, DistinctDocs, Filed, CarriesDoc;
    PlanCarriesTasks(p, src, fold);
    PlannedIdsDiffer(p, src);
    forall a: nat | a < |p.tasks| ensures Filed(p.tasks[a]) {
      var i: nat :| i < |src.tasks| && CarriesDoc(p.tasks[a], src.tasks[i], src.members);
      CarriedIsFiled(p.tasks[a], src.tasks[i], src.members);
    }
    forall i | 0 <= i < |src.tasks|
      ensures var mt := src.tasks[i];
              && mt.row.id in t.tasks && CarriesTask(t.tasks[mt.row.id], mt.row)
              && CarriesTimeline(LogOf(t.log, mt.row.id), mt, src.members)
    {
      var a: nat :| a < |p.tasks| && CarriesDoc(p.tasks[a], src.tasks[i], src.members);
      CarriedIsFiled(p.tasks[a], src.tasks[i], src.members);
      LogKeepsOrder(p.tasks, |p.tasks|, a);
    }
  }

  lemma CarriedIsFiled(doc: Doc, mt: MTask, members: seq<MMember>)
    requires CarriesDoc(doc, mt, members)
    ensures doc.task.id == mt.row.id && CarriesTask(doc.task, mt.row) && CarriesTimeline(doc.activity, mt, members)
    ensures Filed(doc)
  {
  }

  lemma PlannedIdsDiffer(p: Plan, src: Source)
    requires PlanOf(p, src)
    ensures DistinctDocs(p.tasks)
  {
    hide TaskTable, Timelines, WithStatus, MemberTeamRows, EmbeddedEntries;
  }
}
