/** What the tables hold after any migration that goes through: each constraint of the
    schema, told row by row (internal/repo/migrations, cmd/migrate-mongo/target.go). */
module TableConstraints {
  import opened Base
  import opened Columns
  import opened Forest
  import opened Period
  import opened Model
  import opened Tags
  import opened MigrationPlan
  import opened MigrationTarget

  /** The same text, but for the case of the letters A to Z. */
  predicate SameButCase(a: string, b: string) {
    |a| == |b| && forall i :: 0 <= i < |a| ==>
      || a[i] == b[i]
      || ('A' <= a[i] <= 'Z' && a[i] as int + 32 == b[i] as int)
      || ('A' <= b[i] <= 'Z' && b[i] as int + 32 == a[i] as int)
  }

  lemma LowerCIs(a: string, b: string)
    ensures LowerC(a) == LowerC(b) <==> SameButCase(a, b)
  {
    var x, y := LowerC(a), LowerC(b);
    if SameButCase(a, b) {
      assert forall i :: 0 <= i < |a| ==> x[i] == y[i];
    }
    if x == y {
      forall i | 0 <= i < |a|
        ensures a[i] == b[i] || ('A' <= a[i] <= 'Z' && a[i] as int + 32 == b[i] as int)
                || ('A' <= b[i] <= 'Z' && b[i] as int + 32 == a[i] as int)
      {
        assert x[i] == AsciiLower(a[i]) && y[i] == AsciiLower(b[i]);
      }
    }
  }

  /** teams_name_unique. */
  ghost predicate TeamsSound(t: Tables) {
    && (forall x :: x in t.teams ==> t.teams[x].id == x)
    && (forall x, y :: x in t.teams && y in t.teams && x != y ==> t.teams[x].name != t.teams[y].name)
  }

  /** The roles of system_role, and members_email_login_unique. */
  ghost predicate MembersSound(t: Tables) {
    && (forall x :: x in t.members ==>
         && t.members[x].id == x
         && (t.members[x].systemRole == "" || t.members[x].systemRole == "ADMIN" || t.members[x].systemRole == "USER"))
    && (forall x, y :: x in t.members && y in t.members && x != y ==> LoginsDiffer(t.members[x], t.members[y]))
  }

  predicate LoginsDiffer(a: MemberRow, b: MemberRow) {
    a.passwordHash == "" || b.passwordHash == "" || a.email == "" || b.email == "" || !SameButCase(a.email, b.email)
  }

  ghost predicate MemberTeamsSound(t: Tables) {
    forall x, y :: (x, y) in t.memberTeams ==> x in t.members && y in t.teams && t.memberTeams[(x, y)] <= 32767
  }

  /** References, and the values that columns allow. */
  predicate RowSound(row: Task, x: Id, t: Tables) {
    && row.id == x
    && (row.parentId.Some? ==> row.parentId.value in t.tasks)
    && (row.teamId.Some? ==> row.teamId.value in t.teams)
    && (row.assigneeId.Some? ==> row.assigneeId.value in t.members)
    && (row.ownerId.Some? ==> row.ownerId.value in t.members)
    && (row.status == Todo || row.status == InProgress || row.status == Done || row.status == Cancelled)
    && (row.horizon == Daily || row.horizon == Weekly || row.horizon == Monthly || row.horizon == Backlog)
    && (row.priority == NoPriority || row.priority == Low || row.priority == Medium || row.priority == High)
  }

  /** And tasks_series_period_unique. */
  ghost predicate TasksSound(t: Tables) {
    && (forall x :: x in t.tasks ==> RowSound(t.tasks[x], x, t))
    && (forall x, y :: x in t.tasks && y in t.tasks && x != y ==> SlotsDiffer(t.tasks[x], t.tasks[y]))
  }

  predicate SlotsDiffer(a: Task, b: Task) {
    a.seriesId.None? || a.seriesId != b.seriesId || a.period != b.period
  }

  ghost predicate LogSound(t: Tables) {
    && (forall i :: 0 <= i < |t.log| ==>
         && t.log[i].taskId in t.tasks
         && (t.log[i].kind == NoteEntry || t.log[i].kind == StatusEntry)
         && (t.log[i].author.Some? ==> t.log[i].author.value in t.members))
    && (forall i, j :: 0 <= i < j < |t.log| ==> t.log[i].id != t.log[j].id)
  }

  ghost predicate AllSound(t: Tables) {
    TeamsSound(t) && MembersSound(t) && MemberTeamsSound(t) && TasksSound(t) && LogSound(t)
  }

  // ---- one row keeps them ----

  lemma TeamKeeps(t: Tables, row: TeamRow)
    requires AllSound(t)
    ensures AddTeam(t, row).Some? ==> AllSound(AddTeam(t, row).value)
  {
  }

  lemma MemberKeeps(t: Tables, row: MemberRow)
    requires AllSound(t)
    ensures AddMember(t, row).Some? ==> AllSound(AddMember(t, row).value)
  {
    hide LowerC, SameButCase, StorableMember, LoginsDiffer, LoginTaken, RowSound, SlotsDiffer;
    if AddMember(t, row).Some? {
      NewLoginDiffers(t.members, row);
      forall x | x in t.tasks
        ensures RowSound(t.tasks[x], x, t.(members := t.members[row.id := row])) {
        MoreMembersStaySound(t, row, t.tasks[x], x);
      }
    }
  }

  lemma NewLoginDiffers(members: map<Id, MemberRow>, row: MemberRow)
    requires !LoginTaken(members, row)
    ensures forall x :: x in members ==> LoginsDiffer(row, members[x]) && LoginsDiffer(members[x], row)
  {
    hide LowerC, SameButCase;
    forall x | x in members ensures LoginsDiffer(row, members[x]) && LoginsDiffer(members[x], row) {
      LowerCIs(members[x].email, row.email);
      LowerCIs(row.email, members[x].email);
    }
  }

  lemma MoreMembersStaySound(t: Tables, row: MemberRow, r: Task, x: Id)
    requires RowSound(r, x, t)
    ensures RowSound(r, x, t.(members := t.members[row.id := row]))
  {
  }

  lemma MemberTeamKeeps(t: Tables, row: MemberTeamRow)
    requires AllSound(t)
    ensures AddMemberTeam(t, row).Some? ==> AllSound(AddMemberTeam(t, row).value)
  {
  }

  lemma TaskKeeps(t: Tables, doc: Doc)
    requires AllSound(t)
    ensures AddTask(t, doc).Some? ==> AllSound(AddTask(t, doc).value)
  {
    hide StorableTask, LoginsDiffer, RowFits, TasksSound;
    if AddTask(t, doc).Some? {
      TaskRowsKeep(t, doc.task);
      TaskTableGrows(t, doc);
    }
  }

  lemma TaskTableGrows(t: Tables, doc: Doc)
    requires AddTask(t, doc).Some?
    ensures AddTask(t, doc).value == t.(tasks := t.tasks[doc.task.id := doc.task])
    ensures doc.task.id !in t.tasks && RowFits(AsDB(t), doc.task)
  {
    hide StorableTask, RowFits;
  }

  lemma TaskRowsKeep(t: Tables, row: Task)
    requires TasksSound(t)
    ensures row.id !in t.tasks && RowFits(AsDB(t), row) ==> TasksSound(t.(tasks := t.tasks[row.id := row]))
  {
    hide RowSound, SlotsDiffer, RefsExist, ValuesAllowed, SeriesSlotFree;
    if row.id !in t.tasks && RowFits(AsDB(t), row) {
      var u := t.(tasks := t.tasks[row.id := row]);
      NewRowIsSound(t, row);
      NewSlotDiffers(t.tasks, row);
      forall x | x in t.tasks ensures RowSound(t.tasks[x], x, u) { OldRowStaysSound(t, row, t.tasks[x], x); }
    }
  }

  lemma NewRowIsSound(t: Tables, row: Task)
    requires RefsExist(AsDB(t), row) && ValuesAllowed(row)
    ensures RowSound(row, row.id, t.(tasks := t.tasks[row.id := row]))
  {
  }

  lemma OldRowStaysSound(t: Tables, row: Task, r: Task, x: Id)
    requires RowSound(r, x, t)
    ensures RowSound(r, x, t.(tasks := t.tasks[row.id := row]))
  {
  }

  lemma NewSlotDiffers(tasks: map<Id, Task>, row: Task)
    requires row.id !in tasks && SeriesSlotFree(tasks, row)
    ensures forall x :: x in tasks ==> SlotsDiffer(row, tasks[x]) && SlotsDiffer(tasks[x], row)
  {
  }

  lemma EntryKeeps(t: Tables, e: Entry)
    requires AllSound(t)
    ensures AddEntry(t, e).Some? ==> AllSound(AddEntry(t, e).value)
  {
    hide StorableEntry, LoginsDiffer, SlotsDiffer;
  }

  /** Rows that each keep the constraints keep them together. */
  lemma {:induction false} RowsKeep<R(!new)>(t: Tables, rows: seq<R>, add: (Tables, R) -> Option<Tables>)
    requires AllSound(t)
    requires forall u, r :: AllSound(u) && add(u, r).Some? ==> AllSound(add(u, r).value)
    ensures AddAll(t, rows, add).Some? ==> AllSound(AddAll(t, rows, add).value)
  {
    hide AllSound;
    if |rows| == 0 {
    } else {
      RowsKeep(t, rows[..|rows| - 1], add);
    }
  }

  lemma EmptyIsSound()
    ensures AllSound(EMPTY)
  {
  }

  /** Whatever plan goes into empty or sound tables, they are sound afterwards: names and logins
      unique, references there, values allowed, series slots and entry ids taken once. */
  lemma InsertKeepsConstraints(t: Tables, p: Plan)
    requires t == EMPTY || AllSound(t)
    ensures Inserted(t, p).Some? ==> AllSound(Inserted(t, p).value)
  {
    EmptyIsSound();
    hide AddAll, AddTeam, AddMember, AddMemberTeam, AddTask, AddEntry, AllSound;
    forall u, r: TeamRow | AllSound(u) ensures AddTeam(u, r).Some? ==> AllSound(AddTeam(u, r).value) {
      TeamKeeps(u, r);
    }
    forall u, r: MemberRow | AllSound(u) ensures AddMember(u, r).Some? ==> AllSound(AddMember(u, r).value) {
      MemberKeeps(u, r);
    }
    forall u, r: MemberTeamRow | AllSound(u)
      ensures AddMemberTeam(u, r).Some? ==> AllSound(AddMemberTeam(u, r).value) {
      MemberTeamKeeps(u, r);
    }
    forall u, r: Doc | AllSound(u) ensures AddTask(u, r).Some? ==> AllSound(AddTask(u, r).value) { TaskKeeps(u, r); }
    forall u, r: Entry | AllSound(u) ensures AddEntry(u, r).Some? ==> AllSound(AddEntry(u, r).value) {
      EntryKeeps(u, r);
    }
    forall u, r: Doc | AllSound(u) ensures AddTimeline(u, r).Some? ==> AllSound(AddTimeline(u, r).value) {
      RowsKeep(u, r.activity, AddEntry);
    }
    RowsKeep(t, p.teams, AddTeam);
    hide AddTimeline;
    var a := AddAll(t, p.teams, AddTeam);
    if a.Some? {
      RowsKeep(a.value, p.members, AddMember);
      var b := AddAll(a.value, p.members, AddMember);
      if b.Some? {
        RowsKeep(b.value, p.memberTeams, AddMemberTeam);
        var c := AddAll(b.value, p.memberTeams, AddMemberTeam);
        if c.Some? {
          RowsKeep(c.value, p.tasks, AddTask);
          var d := AddAll(c.value, p.tasks, AddTask);
          if d.Some? { RowsKeep(d.value, p.tasks, AddTimeline); }
        }
      }
    }
  }
}
