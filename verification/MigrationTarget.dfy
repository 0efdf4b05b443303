/** applyPlan: the plan written into an empty schema in one transaction, against the
    constraints of the tables (cmd/migrate-mongo/target.go, internal/repo/migrations). */
module MigrationTarget {
  import opened Base
  import opened Columns
  import Digits
  import opened Forest
  import opened Period
  import opened Model
  import opened Tags
  import opened TopoOrder
  import opened MigrationPlan
  import Restore

  /** The tables; log rows are in seq order. */
  datatype Tables = Tables(
    teams: map<Id, TeamRow>,
    members: map<Id, MemberRow>,
    memberTeams: map<(Id, Id), nat>,
    tasks: map<Id, Task>,
    log: seq<Entry>)

  const EMPTY := Tables(map[], map[], map[], map[], [])

  /** The store that the migrated tables hold. */
  function AsDB(t: Tables): DB {
    DB(t.tasks, t.log, t.teams.Keys, t.members.Keys, t.memberTeams.Keys)
  }

  // ---- one row, or the constraint that refuses it; its values are taken to fit ----

  function PlaceTeam(t: Tables, row: TeamRow): Option<Tables> {
    if row.id in t.teams || (exists x :: x in t.teams && t.teams[x].name == row.name) then None
    else Some(t.(teams := t.teams[row.id := row]))
  }

  predicate RowLogsIn(row: MemberRow) {
    row.passwordHash != "" && row.email != ""
  }

  /** lower(), which under collation "C" folds ASCII only. */
  function LowerC(s: string): string {
    ToLower(s, AsciiLower)
  }

  /** members_email_login_unique: lower(email). */
  predicate LoginTaken(members: map<Id, MemberRow>, row: MemberRow) {
    RowLogsIn(row) && exists x :: x in members && RowLogsIn(members[x]) && LowerC(members[x].email) == LowerC(row.email)
  }

  function PlaceMember(t: Tables, row: MemberRow): Option<Tables> {
    if row.id in t.members || !RoleAllowed(row.systemRole) || LoginTaken(t.members, row) then None
    else Some(t.(members := t.members[row.id := row]))
  }

  function AddMemberTeam(t: Tables, row: MemberTeamRow): Option<Tables> {
    if row.memberId !in t.members || row.teamId !in t.teams || (row.memberId, row.teamId) in t.memberTeams
        || row.pos > MAX_POS then None
    else Some(t.(memberTeams := t.memberTeams[(row.memberId, row.teamId) := row.pos]))
  }

  /** One row at a time: stricter than a multi-row statement, whose foreign keys are
      checked at its end. */
  function PlaceTask(t: Tables, doc: Doc): Option<Tables> {
    if doc.task.id in t.tasks || !RowFits(AsDB(t), doc.task) then None
    else Some(t.(tasks := t.tasks[doc.task.id := doc.task]))
  }

  function PlaceEntry(t: Tables, e: Entry): Option<Tables> {
    if (exists i :: 0 <= i < |t.log| && t.log[i].id == e.id) || e.taskId !in t.tasks || e.kind.OtherKind?
       || (e.author.Some? && e.author.value !in t.members)
    then None
    else Some(t.(log := t.log + [e]))
  }

  function AddAll<R>(t: Tables, rows: seq<R>, add: (Tables, R) -> Option<Tables>): Option<Tables> {
    if |rows| == 0 then Some(t)
    else match AddAll(t, rows[..|rows| - 1], add)
      case None => None
      case Some(u) => add(u, rows[|rows| - 1])
  }

  function PlaceTimeline(t: Tables, doc: Doc): Option<Tables> {
    AddAll(t, doc.activity, PlaceEntry)
  }

  function Placed(t: Tables, p: Plan): Option<Tables> {
    match AddAll(t, p.teams, PlaceTeam)
    case None => None
    case Some(a) =>
      match AddAll(a, p.members, PlaceMember)
      case None => None
      case Some(b) =>
        match AddAll(b, p.memberTeams, AddMemberTeam)
        case None => None
        case Some(c) =>
          match AddAll(c, p.tasks, PlaceTask)
          case None => None
          case Some(d) => AddAll(d, p.tasks, PlaceTimeline)
  }

  // ---- one row, whose values its columns must be able to hold ----

  function AddTeam(t: Tables, row: TeamRow): Option<Tables> {
    if StorableTeam(row) then PlaceTeam(t, row) else None
  }

  function AddMember(t: Tables, row: MemberRow): Option<Tables> {
    if StorableMember(row) then PlaceMember(t, row) else None
  }

  function AddTask(t: Tables, doc: Doc): Option<Tables> {
    if StorableTask(doc.task) then PlaceTask(t, doc) else None
  }

  function AddEntry(t: Tables, e: Entry): Option<Tables> {
    if StorableEntry(e) then PlaceEntry(t, e) else None
  }

  /** One statement a task. */
  function AddTimeline(t: Tables, doc: Doc): Option<Tables> {
    if OneStatement(|doc.activity|) then AddAll(t, doc.activity, AddEntry) else None
  }

  /** The whole transaction. */
  function Inserted(t: Tables, p: Plan): Option<Tables> {
    match AddAll(t, p.teams, AddTeam)
    case None => None
    case Some(a) =>
      match AddAll(a, p.members, AddMember)
      case None => None
      case Some(b) =>
        match AddAll(b, p.memberTeams, AddMemberTeam)
        case None => None
        case Some(c) =>
          match AddAll(c, p.tasks, AddTask)
          case None => None
          case Some(d) => AddAll(d, p.tasks, AddTimeline)
  }

  predicate AllPass<R>(rows: seq<R>, ok: R -> bool) {
    forall i :: 0 <= i < |rows| ==> ok(rows[i])
  }

  /** Rows that a check of their own values refuses go in exactly if all pass it and
      they go in without it. */
  lemma {:induction false} CheckedRows<R(!new)>(t: Tables, rows: seq<R>, full: (Tables, R) -> Option<Tables>,
                                                place: (Tables, R) -> Option<Tables>, ok: R -> bool)
    requires forall u, r :: full(u, r) == if ok(r) then place(u, r) else None
    ensures AddAll(t, rows, full) == if AllPass(rows, ok) then AddAll(t, rows, place) else None
  {
    if |rows| == 0 {
    } else {
      var init, last := rows[..|rows| - 1], rows[|rows| - 1];
      CheckedRows(t, init, full, place, ok);
      assert rows == init + [last];
      assert AllPass(rows, ok) <==> AllPass(init, ok) && ok(last);
    }
  }

  predicate PlanStorable(p: Plan) {
    && AllPass(p.teams, StorableTeam) && AllPass(p.members, StorableMember)
    && AllPass(p.tasks, (doc: Doc) => StorableTask(doc.task)) && AllPass(p.tasks, StorableTimeline)
  }

  lemma CheckedTimeline(t: Tables, doc: Doc)
    ensures AddTimeline(t, doc) == if StorableTimeline(doc) then PlaceTimeline(t, doc) else None
  {
    hide StorableEntry, PlaceEntry, AddAll;
    CheckedRows(t, doc.activity, AddEntry, PlaceEntry, StorableEntry);
  }

  /** The transaction goes through exactly if every value fits its column and the rows
      break no constraint. */
  lemma InsertedIsPlaced(t: Tables, p: Plan)
    ensures Inserted(t, p) == if PlanStorable(p) then Placed(t, p) else None
  {
    hide AddAll, PlaceTeam, PlaceMember, PlaceTask, PlaceTimeline, AddMemberTeam, AddTimeline, StorableTeam,
         StorableMember, StorableTask, StorableTimeline, AllPass;
    CheckedRows(t, p.teams, AddTeam, PlaceTeam, StorableTeam);
    var a := AddAll(t, p.teams, AddTeam);
    if a.Some? {
      CheckedRows(a.value, p.members, AddMember, PlaceMember, StorableMember);
      var b := AddAll(a.value, p.members, AddMember);
      if b.Some? {
        var c := AddAll(b.value, p.memberTeams, AddMemberTeam);
        if c.Some? {
          var storableTask := (doc: Doc) => StorableTask(doc.task);
          CheckedRows(c.value, p.tasks, AddTask, PlaceTask, storableTask);
          var d := AddAll(c.value, p.tasks, AddTask);
          if d.Some? {
            forall u, doc: Doc
              ensures AddTimeline(u, doc) == if StorableTimeline(doc) then PlaceTimeline(u, doc) else None
            {
              CheckedTimeline(u, doc);
            }
            CheckedRows(d.value, p.tasks, AddTimeline, PlaceTimeline, StorableTimeline);
          }
        }
      }
    }
  }

  lemma {:induction false} AddAllConcat<R>(t: Tables, a: seq<R>, b: seq<R>, add: (Tables, R) -> Option<Tables>)
    ensures AddAll(t, a + b, add) == match AddAll(t, a, add) case None => None case Some(u) => AddAll(u, b, add)
    decreases |b|
  {
    if |b| == 0 {
      assert a + b == a;
    } else {
      AddAllConcat(t, a, b[..|b| - 1], add);
      assert (a + b)[..|a + b| - 1] == a + b[..|b| - 1];
    }
  }

  class Target {
    var tables: Tables

    constructor ()
      ensures tables == EMPTY
    {
      tables := EMPTY;
    }

    /** The statements hold a thousand rows each. */
    method InsertMemberTeams(rows: seq<MemberTeamRow>) returns (ok: bool)
      modifies this
      ensures ok <==> AddAll(old(tables), rows, AddMemberTeam).Some?
      ensures ok ==> AddAll(old(tables), rows, AddMemberTeam) == Some(tables)
    {
      var chunk := 1000;
      var start := 0;
      ghost var before := tables;
      while start < |rows|
        invariant 0 <= start <= |rows|
        invariant AddAll(before, rows[..start], AddMemberTeam) == Some(tables)
        decreases |rows| - start
      {
        var end := if start + chunk < |rows| then start + chunk else |rows|;
        assert rows[..end] == rows[..start] + rows[start..end];
        AddAllConcat(before, rows[..start], rows[start..end], AddMemberTeam);
        var written := AddAll(tables, rows[start..end], AddMemberTeam);
        if written == None {
          assert rows == rows[..end] + rows[end..];
          AddAllConcat(before, rows[..end], rows[end..], AddMemberTeam);
          return false;
        }
        tables := written.value;
        start := end;
      }
      assert rows[..start] == rows;
      return true;
    }

    method InsertTimelines(docs: seq<Doc>) returns (ok: bool)
      modifies this
      ensures ok <==> AddAll(old(tables), docs, AddTimeline).Some?
      ensures ok ==> AddAll(old(tables), docs, AddTimeline) == Some(tables)
    {
      ghost var before := tables;
      for i := 0 to |docs|
        invariant AddAll(before, docs[..i], AddTimeline) == Some(tables)
      {
        assert docs[..i + 1][..i] == docs[..i];
        var written := AddTimeline(tables, docs[i]);
        if written == None {
          assert docs == docs[..i + 1] + docs[i + 1..];
          AddAllConcat(before, docs[..i + 1], docs[i + 1..], AddTimeline);
          return false;
        }
        tables := written.value;
      }
      assert docs[..|docs|] == docs;
      return true;
    }

    /** All or nothing; with checkEmpty, nothing into tables that hold rows. */
    method ApplyPlan(p: Plan, checkEmpty: bool) returns (ok: bool)
      modifies this
      ensures ok <==> (checkEmpty ==> old(tables) == EMPTY) && Inserted(old(tables), p).Some?
      ensures tables == if ok then Inserted(old(tables), p).value else old(tables)
    {
      hide AddTeam, AddMember, AddMemberTeam, AddTask, AddTimeline, AddAll;
      var before := tables;
      if checkEmpty && before != EMPTY {
        return false;
      }
      var teams := AddAll(tables, p.teams, AddTeam);
      if teams == None {
        return false;
      }
      tables := teams.value;
      var members := AddAll(tables, p.members, AddMember);
      if members == None {
        tables := before;
        return false;
      }
      tables := members.value;
      ok := InsertMemberTeams(p.memberTeams);
      if !ok {
        tables := before;
        return;
      }
      var tasks := AddAll(tables, p.tasks, AddTask);
      if tasks == None {
        tables := before;
        return false;
      }
      tables := tasks.value;
      ok := InsertTimelines(p.tasks);
      if !ok {
        tables := before;
      }
    }
  }

  // ---- teams and members go in ----

  lemma {:induction false} TeamsGoIn(teams: seq<MTeam>)
    requires TeamsValid(teams)
    ensures AddAll(EMPTY, TeamRows(teams), PlaceTeam).Some?
    ensures var t := AddAll(EMPTY, TeamRows(teams), PlaceTeam).value;
            && t == EMPTY.(teams := t.teams) && t.teams.Keys == TeamIds(teams)
            && forall x :: x in t.teams ==> t.teams[x].name in TeamNames(teams)
  {
    if |teams| == 0 {
    } else {
      var n := |teams| - 1;
      var done := teams[..n];
      assert teams[..n + 1] == teams;
      TeamStep(teams, n);
      TeamsGoIn(done);
      assert TeamRows(teams)[..n] == TeamRows(done);
    }
  }

  /** Go's ToLower folds at least what lower() folds. */
  ghost predicate FoldsLogins(fold: string -> string) {
    forall a, b :: LowerC(a) == LowerC(b) ==> fold(a) == fold(b)
  }

  lemma {:induction false} MembersGoIn(t: Tables, members: seq<MMember>, fold: string -> string)
    requires MembersValid(members, fold) && FoldsLogins(fold) && t.members == map[]
    ensures AddAll(t, MemberRows(members), PlaceMember).Some?
    ensures var u := AddAll(t, MemberRows(members), PlaceMember).value;
            && u == t.(members := u.members) && u.members.Keys == MemberIds(members)
            && forall x :: x in u.members && RowLogsIn(u.members[x]) ==>
               fold(u.members[x].email) in Logins(members, fold)
  {
    if |members| == 0 {
    } else {
      var n := |members| - 1;
      var done := members[..n];
      assert members[..n + 1] == members;
      MemberStep(members, n, fold);
      MembersGoIn(t, done, fold);
      assert MemberRows(members)[..n] == MemberRows(done);
      hide LowerC, Logins, MembersValid, MemberIds, RoleAllowed;
      var u, row := AddAll(t, MemberRows(done), PlaceMember).value, MemberRowOf(members[n]);
      assert !LoginTaken(u.members, row);
    }
  }

  // ---- member_teams go in exactly when their positions fit ----

  predicate PositionsFit(rows: seq<MemberTeamRow>) {
    forall i :: 0 <= i < |rows| ==> rows[i].pos <= MAX_POS
  }

  ghost predicate OnlyMemberTeams(t: Tables, u: Tables) {
    u == t.(memberTeams := u.memberTeams)
  }

  function PairsOf(id: Id, teams: seq<Id>): set<(Id, Id)> {
    set y | y in teams :: (id, y)
  }

  /** The first n teamIds of m go in, each at its first position, if those fit. */
  ghost predicate KeptState(t: Tables, m: MMember, n: nat)
    requires n <= |m.teamIds|
  {
    var r := AddAll(t, KeptTeams(m, n), AddMemberTeam);
    && (r.Some? <==> PositionsFit(KeptTeams(m, n)))
    && (r.Some? ==> OnlyMemberTeams(t, r.value)
                    && r.value.memberTeams.Keys == t.memberTeams.Keys + PairsOf(m.id, m.teamIds[..n]))
  }

  lemma {:induction false} KeptGoIn(t: Tables, m: MMember, n: nat)
    requires n <= |m.teamIds| && m.id in t.members && forall k :: 0 <= k < n ==> m.teamIds[k] in t.teams
    requires forall x :: (m.id, x) !in t.memberTeams.Keys
    ensures KeptState(t, m, n)
    decreases n
  {
    hide KeptState;
    if n == 0 {
      KeptNone(t, m);
    } else {
      KeptGoIn(t, m, n - 1);
      if m.teamIds[n - 1] in m.teamIds[..n - 1] { KeptRepeat(t, m, n); } else { KeptNew(t, m, n); }
    }
  }

  lemma KeptNone(t: Tables, m: MMember)
    ensures KeptState(t, m, 0)
  {
    assert PairsOf(m.id, m.teamIds[..0]) == {};
  }

  lemma KeptRepeat(t: Tables, m: MMember, n: nat)
    requires 0 < n <= |m.teamIds| && KeptState(t, m, n - 1) && m.teamIds[n - 1] in m.teamIds[..n - 1]
    ensures KeptState(t, m, n)
  {
    KeptOneMore(m, n);
    PairStep(m, n);
    hide AddAll, PositionsFit, KeptTeams, PairsOf, AddMemberTeam, OnlyMemberTeams;
  }

  lemma KeptNew(t: Tables, m: MMember, n: nat)
    requires 0 < n <= |m.teamIds| && KeptState(t, m, n - 1) && m.teamIds[n - 1] !in m.teamIds[..n - 1]
    requires m.id in t.members && m.teamIds[n - 1] in t.teams && (m.id, m.teamIds[n - 1]) !in t.memberTeams.Keys
    ensures KeptState(t, m, n)
  {
    var init, row := KeptTeams(m, n - 1), MemberTeamRow(m.id, m.teamIds[n - 1], n - 1);
    KeptOneMore(m, n);
    PairStep(m, n);
    LastPosition(init, row);
    AddAllLast(t, init, row, AddMemberTeam);
    hide AddAll, PositionsFit, KeptTeams, PairsOf, AddMemberTeam, OnlyMemberTeams;
    var r := AddAll(t, init, AddMemberTeam);
    if r.Some? {
      OneMemberTeam(t, r.value, row);
      UnionOne(t.memberTeams.Keys, PairsOf(m.id, m.teamIds[..n - 1]), (m.id, m.teamIds[n - 1]));
    }
  }

  lemma UnionOne<T>(a: set<T>, b: set<T>, x: T)
    ensures (a + b) + {x} == a + (b + {x})
  {
  }

  lemma OneMemberTeam(t: Tables, u: Tables, row: MemberTeamRow)
    requires OnlyMemberTeams(t, u) && row.memberId in t.members && row.teamId in t.teams
             && (row.memberId, row.teamId) !in u.memberTeams.Keys
    ensures var r := AddMemberTeam(u, row);
            && (r.Some? <==> row.pos <= MAX_POS)
            && (r.Some? ==> OnlyMemberTeams(t, r.value)
                            && r.value.memberTeams.Keys == u.memberTeams.Keys + {(row.memberId, row.teamId)})
  {
  }

  lemma PairStep(m: MMember, n: nat)
    requires 0 < n <= |m.teamIds|
    ensures PairsOf(m.id, m.teamIds[..n]) == PairsOf(m.id, m.teamIds[..n - 1]) + {(m.id, m.teamIds[n - 1])}
    ensures (m.id, m.teamIds[n - 1]) in PairsOf(m.id, m.teamIds[..n - 1]) <==> m.teamIds[n - 1] in m.teamIds[..n - 1]
  {
    assert m.teamIds[..n] == m.teamIds[..n - 1] + [m.teamIds[n - 1]];
  }

  lemma KeptOneMore(m: MMember, n: nat)
    requires 0 < n <= |m.teamIds|
    ensures KeptTeams(m, n) == if m.teamIds[n - 1] in m.teamIds[..n - 1] then KeptTeams(m, n - 1)
                               else KeptTeams(m, n - 1) + [MemberTeamRow(m.id, m.teamIds[n - 1], n - 1)]
  {
  }

  lemma AddAllLast<R>(t: Tables, init: seq<R>, row: R, add: (Tables, R) -> Option<Tables>)
    ensures AddAll(t, init + [row], add) == match AddAll(t, init, add) case None => None case Some(u) => add(u, row)
  {
    assert (init + [row])[..|init|] == init;
  }

  lemma LastPosition(init: seq<MemberTeamRow>, row: MemberTeamRow)
    ensures PositionsFit(init + [row]) <==> PositionsFit(init) && row.pos <= MAX_POS
  {
    if PositionsFit(init + [row]) {
      assert forall i :: 0 <= i < |init| ==> (init + [row])[i] == init[i];
      assert (init + [row])[|init|] == row;
    }
  }

  lemma PositionsConcat(a: seq<MemberTeamRow>, b: seq<MemberTeamRow>)
    ensures PositionsFit(a + b) <==> PositionsFit(a) && PositionsFit(b)
  {
    assert forall i :: 0 <= i < |a| ==> (a + b)[i] == a[i];
    assert forall i :: 0 <= i < |b| ==> (a + b)[|a| + i] == b[i];
  }

  lemma {:induction false} MemberTeamsGoIn(t: Tables, members: seq<MMember>, fold: string -> string)
    requires MembersValid(members, fold) && TeamRefsValid(members, t.teams.Keys) && MemberIds(members) <= t.members.Keys
    requires t.memberTeams == map[]
    ensures var r := AddAll(t, MemberTeamRows(members), AddMemberTeam);
            && (r.Some? <==> PositionsFit(MemberTeamRows(members)))
            && (r.Some? ==> OnlyMemberTeams(t, r.value)
                            && forall x, y :: (x, y) in r.value.memberTeams ==> x in MemberIds(members))
  {
    if |members| == 0 {
    } else {
      var n := |members| - 1;
      var m, done := members[n], members[..n];
      assert members[..n + 1] == members;
      MemberStep(members, n, fold);
      MemberTeamStep(members, n, t.teams.Keys);
      hide MembersValid, MemberIds, TeamRefsValid, KeptTeams, PositionsFit;
      MemberTeamsGoIn(t, done, fold);
      var kept := KeptTeams(m, |m.teamIds|);
      AddAllConcat(t, MemberTeamRows(done), kept, AddMemberTeam);
      PositionsConcat(MemberTeamRows(done), kept);
      var r := AddAll(t, MemberTeamRows(done), AddMemberTeam);
      if r.Some? { KeptGoIn(r.value, m, |m.teamIds|); }
    }
  }

  // ---- tasks go in ----

  lemma {:induction false} TableIds(tasks: seq<MTask>)
    ensures forall x :: x in TaskTable(tasks) <==> x in TaskIds(tasks)
  {
    if |tasks| == 0 {
    } else {
      var done := tasks[..|tasks| - 1];
      TableIds(done);
      assert TaskIds(tasks) == TaskIds(done) + [tasks[|tasks| - 1].row.id];
    }
  }

  /** What a valid source says of the rows of its table: fields allowed, references
      there, each series slot taken once. */
  lemma {:induction false} TableRows(tasks: seq<MTask>, teamIDs: set<Id>, memberIDs: set<Id>)
    requires TasksValid(tasks, teamIDs, memberIDs)
    ensures |TaskTable(tasks)| == |tasks|
    ensures forall x :: x in TaskTable(tasks) ==>
              && TaskTable(tasks)[x].id == x && FieldsFine(TaskTable(tasks)[x], teamIDs, memberIDs)
              && (TaskTable(tasks)[x].seriesId.Some? ==>
                  (TaskTable(tasks)[x].seriesId.value, TaskTable(tasks)[x].period) in Slots(tasks))
    ensures forall x, y ::
              x in TaskTable(tasks) && y in TaskTable(tasks) && x != y && TaskTable(tasks)[x].seriesId.Some? ==>
              !(TaskTable(tasks)[x].seriesId == TaskTable(tasks)[y].seriesId
                && TaskTable(tasks)[x].period == TaskTable(tasks)[y].period)
  {
    hide Slots, TaskIds, FieldsFine, ActivityValid, EntryIds;
    if |tasks| > 0 {
      var n := |tasks| - 1;
      var done, mt := tasks[..n], tasks[n];
      assert tasks[..n + 1] == tasks;
      TaskStep(tasks, n, teamIDs, memberIDs);
      TableRows(done, teamIDs, memberIDs);
      TableIds(done);
      SameFields(mt, teamIDs, memberIDs);
    } else {
      assert TaskTable(tasks) == map[];
    }
  }

  lemma SameFields(mt: MTask, teamIDs: set<Id>, memberIDs: set<Id>)
    ensures FieldsFine(mt.row, teamIDs, memberIDs) == FieldsFine(PlannedRow(mt), teamIDs, memberIDs)
  {
  }

  /** The rows of the first k planned tasks. */
  function RowsOf(docs: seq<Doc>, k: nat): map<Id, Task>
    requires k <= |docs|
  {
    if k == 0 then map[] else RowsOf(docs, k - 1)[docs[k - 1].task.id := docs[k - 1].task]
  }

  predicate DistinctDocs(docs: seq<Doc>) {
    forall i, j :: 0 <= i < j < |docs| ==> docs[i].task.id != docs[j].task.id
  }

  function DocIds(docs: seq<Doc>, k: nat): set<Id>
    requires k <= |docs|
  {
    set i | 0 <= i < k :: docs[i].task.id
  }

  lemma DocIdsStep(docs: seq<Doc>, k: nat)
    requires 0 < k <= |docs| && DistinctDocs(docs)
    ensures DocIds(docs, k) == DocIds(docs, k - 1) + {docs[k - 1].task.id}
    ensures docs[k - 1].task.id !in DocIds(docs, k - 1)
  {
  }

  lemma {:induction false} RowsOfKeys(docs: seq<Doc>, k: nat)
    requires k <= |docs| && DistinctDocs(docs)
    ensures |RowsOf(docs, k)| == k && RowsOf(docs, k).Keys == DocIds(docs, k)
  {
    hide *;
    if k > 0 {
      RowsOfKeys(docs, k - 1);
      RowsOfStep(docs, k);
      DocIdsStep(docs, k);
      MapGrows(RowsOf(docs, k - 1), docs[k - 1].task);
    } else {
      RowsOfNone(docs);
    }
  }

  lemma RowsOfStep(docs: seq<Doc>, k: nat)
    requires 0 < k <= |docs|
    ensures RowsOf(docs, k) == RowsOf(docs, k - 1)[docs[k - 1].task.id := docs[k - 1].task]
  {
  }

  lemma MapGrows(m: map<Id, Task>, t: Task)
    requires t.id !in m
    ensures m[t.id := t].Keys == m.Keys + {t.id} && |m[t.id := t]| == |m| + 1
  {
    assert |m[t.id := t].Keys| == |m[t.id := t]| && |m.Keys| == |m|;
  }

  lemma {:induction false} RowOfDoc(docs: seq<Doc>, k: nat, i: nat)
    requires i < k <= |docs| && DistinctDocs(docs)
    ensures docs[i].task.id in RowsOf(docs, k) && RowsOf(docs, k)[docs[i].task.id] == docs[i].task
  {
    if i >= k - 1 {
    } else {
      RowOfDoc(docs, k - 1, i);
    }
  }

  lemma RowsOfDocs(docs: seq<Doc>, k: nat)
    requires k <= |docs| && DistinctDocs(docs)
    ensures |RowsOf(docs, k)| == k && RowsOf(docs, k).Keys == DocIds(docs, k)
    ensures forall i :: 0 <= i < k ==>
            docs[i].task.id in RowsOf(docs, k) && RowsOf(docs, k)[docs[i].task.id] == docs[i].task
  {
    hide RowsOf, DistinctDocs, DocIds;
    RowsOfKeys(docs, k);
    forall i | 0 <= i < k ensures docs[i].task.id in RowsOf(docs, k)
        && RowsOf(docs, k)[docs[i].task.id] == docs[i].task {
      RowOfDoc(docs, k, i);
    }
  }

  lemma OneTaskGoesIn(t: Tables, docs: seq<Doc>, k: nat, tasks: seq<MTask>)
    requires k < |docs| && t.tasks == RowsOf(docs, k) && PlansTasks(docs, tasks, t.members.Keys)
    requires TasksValid(tasks, t.teams.Keys, t.members.Keys)
    ensures PlaceTask(t, docs[k]) == Some(t.(tasks := RowsOf(docs, k + 1)))
  {
    hide TaskTable, Timelines, FieldsFine, TasksValid;
    RowsOfDocs(docs, k);
    TableRows(tasks, t.teams.Keys, t.members.Keys);
    var row := docs[k].task;
    assert FieldsFine(row, t.teams.Keys, t.members.Keys);
    RefsThere(t, row, docs, k);
    assert SeriesSlotFree(t.tasks, row);
  }

  lemma RefsThere(t: Tables, row: Task, docs: seq<Doc>, k: nat)
    requires k < |docs| && row == docs[k].task && t.tasks == RowsOf(docs, k) && DocsParentsFirst(docs)
    requires RowsOf(docs, k).Keys == DocIds(docs, k)
    requires FieldsFine(row, t.teams.Keys, t.members.Keys)
    ensures RefsExist(AsDB(t), row) && ValuesAllowed(row)
  {
    hide RowsOf;
  }

  lemma {:induction false} TasksGoIn(t: Tables, docs: seq<Doc>, k: nat, tasks: seq<MTask>)
    requires k <= |docs| && t.tasks == map[] && PlansTasks(docs, tasks, t.members.Keys)
    requires TasksValid(tasks, t.teams.Keys, t.members.Keys)
    ensures AddAll(t, docs[..k], PlaceTask) == Some(t.(tasks := RowsOf(docs, k)))
  {
    hide PlansTasks, TasksValid, PlaceTask, RowsOf;
    RowsOfNone(docs);
    if k == 0 {
    } else {
      TasksGoIn(t, docs, k - 1, tasks);
      assert docs[..k][..k - 1] == docs[..k - 1];
      OneTaskGoesIn(t.(tasks := RowsOf(docs, k - 1)), docs, k - 1, tasks);
    }
  }

  lemma RowsOfNone(docs: seq<Doc>)
    ensures RowsOf(docs, 0) == map[] && DocIds(docs, 0) == {}
  {
  }

  /** All planned rows together are the source's table. */
  lemma AllRows(docs: seq<Doc>, tasks: seq<MTask>, teamIDs: set<Id>, memberIDs: set<Id>)
    requires PlansTasks(docs, tasks, memberIDs) && TasksValid(tasks, teamIDs, memberIDs)
    ensures RowsOf(docs, |docs|) == TaskTable(tasks)
  {
    hide TaskTable, Timelines, TasksValid, RowsOf, DocsParentsFirst;
    RowsOfDocs(docs, |docs|);
    TableRows(tasks, teamIDs, memberIDs);
    var a, b := RowsOf(docs, |docs|), TaskTable(tasks);
    assert a.Keys <= b.Keys;
    assert |a.Keys| == |a| && |b.Keys| == |b|;
    SubsetOfSameSize(a.Keys, b.Keys);
  }

  lemma SubsetOfSameSize(a: set<Id>, b: set<Id>)
    requires a <= b && |a| == |b|
    ensures a == b
  {
    if x :| x in b && x !in a {
      assert a + {x} <= b;
      SubsetSize(a + {x}, b);
    }
  }

  lemma {:induction false} SubsetSize(a: set<Id>, b: set<Id>)
    requires a <= b
    ensures |a| <= |b|
  {
    if a == {} {
    } else {
      var x :| x in a;
      SubsetSize(a - {x}, b - {x});
    }
  }

  // ---- timelines go in ----

  function LogIds(log: seq<Entry>): set<Id> {
    set i | 0 <= i < |log| :: log[i].id
  }

  lemma {:induction false} EntryIdsContain(tasks: seq<MTask>, i: nat)
    requires i < |tasks|
    ensures EntryIdsOf(tasks[i].activity) <= EntryIds(tasks)
  {
    hide EntryIdsOf;
    var n := |tasks| - 1;
    if i >= n {
    } else {
      EntryIdsContain(tasks[..n], i);
    }
  }

  ghost predicate TimelineAt(tasks: seq<MTask>, memberIDs: set<Id>, x: Id, rows: seq<Entry>, i: nat) {
    && i < |tasks| && tasks[i].row.id == x && rows == EntryRows(tasks[i].activity, x, memberIDs)
    && ActivityValid(tasks[i].activity, {}) && EntryIdsOf(tasks[i].activity) <= EntryIds(tasks)
  }

  /** Each task's timeline is that of some document; entry ids are as many as entries. */
  lemma {:induction false} TimelinesOf(tasks: seq<MTask>, teamIDs: set<Id>, memberIDs: set<Id>)
    requires TasksValid(tasks, teamIDs, memberIDs)
    ensures Timelines(tasks, memberIDs).Keys == TaskTable(tasks).Keys
    ensures forall x :: x in TaskTable(tasks) ==>
            exists i :: TimelineAt(tasks, memberIDs, x, Timelines(tasks, memberIDs)[x], i)
    ensures |EntryIds(tasks)| == EmbeddedEntries(tasks)
  {
    hide Slots, TaskIds, FieldsFine, EntryIdsOf, EntryRows, ActivityValid, PlannedRow, TasksValid, TimelineAt;
    if |tasks| == 0 {
    } else {
      var n := |tasks| - 1;
      var done, mt := tasks[..n], tasks[n];
      assert tasks[..n + 1] == tasks;
      TaskStep(tasks, n, teamIDs, memberIDs);
      TimelinesOf(done, teamIDs, memberIDs);
      FreshEntries(mt.activity, EntryIds(done));
      assert EntryIds(tasks) == EntryIds(done) + EntryIdsOf(mt.activity);
      LastTimeline(tasks, memberIDs);
      forall x | x in TaskTable(tasks)
        ensures exists i :: TimelineAt(tasks, memberIDs, x, Timelines(tasks, memberIDs)[x], i) {
        if x == mt.row.id {
          assert TimelineAt(tasks, memberIDs, x, Timelines(tasks, memberIDs)[x], n);
        } else {
          var i :| TimelineAt(done, memberIDs, x, Timelines(done, memberIDs)[x], i);
          EarlierTimeline(tasks, memberIDs, x, Timelines(done, memberIDs)[x], i);
          assert TimelineAt(tasks, memberIDs, x, Timelines(tasks, memberIDs)[x], i);
        }
      }
    }
  }

  lemma LastTimeline(tasks: seq<MTask>, memberIDs: set<Id>)
    requires |tasks| > 0 && ActivityValid(tasks[|tasks| - 1].activity, {})
    ensures var mt := tasks[|tasks| - 1]; TimelineAt(tasks, memberIDs, mt.row.id,
                                                     EntryRows(mt.activity, mt.row.id, memberIDs), |tasks| - 1)
  {
    hide EntryIdsOf, EntryRows, ActivityValid;
  }

  lemma EarlierTimeline(tasks: seq<MTask>, memberIDs: set<Id>, x: Id, rows: seq<Entry>, i: nat)
    requires |tasks| > 0 && TimelineAt(tasks[..|tasks| - 1], memberIDs, x, rows, i)
    ensures TimelineAt(tasks, memberIDs, x, rows, i)
  {
    hide EntryIdsOf, EntryRows, ActivityValid;
  }

  /** A valid timeline has distinct ids, none of them taken before. */
  lemma {:induction false} FreshEntries(activity: seq<MEntry>, taken: set<Id>)
    requires ActivityValid(activity, taken)
    ensures ActivityValid(activity, {}) && EntryIdsOf(activity) !! taken && |EntryIdsOf(activity)| == |activity|
  {
    if |activity| == 0 {
    } else {
      var n := |activity| - 1;
      var done := activity[..n];
      assert activity[..n + 1] == activity;
      EntryStep(activity, n, taken);
      EntryStep(activity, n, {});
      FreshEntries(done, taken);
    }
  }

  lemma ValidBeside(activity: seq<MEntry>, taken: set<Id>)
    requires ActivityValid(activity, {}) && EntryIdsOf(activity) !! taken
    ensures ActivityValid(activity, taken)
  {
    forall i | 0 <= i < |activity| ensures EntryFine(activity[i], taken + EntryIdsOf(activity[..i])) {
      assert EntryFine(activity[i], {} + EntryIdsOf(activity[..i]));
      assert activity[i].id in EntryIdsOf(activity);
    }
  }

  lemma {:induction false} EntriesGoIn(t: Tables, x: Id, activity: seq<MEntry>, n: nat)
    requires x in t.tasks && n <= |activity| && ActivityValid(activity, LogIds(t.log))
    ensures var rows := EntryRows(activity, x, t.members.Keys);
            AddAll(t, rows[..n], PlaceEntry) == Some(t.(log := t.log + rows[..n]))
  {
    var rows := EntryRows(activity, x, t.members.Keys);
    if n == 0 {
      assert t.log + rows[..0] == t.log;
    } else {
      EntriesGoIn(t, x, activity, n - 1);
      hide ActivityValid, LogIds, EntryIdsOf;
      assert rows[..n][..n - 1] == rows[..n - 1] && rows[..n][n - 1] == rows[n - 1];
      OneEntryGoesIn(t, x, activity, n - 1);
      assert t.log + rows[..n] == (t.log + rows[..n - 1]) + [rows[n - 1]];
    }
  }

  lemma OneEntryGoesIn(t: Tables, x: Id, activity: seq<MEntry>, n: nat)
    requires x in t.tasks && n < |activity| && ActivityValid(activity, LogIds(t.log))
    ensures var rows := EntryRows(activity, x, t.members.Keys);
            var u := t.(log := t.log + rows[..n]);
            PlaceEntry(u, rows[n]) == Some(u.(log := u.log + [rows[n]]))
  {
    var rows := EntryRows(activity, x, t.members.Keys);
    var u := t.(log := t.log + rows[..n]);
    assert EntryFine(activity[n], LogIds(t.log) + EntryIdsOf(activity[..n]));
    forall i | 0 <= i < |u.log| ensures u.log[i].id != rows[n].id {
      if i < |t.log| {
        assert t.log[i].id in LogIds(t.log);
      } else {
        assert activity[..n][i - |t.log|].id in EntryIdsOf(activity[..n]);
      }
    }
  }

  /** The timelines of the first k planned tasks, one after the other. */
  function LogOfDocs(docs: seq<Doc>, k: nat): seq<Entry>
    requires k <= |docs|
  {
    if k == 0 then [] else LogOfDocs(docs, k - 1) + docs[k - 1].activity
  }

  /** The document that a planned task comes from. */
  ghost predicate ComesFrom(doc: Doc, tasks: seq<MTask>, memberIDs: set<Id>, i: nat) {
    && i < |tasks| && tasks[i].row.id == doc.task.id
    && doc.activity == EntryRows(tasks[i].activity, doc.task.id, memberIDs)
    && ActivityValid(tasks[i].activity, {}) && EntryIdsOf(tasks[i].activity) <= EntryIds(tasks)
  }

  lemma DocSource(docs: seq<Doc>, a: nat, tasks: seq<MTask>, teamIDs: set<Id>, memberIDs: set<Id>)
    returns (i: nat)
    requires a < |docs| && PlansTasks(docs, tasks, memberIDs) && TasksValid(tasks, teamIDs, memberIDs)
    ensures ComesFrom(docs[a], tasks, memberIDs, i)
  {
    hide TasksValid, ActivityValid, EntryIdsOf, EntryIds, EntryRows, DocsParentsFirst, TaskTable, Timelines;
    TimelinesOf(tasks, teamIDs, memberIDs);
    var x := docs[a].task.id;
    i :| TimelineAt(tasks, memberIDs, x, Timelines(tasks, memberIDs)[x], i);
  }

  lemma EntriesDisjoint(tasks: seq<MTask>, teamIDs: set<Id>, memberIDs: set<Id>, i: nat, j: nat)
    requires TasksValid(tasks, teamIDs, memberIDs) && i < |tasks| && j < |tasks| && i != j
    ensures EntryIdsOf(tasks[i].activity) !! EntryIdsOf(tasks[j].activity)
  {
    hide EntryIdsOf, EntryIds, ActivityValid;
    var lo, hi := if i < j then i else j, if i < j then j else i;
    assert TaskFine(tasks[hi], tasks[..hi], teamIDs, memberIDs);
    FreshEntries(tasks[hi].activity, EntryIds(tasks[..hi]));
    EntryIdsContain(tasks[..hi], lo);
  }

  lemma RowIdsOf(activity: seq<MEntry>, x: Id, memberIDs: set<Id>)
    ensures LogIds(EntryRows(activity, x, memberIDs)) == EntryIdsOf(activity)
  {
    var rows := EntryRows(activity, x, memberIDs);
    assert forall i :: 0 <= i < |rows| ==> rows[i].id == activity[i].id;
    forall y | y in EntryIdsOf(activity) ensures y in LogIds(rows) {
      var i :| 0 <= i < |activity| && activity[i].id == y;
      assert rows[i].id == y;
    }
  }

  lemma LogIdsConcat(a: seq<Entry>, b: seq<Entry>)
    ensures LogIds(a + b) == LogIds(a) + LogIds(b)
  {
    forall y | y in LogIds(a) ensures y in LogIds(a + b) {
      var i :| 0 <= i < |a| && a[i].id == y;
      assert (a + b)[i].id == y;
    }
    forall y | y in LogIds(b) ensures y in LogIds(a + b) {
      var i :| 0 <= i < |b| && b[i].id == y;
      assert (a + b)[|a| + i].id == y;
    }
  }

  /** No id of a later timeline has been used by an earlier one. */
  lemma {:induction false} LaterTimelineIsFresh(docs: seq<Doc>, k: nat, b: nat, tasks: seq<MTask>, teamIDs: set<Id>,
                                                memberIDs: set<Id>, j: nat)
    requires k <= b < |docs| && PlansTasks(docs, tasks, memberIDs) && TasksValid(tasks, teamIDs, memberIDs)
             && ComesFrom(docs[b], tasks, memberIDs, j)
    ensures LogIds(LogOfDocs(docs, k)) !! EntryIdsOf(tasks[j].activity)
  {
    hide TasksValid, EntryIdsOf, EntryIds, ActivityValid, EntryRows, LogIds;
    if k == 0 {
      assert LogIds([]) == {} by { NoLogIds(); }
    } else {
      LaterTimelineIsFresh(docs, k - 1, b, tasks, teamIDs, memberIDs, j);
      var i := DocSource(docs, k - 1, tasks, teamIDs, memberIDs);
      EntriesDisjoint(tasks, teamIDs, memberIDs, i, j);
      RowIdsOf(tasks[i].activity, docs[k - 1].task.id, memberIDs);
      LogIdsConcat(LogOfDocs(docs, k - 1), docs[k - 1].activity);
    }
  }

  lemma NoLogIds()
    ensures LogIds([]) == {}
  {
  }

  lemma {:induction false} TimelinesGoIn(t: Tables, docs: seq<Doc>, k: nat, tasks: seq<MTask>)
    requires k <= |docs| && t.tasks == TaskTable(tasks) && t.log == [] && PlansTasks(docs, tasks, t.members.Keys)
    requires TasksValid(tasks, t.teams.Keys, t.members.Keys)
    ensures AddAll(t, docs[..k], PlaceTimeline) == Some(t.(log := LogOfDocs(docs, k)))
  {
    hide TasksValid, EntryIdsOf, EntryIds, ActivityValid, EntryRows, LogIds, TaskTable, Timelines, DocsParentsFirst;
    if k == 0 {
    } else {
      TimelinesGoIn(t, docs, k - 1, tasks);
      var doc := docs[k - 1];
      assert docs[..k][..k - 1] == docs[..k - 1];
      var j := DocSource(docs, k - 1, tasks, t.teams.Keys, t.members.Keys);
      LaterTimelineIsFresh(docs, k - 1, k - 1, tasks, t.teams.Keys, t.members.Keys, j);
      var u := t.(log := LogOfDocs(docs, k - 1));
      ValidBeside(tasks[j].activity, LogIds(u.log));
      EntriesGoIn(u, doc.task.id, tasks[j].activity, |tasks[j].activity|);
      assert doc.activity[..|tasks[j].activity|] == doc.activity;
    }
  }

  // ---- counts ----

  lemma {:induction false} DistinctCount(log: seq<Entry>)
    requires DistinctEntryIds(log)
    ensures |LogIds(log)| == |log|
  {
    if |log| == 0 {
    } else {
      var init, last := log[..|log| - 1], log[|log| - 1];
      DistinctCount(init);
      LogIdsConcat(init, [last]);
      assert log == init + [last];
      assert LogIds([last]) == {last.id} by { assert [last][0].id == last.id; }
      assert last.id !in LogIds(init);
    }
  }

  lemma ActivityDistinct(activity: seq<MEntry>, x: Id, memberIDs: set<Id>)
    requires ActivityValid(activity, {})
    ensures DistinctEntryIds(EntryRows(activity, x, memberIDs))
  {
    var rows := EntryRows(activity, x, memberIDs);
    forall i, j | 0 <= i < j < |rows| ensures rows[i].id != rows[j].id {
      assert EntryFine(activity[j], {} + EntryIdsOf(activity[..j]));
      assert activity[..j][i].id in EntryIdsOf(activity[..j]);
    }
  }

  lemma DistinctConcat(a: seq<Entry>, b: seq<Entry>)
    requires DistinctEntryIds(a) && DistinctEntryIds(b) && LogIds(a) !! LogIds(b)
    ensures DistinctEntryIds(a + b)
  {
    forall i, j | 0 <= i < j < |a + b| ensures (a + b)[i].id != (a + b)[j].id {
      if i < |a| && j >= |a| { assert a[i].id in LogIds(a) && b[j - |a|].id in LogIds(b); }
    }
  }

  /** The log's entry ids are distinct, and are those of the planned tasks. */
  lemma {:induction false} LogIdFacts(docs: seq<Doc>, k: nat, tasks: seq<MTask>, teamIDs: set<Id>, memberIDs: set<Id>)
    requires k <= |docs| && PlansTasks(docs, tasks, memberIDs) && TasksValid(tasks, teamIDs, memberIDs)
    ensures DistinctEntryIds(LogOfDocs(docs, k)) && LogIds(LogOfDocs(docs, k)) <= EntryIds(tasks)
  {
    hide TasksValid, EntryIdsOf, EntryIds, ActivityValid, EntryRows, LogIds, DistinctEntryIds, PlansTasks;
    if k == 0 {
      assert DistinctEntryIds([]) && LogIds([]) == {} by { NoLogIds(); EmptyDistinct(); }
    } else {
      LogIdFacts(docs, k - 1, tasks, teamIDs, memberIDs);
      var doc := docs[k - 1];
      var j := DocSource(docs, k - 1, tasks, teamIDs, memberIDs);
      LaterTimelineIsFresh(docs, k - 1, k - 1, tasks, teamIDs, memberIDs, j);
      RowIdsOf(tasks[j].activity, doc.task.id, memberIDs);
      ActivityDistinct(tasks[j].activity, doc.task.id, memberIDs);
      DistinctConcat(LogOfDocs(docs, k - 1), doc.activity);
      LogIdsConcat(LogOfDocs(docs, k - 1), doc.activity);
    }
  }

  lemma {:induction false} LogHasTimeline(docs: seq<Doc>, k: nat, a: nat)
    requires a < k <= |docs|
    ensures LogIds(docs[a].activity) <= LogIds(LogOfDocs(docs, k))
  {
    hide LogIds;
    LogIdsConcat(LogOfDocs(docs, k - 1), docs[k - 1].activity);
    if a >= k - 1 {
    } else {
      LogHasTimeline(docs, k - 1, a);
    }
  }

  /** Its entries are filed under planned tasks, with allowed kinds and known authors. */
  lemma {:induction false} LogFacts(docs: seq<Doc>, k: nat, tasks: seq<MTask>, teamIDs: set<Id>, memberIDs: set<Id>)
    requires k <= |docs| && PlansTasks(docs, tasks, memberIDs) && TasksValid(tasks, teamIDs, memberIDs)
    ensures forall e :: e in LogOfDocs(docs, k) ==>
              e.taskId in TaskTable(tasks) && !e.kind.OtherKind? && (e.author.Some? ==> e.author.value in memberIDs)
  {
    hide TasksValid, EntryIdsOf, EntryIds, ActivityValid, EntryRows, TaskTable, Timelines, DocsParentsFirst;
    if k == 0 {
    } else {
      LogFacts(docs, k - 1, tasks, teamIDs, memberIDs);
      var j := DocSource(docs, k - 1, tasks, teamIDs, memberIDs);
      assert docs[k - 1].task.id in TaskTable(tasks);
      hide PlansTasks;
      RowsFiled(tasks[j].activity, docs[k - 1].task.id, memberIDs);
    }
  }

  lemma EmptyDistinct()
    ensures DistinctEntryIds([])
  {
  }

  lemma RowsFiled(activity: seq<MEntry>, x: Id, memberIDs: set<Id>)
    requires ActivityValid(activity, {})
    ensures forall e :: e in EntryRows(activity, x, memberIDs) ==>
              e.taskId == x && !e.kind.OtherKind? && (e.author.Some? ==> e.author.value in memberIDs)
  {
    assert forall i :: 0 <= i < |activity| ==> EntryFine(activity[i], {} + EntryIdsOf(activity[..i]));
  }

  /** As many timeline rows as embedded entries. */
  lemma LogCount(docs: seq<Doc>, tasks: seq<MTask>, teamIDs: set<Id>, memberIDs: set<Id>)
    requires PlansTasks(docs, tasks, memberIDs) && TasksValid(tasks, teamIDs, memberIDs)
    ensures |LogOfDocs(docs, |docs|)| == EmbeddedEntries(tasks)
  {
    hide TasksValid, EntryIdsOf, EntryIds, ActivityValid, EntryRows, LogIds, DistinctEntryIds, TaskTable, Timelines,
         DocsParentsFirst, LogOfDocs;
    var log := LogOfDocs(docs, |docs|);
    LogIdFacts(docs, |docs|, tasks, teamIDs, memberIDs);
    forall y | y in EntryIds(tasks) ensures y in LogIds(log) {
      var i := OwnerOf(tasks, y);
      var a := DocOf(docs, tasks, teamIDs, memberIDs, i);
      LogHasTimeline(docs, |docs|, a);
      assert LogIds(docs[a].activity) == EntryIdsOf(tasks[i].activity) by {
        var j := DocSource(docs, a, tasks, teamIDs, memberIDs);
        SameIndex(tasks, teamIDs, memberIDs, i, j);
        RowIdsOf(tasks[j].activity, docs[a].task.id, memberIDs);
      }
    }
    assert LogIds(log) == EntryIds(tasks);
    DistinctCount(log);
    TimelinesOf(tasks, teamIDs, memberIDs);
  }

  lemma {:induction false} OwnerOf(tasks: seq<MTask>, y: Id) returns (i: nat)
    requires y in EntryIds(tasks)
    ensures i < |tasks| && y in EntryIdsOf(tasks[i].activity)
  {
    hide EntryIdsOf;
    var n := |tasks| - 1;
    if y in EntryIdsOf(tasks[n].activity) { i := n; } else { i := OwnerOf(tasks[..n], y); }
  }

  lemma DocOf(docs: seq<Doc>, tasks: seq<MTask>, teamIDs: set<Id>, memberIDs: set<Id>, i: nat)
    returns (a: nat)
    requires PlansTasks(docs, tasks, memberIDs) && TasksValid(tasks, teamIDs, memberIDs) && i < |tasks|
    ensures a < |docs| && docs[a].task.id == tasks[i].row.id
  {
    hide TasksValid, TaskTable, Timelines, DocsParentsFirst, RowsOf;
    AllRows(docs, tasks, teamIDs, memberIDs);
    RowsOfDocs(docs, |docs|);
    TableIds(tasks);
    assert TaskIds(tasks)[i] in TaskTable(tasks);
    a :| 0 <= a < |docs| && docs[a].task.id == tasks[i].row.id;
  }

  lemma SameIndex(tasks: seq<MTask>, teamIDs: set<Id>, memberIDs: set<Id>, i: nat, j: nat)
    requires TasksValid(tasks, teamIDs, memberIDs) && i < |tasks| && j < |tasks| && tasks[i].row.id == tasks[j].row.id
    ensures i == j
  {
    hide FieldsFine, ActivityValid, Slots, EntryIds;
    var lo, hi := if i < j then i else j, if i < j then j else i;
    assert TaskFine(tasks[hi], tasks[..hi], teamIDs, memberIDs);
    assert forall k :: 0 <= k < hi ==> TaskIds(tasks[..hi])[k] == tasks[k].row.id;
  }

  function RowsWith(table: map<Id, Task>, s: Status): set<Id> {
    set x | x in table && table[x].status == s
  }

  lemma {:induction false} StatusCount(tasks: seq<MTask>, teamIDs: set<Id>, memberIDs: set<Id>, s: Status)
    requires TasksValid(tasks, teamIDs, memberIDs)
    ensures |RowsWith(TaskTable(tasks), s)| == WithStatus(tasks, s)
  {
    hide Slots, TaskIds, FieldsFine, ActivityValid, EntryIds;
    if |tasks| > 0 {
      var n := |tasks| - 1;
      var done, mt := tasks[..n], tasks[n];
      assert tasks[..n + 1] == tasks;
      TaskStep(tasks, n, teamIDs, memberIDs);
      StatusCount(done, teamIDs, memberIDs, s);
      TableIds(done);
      hide TaskTable, RowsWith, TasksValid;
      assert TaskTable(tasks) == TaskTable(done)[mt.row.id := PlannedRow(mt)] by { TableStep(tasks); }
      StatusStep(TaskTable(done), PlannedRow(mt), s);
    } else {
      assert RowsWith(map[], s) == {};
    }
  }

  lemma TableStep(tasks: seq<MTask>)
    requires |tasks| > 0
    ensures var mt := tasks[|tasks| - 1];
            TaskTable(tasks) == TaskTable(tasks[..|tasks| - 1])[mt.row.id := PlannedRow(mt)]
  {
  }

  lemma StatusStep(table: map<Id, Task>, row: Task, s: Status)
    requires row.id !in table
    ensures |RowsWith(table[row.id := row], s)| == |RowsWith(table, s)| + (if row.status == s then 1 else 0)
  {
    assert RowsWith(table[row.id := row], s) == RowsWith(table, s) + (if row.status == s then {row.id} else {});
  }

  // ---- the main theorem ----

  /** A teamIds entry that repeats an earlier one is dropped; any other keeps its position. */
  predicate FitsAt(teamIds: seq<Id>, k: nat)
    requires k < |teamIds|
  {
    teamIds[k] in teamIds[..k] || k <= MAX_POS
  }

  ghost predicate KeptPositionsFit(members: seq<MMember>) {
    forall i, k :: 0 <= i < |members| && 0 <= k < |members[i].teamIds| ==> FitsAt(members[i].teamIds, k)
  }

  ghost predicate FitsBefore(teamIds: seq<Id>, n: nat)
    requires n <= |teamIds|
  {
    forall k :: 0 <= k < n ==> FitsAt(teamIds, k)
  }

  lemma FitsStep(teamIds: seq<Id>, n: nat)
    requires 0 < n <= |teamIds|
    ensures FitsBefore(teamIds, n) <==> FitsBefore(teamIds, n - 1) && FitsAt(teamIds, n - 1)
  {
    hide FitsAt;
  }

  lemma {:induction false} KeptPositions(m: MMember, n: nat)
    requires n <= |m.teamIds|
    ensures PositionsFit(KeptTeams(m, n)) <==> FitsBefore(m.teamIds, n)
  {
    if n == 0 {
    } else {
      KeptPositions(m, n - 1);
      KeptOneMore(m, n);
      FitsStep(m.teamIds, n);
      hide KeptTeams, PositionsFit, FitsBefore;
      LastPosition(KeptTeams(m, n - 1), MemberTeamRow(m.id, m.teamIds[n - 1], n - 1));
    }
  }

  lemma {:induction false} AllKeptPositions(members: seq<MMember>)
    ensures PositionsFit(MemberTeamRows(members)) <==> KeptPositionsFit(members)
  {
    if |members| == 0 {
    } else {
      var n := |members| - 1;
      var done, m := members[..n], members[n];
      AllKeptPositions(done);
      KeptPositions(m, |m.teamIds|);
      PositionsConcat(MemberTeamRows(done), KeptTeams(m, |m.teamIds|));
      hide PositionsFit, KeptTeams;
      assert KeptPositionsFit(members) <==>
             KeptPositionsFit(done) && FitsBefore(m.teamIds, |m.teamIds|);
    }
  }

  /** What the committed tables hold. */
  ghost predicate Migrated(t: Tables, src: Source) {
    && Consistent(AsDB(t))
    && t.teams.Keys == TeamIds(src.teams) && t.members.Keys == MemberIds(src.members)
    && t.tasks == TaskTable(src.tasks) && |t.tasks| == |src.tasks|
    && |t.log| == EmbeddedEntries(src.tasks)
    && forall s :: |RowsWith(t.tasks, s)| == WithStatus(src.tasks, s)
  }

  /** A plan of a valid source keeps every constraint of an empty schema exactly when no
      kept teamIds position exceeds a SMALLINT. */
  lemma PlanIsPlaced(src: Source, fold: string -> string, p: Plan)
    requires SourceValid(src, fold) && PlanOf(p, src) && FoldsLogins(fold)
    ensures Placed(EMPTY, p).Some? <==> KeptPositionsFit(src.members)
    ensures Placed(EMPTY, p).Some? ==> Migrated(Placed(EMPTY, p).value, src)
  {
    hide TeamsValid, MembersValid, TeamRefsValid, TasksValid, PlansTasks, PlaceTeam, PlaceMember, AddMemberTeam,
         PlaceTask, PlaceTimeline, AddAll, TaskTable, WithStatus, Acyclic, TeamIds, MemberIds, TeamRows, MemberRows,
         MemberTeamRows, FoldsLogins, KeptPositionsFit, PositionsFit, Migrated;
    TeamsGoIn(src.teams);
    var a := AddAll(EMPTY, p.teams, PlaceTeam).value;
    MembersGoIn(a, src.members, fold);
    var b := AddAll(a, p.members, PlaceMember).value;
    MemberTeamsGoIn(b, src.members, fold);
    AllKeptPositions(src.members);
    var mid := AddAll(b, p.memberTeams, AddMemberTeam);
    if mid.Some? {
      TablesOf(b, mid.value);
      RestGoesIn(src, p.tasks, mid.value);
    }
  }

  lemma TablesOf(b: Tables, c: Tables)
    requires OnlyMemberTeams(b, c)
    ensures c == b.(memberTeams := c.memberTeams)
  {
  }

  lemma RestGoesIn(src: Source, docs: seq<Doc>, c: Tables)
    requires c.teams.Keys == TeamIds(src.teams) && c.members.Keys == MemberIds(src.members) && c.tasks == map[]
             && c.log == []
    requires TasksValid(src.tasks, c.teams.Keys, c.members.Keys) && PlansTasks(docs, src.tasks, c.members.Keys)
    requires ParentsExist(TaskTable(src.tasks))
    ensures var d := AddAll(c, docs, PlaceTask);
            && d.Some?
            && var e := AddAll(d.value, docs, PlaceTimeline);
               e.Some? && Migrated(e.value, src)
  {
    hide TasksValid, PlansTasks, PlaceTask, PlaceTimeline, AddAll, TaskTable, WithStatus, TeamIds, MemberIds,
         ParentsExist, RowsOf, LogOfDocs;
    var n := |docs|;
    assert docs[..n] == docs;
    TasksGoIn(c, docs, n, src.tasks);
    AllRows(docs, src.tasks, c.teams.Keys, c.members.Keys);
    var d := c.(tasks := TaskTable(src.tasks));
    TimelinesGoIn(d, docs, n, src.tasks);
    var e := d.(log := LogOfDocs(docs, n));
    LogIdFacts(docs, n, src.tasks, c.teams.Keys, c.members.Keys);
    LogFacts(docs, n, src.tasks, c.teams.Keys, c.members.Keys);
    LogCount(docs, src.tasks, c.teams.Keys, c.members.Keys);
    TableRows(src.tasks, c.teams.Keys, c.members.Keys);
    forall s ensures |RowsWith(e.tasks, s)| == WithStatus(src.tasks, s) {
      StatusCount(src.tasks, c.teams.Keys, c.members.Keys, s);
    }
    MigratedIsConsistent(e, src.tasks);
  }

  lemma MigratedIsConsistent(e: Tables, tasks: seq<MTask>)
    requires e.tasks == TaskTable(tasks) && ParentsExist(e.tasks) && DistinctEntryIds(e.log)
    requires forall x :: x in e.tasks ==> e.tasks[x].id == x && FieldsFine(e.tasks[x], e.teams.Keys, e.members.Keys)
    requires forall x, y :: x in e.tasks && y in e.tasks && x != y && e.tasks[x].seriesId.Some? ==>
               !(e.tasks[x].seriesId == e.tasks[y].seriesId && e.tasks[x].period == e.tasks[y].period)
    requires forall r :: r in e.log ==>
             r.taskId in e.tasks && !r.kind.OtherKind? && (r.author.Some? ==> r.author.value in e.members.Keys)
    ensures Consistent(AsDB(e))
  {
    hide TaskTable, ValuesAllowed;
    forall x | x in e.tasks ensures RowFits(AsDB(e), e.tasks[x]) {
      assert FieldsFine(e.tasks[x], e.teams.Keys, e.members.Keys);
    }
  }

  // ---- the values of the plan are those of the source ----

  lemma {:induction false} TableAt(tasks: seq<MTask>, teamIDs: set<Id>, memberIDs: set<Id>, i: nat)
    requires TasksValid(tasks, teamIDs, memberIDs) && i < |tasks|
    ensures tasks[i].row.id in TaskTable(tasks) && TaskTable(tasks)[tasks[i].row.id] == PlannedRow(tasks[i])
  {
    hide TasksValid, PlannedRow, FieldsFine, ActivityValid, Slots, EntryIds;
    var n := |tasks| - 1;
    if i == n {
    } else {
      assert tasks[..n + 1] == tasks;
      TaskStep(tasks, n, teamIDs, memberIDs);
      TableAt(tasks[..n], teamIDs, memberIDs, i);
      if tasks[n].row.id == tasks[i].row.id { SameIndex(tasks, teamIDs, memberIDs, i, n); }
    }
  }

  /** A planned document and the source document it comes from. */
  ghost predicate DocFor(doc: Doc, mt: MTask, memberIDs: set<Id>) {
    doc.task == PlannedRow(mt) && doc.activity == EntryRows(mt.activity, mt.row.id, memberIDs)
  }

  lemma TaskOfDoc(docs: seq<Doc>, a: nat, tasks: seq<MTask>, teamIDs: set<Id>, memberIDs: set<Id>)
    returns (i: nat)
    requires a < |docs| && PlansTasks(docs, tasks, memberIDs) && TasksValid(tasks, teamIDs, memberIDs)
    ensures i < |tasks| && DocFor(docs[a], tasks[i], memberIDs)
  {
    hide TasksValid, TaskTable, Timelines, DocsParentsFirst, PlannedRow, EntryRows, ActivityValid, EntryIds, EntryIdsOf;
    i := DocSource(docs, a, tasks, teamIDs, memberIDs);
    TableAt(tasks, teamIDs, memberIDs, i);
  }

  lemma DocOfTask(docs: seq<Doc>, tasks: seq<MTask>, teamIDs: set<Id>, memberIDs: set<Id>, i: nat)
    returns (a: nat)
    requires PlansTasks(docs, tasks, memberIDs) && TasksValid(tasks, teamIDs, memberIDs) && i < |tasks|
    ensures a < |docs| && DocFor(docs[a], tasks[i], memberIDs)
  {
    hide TasksValid, PlansTasks, EntryRows, PlannedRow;
    a := DocOf(docs, tasks, teamIDs, memberIDs, i);
    var j := TaskOfDoc(docs, a, tasks, teamIDs, memberIDs);
    assert tasks[j].row.id == docs[a].task.id by { PlannedId(tasks[j]); }
    SameIndex(tasks, teamIDs, memberIDs, i, j);
  }

  lemma PlannedId(mt: MTask)
    ensures PlannedRow(mt).id == mt.row.id
  {
  }

  predicate TaskStorable(mt: MTask) {
    TaskTextsStorable(mt) && TaskInstantsStorable(mt) && OneStatement(|mt.activity|)
  }

  predicate DocStorable(doc: Doc) {
    StorableTask(doc.task) && StorableTimeline(doc)
  }

  lemma DocStorableIsTasks(doc: Doc, mt: MTask, memberIDs: set<Id>)
    requires DocFor(doc, mt, memberIDs)
    ensures DocStorable(doc) <==> TaskStorable(mt)
  {
    hide StorableText, StorableInstant, OneStatement, StorableTaskTexts;
    forall i | 0 <= i < |mt.activity|
      ensures StorableEntry(doc.activity[i]) <==>
              var e := mt.activity[i];
              && StorableText(e.date) && StorableText(e.byName) && StorableText(e.text)
              && StorableStatus(e.from) && StorableStatus(e.to)
              && StorableInstant(e.at) && StorableIfSet(e.editedAt)
    {
    }
    if DocStorable(doc) {
      assert forall i :: 0 <= i < |mt.activity| ==> StorableEntry(doc.activity[i]);
    }
  }

  lemma DocsStorable(docs: seq<Doc>, tasks: seq<MTask>, teamIDs: set<Id>, memberIDs: set<Id>)
    requires PlansTasks(docs, tasks, memberIDs) && TasksValid(tasks, teamIDs, memberIDs)
    ensures (forall a :: 0 <= a < |docs| ==> DocStorable(docs[a])) <==>
            forall i :: 0 <= i < |tasks| ==> TaskStorable(tasks[i])
  {
    hide PlansTasks, TasksValid, DocStorable, TaskStorable, DocFor;
    if forall i :: 0 <= i < |tasks| ==> TaskStorable(tasks[i]) {
      forall a: nat | a < |docs| ensures DocStorable(docs[a]) {
        var i := TaskOfDoc(docs, a, tasks, teamIDs, memberIDs);
        DocStorableIsTasks(docs[a], tasks[i], memberIDs);
      }
    }
    if forall a :: 0 <= a < |docs| ==> DocStorable(docs[a]) {
      forall i: nat | i < |tasks| ensures TaskStorable(tasks[i]) {
        var a := DocOfTask(docs, tasks, teamIDs, memberIDs, i);
        DocStorableIsTasks(docs[a], tasks[i], memberIDs);
      }
    }
  }

  lemma DocsPass(docs: seq<Doc>)
    ensures AllPass(docs, (doc: Doc) => StorableTask(doc.task)) && AllPass(docs, StorableTimeline) <==>
            forall a :: 0 <= a < |docs| ==> DocStorable(docs[a])
  {
    hide StorableTask, StorableTimeline;
  }

  lemma TeamsAndMembersPass(src: Source)
    ensures AllPass(TeamRows(src.teams), StorableTeam) <==>
            forall i :: 0 <= i < |src.teams| ==>
              StorableText(src.teams[i].name) && StorableInstant(src.teams[i].createdAt)
    ensures AllPass(MemberRows(src.members), StorableMember) <==>
            forall i :: 0 <= i < |src.members| ==>
              var m := src.members[i];
              && StorableText(m.name) && StorableText(m.email) && StorableText(m.role) && StorableText(m.passwordHash)
              && StorableInstant(m.createdAt) && StorableIfSet(m.lastLoginAt)
  {
    hide StorableText, StorableInstant, StorableIfSet;
    var teams, members := TeamRows(src.teams), MemberRows(src.members);
    forall i | 0 <= i < |src.teams|
      ensures StorableTeam(teams[i]) <==> StorableText(src.teams[i].name) && StorableInstant(src.teams[i].createdAt)
    {
    }
    forall i | 0 <= i < |src.members|
      ensures StorableMember(members[i]) <==>
              var m := src.members[i];
              && StorableText(m.name) && StorableText(m.email) && StorableText(m.role) && StorableText(m.passwordHash)
              && StorableInstant(m.createdAt) && StorableIfSet(m.lastLoginAt)
    {
    }
    hide StorableTeam, StorableMember, TeamRows, MemberRows;
    assert AllPass(teams, StorableTeam) <==> forall i :: 0 <= i < |src.teams| ==> StorableTeam(teams[i]);
    assert AllPass(members, StorableMember) <==> forall i :: 0 <= i < |src.members| ==> StorableMember(members[i]);
  }

  lemma TaskStorableParts(src: Source)
    ensures (forall i :: 0 <= i < |src.tasks| ==> TaskStorable(src.tasks[i])) <==>
            && (forall i :: 0 <= i < |src.tasks| ==> TaskTextsStorable(src.tasks[i]))
            && (forall i :: 0 <= i < |src.tasks| ==> TaskInstantsStorable(src.tasks[i]))
            && TimelinesFit(src)
  {
    hide TaskTextsStorable, TaskInstantsStorable, OneStatement;
  }

  lemma PlanStorableIsSources(src: Source, fold: string -> string, p: Plan)
    requires SourceValid(src, fold) && PlanOf(p, src)
    ensures PlanStorable(p) <==> TextsStorable(src) && InstantsStorable(src) && TimelinesFit(src)
  {
    TeamsAndMembersPass(src);
    DocsStorable(p.tasks, src.tasks, TeamIds(src.teams), MemberIds(src.members));
    DocsPass(p.tasks);
    TaskStorableParts(src);
    hide AllPass, TeamRows, MemberRows, StorableText, StorableInstant, StorableIfSet, StorableTeam, StorableMember,
         DocStorable, TaskTextsStorable, TaskInstantsStorable, TaskStorable, TimelinesFit, OneStatement, PlansTasks,
         TasksValid, TeamsValid, MembersValid;
  }

  /** Soundness of the validation, and its gaps. A plan of a valid source goes into an
      empty schema exactly when every kept teamIds position is a SMALLINT, no text holds
      U+0000, every instant is a TIMESTAMPTZ and every timeline fits one statement, none
      of which any finding reports; and then task, timeline and per-status counts are the
      source's. */
  lemma ValidPlanGoesIn(src: Source, fold: string -> string, p: Plan)
    requires SourceValid(src, fold) && PlanOf(p, src) && FoldsLogins(fold)
    ensures Inserted(EMPTY, p).Some? <==>
            KeptPositionsFit(src.members) && TextsStorable(src) && InstantsStorable(src) && TimelinesFit(src)
    ensures Inserted(EMPTY, p).Some? ==> Migrated(Inserted(EMPTY, p).value, src)
  {
    hide SourceValid, PlanOf, FoldsLogins, Inserted, Placed, PlanStorable, KeptPositionsFit, Migrated, TextsStorable,
         InstantsStorable, TimelinesFit;
    PlanIsPlaced(src, fold, p);
    InsertedIsPlaced(EMPTY, p);
    PlanStorableIsSources(src, fold, p);
  }

  // ---- sources that pass validation and do not go in ----

  /** The object id with this number: 24 hexadecimal digits, here decimal ones. */
  function NumberedId(i: nat): Id {
    Digits.Pad(i + 1, 24)
  }

  predicate IsObjectId(id: Id) {
    |id| == 24 && Digits.AllDigits(id)
  }

  /** n teams, and one member who belongs to all of them. */
  function Joiner(n: nat): Source {
    var teams := seq(n, i requires 0 <= i < n => MTeam(NumberedId(i), NumberedId(i), 0));
    var member := MMember(NumberedId(0), "M", "", "", seq(n, i requires 0 <= i < n => NumberedId(i)), 0, "", "", false,
                          false, None);
    Source(teams, [member], [], [])
  }

  /** buildPlan finds nothing wrong with a member of 32769 teams; the insert fails. */
  lemma TooManyTeams(fold: string -> string, p: Plan)
    requires FoldsLogins(fold) && PlanOf(p, Joiner(MAX_POS + 2))
    ensures forall t :: t in Joiner(MAX_POS + 2).teams ==> IsObjectId(t.id)
    ensures IsObjectId(Joiner(MAX_POS + 2).members[0].id)
    ensures SourceValid(Joiner(MAX_POS + 2), fold) && Inserted(EMPTY, p) == None
  {
    hide PlanOf, Inserted, FoldsLogins, NumberedId, IsObjectId, TextsStorable, InstantsStorable;
    var n := MAX_POS + 2;
    JoinerIsValid(n, fold);
    ValidPlanGoesIn(Joiner(n), fold, p);
    forall i: nat | i < n ensures IsObjectId(NumberedId(i)) { NumberedIsObjectId(i); }
    var ids := Joiner(n).members[0].teamIds;
    assert !FitsAt(ids, n - 1) by {
      forall k: nat | k < n - 1 ensures ids[k] != ids[n - 1] { NumbersDiffer(k, n - 1); }
    }
  }

  lemma NumberedIsObjectId(i: nat)
    requires i < MAX_POS + 2
    ensures IsObjectId(NumberedId(i))
  {
    Digits.PowersOfTen();
    PowersGrow(4, 5);
    PowersGrow(5, 24);
    assert Digits.Power10(5) == 10 * Digits.Power10(4);
    Digits.PadWidth(i + 1, 24);
  }

  lemma {:induction false} PowersGrow(j: nat, k: nat)
    requires j <= k
    ensures 0 < Digits.Power10(j) <= Digits.Power10(k)
    decreases k
  {
    if j < k {
      PowersGrow(j, k - 1);
    } else if k > 0 {
      PowersGrow(k - 1, k - 1);
    }
  }

  lemma NumbersDiffer(i: nat, j: nat)
    ensures NumberedId(i) == NumberedId(j) <==> i == j
    ensures NumberedId(i) != ZERO_ID
  {
    Digits.ValueOfPad(i + 1, 24);
    Digits.ValueOfPad(j + 1, 24);
    ZerosAreZero(ZERO_ID);
  }

  lemma {:induction false} ZerosAreZero(s: string)
    requires forall i :: 0 <= i < |s| ==> s[i] == '0'
    ensures Digits.AllDigits(s) && Digits.Value(s) == 0
  {
    if |s| == 0 {
    } else {
      ZerosAreZero(s[..|s| - 1]);
    }
  }

  lemma JoinerIsValid(n: nat, fold: string -> string)
    ensures SourceValid(Joiner(n), fold)
  {
    hide NumberedId;
    var src := Joiner(n);
    var teams := src.teams;
    forall i | 0 <= i < n ensures TeamFine(teams[i], teams[..i]) {
      NumbersDiffer(i, i);
      forall k | 0 <= k < i ensures teams[..i][k].id != teams[i].id && teams[..i][k].name != teams[i].name {
        NumbersDiffer(k, i);
      }
    }
    assert TaskTable(src.tasks) == map[] && ExistingParents(map[]) == map[];
    RankedIsAcyclic(map[], map[]);
    forall k | 0 <= k < n ensures src.members[0].teamIds[k] in TeamIds(teams) { assert teams[k].id == NumberedId(k); }
    NumbersDiffer(0, 0);
    assert MemberFine(src.members[0], src.members[..0], fold);
    hide TeamFine, MemberFine;
    assert MembersValid(src.members, fold) && TeamsValid(teams) && TeamRefsValid(src.members, TeamIds(teams));
  }

  /** One team and nothing else. */
  function TeamOnly(name: string, createdAt: int): Source {
    Source([MTeam(NumberedId(0), name, createdAt)], [], [], [])
  }

  lemma TeamOnlyIsValid(name: string, createdAt: int, fold: string -> string)
    requires createdAt != ZERO_TIME
    ensures SourceValid(TeamOnly(name, createdAt), fold)
  {
    hide NumberedId;
    NumbersDiffer(0, 0);
    assert TaskTable([]) == map[] && ExistingParents(map[]) == map[];
    RankedIsAcyclic(map[], map[]);
  }

  /** A team name with U+0000 passes validation; the insert fails. */
  lemma NameWithNul(fold: string -> string, p: Plan)
    requires FoldsLogins(fold) && PlanOf(p, TeamOnly("a\0b", 0))
    ensures SourceValid(TeamOnly("a\0b", 0), fold) && Inserted(EMPTY, p) == None
  {
    hide PlanOf, Inserted, FoldsLogins, NumberedId;
    var src := TeamOnly("a\0b", 0);
    TeamOnlyIsValid("a\0b", 0, fold);
    ValidPlanGoesIn(src, fold, p);
    assert "a\0b"[1] == '\0';
    assert !StorableText(src.teams[0].name);
  }

  /** 1 January of the year -10000, in microseconds. */
  const LONG_AGO := -377_736_739_200_000_000

  /** So does a team created in the year -10000. */
  lemma CreatedLongAgo(fold: string -> string, p: Plan)
    requires FoldsLogins(fold) && PlanOf(p, TeamOnly("a", LONG_AGO))
    ensures SourceValid(TeamOnly("a", LONG_AGO), fold) && Inserted(EMPTY, p) == None
  {
    hide PlanOf, Inserted, FoldsLogins, NumberedId;
    var src := TeamOnly("a", LONG_AGO);
    TeamOnlyIsValid("a", LONG_AGO, fold);
    ValidPlanGoesIn(src, fold, p);
    assert !StorableInstant(src.teams[0].createdAt);
  }

  /** One task with a timeline of n notes. */
  function Noted(n: nat): Source {
    var row := Task(NumberedId(0), "T", "", Backlog, "", "", Todo, NoPriority, [], None, None, None, "", None, None,
                    None, 0, 0, None);
    var notes := seq(n, i requires 0 <= i < n =>
                          MEntry(NumberedId(i), NoteEntry, "2026-01-01", 0, None, "", "note", None, None, None));
    Source([], [], [MTask(row, notes)], [])
  }

  lemma NotedIsValid(n: nat, fold: string -> string)
    ensures SourceValid(Noted(n), fold)
  {
    hide NumberedId;
    var src := Noted(n);
    var mt := src.tasks[0];
    NumbersDiffer(0, 0);
    forall i | 0 <= i < n ensures EntryFine(mt.activity[i], {} + EntryIdsOf(mt.activity[..i])) {
      NumbersDiffer(i, i);
      forall k | 0 <= k < i ensures mt.activity[..i][k].id != mt.activity[i].id { NumbersDiffer(k, i); }
    }
    assert src.tasks[..0] == [] && EntryIds([]) == {} && TaskIds([]) == [] && Slots([]) == {};
    assert TaskFine(mt, src.tasks[..0], {}, {}) by {
      assert ActivityValid(mt.activity, {});
    }
    assert TaskTable([]) == map[];
    var table := TaskTable(src.tasks);
    assert table == map[mt.row.id := PlannedRow(mt)];
    assert ExistingParents(table) == map[];
    RankedIsAcyclic(map[], map[]);
    assert TeamIds([]) == {} && MemberIds([]) == {};
  }

  /** And so does a task with 5958 timeline entries, too many for one statement. */
  lemma TimelineTooLong(fold: string -> string, p: Plan)
    requires FoldsLogins(fold) && PlanOf(p, Noted(5958))
    ensures SourceValid(Noted(5958), fold) && Inserted(EMPTY, p) == None
  {
    hide PlanOf, Inserted, FoldsLogins, NumberedId, TextsStorable, InstantsStorable;
    var src := Noted(5958);
    NotedIsValid(5958, fold);
    ValidPlanGoesIn(src, fold, p);
    assert !OneStatement(|src.tasks[0].activity|);
  }

  // ---- each timeline in its document's order ----

  predicate Filed(doc: Doc) {
    forall i :: 0 <= i < |doc.activity| ==> doc.activity[i].taskId == doc.task.id
  }

  lemma {:induction false} LogKeepsOrder(docs: seq<Doc>, k: nat, a: nat)
    requires k <= |docs| && a < |docs| && DistinctDocs(docs) && forall b :: 0 <= b < |docs| ==> Filed(docs[b])
    ensures LogOf(LogOfDocs(docs, k), docs[a].task.id) == if a < k then docs[a].activity else []
  {
    hide *;
    LogOfDocsParts(docs, k, docs[a].task.id);
    if k == 0 {
    } else {
      var doc, x := docs[k - 1], docs[a].task.id;
      LogKeepsOrder(docs, k - 1, a);
      SameDoc(docs, a, k - 1);
      DocLog(doc, x);
      Restore.LogOfConcat(LogOfDocs(docs, k - 1), doc.activity, x);
      assert doc.activity + [] == doc.activity == [] + doc.activity;
      assert docs[a].activity + [] == docs[a].activity;
    }
  }

  lemma LogOfDocsParts(docs: seq<Doc>, k: nat, x: Id)
    requires k <= |docs|
    ensures k == 0 ==> LogOf(LogOfDocs(docs, k), x) == []
    ensures k > 0 ==> LogOfDocs(docs, k) == LogOfDocs(docs, k - 1) + docs[k - 1].activity
  {
  }

  lemma SameDoc(docs: seq<Doc>, a: nat, b: nat)
    requires DistinctDocs(docs) && a < |docs| && b < |docs|
    ensures docs[a].task.id == docs[b].task.id <==> a == b
  {
  }

  lemma DocLog(doc: Doc, x: Id)
    requires Filed(doc)
    ensures LogOf(doc.activity, x) == if x == doc.task.id then doc.activity else []
  {
    Restore.SegmentLog(doc.activity, doc.task.id, x);
  }

  /** Read by seq, a migrated task's timeline is the embedded one, in its order. */
  lemma TimelineOrderKept(docs: seq<Doc>, a: nat, tasks: seq<MTask>, teamIDs: set<Id>, memberIDs: set<Id>)
    requires a < |docs| && PlansTasks(docs, tasks, memberIDs) && TasksValid(tasks, teamIDs, memberIDs)
    ensures exists i :: 0 <= i < |tasks| && tasks[i].row.id == docs[a].task.id
                        && LogOf(LogOfDocs(docs, |docs|), docs[a].task.id) ==
                           EntryRows(tasks[i].activity, docs[a].task.id, memberIDs)
  {
    hide TasksValid, EntryRows, ActivityValid, EntryIdsOf, EntryIds, TaskTable, Timelines, DocsParentsFirst, LogOf,
         LogOfDocs;
    forall b | 0 <= b < |docs| ensures Filed(docs[b]) {
      var j := DocSource(docs, b, tasks, teamIDs, memberIDs);
      RowsFiled(tasks[j].activity, docs[b].task.id, memberIDs);
      assert forall i :: 0 <= i < |docs[b].activity| ==> docs[b].activity[i] in docs[b].activity;
    }
    LogKeepsOrder(docs, |docs|, a);
    var i := DocSource(docs, a, tasks, teamIDs, memberIDs);
  }
}
