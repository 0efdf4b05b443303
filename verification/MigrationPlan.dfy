/** buildPlan: the rows to write and the findings about the source documents
    (cmd/migrate-mongo/plan.go). */
module MigrationPlan {
  import opened Base
  import opened Forest
  import opened Period
  import opened Recur
  import opened Model
  import opened TopoOrder

  // ---- the documents ----

  /** ObjectID.IsZero, in hex. */
  const ZERO_ID: Id := "000000000000000000000000"

  /** time.Time's zero value. */
  const ZERO_TIME := -62135596800000000

  datatype MTeam = MTeam(id: Id, name: string, createdAt: int)

  datatype MMember = MMember(
    id: Id,
    name: string,
    email: string,
    role: string,
    teamIds: seq<Id>,
    createdAt: int,
    passwordHash: string,
    systemRole: string,
    mustChangePassword: bool,
    disabled: bool,
    lastLoginAt: Option<int>)

  datatype MEntry = MEntry(
    id: Id,
    kind: EntryKind,
    date: string,
    at: int,
    author: Option<Id>,
    byName: string,
    text: string,
    from: Option<Status>,
    to: Option<Status>,
    editedAt: Option<int>)

  /** A task document: the fields of a row, carried over one by one, and the embedded timeline. */
  datatype MTask = MTask(row: Task, activity: seq<MEntry>)

  datatype Source = Source(teams: seq<MTeam>, members: seq<MMember>, tasks: seq<MTask>, decodeFindings: seq<Finding>)

  // ---- the plan ----

  datatype Severity = Fatal | Warn | Info

  datatype Finding = Finding(sev: Severity, coll: string, id: Id, msg: string)

  datatype TeamRow = TeamRow(id: Id, name: string, createdAt: int)

  /** "" stands for NULL in email and passwordHash. */
  datatype MemberRow = MemberRow(
    id: Id,
    name: string,
    email: string,
    role: string,
    createdAt: int,
    passwordHash: string,
    systemRole: string,
    mustChangePassword: bool,
    disabled: bool,
    lastLoginAt: Option<int>)

  datatype MemberTeamRow = MemberTeamRow(memberId: Id, teamId: Id, pos: nat)

  datatype Plan = Plan(
    teams: seq<TeamRow>,
    members: seq<MemberRow>,
    memberTeams: seq<MemberTeamRow>,
    tasks: seq<Doc>,
    activityRows: nat,
    embeddedActivity: nat,
    statusCounts: map<Status, nat>,
    findings: seq<Finding>)

  predicate NoFatal(findings: seq<Finding>) {
    forall i :: 0 <= i < |findings| ==> findings[i].sev != Fatal
  }

  /** p.add, for a problem that may not be there. */
  method AddIf(problem: bool, findings: seq<Finding>, sev: Severity, coll: string, id: Id, msg: string)
    returns (more: seq<Finding>)
    ensures more == if problem then findings + [Finding(sev, coll, id, msg)] else findings
    ensures NoFatal(more) <==> NoFatal(findings) && !(problem && sev == Fatal)
  {
    more := findings;
    if problem {
      more := more + [Finding(sev, coll, id, msg)];
      assert NoFatal(findings) ==> forall i :: 0 <= i < |findings| ==> more[i] == findings[i];
      assert NoFatal(more) ==> forall i :: 0 <= i < |findings| ==> findings[i] == more[i];
      assert more[|findings|].sev == sev;
    }
  }

  /** checkID: neither zero nor seen before in its collection. */
  method CheckID(findings: seq<Finding>, coll: string, id: Id, seen: set<Id>) returns (ok: bool, more: seq<Finding>)
    ensures ok <==> id != ZERO_ID && id !in seen
    ensures NoFatal(more) <==> NoFatal(findings) && ok
  {
    if id == ZERO_ID {
      more := AddIf(true, findings, Fatal, coll, id, "_id is missing or the zero ObjectID");
      return false, more;
    }
    if id in seen {
      more := AddIf(true, findings, Fatal, coll, id, "duplicate _id within collection");
      return false, more;
    }
    return true, findings;
  }

  // ---- teams ----

  function TeamIds(teams: seq<MTeam>): set<Id> {
    set i | 0 <= i < |teams| :: teams[i].id
  }

  function TeamNames(teams: seq<MTeam>): set<string> {
    set i | 0 <= i < |teams| :: teams[i].name
  }

  predicate TeamFine(t: MTeam, earlier: seq<MTeam>) {
    t.id != ZERO_ID && t.id !in TeamIds(earlier) && t.name !in TeamNames(earlier) && t.createdAt != ZERO_TIME
  }

  predicate TeamsValid(teams: seq<MTeam>) {
    forall i :: 0 <= i < |teams| ==> TeamFine(teams[i], teams[..i])
  }

  function TeamRows(teams: seq<MTeam>): (rows: seq<TeamRow>)
    ensures |rows| == |teams|
  {
    seq(|teams|, i requires 0 <= i < |teams| => TeamRow(teams[i].id, teams[i].name, teams[i].createdAt))
  }

  method PlanTeams(teams: seq<MTeam>, findings0: seq<Finding>)
    returns (rows: seq<TeamRow>, teamIDs: set<Id>, findings: seq<Finding>)
    ensures NoFatal(findings) <==> NoFatal(findings0) && TeamsValid(teams)
    ensures NoFatal(findings) ==> rows == TeamRows(teams) && teamIDs == TeamIds(teams)
  {
    hide NoFatal, TeamFine, TeamsValid;
    rows, teamIDs, findings := [], {}, findings0;
    var teamNames: map<string, Id> := map[];
    NoTeams(teams);
    for k := 0 to |teams|
      invariant NoFatal(findings) <==> NoFatal(findings0) && TeamsValid(teams[..k])
      invariant NoFatal(findings) ==>
                  rows == TeamRows(teams[..k]) && teamIDs == TeamIds(teams[..k])
                      && teamNames.Keys == TeamNames(teams[..k])
    {
      var t := teams[k];
      TeamStep(teams, k);
      var ok, more := CheckID(findings, "teams", t.id, teamIDs);
      findings := more;
      if !ok {
        continue;
      }
      teamIDs := teamIDs + {t.id};
      findings := AddIf(t.name in teamNames, findings, Fatal, "teams", t.id, "duplicate name (teams_name_unique)");
      teamNames := teamNames[t.name := t.id];
      findings := AddIf(t.createdAt == ZERO_TIME, findings, Fatal, "teams", t.id,
                        "createdAt missing (created_at is NOT NULL)");
      rows := rows + [TeamRow(t.id, t.name, t.createdAt)];
    }
    assert teams[..|teams|] == teams;
  }

  lemma NoTeams(teams: seq<MTeam>)
    ensures TeamsValid(teams[..0]) && TeamRows(teams[..0]) == [] && TeamIds(teams[..0]) == {}
            && TeamNames(teams[..0]) == {}
  {
  }

  lemma TeamStep(teams: seq<MTeam>, k: nat)
    requires k < |teams|
    ensures var t, done := teams[k], teams[..k];
            && (TeamsValid(teams[..k + 1]) <==>
                 TeamsValid(done) && t.id != ZERO_ID && t.id !in TeamIds(done) && t.name !in TeamNames(done)
                     && t.createdAt != ZERO_TIME)
            && TeamIds(teams[..k + 1]) == TeamIds(done) + {t.id}
            && TeamNames(teams[..k + 1]) == TeamNames(done) + {t.name}
            && TeamRows(teams[..k + 1]) == TeamRows(done) + [TeamRow(t.id, t.name, t.createdAt)]
  {
    var done, more := teams[..k], teams[..k + 1];
    assert more == done + [teams[k]];
    assert forall i :: 0 <= i < k ==> more[i] == done[i] && more[..i] == done[..i];
    assert more[..k] == done && more[k] == teams[k];
    assert TeamsValid(more) ==> TeamFine(more[k], more[..k]);
    forall i | 0 <= i < k && TeamsValid(more) ensures TeamFine(done[i], done[..i]) {
      assert TeamFine(more[i], more[..i]);
    }
    forall x | x in TeamIds(done) ensures x in TeamIds(more) {
      var i :| 0 <= i < k && done[i].id == x;
      assert more[i].id == x;
    }
    forall x | x in TeamNames(done) ensures x in TeamNames(more) {
      var i :| 0 <= i < k && done[i].name == x;
      assert more[i].name == x;
    }
    assert teams[k].id in TeamIds(more) && teams[k].name in TeamNames(more);
  }

  // ---- members ----

  function MemberIds(members: seq<MMember>): set<Id> {
    set i | 0 <= i < |members| :: members[i].id
  }

  /** Login-enabled with an email: the members that members_email_login_unique covers. */
  predicate LogsIn(m: MMember) {
    m.passwordHash != "" && m.email != ""
  }

  function Logins(members: seq<MMember>, fold: string -> string): set<string> {
    set i | 0 <= i < |members| && LogsIn(members[i]) :: fold(members[i].email)
  }

  predicate RoleAllowed(role: string) {
    role == "" || role == "ADMIN" || role == "USER"
  }

  predicate MemberFine(m: MMember, earlier: seq<MMember>, fold: string -> string) {
    && m.id != ZERO_ID && m.id !in MemberIds(earlier)
    && RoleAllowed(m.systemRole) && m.createdAt != ZERO_TIME
    && (LogsIn(m) ==> fold(m.email) !in Logins(earlier, fold))
  }

  predicate MembersValid(members: seq<MMember>, fold: string -> string) {
    forall i :: 0 <= i < |members| ==> MemberFine(members[i], members[..i], fold)
  }

  function MemberRowOf(m: MMember): MemberRow {
    MemberRow(m.id, m.name, m.email, m.role, m.createdAt, m.passwordHash, m.systemRole, m.mustChangePassword,
              m.disabled, m.lastLoginAt)
  }

  function MemberRows(members: seq<MMember>): (rows: seq<MemberRow>)
    ensures |rows| == |members|
  {
    seq(|members|, i requires 0 <= i < |members| => MemberRowOf(members[i]))
  }

  method PlanMembers(members: seq<MMember>, fold: string -> string, findings0: seq<Finding>)
    returns (rows: seq<MemberRow>, memberIDs: set<Id>, findings: seq<Finding>)
    ensures NoFatal(findings) <==> NoFatal(findings0) && MembersValid(members, fold)
    ensures NoFatal(findings) ==> rows == MemberRows(members) && memberIDs == MemberIds(members)
  {
    hide NoFatal, MemberFine, MembersValid, RoleAllowed;
    rows, memberIDs, findings := [], {}, findings0;
    var loginEmails: map<string, Id> := map[];
    NoMembers(members, fold);
    for k := 0 to |members|
      invariant NoFatal(findings) <==> NoFatal(findings0) && MembersValid(members[..k], fold)
      invariant NoFatal(findings) ==>
                  rows == MemberRows(members[..k]) && memberIDs == MemberIds(members[..k])
                      && loginEmails.Keys == Logins(members[..k], fold)
    {
      var m := members[k];
      MemberStep(members, k, fold);
      var ok, more := CheckID(findings, "members", m.id, memberIDs);
      findings := more;
      if !ok {
        continue;
      }
      memberIDs := memberIDs + {m.id};
      findings := AddIf(!RoleAllowed(m.systemRole), findings, Fatal, "members", m.id,
                        "systemRole not in {'', ADMIN, USER}");
      findings := AddIf(m.createdAt == ZERO_TIME, findings, Fatal, "members", m.id,
                        "createdAt missing (created_at is NOT NULL)");
      if m.passwordHash != "" && m.email != "" {
        var key := fold(m.email);
        findings := AddIf(key in loginEmails, findings, Fatal, "members", m.id,
                          "login email collides (members_email_login_unique)");
        if key !in loginEmails {
          loginEmails := loginEmails[key := m.id];
        }
      }
      rows := rows + [MemberRow(m.id, m.name, m.email, m.role, m.createdAt, m.passwordHash, m.systemRole,
                                m.mustChangePassword, m.disabled, m.lastLoginAt)];
    }
    assert members[..|members|] == members;
  }

  lemma NoMembers(members: seq<MMember>, fold: string -> string)
    ensures MembersValid(members[..0], fold) && MemberRows(members[..0]) == []
    ensures MemberIds(members[..0]) == {} && Logins(members[..0], fold) == {}
  {
  }

  lemma MemberStep(members: seq<MMember>, k: nat, fold: string -> string)
    requires k < |members|
    ensures var m, done := members[k], members[..k];
            && (MembersValid(members[..k + 1], fold) <==>
                 MembersValid(done, fold) && m.id != ZERO_ID && m.id !in MemberIds(done) && RoleAllowed(m.systemRole)
                 && m.createdAt != ZERO_TIME && (LogsIn(m) ==> fold(m.email) !in Logins(done, fold)))
            && MemberIds(members[..k + 1]) == MemberIds(done) + {m.id}
            && Logins(members[..k + 1], fold) ==
               (if LogsIn(m) then Logins(done, fold) + {fold(m.email)} else Logins(done, fold))
            && MemberRows(members[..k + 1]) == MemberRows(done) + [MemberRowOf(m)]
  {
    var done, more := members[..k], members[..k + 1];
    assert more == done + [members[k]];
    MemberSets(done, members[k], fold);
    MembersValidStep(members, k, fold);
    hide MemberFine, MembersValid, MemberIds, Logins;
    assert MemberRows(more) == MemberRows(done) + [MemberRowOf(members[k])];
  }

  lemma MembersValidStep(members: seq<MMember>, k: nat, fold: string -> string)
    requires k < |members|
    ensures MembersValid(members[..k + 1], fold) <==>
            MembersValid(members[..k], fold) && MemberFine(members[k], members[..k], fold)
  {
    hide MemberFine;
    var done, more := members[..k], members[..k + 1];
    assert forall i :: 0 <= i < k ==> more[i] == done[i] && more[..i] == done[..i];
    assert more[..k] == done && more[k] == members[k];
    assert MembersValid(more, fold) ==> MemberFine(more[k], more[..k], fold);
    forall i | 0 <= i < k && MembersValid(more, fold) ensures MemberFine(done[i], done[..i], fold) {
      assert MemberFine(more[i], more[..i], fold);
    }
  }

  lemma MemberSets(done: seq<MMember>, m: MMember, fold: string -> string)
    ensures MemberIds(done + [m]) == MemberIds(done) + {m.id}
    ensures Logins(done + [m], fold) == if LogsIn(m) then Logins(done, fold) + {fold(m.email)} else Logins(done, fold)
  {
    var more := done + [m];
    assert more[|done|] == m;
    forall x | x in MemberIds(done) ensures x in MemberIds(more) {
      var i :| 0 <= i < |done| && done[i].id == x;
      assert more[i].id == x;
    }
    forall x | x in Logins(done, fold) ensures x in Logins(more, fold) {
      var i :| 0 <= i < |done| && LogsIn(done[i]) && fold(done[i].email) == x;
      assert LogsIn(more[i]) && fold(more[i].email) == x;
    }
    assert m.id in MemberIds(more) && (LogsIn(m) ==> fold(m.email) in Logins(more, fold));
  }

  // ---- member_teams ----

  /** The rows of a member's first n teamIds: each team at its first position. */
  function KeptTeams(m: MMember, n: nat): seq<MemberTeamRow>
    requires n <= |m.teamIds|
  {
    if n == 0 then []
    else KeptTeams(m, n - 1) + (if m.teamIds[n - 1] in m.teamIds[..n - 1] then []
                                else [MemberTeamRow(m.id, m.teamIds[n - 1], n - 1)])
  }

  function MemberTeamRows(members: seq<MMember>): seq<MemberTeamRow> {
    if |members| == 0 then []
    else
      var m := members[|members| - 1];
      MemberTeamRows(members[..|members| - 1]) + KeptTeams(m, |m.teamIds|)
  }

  predicate TeamRefsValid(members: seq<MMember>, teamIDs: set<Id>) {
    forall i, k :: 0 <= i < |members| && 0 <= k < |members[i].teamIds| ==> members[i].teamIds[k] in teamIDs
  }

  predicate AllKnown(teamIds: seq<Id>, n: nat, teamIDs: set<Id>)
    requires n <= |teamIds|
  {
    forall k :: 0 <= k < n ==> teamIds[k] in teamIDs
  }

  method PlanTeamsOf(m: MMember, teamIDs: set<Id>, findings0: seq<Finding>)
    returns (rows: seq<MemberTeamRow>, findings: seq<Finding>)
    ensures NoFatal(findings) <==> NoFatal(findings0) && AllKnown(m.teamIds, |m.teamIds|, teamIDs)
    ensures NoFatal(findings) ==> rows == KeptTeams(m, |m.teamIds|)
  {
    hide NoFatal, AllKnown;
    rows, findings := [], findings0;
    var seen: set<Id> := {};
    assert AllKnown(m.teamIds, 0, teamIDs) by { NoneUnknown(m.teamIds, teamIDs); }
    for k := 0 to |m.teamIds|
      invariant NoFatal(findings) <==> NoFatal(findings0) && AllKnown(m.teamIds, k, teamIDs)
      invariant NoFatal(findings) ==> rows == KeptTeams(m, k) && forall x :: x in seen <==> x in m.teamIds[..k]
    {
      var team := m.teamIds[k];
      KnownStep(m.teamIds, k, teamIDs);
      assert m.teamIds[..k + 1] == m.teamIds[..k] + [team];
      if team !in teamIDs {
        findings := AddIf(true, findings, Fatal, "members", m.id, "teamIds entry names no such team");
        continue;
      }
      if team in seen {
        findings := AddIf(true, findings, Info, "members", m.id,
                          "teamIds entry duplicates an earlier one; kept first position");
        continue;
      }
      seen := seen + {team};
      rows := rows + [MemberTeamRow(m.id, team, k)];
    }
  }

  lemma NoneUnknown(teamIds: seq<Id>, teamIDs: set<Id>)
    ensures AllKnown(teamIds, 0, teamIDs)
  {
  }

  lemma KnownStep(teamIds: seq<Id>, k: nat, teamIDs: set<Id>)
    requires k < |teamIds|
    ensures AllKnown(teamIds, k + 1, teamIDs) <==> AllKnown(teamIds, k, teamIDs) && teamIds[k] in teamIDs
  {
  }

  method PlanMemberTeams(members: seq<MMember>, teamIDs: set<Id>, findings0: seq<Finding>)
    returns (rows: seq<MemberTeamRow>, findings: seq<Finding>)
    ensures NoFatal(findings) <==> NoFatal(findings0) && TeamRefsValid(members, teamIDs)
    ensures NoFatal(findings) ==> rows == MemberTeamRows(members)
  {
    hide NoFatal, TeamRefsValid, MemberTeamRows, KeptTeams, AllKnown;
    rows, findings := [], findings0;
    assert TeamRefsValid(members[..0], teamIDs) && MemberTeamRows(members[..0]) == [] by {
      NoMemberTeams(members, teamIDs);
    }
    for i := 0 to |members|
      invariant NoFatal(findings) <==> NoFatal(findings0) && TeamRefsValid(members[..i], teamIDs)
      invariant NoFatal(findings) ==> rows == MemberTeamRows(members[..i])
    {
      MemberTeamStep(members, i, teamIDs);
      var more;
      more, findings := PlanTeamsOf(members[i], teamIDs, findings);
      rows := rows + more;
    }
    assert members[..|members|] == members;
  }

  lemma NoMemberTeams(members: seq<MMember>, teamIDs: set<Id>)
    ensures TeamRefsValid(members[..0], teamIDs) && MemberTeamRows(members[..0]) == []
  {
  }

  lemma MemberTeamStep(members: seq<MMember>, i: nat, teamIDs: set<Id>)
    requires i < |members|
    ensures TeamRefsValid(members[..i + 1], teamIDs) <==>
            TeamRefsValid(members[..i], teamIDs) && AllKnown(members[i].teamIds, |members[i].teamIds|, teamIDs)
    ensures MemberTeamRows(members[..i + 1]) ==
            MemberTeamRows(members[..i]) + KeptTeams(members[i], |members[i].teamIds|)
  {
    hide KeptTeams;
    var done, more := members[..i], members[..i + 1];
    assert more[..i] == done && more[i] == members[i];
    if TeamRefsValid(more, teamIDs) {
      assert forall k :: 0 <= k < |more[i].teamIds| ==> more[i].teamIds[k] in teamIDs;
      forall a, k | 0 <= a < |done| && 0 <= k < |done[a].teamIds| ensures done[a].teamIds[k] in teamIDs {
        assert more[a] == done[a] && more[a].teamIds[k] in teamIDs;
      }
    }
    if TeamRefsValid(done, teamIDs) && AllKnown(members[i].teamIds, |members[i].teamIds|, teamIDs) {
      forall a, k | 0 <= a < |more| && 0 <= k < |more[a].teamIds| ensures more[a].teamIds[k] in teamIDs {
        if a < i { assert done[a] == more[a] && done[a].teamIds[k] in teamIDs; }
      }
    }
  }

  // ---- embedded timelines ----

  function EntryIdsOf(activity: seq<MEntry>): set<Id> {
    set i | 0 <= i < |activity| :: activity[i].id
  }

  predicate EntryFine(e: MEntry, taken: set<Id>) {
    e.id != ZERO_ID && e.id !in taken && !e.kind.OtherKind? && e.at != ZERO_TIME
  }

  predicate ActivityValid(activity: seq<MEntry>, taken: set<Id>) {
    forall i :: 0 <= i < |activity| ==> EntryFine(activity[i], taken + EntryIdsOf(activity[..i]))
  }

  /** An author who is no member becomes NULL; the name is kept. */
  function EntryRow(e: MEntry, taskId: Id, memberIDs: set<Id>): Entry {
    Entry(e.id, taskId, e.kind, e.date, e.at, if e.author.Some? && e.author.value in memberIDs then e.author else None,
          e.byName, e.text, e.from, e.to, e.editedAt)
  }

  function EntryRows(activity: seq<MEntry>, taskId: Id, memberIDs: set<Id>): (rows: seq<Entry>)
    ensures |rows| == |activity|
  {
    seq(|activity|, i requires 0 <= i < |activity| => EntryRow(activity[i], taskId, memberIDs))
  }

  /** One entry: its row, and whether it is fine beside the ids already taken. */
  method PlanEntry(taskId: Id, e: MEntry, memberIDs: set<Id>, activityIDs0: map<Id, Id>, findings0: seq<Finding>)
    returns (row: Entry, activityIDs: map<Id, Id>, findings: seq<Finding>)
    ensures NoFatal(findings) <==> NoFatal(findings0) && EntryFine(e, activityIDs0.Keys)
    ensures NoFatal(findings) ==> activityIDs.Keys == activityIDs0.Keys + {e.id}
    ensures row == EntryRow(e, taskId, memberIDs)
  {
    hide NoFatal;
    activityIDs, findings := activityIDs0, findings0;
    if e.id == ZERO_ID {
      findings := AddIf(true, findings, Fatal, "tasks", taskId, "activity entry has no _id");
    } else if e.id in activityIDs {
      findings := AddIf(true, findings, Fatal, "tasks", taskId,
                        "activity _id duplicates an entry (task_activity.id is a global PK)");
    } else {
      activityIDs := activityIDs[e.id := taskId];
    }
    findings := AddIf(e.kind.OtherKind?, findings, Fatal, "tasks", taskId, "activity kind not in {note, status}");
    findings := AddIf(e.at == ZERO_TIME, findings, Fatal, "tasks", taskId, "activity at missing (at is NOT NULL)");
    row := Entry(e.id, taskId, e.kind, e.date, e.at, e.author, e.byName, e.text, e.from, e.to, e.editedAt);
    if e.author.Some? && e.author.value !in memberIDs {
      findings := AddIf(true, findings, Warn, "tasks", taskId,
                        "activity by names no such member; by_id written as NULL");
      row := row.(author := None);
    }
  }

  method PlanActivity(taskId: Id, activity: seq<MEntry>, memberIDs: set<Id>, activityIDs0: map<Id, Id>,
                      findings0: seq<Finding>)
    returns (rows: seq<Entry>, activityIDs: map<Id, Id>, findings: seq<Finding>)
    ensures NoFatal(findings) <==> NoFatal(findings0) && ActivityValid(activity, activityIDs0.Keys)
    ensures NoFatal(findings) ==> activityIDs.Keys == activityIDs0.Keys + EntryIdsOf(activity)
    ensures rows == EntryRows(activity, taskId, memberIDs)
  {
    hide NoFatal, EntryFine, ActivityValid, EntryIdsOf, EntryRows, EntryRow;
    rows, activityIDs, findings := [], activityIDs0, findings0;
    NoEntries(activity, activityIDs0.Keys);
    for i := 0 to |activity|
      invariant NoFatal(findings) <==> NoFatal(findings0) && ActivityValid(activity[..i], activityIDs0.Keys)
      invariant NoFatal(findings) ==> activityIDs.Keys == activityIDs0.Keys + EntryIdsOf(activity[..i])
      invariant rows == EntryRows(activity[..i], taskId, memberIDs)
    {
      EntryStep(activity, i, activityIDs0.Keys);
      EntryRowStep(activity, i, taskId, memberIDs);
      var row;
      row, activityIDs, findings := PlanEntry(taskId, activity[i], memberIDs, activityIDs, findings);
      rows := rows + [row];
    }
    assert activity[..|activity|] == activity;
  }

  lemma NoEntries(activity: seq<MEntry>, taken: set<Id>)
    ensures ActivityValid(activity[..0], taken) && EntryIdsOf(activity[..0]) == {}
    ensures forall id: Id, members: set<Id> :: EntryRows(activity[..0], id, members) == []
  {
  }

  lemma EntryRowStep(activity: seq<MEntry>, k: nat, taskId: Id, memberIDs: set<Id>)
    requires k < |activity|
    ensures EntryRows(activity[..k + 1], taskId, memberIDs) ==
            EntryRows(activity[..k], taskId, memberIDs) + [EntryRow(activity[k], taskId, memberIDs)]
  {
    assert activity[..k + 1] == activity[..k] + [activity[k]];
  }

  lemma EntryStep(activity: seq<MEntry>, k: nat, taken: set<Id>)
    requires k < |activity|
    ensures var e, done := activity[k], activity[..k];
            && (ActivityValid(activity[..k + 1], taken) <==>
                 ActivityValid(done, taken) && EntryFine(e, taken + EntryIdsOf(done)))
            && EntryIdsOf(activity[..k + 1]) == EntryIdsOf(done) + {e.id}
  {
    var done, more := activity[..k], activity[..k + 1];
    assert more == done + [activity[k]];
    assert forall i :: 0 <= i < k ==> more[i] == done[i] && more[..i] == done[..i];
    assert more[..k] == done && more[k] == activity[k];
    assert ActivityValid(more, taken) ==> EntryFine(more[k], taken + EntryIdsOf(more[..k]));
    forall i | 0 <= i < k && ActivityValid(more, taken) ensures EntryFine(done[i], taken + EntryIdsOf(done[..i])) {
      assert EntryFine(more[i], taken + EntryIdsOf(more[..i]));
    }
    forall x | x in EntryIdsOf(done) ensures x in EntryIdsOf(more) {
      var i :| 0 <= i < k && done[i].id == x;
      assert more[i].id == x;
    }
    assert activity[k].id in EntryIdsOf(more);
  }

  // ---- tasks ----

  function TaskIds(tasks: seq<MTask>): (ids: seq<Id>)
    ensures |ids| == |tasks|
  {
    seq(|tasks|, i requires 0 <= i < |tasks| => tasks[i].row.id)
  }

  /** The (series_id, period) slots that the tasks take. */
  function Slots(tasks: seq<MTask>): set<(Id, string)> {
    set i | 0 <= i < |tasks| && tasks[i].row.seriesId.Some? :: (tasks[i].row.seriesId.value, tasks[i].row.period)
  }

  function EntryIds(tasks: seq<MTask>): set<Id> {
    if |tasks| == 0 then {}
    else EntryIds(tasks[..|tasks| - 1]) + EntryIdsOf(tasks[|tasks| - 1].activity)
  }

  predicate FieldsFine(t: Task, teamIDs: set<Id>, memberIDs: set<Id>) {
    && ValuesAllowed(t) && t.createdAt != ZERO_TIME && t.updatedAt != ZERO_TIME
    && (t.teamId.Some? ==> t.teamId.value in teamIDs)
    && (t.assigneeId.Some? ==> t.assigneeId.value in memberIDs)
    && (t.ownerId.Some? ==> t.ownerId.value in memberIDs)
  }

  predicate TaskFine(mt: MTask, earlier: seq<MTask>, teamIDs: set<Id>, memberIDs: set<Id>) {
    && mt.row.id != ZERO_ID && mt.row.id !in TaskIds(earlier)
    && FieldsFine(mt.row, teamIDs, memberIDs)
    && SlotOf(mt) !! Slots(earlier)
    && ActivityValid(mt.activity, EntryIds(earlier))
  }

  predicate TasksValid(tasks: seq<MTask>, teamIDs: set<Id>, memberIDs: set<Id>) {
    forall i :: 0 <= i < |tasks| ==> TaskFine(tasks[i], tasks[..i], teamIDs, memberIDs)
  }

  /** The source knows no tags. */
  function PlannedRow(mt: MTask): Task {
    mt.row.(tags := [])
  }

  function TaskTable(tasks: seq<MTask>): map<Id, Task> {
    if |tasks| == 0 then map[]
    else TaskTable(tasks[..|tasks| - 1])[tasks[|tasks| - 1].row.id := PlannedRow(tasks[|tasks| - 1])]
  }

  function Timelines(tasks: seq<MTask>, memberIDs: set<Id>): map<Id, seq<Entry>> {
    if |tasks| == 0 then map[]
    else
      var mt := tasks[|tasks| - 1];
      Timelines(tasks[..|tasks| - 1], memberIDs)[mt.row.id := EntryRows(mt.activity, mt.row.id, memberIDs)]
  }

  function EmbeddedEntries(tasks: seq<MTask>): nat {
    if |tasks| == 0 then 0 else EmbeddedEntries(tasks[..|tasks| - 1]) + |tasks[|tasks| - 1].activity|
  }

  function WithStatus(tasks: seq<MTask>, s: Status): nat {
    if |tasks| == 0 then 0
    else WithStatus(tasks[..|tasks| - 1], s) + (if tasks[|tasks| - 1].row.status == s then 1 else 0)
  }

  function CountOf(counts: map<Status, nat>, s: Status): nat {
    if s in counts then counts[s] else 0
  }

  ghost predicate SourceValid(src: Source, fold: string -> string) {
    && NoFatal(src.decodeFindings)
    && TeamsValid(src.teams)
    && MembersValid(src.members, fold)
    && TeamRefsValid(src.members, TeamIds(src.teams))
    && TasksValid(src.tasks, TeamIds(src.teams), MemberIds(src.members))
    && ParentsExist(TaskTable(src.tasks))
    && Acyclic(ExistingParents(TaskTable(src.tasks)))
  }

  method CheckFields(t: Task, teamIDs: set<Id>, memberIDs: set<Id>, findings0: seq<Finding>)
    returns (findings: seq<Finding>)
    ensures NoFatal(findings) <==> NoFatal(findings0) && FieldsFine(t, teamIDs, memberIDs)
  {
    hide NoFatal;
    findings := AddIf(!ValidStatus(t.status), findings0, Fatal, "tasks", t.id, "status not allowed");
    findings := AddIf(t.horizon.OtherHorizon?, findings, Fatal, "tasks", t.id, "horizon not allowed");
    findings := AddIf(!ValidPriority(t.priority), findings, Fatal, "tasks", t.id, "priority not allowed");
    findings := AddIf(t.createdAt == ZERO_TIME, findings, Fatal, "tasks", t.id,
                      "createdAt missing (created_at is NOT NULL)");
    findings := AddIf(t.updatedAt == ZERO_TIME, findings, Fatal, "tasks", t.id,
                      "updatedAt missing (updated_at is NOT NULL)");
    findings := AddIf(t.teamId.Some? && t.teamId.value !in teamIDs, findings, Fatal, "tasks", t.id,
                      "teamId names no such team");
    findings := AddIf(t.assigneeId.Some? && t.assigneeId.value !in memberIDs, findings, Fatal, "tasks", t.id,
                      "assigneeId names no such member");
    findings := AddIf(t.ownerId.Some? && t.ownerId.value !in memberIDs, findings, Fatal, "tasks", t.id,
                      "ownerId names no such member");
  }

  /** What the loop over the task documents collects. */
  datatype Collected = Collected(
    order: seq<Id>,
    byID: map<Id, Task>,
    timelines: map<Id, seq<Entry>>,
    activityRows: nat,
    embeddedActivity: nat,
    statusCounts: map<Status, nat>)

  ghost predicate Collects(c: Collected, tasks: seq<MTask>, memberIDs: set<Id>) {
    && c.order == TaskIds(tasks)
    && c.byID == TaskTable(tasks)
    && c.timelines == Timelines(tasks, memberIDs)
    && c.embeddedActivity == EmbeddedEntries(tasks)
    && forall s :: CountOf(c.statusCounts, s) == WithStatus(tasks, s)
  }

  function WithTask(c: Collected, mt: MTask, memberIDs: set<Id>): Collected {
    Collected(c.order + [mt.row.id],
              c.byID[mt.row.id := PlannedRow(mt)],
              c.timelines[mt.row.id := EntryRows(mt.activity, mt.row.id, memberIDs)],
              c.activityRows + |mt.activity|,
              c.embeddedActivity + |mt.activity|,
              c.statusCounts[mt.row.status := CountOf(c.statusCounts, mt.row.status) + 1])
  }

  function SlotOf(mt: MTask): set<(Id, string)> {
    if mt.row.seriesId.Some? then {(mt.row.seriesId.value, mt.row.period)} else {}
  }

  /** A recurring task's (series_id, period) must be new. */
  method CheckSlot(mt: MTask, slots0: map<(Id, string), Id>, findings0: seq<Finding>)
    returns (slots: map<(Id, string), Id>, findings: seq<Finding>)
    ensures NoFatal(findings) <==> NoFatal(findings0) && SlotOf(mt) !! slots0.Keys
    ensures slots.Keys == slots0.Keys + SlotOf(mt)
  {
    hide NoFatal;
    slots, findings := slots0, findings0;
    if mt.row.seriesId.Some? {
      var slot := (mt.row.seriesId.value, mt.row.period);
      findings := AddIf(slot in slots, findings, Fatal, "tasks", mt.row.id,
                        "duplicate (seriesId, period) (tasks_series_period_unique)");
      if slot !in slots {
        slots := slots[slot := mt.row.id];
      }
    }
  }

  /** One task document, its id already checked. */
  method CollectTask(mt: MTask, c0: Collected, teamIDs: set<Id>, memberIDs: set<Id>, activityIDs0: map<Id, Id>,
                     slots0: map<(Id, string), Id>, findings0: seq<Finding>)
    returns (c: Collected, activityIDs: map<Id, Id>, slots: map<(Id, string), Id>, findings: seq<Finding>)
    ensures c == WithTask(c0, mt, memberIDs)
    ensures NoFatal(findings) <==>
            NoFatal(findings0) && FieldsFine(mt.row, teamIDs, memberIDs) && SlotOf(mt) !! slots0.Keys
                && ActivityValid(mt.activity, activityIDs0.Keys)
    ensures NoFatal(findings) ==> activityIDs.Keys == activityIDs0.Keys + EntryIdsOf(mt.activity)
                                  && slots.Keys == slots0.Keys + SlotOf(mt)
  {
    hide NoFatal, FieldsFine, ActivityValid, EntryIdsOf, CountOf, PlannedRow, EntryRows, ValidRecurrence, SlotOf;
    var id := mt.row.id;
    var counts := c0.statusCounts[mt.row.status := CountOf(c0.statusCounts, mt.row.status) + 1];
    findings := CheckFields(mt.row, teamIDs, memberIDs, findings0);
    slots, findings := CheckSlot(mt, slots0, findings);
    var odd := mt.row.recurrence.Some? && !ValidRecurrence(mt.row.recurrence.value);
    findings := AddIf(odd, findings, Warn, "tasks", id, "recurrence fails ValidateRecurrence; carried verbatim");
    var rows;
    rows, activityIDs, findings := PlanActivity(id, mt.activity, memberIDs, activityIDs0, findings);
    c := Collected(c0.order + [id], c0.byID[id := PlannedRow(mt)], c0.timelines[id := rows],
                   c0.activityRows + |rows|, c0.embeddedActivity + |mt.activity|, counts);
  }

  method CollectTasks(tasks: seq<MTask>, teamIDs: set<Id>, memberIDs: set<Id>, findings0: seq<Finding>)
    returns (c: Collected, findings: seq<Finding>)
    ensures NoFatal(findings) <==> NoFatal(findings0) && TasksValid(tasks, teamIDs, memberIDs)
    ensures NoFatal(findings) ==> Collects(c, tasks, memberIDs)
    ensures Indexed(c.order, c.byID) && c.timelines.Keys == c.byID.Keys && c.activityRows == c.embeddedActivity
  {
    hide NoFatal, FieldsFine, ActivityValid, TasksValid, Collects, Indexed, EntryIds, EntryIdsOf, Slots, SlotOf,
         TaskIds, WithTask;
    var activityIDs: map<Id, Id> := map[];
    var slots: map<(Id, string), Id> := map[];
    c, findings := Collected([], map[], map[], 0, 0, map[]), findings0;
    NoTasks(tasks, teamIDs, memberIDs);
    for k := 0 to |tasks|
      invariant NoFatal(findings) <==> NoFatal(findings0) && TasksValid(tasks[..k], teamIDs, memberIDs)
      invariant NoFatal(findings) ==>
                  Collects(c, tasks[..k], memberIDs) && activityIDs.Keys == EntryIds(tasks[..k])
                      && slots.Keys == Slots(tasks[..k])
      invariant Indexed(c.order, c.byID) && c.timelines.Keys == c.byID.Keys && c.activityRows == c.embeddedActivity
    {
      var mt := tasks[k];
      TaskStep(tasks, k, teamIDs, memberIDs);
      CollectStep(c, tasks, k, memberIDs);
      var ok, more := CheckID(findings, "tasks", mt.row.id, c.byID.Keys);
      findings := more;
      if ok {
        c, activityIDs, slots, findings := CollectTask(mt, c, teamIDs, memberIDs, activityIDs, slots, findings);
      }
    }
    assert tasks[..|tasks|] == tasks;
  }

  lemma NoTasks(tasks: seq<MTask>, teamIDs: set<Id>, memberIDs: set<Id>)
    ensures TasksValid(tasks[..0], teamIDs, memberIDs)
            && Collects(Collected([], map[], map[], 0, 0, map[]), tasks[..0], memberIDs)
    ensures EntryIds(tasks[..0]) == {} && Slots(tasks[..0]) == {} && Indexed([], map[])
  {
  }

  lemma CollectStep(c: Collected, tasks: seq<MTask>, k: nat, memberIDs: set<Id>)
    requires k < |tasks| && Indexed(c.order, c.byID) && c.timelines.Keys == c.byID.Keys
             && c.activityRows == c.embeddedActivity
    ensures var mt, after := tasks[k], WithTask(c, tasks[k], memberIDs);
            && (mt.row.id !in c.byID ==> Indexed(after.order, after.byID))
            && after.timelines.Keys == after.byID.Keys && after.activityRows == after.embeddedActivity
            && (Collects(c, tasks[..k], memberIDs) ==>
                 (Collects(after, tasks[..k + 1], memberIDs)
                  && (mt.row.id in c.byID <==> mt.row.id in TaskIds(tasks[..k]))))
  {
    IndexedStep(c, tasks[k], memberIDs);
    if Collects(c, tasks[..k], memberIDs) { CollectsStep(c, tasks, k, memberIDs); }
  }

  lemma IndexedStep(c: Collected, mt: MTask, memberIDs: set<Id>)
    requires Indexed(c.order, c.byID)
    ensures mt.row.id !in c.byID ==> Indexed(WithTask(c, mt, memberIDs).order, WithTask(c, mt, memberIDs).byID)
  {
    hide EntryRows;
  }

  lemma CollectsStep(c: Collected, tasks: seq<MTask>, k: nat, memberIDs: set<Id>)
    requires k < |tasks| && Collects(c, tasks[..k], memberIDs) && Indexed(c.order, c.byID)
    ensures Collects(WithTask(c, tasks[k], memberIDs), tasks[..k + 1], memberIDs)
    ensures tasks[k].row.id in c.byID <==> tasks[k].row.id in TaskIds(tasks[..k])
  {
    hide EntryRows, PlannedRow;
    var after, done, more := WithTask(c, tasks[k], memberIDs), tasks[..k], tasks[..k + 1];
    assert more[..k] == done && more[k] == tasks[k];
    assert TaskIds(more) == TaskIds(done) + [tasks[k].row.id];
    forall s ensures CountOf(after.statusCounts, s) == WithStatus(more, s) {
      assert CountOf(c.statusCounts, s) == WithStatus(done, s);
    }
  }

  lemma TaskStep(tasks: seq<MTask>, k: nat, teamIDs: set<Id>, memberIDs: set<Id>)
    requires k < |tasks|
    ensures var mt, done := tasks[k], tasks[..k];
            && (TasksValid(tasks[..k + 1], teamIDs, memberIDs) <==>
                 && TasksValid(done, teamIDs, memberIDs) && mt.row.id != ZERO_ID && mt.row.id !in TaskIds(done)
                 && FieldsFine(mt.row, teamIDs, memberIDs)
                 && SlotOf(mt) !! Slots(done)
                 && ActivityValid(mt.activity, EntryIds(done)))
            && EntryIds(tasks[..k + 1]) == EntryIds(done) + EntryIdsOf(mt.activity)
            && Slots(tasks[..k + 1]) == Slots(done) + SlotOf(mt)
            && TaskIds(tasks[..k + 1]) == TaskIds(done) + [mt.row.id]
  {
    hide FieldsFine, ActivityValid;
    var done, more := tasks[..k], tasks[..k + 1];
    assert more == done + [tasks[k]];
    assert forall i :: 0 <= i < k ==> more[i] == done[i] && more[..i] == done[..i];
    assert more[..k] == done && more[k] == tasks[k];
    assert TasksValid(more, teamIDs, memberIDs) ==> TaskFine(more[k], more[..k], teamIDs, memberIDs);
    forall i | 0 <= i < k && TasksValid(more, teamIDs, memberIDs)
      ensures TaskFine(done[i], done[..i], teamIDs, memberIDs) {
      assert TaskFine(more[i], more[..i], teamIDs, memberIDs);
    }
    SlotStep(done, tasks[k]);
  }

  lemma SlotStep(done: seq<MTask>, mt: MTask)
    ensures Slots(done + [mt]) == Slots(done) + SlotOf(mt)
  {
    var more := done + [mt];
    forall x | x in Slots(done) ensures x in Slots(more) {
      var i :| 0 <= i < |done| && done[i].row.seriesId.Some? && (done[i].row.seriesId.value, done[i].row.period) == x;
      assert more[i] == done[i];
    }
    assert more[|done|] == mt;
  }

  // ---- buildPlan ----

  /** The planned rows in insert order, each with its timeline. */
  function WithTimelines(rows: seq<Task>, timelines: map<Id, seq<Entry>>): (docs: seq<Doc>)
    requires forall i :: 0 <= i < |rows| ==> rows[i].id in timelines
    ensures |docs| == |rows|
  {
    seq(|rows|, i requires 0 <= i < |rows| => Doc(rows[i], timelines[rows[i].id]))
  }

  predicate DocsParentsFirst(docs: seq<Doc>) {
    forall i :: 0 <= i < |docs| && docs[i].task.parentId.Some? ==>
      exists j :: 0 <= j < i && docs[j].task.id == docs[i].task.parentId.value
  }

  /** Each source task once, in an order that puts parents first, with its timeline. */
  ghost predicate PlansTasks(docs: seq<Doc>, tasks: seq<MTask>, memberIDs: set<Id>) {
    && |docs| == |tasks|
    && (forall i, j :: 0 <= i < j < |docs| ==> docs[i].task.id != docs[j].task.id)
    && (forall i :: 0 <= i < |docs| ==>
         && docs[i].task.id in TaskTable(tasks) && docs[i].task == TaskTable(tasks)[docs[i].task.id]
         && docs[i].task.id in Timelines(tasks, memberIDs)
         && docs[i].activity == Timelines(tasks, memberIDs)[docs[i].task.id])
    && DocsParentsFirst(docs)
  }

  /** A plan without fatal findings holds exactly the source's rows. */
  ghost predicate PlanOf(p: Plan, src: Source) {
    && p.teams == TeamRows(src.teams)
    && p.members == MemberRows(src.members)
    && p.memberTeams == MemberTeamRows(src.members)
    && PlansTasks(p.tasks, src.tasks, MemberIds(src.members))
    && p.activityRows == p.embeddedActivity == EmbeddedEntries(src.tasks)
    && forall s :: CountOf(p.statusCounts, s) == WithStatus(src.tasks, s)
  }

  method CheckParents(order: seq<Id>, byID: map<Id, Task>, findings0: seq<Finding>) returns (findings: seq<Finding>)
    requires Indexed(order, byID)
    ensures NoFatal(findings) <==> NoFatal(findings0) && ParentsExist(byID)
  {
    hide NoFatal;
    findings := findings0;
    for k := 0 to |order|
      invariant NoFatal(findings) <==>
                NoFatal(findings0) && forall i :: 0 <= i < k && byID[order[i]].parentId.Some? ==>
                    byID[order[i]].parentId.value in byID
    {
      var t := byID[order[k]];
      findings := AddIf(t.parentId.Some? && t.parentId.value !in byID, findings, Fatal, "tasks", t.id,
                        "parentId names no such task");
    }
  }

  method ReportCycles(cycles: seq<seq<Id>>, findings0: seq<Finding>) returns (findings: seq<Finding>)
    ensures NoFatal(findings) <==> NoFatal(findings0) && cycles == []
  {
    hide NoFatal;
    findings := findings0;
    for k := 0 to |cycles|
      invariant NoFatal(findings) <==> NoFatal(findings0) && k == 0
    {
      findings := AddIf(true, findings, Fatal, "tasks", if |cycles[k]| > 0 then cycles[k][0] else "", "parentId cycle");
    }
  }

  /** The personal/team and week statistics: informational only. */
  method ReportMixed(tasks: seq<MTask>, findings0: seq<Finding>) returns (findings: seq<Finding>)
    ensures NoFatal(findings) <==> NoFatal(findings0)
  {
    hide NoFatal;
    var mixed, weeks := 0, 0;
    for k := 0 to |tasks|
    {
      var t := tasks[k].row;
      if t.ownerId.Some? == t.teamId.Some? {
        mixed := mixed + 1;
      }
      if t.teamId.Some? != (t.weekOf != "") {
        weeks := weeks + 1;
      }
    }
    findings := AddIf(mixed > 0, findings0, Info, "tasks", "", "personal/team invariant violated; migrated as-is");
    findings := AddIf(weeks > 0, findings, Info, "tasks", "", "weekOf-iff-teamId violated; migrated as-is");
  }

  /** No fatal finding, exactly when every constraint holds of the source; and then
      the plan holds exactly its rows, parents first. */
  method BuildPlan(src: Source, fold: string -> string) returns (p: Plan)
    ensures NoFatal(p.findings) <==> SourceValid(src, fold)
    ensures NoFatal(p.findings) ==> PlanOf(p, src)
    ensures p.activityRows == p.embeddedActivity
  {
    hide NoFatal, TeamsValid, MembersValid, TeamRefsValid, TasksValid, Acyclic, TaskTable, Timelines, WithStatus,
         PlansTasks, EmitsEachOnce, NamesEachCycleOnce, EmittedParentsFirst, Indexed, ParentsExist, ExistingParents;
    var teams, teamIDs, findings := PlanTeams(src.teams, src.decodeFindings);
    var members, memberIDs;
    members, memberIDs, findings := PlanMembers(src.members, fold, findings);
    var memberTeams;
    memberTeams, findings := PlanMemberTeams(src.members, teamIDs, findings);
    var c;
    c, findings := CollectTasks(src.tasks, teamIDs, memberIDs, findings);
    findings := CheckParents(c.order, c.byID, findings);
    var rows, cycles := TopoOrder.TopoOrder(c.order, c.byID);
    findings := ReportCycles(cycles, findings);
    NoCycleNamed(c.byID, cycles);
    findings := ReportMixed(src.tasks, findings);
    EmittedAreKnown(c, rows);
    p := Plan(teams, members, memberTeams, WithTimelines(rows, c.timelines), c.activityRows, c.embeddedActivity,
              c.statusCounts, findings);
    if NoFatal(findings) { RowsArePlanned(c, rows, src.tasks, memberIDs); }
  }

  lemma NoCycleNamed(byID: map<Id, Task>, cycles: seq<seq<Id>>)
    requires NamesEachCycleOnce(ExistingParents(byID), cycles)
    ensures cycles == [] <==> Acyclic(ExistingParents(byID))
  {
    if cycles != [] { NamedOnCycle(ExistingParents(byID), cycles[0], cycles[0][0]); }
  }

  lemma EmittedAreKnown(c: Collected, rows: seq<Task>)
    requires EmitsEachOnce(c.order, c.byID, rows) && c.timelines.Keys == c.byID.Keys
    ensures forall i :: 0 <= i < |rows| ==> rows[i].id in c.timelines
  {
  }

  lemma RowsArePlanned(c: Collected, rows: seq<Task>, tasks: seq<MTask>, memberIDs: set<Id>)
    requires Collects(c, tasks, memberIDs) && c.timelines.Keys == c.byID.Keys && c.activityRows == c.embeddedActivity
    requires EmitsEachOnce(c.order, c.byID, rows) && EmittedParentsFirst(ExistingParents(c.byID), rows)
    requires ParentsExist(c.byID) && Acyclic(ExistingParents(c.byID))
    requires forall i :: 0 <= i < |rows| ==> rows[i].id in c.timelines
    ensures PlansTasks(WithTimelines(rows, c.timelines), tasks, memberIDs)
    ensures c.activityRows == EmbeddedEntries(tasks) && forall s :: CountOf(c.statusCounts, s) == WithStatus(tasks, s)
  {
    hide Acyclic, TaskTable, Timelines, WithStatus;
    var docs := WithTimelines(rows, c.timelines);
    forall i | 0 <= i < |docs| && docs[i].task.parentId.Some?
      ensures exists j :: 0 <= j < i && docs[j].task.id == docs[i].task.parentId.value
    {
      assert rows[i].id in ExistingParents(c.byID);
      AcyclicAt(ExistingParents(c.byID), rows[i].id);
      var j :| 0 <= j < i && rows[j].id == ExistingParents(c.byID)[rows[i].id];
      assert docs[j].task.id == rows[j].id;
    }
  }

  lemma AcyclicAt(par: Parents, x: Id)
    requires Acyclic(par)
    ensures !OnCycle(par, x)
  {
  }
}
