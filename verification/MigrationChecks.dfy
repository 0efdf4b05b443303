/** What a source without fatal findings is, told pair by pair
    (cmd/migrate-mongo/plan.go). */
module MigrationChecks {
  import opened Base
  import opened Calendar
  import opened Columns
  import opened Forest
  import opened Period
  import opened Recur
  import opened Model
  import opened TopoOrder
  import opened MigrationPlan
  import opened MigrationTarget

  const MICROS_PER_DAY := 86_400_000_000

  /** An instant in microseconds from 1970-01-01, at midnight of a date. */
  function MidnightOf(c: Civil): int {
    (DayOf(c) - DayOf(Civil(1970, 1, 1))) * MICROS_PER_DAY
  }

  lemma EpochIs()
    ensures DayOf(Civil(1970, 1, 1)) == 719_162 && DayOf(Civil(1, 1, 1)) == 0
  {
    YearStartClosedForm(1970);
  }

  /** Go's zero time is the first instant of the year 1; a TIMESTAMPTZ runs from
      24 November of the astronomical year -4713 to the end of the year 294276. */
  lemma InstantsAreDates()
    ensures ZERO_TIME == MidnightOf(Civil(1, 1, 1))
    ensures forall t :: StorableInstant(t) <==> MidnightOf(Civil(-4713, 11, 24)) <= t < MidnightOf(Civil(294277, 1, 1))
    ensures LONG_AGO == MidnightOf(Civil(-10000, 1, 1))
  {
    EpochIs();
    YearStartClosedForm(-4713);
    YearStartClosedForm(294277);
    YearStartClosedForm(-10000);
    DaysBeforeMonthTable(-4713);
    hide YearStart;
  }

  // ---- teams ----

  /** Every team has an id and a creation time; ids and names differ. */
  ghost predicate TeamsSound(teams: seq<MTeam>) {
    && (forall i :: 0 <= i < |teams| ==> teams[i].id != ZERO_ID && teams[i].createdAt != ZERO_TIME)
    && (forall i, j :: 0 <= i < j < |teams| ==> teams[i].id != teams[j].id && teams[i].name != teams[j].name)
  }

  lemma TeamsValidIs(teams: seq<MTeam>)
    ensures TeamsValid(teams) <==> TeamsSound(teams)
  {
    if TeamsValid(teams) {
      forall i, j | 0 <= i < j < |teams| ensures teams[i].id != teams[j].id && teams[i].name != teams[j].name {
        assert TeamFine(teams[j], teams[..j]);
        assert teams[..j][i] == teams[i];
      }
      forall i | 0 <= i < |teams| ensures teams[i].id != ZERO_ID && teams[i].createdAt != ZERO_TIME {
        assert TeamFine(teams[i], teams[..i]);
      }
    }
  }

  // ---- members ----

  /** Members have an id, a creation time and one of three roles; ids differ, and so do
      the folded emails of those who can log in. */
  ghost predicate MembersSound(members: seq<MMember>, fold: string -> string) {
    && (forall i :: 0 <= i < |members| ==>
         && members[i].id != ZERO_ID && members[i].createdAt != ZERO_TIME
         && (members[i].systemRole == "" || members[i].systemRole == "ADMIN" || members[i].systemRole == "USER"))
    && (forall i, j :: 0 <= i < j < |members| ==>
         && members[i].id != members[j].id
         && (members[i].passwordHash != "" && members[i].email != ""
             && members[j].passwordHash != "" && members[j].email != "" ==>
               fold(members[i].email) != fold(members[j].email)))
  }

  lemma MembersValidIs(members: seq<MMember>, fold: string -> string)
    ensures MembersValid(members, fold) <==> MembersSound(members, fold)
  {
    if MembersValid(members, fold) {
      forall i, j | 0 <= i < j < |members|
        ensures members[i].id != members[j].id
        ensures LogsIn(members[i]) && LogsIn(members[j]) ==> fold(members[i].email) != fold(members[j].email)
      {
        assert MemberFine(members[j], members[..j], fold);
        assert members[..j][i] == members[i];
      }
      forall i | 0 <= i < |members|
        ensures members[i].id != ZERO_ID && members[i].createdAt != ZERO_TIME && RoleAllowed(members[i].systemRole)
      {
        assert MemberFine(members[i], members[..i], fold);
      }
    }
  }

  predicate IsTeam(teams: seq<MTeam>, id: Id) {
    exists j :: 0 <= j < |teams| && teams[j].id == id
  }

  predicate IsMember(members: seq<MMember>, id: Id) {
    exists j :: 0 <= j < |members| && members[j].id == id
  }

  predicate IsTask(tasks: seq<MTask>, id: Id) {
    exists j :: 0 <= j < |tasks| && tasks[j].row.id == id
  }

  // ---- tasks ----

  /** One task by itself: its values, and the rows it points to. */
  ghost predicate TaskSound(t: Task, src: Source) {
    && t.id != ZERO_ID && t.createdAt != ZERO_TIME && t.updatedAt != ZERO_TIME
    && (t.status == Todo || t.status == InProgress || t.status == Done || t.status == Cancelled)
    && (t.horizon == Daily || t.horizon == Weekly || t.horizon == Monthly || t.horizon == Backlog)
    && (t.priority == NoPriority || t.priority == Low || t.priority == Medium || t.priority == High)
    && (t.teamId.Some? ==> IsTeam(src.teams, t.teamId.value))
    && (t.assigneeId.Some? ==> IsMember(src.members, t.assigneeId.value))
    && (t.ownerId.Some? ==> IsMember(src.members, t.ownerId.value))
  }

  /** One timeline entry by itself. */
  predicate EntrySound(e: MEntry) {
    e.id != ZERO_ID && e.at != ZERO_TIME && (e.kind == NoteEntry || e.kind == StatusEntry)
  }

  /** Two tasks: neither an id nor a period of a series in common. */
  predicate TasksApart(t: Task, u: Task) {
    t.id != u.id && !(t.seriesId.Some? && t.seriesId == u.seriesId && t.period == u.period)
  }

  /** No entry id occurs in both. */
  predicate EntriesApart(a: seq<MEntry>, b: seq<MEntry>) {
    forall k, l :: 0 <= k < |a| && 0 <= l < |b| ==> a[k].id != b[l].id
  }

  predicate EntriesDiffer(a: seq<MEntry>) {
    forall k, l :: 0 <= k < l < |a| ==> a[k].id != a[l].id
  }

  ghost predicate TasksSound(src: Source) {
    && (forall i :: 0 <= i < |src.tasks| ==>
         && TaskSound(src.tasks[i].row, src) && EntriesDiffer(src.tasks[i].activity)
         && forall k :: 0 <= k < |src.tasks[i].activity| ==> EntrySound(src.tasks[i].activity[k]))
    && (forall i, j :: 0 <= i < j < |src.tasks| ==>
         && TasksApart(src.tasks[i].row, src.tasks[j].row)
         && EntriesApart(src.tasks[i].activity, src.tasks[j].activity))
  }

  lemma FieldsFineIs(t: Task, src: Source)
    ensures t.id != ZERO_ID && FieldsFine(t, TeamIds(src.teams), MemberIds(src.members)) <==> TaskSound(t, src)
  {
    forall id ensures id in TeamIds(src.teams) <==> IsTeam(src.teams, id) {
    }
    forall id ensures id in MemberIds(src.members) <==> IsMember(src.members, id) {
    }
  }

  /** A timeline beside ids that are taken. */
  lemma ActivityValidIs(activity: seq<MEntry>, taken: set<Id>)
    ensures ActivityValid(activity, taken) <==>
            EntriesDiffer(activity)
            && forall k :: 0 <= k < |activity| ==> EntrySound(activity[k]) && activity[k].id !in taken
  {
    if ActivityValid(activity, taken) {
      forall k, l | 0 <= k < l < |activity| ensures activity[k].id != activity[l].id {
        assert EntryFine(activity[l], taken + EntryIdsOf(activity[..l]));
        assert activity[..l][k] == activity[k];
      }
      forall k | 0 <= k < |activity| ensures EntrySound(activity[k]) && activity[k].id !in taken {
        assert EntryFine(activity[k], taken + EntryIdsOf(activity[..k]));
      }
    }
  }

  lemma {:induction false} EntryIdsAre(tasks: seq<MTask>, id: Id)
    ensures id in EntryIds(tasks) <==>
            exists i, k :: 0 <= i < |tasks| && 0 <= k < |tasks[i].activity| && tasks[i].activity[k].id == id
  {
    if |tasks| == 0 {
    } else {
      EntryIdsAre(tasks[..|tasks| - 1], id);
    }
  }

  /** One task beside the earlier ones. */
  lemma TaskFineIs(src: Source, j: nat)
    requires j < |src.tasks|
    ensures TaskFine(src.tasks[j], src.tasks[..j], TeamIds(src.teams), MemberIds(src.members)) <==>
            && TaskSound(src.tasks[j].row, src) && EntriesDiffer(src.tasks[j].activity)
            && (forall k :: 0 <= k < |src.tasks[j].activity| ==> EntrySound(src.tasks[j].activity[k]))
            && (forall i :: 0 <= i < j ==> TasksApart(src.tasks[i].row, src.tasks[j].row)
                                           && EntriesApart(src.tasks[i].activity, src.tasks[j].activity))
  {
    hide FieldsFine, ActivityValid, EntryIds, TaskSound, EntrySound, EntriesDiffer;
    var mt, earlier := src.tasks[j], src.tasks[..j];
    FieldsFineIs(mt.row, src);
    ActivityValidIs(mt.activity, EntryIds(earlier));
    forall k | 0 <= k < |mt.activity|
      ensures mt.activity[k].id !in EntryIds(earlier) <==>
              forall i, l :: 0 <= i < j && 0 <= l < |earlier[i].activity| ==>
                earlier[i].activity[l].id != mt.activity[k].id
    {
      EntryIdsAre(earlier, mt.activity[k].id);
    }
    RowsApart(src, j);
    assert (forall k :: 0 <= k < |mt.activity| ==> mt.activity[k].id !in EntryIds(earlier)) <==>
           forall i :: 0 <= i < j ==> EntriesApart(src.tasks[i].activity, mt.activity);
  }

  lemma RowsApart(src: Source, j: nat)
    requires j < |src.tasks|
    ensures src.tasks[j].row.id !in TaskIds(src.tasks[..j]) && SlotOf(src.tasks[j]) !! Slots(src.tasks[..j]) <==>
            forall i :: 0 <= i < j ==> TasksApart(src.tasks[i].row, src.tasks[j].row)
  {
    var mt, earlier := src.tasks[j], src.tasks[..j];
    forall i | 0 <= i < j
      ensures TaskIds(earlier)[i] == src.tasks[i].row.id
      ensures src.tasks[i].row.seriesId.Some? ==>
                (src.tasks[i].row.seriesId.value, src.tasks[i].row.period) in Slots(earlier)
    {
      assert earlier[i] == src.tasks[i];
    }
  }

  lemma TasksValidIs(src: Source)
    ensures TasksValid(src.tasks, TeamIds(src.teams), MemberIds(src.members)) <==> TasksSound(src)
  {
    hide TaskFine, TaskSound, EntrySound, EntriesDiffer, TasksApart, EntriesApart;
    forall j: nat | j < |src.tasks|
      ensures TaskFine(src.tasks[j], src.tasks[..j], TeamIds(src.teams), MemberIds(src.members)) <==>
              && TaskSound(src.tasks[j].row, src) && EntriesDiffer(src.tasks[j].activity)
              && (forall k :: 0 <= k < |src.tasks[j].activity| ==> EntrySound(src.tasks[j].activity[k]))
              && (forall i :: 0 <= i < j ==> TasksApart(src.tasks[i].row, src.tasks[j].row)
                                             && EntriesApart(src.tasks[i].activity, src.tasks[j].activity))
    {
      TaskFineIs(src, j);
    }
  }

  // ---- parents ----

  predicate HasParent(tasks: seq<MTask>, x: Id, y: Id) {
    exists i :: 0 <= i < |tasks| && tasks[i].row.id == x && tasks[i].row.parentId == Some(y)
  }

  function After(c: seq<Id>, i: nat): Id
    requires i < |c|
  {
    if i + 1 < |c| then c[i + 1] else c[0]
  }

  /** The parent of each task in c is the next one, that of the last the first. */
  predicate LeadsBack(tasks: seq<MTask>, c: seq<Id>) {
    |c| > 0 && forall i :: 0 <= i < |c| ==> HasParent(tasks, c[i], After(c, i))
  }

  /** Every parent is a task of the source, and no chain of parents leads back. */
  ghost predicate ParentsSound(tasks: seq<MTask>) {
    && (forall i :: 0 <= i < |tasks| && tasks[i].row.parentId.Some? ==> IsTask(tasks, tasks[i].row.parentId.value))
    && forall c :: !LeadsBack(tasks, c)
  }

  /** The table of a valid source files each task under its id. */
  lemma TableHas(src: Source, teamIDs: set<Id>, memberIDs: set<Id>)
    requires TasksValid(src.tasks, teamIDs, memberIDs)
    ensures forall x :: x in TaskTable(src.tasks) <==> IsTask(src.tasks, x)
    ensures forall x, y :: HasParent(src.tasks, x, y) <==>
              x in TaskTable(src.tasks) && TaskTable(src.tasks)[x].parentId == Some(y)
  {
    hide TasksValid, TaskTable;
    TableIds(src.tasks);
    forall i: nat | i < |src.tasks|
      ensures var row := src.tasks[i].row;
              row.id in TaskTable(src.tasks) && TaskTable(src.tasks)[row.id].parentId == row.parentId
    {
      TableAt(src.tasks, teamIDs, memberIDs, i);
    }
    forall x | x in TaskTable(src.tasks) ensures IsTask(src.tasks, x) {
      assert x in TaskIds(src.tasks);
    }
  }

  lemma ParentsSoundIs(src: Source, teamIDs: set<Id>, memberIDs: set<Id>)
    requires TasksValid(src.tasks, teamIDs, memberIDs)
    ensures ParentsExist(TaskTable(src.tasks)) && Acyclic(ExistingParents(TaskTable(src.tasks))) <==>
            ParentsSound(src.tasks)
  {
    hide TasksValid, TaskTable, IsTask, Acyclic, LeadsBack;
    var table := TaskTable(src.tasks);
    TableHas(src, teamIDs, memberIDs);
    assert ParentsExist(table) <==>
           forall i :: 0 <= i < |src.tasks| && src.tasks[i].row.parentId.Some? ==>
             IsTask(src.tasks, src.tasks[i].row.parentId.value) by {
      assert forall i :: 0 <= i < |src.tasks| && src.tasks[i].row.parentId.Some? ==>
        HasParent(src.tasks, src.tasks[i].row.id, src.tasks[i].row.parentId.value);
      forall x | x in table && table[x].parentId.Some? ensures HasParent(src.tasks, x, table[x].parentId.value) {
      }
    }
    if ParentsExist(table) {
      var par := ExistingParents(table);
      assert forall x, y :: HasParent(src.tasks, x, y) <==> x in par && par[x] == y;
      NoCycleIs(src.tasks, par);
    }
  }

  lemma NoCycleIs(tasks: seq<MTask>, par: Parents)
    requires forall x, y :: HasParent(tasks, x, y) <==> x in par && par[x] == y
    ensures Acyclic(par) <==> forall c :: !LeadsBack(tasks, c)
  {
    hide HasParent;
    if c :| LeadsBack(tasks, c) {
      forall j | 0 <= j < |c| ensures c[j] in par && par[c[j]] == After(c, j) {
        assert HasParent(tasks, c[j], After(c, j));
      }
      ChainClimbs(par, c, |c| - 1);
      UpAdd(par, c[0], |c| - 1, 1);
      assert Up(par, c[|c| - 1], 1) == Some(c[0]);
      assert Up(par, c[0], |c|) == Some(c[0]);
      assert OnCycle(par, c[0]);
    }
    if !Acyclic(par) {
      var x :| OnCycle(par, x);
      var k: nat :| k > 0 && Up(par, x, k) == Some(x);
      forall j | 0 <= j < k ensures Up(par, x, j).Some? { UpAdd(par, x, j, k - j); }
      var c := Chain(par, x, k);
      forall i | 0 <= i < |c| ensures HasParent(tasks, c[i], After(c, i)) {
        UpAdd(par, x, i, 1);
        assert Up(par, c[i], 1) == Up(par, x, i + 1);
      }
      assert LeadsBack(tasks, c);
    }
  }

  lemma {:induction false} ChainClimbs(par: Parents, c: seq<Id>, i: nat)
    requires i < |c| && forall j :: 0 <= j < i ==> c[j] in par && par[c[j]] == After(c, j)
    ensures Up(par, c[0], i) == Some(c[i])
  {
    if i == 0 {
    } else {
      ChainClimbs(par, c, i - 1);
      UpAdd(par, c[0], i - 1, 1);
      assert Up(par, c[i - 1], 1) == Some(c[i]);
    }
  }

  // ---- the whole source ----

  /** Decoded without a fatal finding; sound teams, members, memberships, tasks and parents. */
  ghost predicate SourceSound(src: Source, fold: string -> string) {
    && (forall i :: 0 <= i < |src.decodeFindings| ==> src.decodeFindings[i].sev != Fatal)
    && TeamsSound(src.teams) && MembersSound(src.members, fold)
    && (forall i, k :: 0 <= i < |src.members| && 0 <= k < |src.members[i].teamIds| ==>
         IsTeam(src.teams, src.members[i].teamIds[k]))
    && TasksSound(src) && ParentsSound(src.tasks)
  }

  /** What buildPlan checks document by document, against what it has seen before, is
      that: nothing of the source clashes, dangles, is missing or leads back to itself. */
  lemma SourceValidIs(src: Source, fold: string -> string)
    ensures SourceValid(src, fold) <==> SourceSound(src, fold)
  {
    TeamsValidIs(src.teams);
    MembersValidIs(src.members, fold);
    TasksValidIs(src);
    assert TeamRefsValid(src.members, TeamIds(src.teams)) <==>
           forall i, k :: 0 <= i < |src.members| && 0 <= k < |src.members[i].teamIds| ==>
             IsTeam(src.teams, src.members[i].teamIds[k]) by {
      forall id ensures id in TeamIds(src.teams) <==> IsTeam(src.teams, id) {
      }
      hide IsTeam, TeamIds;
    }
    hide TeamsSound, MembersSound, TasksSound, ParentsSound, TeamsValid, MembersValid, TasksValid, TeamRefsValid,
         ParentsExist, Acyclic, TaskTable, ExistingParents, IsTeam;
    if TasksSound(src) { ParentsSoundIs(src, TeamIds(src.teams), MemberIds(src.members)); }
  }

  // ---- what the columns hold ----

  predicate NulFree(texts: seq<string>) {
    forall s :: s in texts ==> forall k :: 0 <= k < |s| ==> s[k] != '\0'
  }

  predicate InRange(instants: seq<int>) {
    forall t :: t in instants ==> MidnightOf(Civil(-4713, 11, 24)) <= t < MidnightOf(Civil(294277, 1, 1))
  }

  function IfSet(t: Option<int>): seq<int> {
    if t.Some? then [t.value] else []
  }

  function StatusText(s: Option<Status>): seq<string> {
    if s.Some? && s.value.OtherStatus? then [s.value.name] else []
  }

  function RecurrenceTexts(r: Option<Recurrence>): seq<string> {
    if r.None? then [] else if r.value.freq.OtherFreq? then [r.value.anchor, r.value.freq.name] else [r.value.anchor]
  }

  function TaskTexts(t: Task): seq<string> {
    [t.title, t.notes, t.period, t.dueDate, t.weekOf] + RecurrenceTexts(t.recurrence)
  }

  function EntryTexts(e: MEntry): seq<string> {
    [e.date, e.byName, e.text] + StatusText(e.from) + StatusText(e.to)
  }

  /** No text holds U+0000. */
  ghost predicate TextsFit(src: Source) {
    && (forall i :: 0 <= i < |src.teams| ==> NulFree([src.teams[i].name]))
    && (forall i :: 0 <= i < |src.members| ==>
         var m := src.members[i]; NulFree([m.name, m.email, m.role, m.passwordHash]))
    && (forall i :: 0 <= i < |src.tasks| ==> NulFree(TaskTexts(src.tasks[i].row)))
    && (forall i, k :: 0 <= i < |src.tasks| && 0 <= k < |src.tasks[i].activity| ==>
         NulFree(EntryTexts(src.tasks[i].activity[k])))
  }

  /** Every instant is a TIMESTAMPTZ. */
  ghost predicate InstantsFit(src: Source) {
    && (forall i :: 0 <= i < |src.teams| ==> InRange([src.teams[i].createdAt]))
    && (forall i :: 0 <= i < |src.members| ==>
         InRange([src.members[i].createdAt] + IfSet(src.members[i].lastLoginAt)))
    && (forall i :: 0 <= i < |src.tasks| ==>
         var t := src.tasks[i].row; InRange([t.createdAt, t.updatedAt] + IfSet(t.completedAt)))
    && (forall i, k :: 0 <= i < |src.tasks| && 0 <= k < |src.tasks[i].activity| ==>
         InRange([src.tasks[i].activity[k].at] + IfSet(src.tasks[i].activity[k].editedAt)))
  }

  /** The position is a SMALLINT, or an earlier one names the same team. */
  predicate SmallOrRepeated(teamIds: seq<Id>, k: nat)
    requires k < |teamIds|
  {
    k <= 32767 || exists j :: 0 <= j < k && teamIds[j] == teamIds[k]
  }

  /** Kept positions are SMALLINTs; the eleven parameters of each timeline row fit one statement. */
  ghost predicate SizesFit(src: Source) {
    && (forall i, k :: 0 <= i < |src.members| && 0 <= k < |src.members[i].teamIds| ==>
         SmallOrRepeated(src.members[i].teamIds, k))
    && (forall i :: 0 <= i < |src.tasks| ==> 11 * |src.tasks[i].activity| <= 65535)
  }

  lemma StorableTextIs(s: string)
    ensures StorableText(s) <==> forall k :: 0 <= k < |s| ==> s[k] != '\0'
  {
  }

  /** A predicate of every text, and of the texts of a row one by one. */
  lemma TaskTextsAre(t: Task)
    ensures NulFree(TaskTexts(t)) <==> StorableTaskTexts(t.(tags := []))
  {
    hide StorableText;
    var texts := TaskTexts(t);
    forall s | s in texts ensures StorableText(s) <==> forall k :: 0 <= k < |s| ==> s[k] != '\0' { StorableTextIs(s); }
    assert {t.title, t.notes, t.period, t.dueDate, t.weekOf} <= set s | s in texts;
    if t.recurrence.Some? { assert t.recurrence.value.anchor in texts; }
    if t.recurrence.Some? && t.recurrence.value.freq.OtherFreq? { assert t.recurrence.value.freq.name in texts; }
  }

  lemma EntryTextsAre(e: MEntry)
    ensures NulFree(EntryTexts(e)) <==>
            && StorableText(e.date) && StorableText(e.byName) && StorableText(e.text)
            && StorableStatus(e.from) && StorableStatus(e.to)
  {
    hide StorableText;
    var texts := EntryTexts(e);
    forall s | s in texts ensures StorableText(s) <==> forall k :: 0 <= k < |s| ==> s[k] != '\0' { StorableTextIs(s); }
    assert e.date in texts && e.byName in texts && e.text in texts;
    if e.from.Some? && e.from.value.OtherStatus? { assert e.from.value.name in texts; }
    if e.to.Some? && e.to.value.OtherStatus? { assert e.to.value.name in texts; }
  }

  lemma MemberTextsAre(m: MMember)
    ensures NulFree([m.name, m.email, m.role, m.passwordHash]) <==>
            StorableText(m.name) && StorableText(m.email) && StorableText(m.role) && StorableText(m.passwordHash)
  {
    hide StorableText;
    var texts := [m.name, m.email, m.role, m.passwordHash];
    forall s | s in texts ensures StorableText(s) <==> forall k :: 0 <= k < |s| ==> s[k] != '\0' { StorableTextIs(s); }
    assert m.name in texts && m.email in texts && m.role in texts && m.passwordHash in texts;
  }

  lemma TextsStorableIs(src: Source)
    ensures TextsStorable(src) <==> TextsFit(src)
  {
    hide NulFree, StorableText, StorableStatus, StorableTaskTexts, TaskTexts, EntryTexts;
    forall i | 0 <= i < |src.teams| ensures NulFree([src.teams[i].name]) <==> StorableText(src.teams[i].name) {
      OneTextIs(src.teams[i].name);
    }
    forall i | 0 <= i < |src.members|
      ensures var m := src.members[i];
              NulFree([m.name, m.email, m.role, m.passwordHash]) <==>
              StorableText(m.name) && StorableText(m.email) && StorableText(m.role) && StorableText(m.passwordHash)
    {
      MemberTextsAre(src.members[i]);
    }
    forall i | 0 <= i < |src.tasks|
      ensures TaskTextsStorable(src.tasks[i]) <==>
              && NulFree(TaskTexts(src.tasks[i].row))
              && forall k :: 0 <= k < |src.tasks[i].activity| ==> NulFree(EntryTexts(src.tasks[i].activity[k]))
    {
      TaskTextsAre(src.tasks[i].row);
      forall k | 0 <= k < |src.tasks[i].activity|
        ensures var e := src.tasks[i].activity[k];
                NulFree(EntryTexts(e)) <==>
                && StorableText(e.date) && StorableText(e.byName) && StorableText(e.text)
                && StorableStatus(e.from) && StorableStatus(e.to)
      {
        EntryTextsAre(src.tasks[i].activity[k]);
      }
    }
    hide TaskTextsStorable;
  }

  lemma OneTextIs(s: string)
    ensures NulFree([s]) <==> StorableText(s)
  {
    assert s in [s];
  }

  lemma InstantsAre(a: int, b: int, t: Option<int>)
    ensures InRange([a] + IfSet(t)) <==> StorableInstant(a) && StorableIfSet(t)
    ensures InRange([a, b] + IfSet(t)) <==> StorableInstant(a) && StorableInstant(b) && StorableIfSet(t)
    ensures InRange([a]) <==> StorableInstant(a)
  {
    InstantsAreDates();
    hide MidnightOf, StorableInstant;
    var one, two := [a] + IfSet(t), [a, b] + IfSet(t);
    assert a in one && a in two && b in two && a in [a];
    if t.Some? { assert t.value in one && t.value in two; }
  }

  lemma InstantsStorableIs(src: Source)
    ensures InstantsStorable(src) <==> InstantsFit(src)
  {
    hide InRange, StorableInstant, StorableIfSet, IfSet;
    forall i | 0 <= i < |src.teams|
      ensures InRange([src.teams[i].createdAt]) <==> StorableInstant(src.teams[i].createdAt) {
      InstantsAre(src.teams[i].createdAt, 0, None);
    }
    forall i | 0 <= i < |src.members|
      ensures InRange([src.members[i].createdAt] + IfSet(src.members[i].lastLoginAt)) <==>
              StorableInstant(src.members[i].createdAt) && StorableIfSet(src.members[i].lastLoginAt)
    {
      InstantsAre(src.members[i].createdAt, 0, src.members[i].lastLoginAt);
    }
    forall i | 0 <= i < |src.tasks|
      ensures var t := src.tasks[i].row;
              InRange([t.createdAt, t.updatedAt] + IfSet(t.completedAt)) <==> StorableTaskInstants(t)
    {
      var t := src.tasks[i].row;
      InstantsAre(t.createdAt, t.updatedAt, t.completedAt);
    }
    forall i, k | 0 <= i < |src.tasks| && 0 <= k < |src.tasks[i].activity|
      ensures var e := src.tasks[i].activity[k];
              InRange([e.at] + IfSet(e.editedAt)) <==> StorableInstant(e.at) && StorableIfSet(e.editedAt)
    {
      InstantsAre(src.tasks[i].activity[k].at, 0, src.tasks[i].activity[k].editedAt);
    }
    hide StorableTaskInstants;
  }

  lemma SizesFitIs(src: Source)
    ensures KeptPositionsFit(src.members) && TimelinesFit(src) <==> SizesFit(src)
  {
    forall i, k | 0 <= i < |src.members| && 0 <= k < |src.members[i].teamIds|
      ensures FitsAt(src.members[i].teamIds, k) <==> SmallOrRepeated(src.members[i].teamIds, k)
    {
      var ids := src.members[i].teamIds;
      assert ids[k] in ids[..k] <==> exists j :: 0 <= j < k && ids[j] == ids[k];
    }
    hide FitsAt, SmallOrRepeated;
  }

  /** The whole of it, without any notion of the validation or of the tables: a source in
      which nothing clashes, dangles or is missing goes into an empty schema exactly when
      its texts, instants and sizes fit the columns. */
  lemma SoundSourceGoesIn(src: Source, fold: string -> string, p: Plan)
    requires SourceSound(src, fold) && PlanOf(p, src) && FoldsLogins(fold)
    ensures Inserted(EMPTY, p).Some? <==> TextsFit(src) && InstantsFit(src) && SizesFit(src)
  {
    hide SourceSound, SourceValid, PlanOf, FoldsLogins, Inserted, TextsStorable, InstantsStorable, TimelinesFit,
         KeptPositionsFit, TextsFit, InstantsFit, SizesFit, Migrated;
    SourceValidIs(src, fold);
    ValidPlanGoesIn(src, fold, p);
    TextsStorableIs(src);
    InstantsStorableIs(src);
    SizesFitIs(src);
  }
}
