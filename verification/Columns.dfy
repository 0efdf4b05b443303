/** What the columns of the schema can hold, apart from its constraints
    (internal/repo/migrations/0001_init.up.sql). Ids are hexadecimal, so they always fit. */
module Columns {
  import opened Base
  import opened Recur
  import opened Model
  import opened MigrationPlan

  /** TEXT and JSONB strings hold every character but U+0000. */
  predicate StorableText(s: string) {
    '\0' !in s
  }

  /** TIMESTAMPTZ, in microseconds from 1970: 4714-11-24 BC up to the end of 294276. */
  const FIRST_INSTANT := -210_866_803_200_000_000
  const END_OF_INSTANTS := 9_224_318_016_000_000_000

  predicate StorableInstant(t: int) {
    FIRST_INSTANT <= t < END_OF_INSTANTS
  }

  predicate StorableIfSet(t: Option<int>) {
    t.Some? ==> StorableInstant(t.value)
  }

  /** One statement binds at most 65535 parameters; a timeline row takes eleven. */
  const MAX_PARAMETERS := 65535
  const ENTRY_COLUMNS := 11

  predicate OneStatement(entries: nat) {
    entries * ENTRY_COLUMNS <= MAX_PARAMETERS
  }

  /** The largest SMALLINT. */
  const MAX_POS := 32767

  // ---- rows ----

  predicate StorableTeam(row: TeamRow) {
    StorableText(row.name) && StorableInstant(row.createdAt)
  }

  predicate StorableMember(row: MemberRow) {
    && StorableText(row.name) && StorableText(row.email) && StorableText(row.role) && StorableText(row.passwordHash)
    && StorableInstant(row.createdAt) && StorableIfSet(row.lastLoginAt)
  }

  predicate StorableRecurrence(r: Recurrence) {
    StorableText(r.anchor) && (r.freq.OtherFreq? ==> StorableText(r.freq.name))
  }

  predicate StorableTaskTexts(t: Task) {
    && StorableText(t.title) && StorableText(t.notes) && StorableText(t.period) && StorableText(t.dueDate)
    && StorableText(t.weekOf) && (forall tag :: tag in t.tags ==> StorableText(tag))
    && (t.recurrence.Some? ==> StorableRecurrence(t.recurrence.value))
  }

  predicate StorableTaskInstants(t: Task) {
    StorableInstant(t.createdAt) && StorableInstant(t.updatedAt) && StorableIfSet(t.completedAt)
  }

  /** from_status and to_status are unconstrained text. */
  predicate StorableStatus(s: Option<Status>) {
    s.Some? && s.value.OtherStatus? ==> StorableText(s.value.name)
  }

  predicate StorableEntryTexts(e: Entry) {
    && StorableText(e.date) && StorableText(e.byName) && StorableText(e.text)
    && StorableStatus(e.from) && StorableStatus(e.to)
  }

  predicate StorableEntryInstants(e: Entry) {
    StorableInstant(e.at) && StorableIfSet(e.editedAt)
  }

  predicate StorableTask(t: Task) {
    StorableTaskTexts(t) && StorableTaskInstants(t)
  }

  predicate StorableEntry(e: Entry) {
    StorableEntryTexts(e) && StorableEntryInstants(e)
  }

  predicate StorableTimeline(doc: Doc) {
    OneStatement(|doc.activity|) && forall i :: 0 <= i < |doc.activity| ==> StorableEntry(doc.activity[i])
  }

  // ---- source documents ----

  predicate TaskTextsStorable(mt: MTask) {
    && StorableTaskTexts(PlannedRow(mt))
    && forall i :: 0 <= i < |mt.activity| ==>
         var e := mt.activity[i];
         && StorableText(e.date) && StorableText(e.byName) && StorableText(e.text)
         && StorableStatus(e.from) && StorableStatus(e.to)
  }

  predicate TaskInstantsStorable(mt: MTask) {
    && StorableTaskInstants(mt.row)
    && forall i :: 0 <= i < |mt.activity| ==>
         StorableInstant(mt.activity[i].at) && StorableIfSet(mt.activity[i].editedAt)
  }

  predicate TextsStorable(src: Source) {
    && (forall i :: 0 <= i < |src.teams| ==> StorableText(src.teams[i].name))
    && (forall i :: 0 <= i < |src.members| ==>
          var m := src.members[i];
          StorableText(m.name) && StorableText(m.email) && StorableText(m.role) && StorableText(m.passwordHash))
    && (forall i :: 0 <= i < |src.tasks| ==> TaskTextsStorable(src.tasks[i]))
  }

  predicate InstantsStorable(src: Source) {
    && (forall i :: 0 <= i < |src.teams| ==> StorableInstant(src.teams[i].createdAt))
    && (forall i :: 0 <= i < |src.members| ==>
          StorableInstant(src.members[i].createdAt) && StorableIfSet(src.members[i].lastLoginAt))
    && (forall i :: 0 <= i < |src.tasks| ==> TaskInstantsStorable(src.tasks[i]))
  }

  /** Every timeline goes in with one statement. */
  predicate TimelinesFit(src: Source) {
    forall i :: 0 <= i < |src.tasks| ==> OneStatement(|src.tasks[i].activity|)
  }
}
