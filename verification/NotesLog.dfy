/** One task's row and timeline under concurrent PatchTask, AddNote, EditNote and
    DeleteNote: transactions that interleave statement by statement under a row lock
    (internal/service/tasks.go, fsm.go, task_notes.go, internal/fsm/core/manager.go). */
module NotesLog {
  import opened Base
  import opened Forest
  import opened Model
  import opened Transitions
  import opened TaskRules

  // ---- the operations, one at a time ----

  /** A request. A patch is what it makes of the stored row: a merged and validated
      row, or None when it is refused. */
  datatype Change =
    | Patching(body: Task -> Option<Task>, entryId: Id, user: Option<User>, clock: Clock)
    | Adding(entry: Entry)
    | Editing(noteId: Id, text: string, date: string, at: int)
    | Removing(noteId: Id, at: int)

  /** The task as readers see it: its row, and its timeline in seq order. */
  datatype View = View(row: Task, entries: seq<Entry>)

  function Touched(row: Task, change: Change): Task {
    match change
    case Patching(_, _, _, _) => row
    case Adding(e) => row.(updatedAt := e.at)
    case Editing(_, _, _, at) => row.(updatedAt := at)
    case Removing(_, at) => row.(updatedAt := at)
  }

  function Rewritten(e: Entry, text: string, date: string, at: int): Entry {
    e.(text := text, date := date, editedAt := Some(at))
  }

  function EditIn(entries: seq<Entry>, id: Id, text: string, date: string, at: int): seq<Entry> {
    seq(|entries|, i requires 0 <= i < |entries| => if entries[i].id == id then Rewritten(entries[i], text, date, at)
        else entries[i])
  }

  function RemoveFrom(entries: seq<Entry>, id: Id): seq<Entry> {
    if |entries| == 0 then []
    else RemoveFrom(entries[..|entries| - 1],
                    id) + (if entries[|entries| - 1].id == id then [] else [entries[|entries| - 1]])
  }

  function Apply(v: View, change: Change): View {
    match change
    case Patching(body, entryId, user, clock) =>
      (match body(v.row)
       case None => v
       case Some(t) =>
         View(t, if t.status == v.row.status then v.entries
                 else v.entries + [StatusActivity(entryId, v.row.id, v.row.status, t.status, clock, user)]))
    case Adding(e) => View(Touched(v.row, change), v.entries + [e])
    case Editing(id, text, date, at) => View(Touched(v.row, change), EditIn(v.entries, id, text, date, at))
    case Removing(id, at) => View(Touched(v.row, change), RemoveFrom(v.entries, id))
  }

  predicate OnlyNote(entries: seq<Entry>, id: Id) {
    forall i :: 0 <= i < |entries| && entries[i].id == id ==> entries[i].kind == NoteEntry
  }

  /** The service accepts the change in this state. */
  predicate Accepted(table: seq<Transition>, v: View, change: Change) {
    match change
    case Patching(body, entryId, _, _) =>
      && body(v.row).Some? && body(v.row).value.id == v.row.id && !EntryIdTaken(v.entries, entryId)
      && (body(v.row).value.status == v.row.status || Refusal(table, v.row.status, body(v.row).value.status) == None)
    case Adding(e) => e.kind == NoteEntry && !EntryIdTaken(v.entries, e.id)
    case Editing(id, _, _, _) => EntryIdTaken(v.entries, id) && OnlyNote(v.entries, id)
    case Removing(id, _) => OnlyNote(v.entries, id)
  }

  function Replay(start: View, history: seq<Change>): View {
    if |history| == 0 then start else Apply(Replay(start, history[..|history| - 1]), history[|history| - 1])
  }

  predicate AllAccepted(table: seq<Transition>, start: View, history: seq<Change>) {
    forall k :: 0 <= k < |history| ==> Accepted(table, Replay(start, history[..k]), history[k])
  }

  // ---- the operations, interleaved ----

  /** A timeline row with the number that task_activity.seq gave it. */
  datatype Stamped = Stamped(no: nat, entry: Entry)

  /** What a transaction has written to the timeline and not yet committed. */
  datatype Write = NoWrite | InsertRow(no: nat, entry: Entry) | UpdateRow(no: nat, entry: Entry) | DeleteRow(no: nat)

  datatype Phase =
    | Waiting
    | Locked(stored: Task)
    | StatusSet(stored: Task, t: Task)
    | FieldsSet(stored: Task, t: Task)
    | Ready(row: Task, write: Write)

  datatype Worker = Idle | Busy(change: Change, phase: Phase)

  /** row and log are what is committed; lock is the transaction that holds the row
      lock; next is the next seq number; used are the entry ids drawn so far; history
      lists the committed requests in commit order. */
  datatype State = State(
    row: Task,
    log: seq<Stamped>,
    workers: map<nat, Worker>,
    lock: Option<nat>,
    next: nat,
    used: set<Id>,
    history: seq<Change>)

  datatype Event =
    | Begin(worker: nat, change: Change)
    | Lock(worker: nat)
    | Update(worker: nat)
    | CompareAndSet(worker: nat)
    | WriteFields(worker: nat)
    | WriteAudit(worker: nat)
    | WriteNote(worker: nat)
    | Commit(worker: nat)
    | Rollback(worker: nat)
    | DrawElsewhere(worker: nat)

  function Entries(log: seq<Stamped>): seq<Entry> {
    seq(|log|, i requires 0 <= i < |log| => log[i].entry)
  }

  function Committed(st: State): View {
    View(st.row, Entries(st.log))
  }

  /** The entry id that a request may still insert. */
  function PendingId(w: Worker): Option<Id> {
    if w.Idle? then None
    else match w.change
      case Patching(_, entryId, _, _) => Some(entryId)
      case Adding(e) => Some(e.id)
      case _ => None
  }

  /** The note that a request was started on. */
  function TargetId(w: Worker): Option<Id> {
    if w.Idle? then None
    else match w.change
      case Editing(id, _, _, _) => Some(id)
      case Removing(id, _) => Some(id)
      case _ => None
  }

  function RemoveNo(log: seq<Stamped>, no: nat): seq<Stamped> {
    if |log| == 0 then []
    else RemoveNo(log[..|log| - 1], no) + (if log[|log| - 1].no == no then [] else [log[|log| - 1]])
  }

  function Install(log: seq<Stamped>, write: Write): seq<Stamped> {
    match write
    case NoWrite => log
    case InsertRow(no, e) => log + [Stamped(no, e)]
    case UpdateRow(no, e) => seq(|log|, i requires 0 <= i < |log| => if log[i].no == no then Stamped(no, e) else log[i])
    case DeleteRow(no) => RemoveNo(log, no)
  }

  /** The one statement of a note request, on the rows it finds; an edit that finds
      none fails. */
  ghost predicate NoteWrite(st: State, change: Change, write: Write, next: nat) {
    match change
    case Patching(_, _, _, _) => false
    case Adding(e) => write == InsertRow(st.next, e) && next == st.next + 1
    case Editing(id, text, date, at) =>
      next == st.next
      && exists i ::
           0 <= i < |st.log| && st.log[i].entry.id == id
           && write == UpdateRow(st.log[i].no, Rewritten(st.log[i].entry, text, date, at))
    case Removing(id, at) =>
      && next == st.next
      && ((!EntryIdTaken(Entries(st.log), id) && write == NoWrite)
          || exists i :: 0 <= i < |st.log| && st.log[i].entry.id == id && write == DeleteRow(st.log[i].no))
  }

  function With(st: State, i: nat, phase: Phase): State
    requires i in st.workers && st.workers[i].Busy?
  {
    st.(workers := st.workers[i := st.workers[i].(phase := phase)])
  }

  predicate IsNoteOf(log: seq<Stamped>, id: Id) {
    exists i :: 0 <= i < |log| && log[i].entry.id == id && log[i].entry.kind == NoteEntry
  }

  ghost predicate Starts(st: State, change: Change, used: set<Id>) {
    match change
    case Patching(_, entryId, _, _) => entryId !in st.used && used == st.used + {entryId}
    case Adding(e) => e.kind == NoteEntry && e.id !in st.used && used == st.used + {e.id}
    case Editing(id, _, _, _) => used == st.used && IsNoteOf(st.log, id)
    case Removing(id, _) => used == st.used && IsNoteOf(st.log, id)
  }

  ghost predicate Next(table: seq<Transition>, st: State, event: Event, after: State) {
    && event.worker in st.workers
    && var i := event.worker;
       var w := st.workers[i];
       match event
       case Begin(_, change) =>
         w.Idle? && Starts(st, change, after.used)
             && after == st.(workers := st.workers[i := Busy(change, Waiting)], used := after.used)
       case DrawElsewhere(_) => after == st.(next := st.next + 1)
       case Rollback(_) =>
         after == st.(workers := st.workers[i := Idle], lock := if st.lock == Some(i) then None else st.lock)
       case Lock(_) =>
         w.Busy? && w.phase.Waiting? && st.lock == None
         && after == With(st, i, Locked(Touched(st.row, w.change))).(lock := Some(i))
       case Update(_) =>
         && w.Busy? && w.phase.Locked? && w.change.Patching?
         && var t := w.change.body(w.phase.stored);
            t.Some? && t.value.id == w.phase.stored.id && t.value.status == w.phase.stored.status
            && after == With(st, i, Ready(t.value, NoWrite))
       case CompareAndSet(_) =>
         && w.Busy? && w.phase.Locked? && w.change.Patching?
         && var t := w.change.body(w.phase.stored);
            && t.Some? && t.value.id == w.phase.stored.id && t.value.status != w.phase.stored.status
            && Refusal(table, w.phase.stored.status, t.value.status) == None
            && st.row.status == w.phase.stored.status
            && after == With(st, i, StatusSet(w.phase.stored, t.value))
       case WriteFields(_) =>
         w.Busy? && w.phase.StatusSet? && after == With(st, i, FieldsSet(w.phase.stored, w.phase.t))
       case WriteAudit(_) =>
         && w.Busy? && w.phase.FieldsSet? && w.change.Patching?
         && var e := StatusActivity(w.change.entryId, w.phase.t.id, w.phase.stored.status, w.phase.t.status,
                                    w.change.clock, w.change.user);
            after == With(st, i, Ready(w.phase.t, InsertRow(st.next, e))).(next := st.next + 1)
       case WriteNote(_) =>
         && w.Busy? && w.phase.Locked?
         && exists write ::
              NoteWrite(st, w.change, write, after.next)
              && after == With(st, i, Ready(w.phase.stored, write)).(next := after.next)
       case Commit(_) =>
         && w.Busy? && w.phase.Ready?
         && after == st.(row := w.phase.row, log := Install(st.log, w.phase.write), lock := None,
                         workers := st.workers[i := Idle], history := st.history + [w.change])
  }

  /** A task as CreateTask leaves it. */
  ghost predicate Init(start: View, st: State) {
    && start.entries == []
    && st.row == start.row && st.log == [] && st.lock == None && st.used == {} && st.history == []
    && forall i :: i in st.workers ==> st.workers[i].Idle?
  }

  ghost predicate Run(table: seq<Transition>, start: View, states: seq<State>, events: seq<Event>) {
    && |states| == |events| + 1
    && Init(start, states[0])
    && forall i :: 0 <= i < |events| ==> Next(table, states[i], events[i], states[i + 1])
  }

  // ---- the invariant ----

  predicate Holds(w: Worker) {
    w.Busy? && !w.phase.Waiting?
  }

  /** seq numbers grow along the log and were all drawn; entry ids are distinct. */
  predicate LogFine(log: seq<Stamped>, next: nat, used: set<Id>) {
    && (forall i, j :: 0 <= i < j < |log| ==> log[i].no < log[j].no && log[i].entry.id != log[j].entry.id)
    && (forall i :: 0 <= i < |log| ==> log[i].no < next && log[i].entry.id in used)
  }

  /** Every entry of the new log is an old one, up to text and date, or the inserted one. */
  predicate KeepsKinds(before: seq<Entry>, after: seq<Entry>, inserted: Option<Id>) {
    forall i :: 0 <= i < |after| ==>
      || inserted == Some(after[i].id)
      || exists j :: 0 <= j < |before| && before[j].id == after[i].id && before[j].kind == after[i].kind
  }

  ghost predicate PatchGoesAhead(table: seq<Transition>, st: State, change: Change, stored: Task, t: Task) {
    && change.Patching? && stored == st.row && change.body(st.row) == Some(t) && t.id == st.row.id
    && t.status != st.row.status && Refusal(table, st.row.status, t.status) == None
  }

  /** What the holder of the lock has done so far is what the change makes of the
      committed state, so that committing it is one step of Apply. */
  ghost predicate HolderFine(table: seq<Transition>, st: State, w: Worker)
    requires w.Busy?
  {
    match w.phase
    case Waiting => true
    case Locked(stored) => stored == Touched(st.row, w.change)
    case StatusSet(stored, t) => PatchGoesAhead(table, st, w.change, stored, t)
    case FieldsSet(stored, t) => PatchGoesAhead(table, st, w.change, stored, t)
    case Ready(row, write) =>
      var v, log := Committed(st), Install(st.log, write);
      && Accepted(table, v, w.change)
      && Apply(v, w.change) == View(row, Entries(log))
      && LogFine(log, st.next, st.used)
      && KeepsKinds(v.entries, Entries(log), PendingId(w))
  }

  ghost predicate LockFine(table: seq<Transition>, st: State) {
    forall i :: i in st.workers && Holds(st.workers[i]) ==> st.lock == Some(i) && HolderFine(table, st, st.workers[i])
  }

  ghost predicate IdsFine(st: State) {
    && (forall i :: i in st.workers && PendingId(st.workers[i]).Some? ==>
         PendingId(st.workers[i]).value in st.used && !EntryIdTaken(Entries(st.log), PendingId(st.workers[i]).value))
    && (forall i, j :: i in st.workers && j in st.workers && i != j && PendingId(st.workers[i]).Some? ==>
         PendingId(st.workers[i]) != PendingId(st.workers[j]))
    && (forall i :: i in st.workers && TargetId(st.workers[i]).Some? ==>
         TargetId(st.workers[i]).value in st.used && OnlyNote(Entries(st.log), TargetId(st.workers[i]).value))
    && (forall i, j :: i in st.workers && j in st.workers && TargetId(st.workers[i]).Some? ==>
         TargetId(st.workers[i]) != PendingId(st.workers[j]))
    && (forall i :: i in st.workers && st.workers[i].Busy? && st.workers[i].change.Adding? ==>
        st.workers[i].change.entry.kind == NoteEntry)
  }

  ghost predicate HistoryFine(table: seq<Transition>, start: View, st: State) {
    Committed(st) == Replay(start, st.history) && AllAccepted(table, start, st.history)
  }

  ghost predicate Inv(table: seq<Transition>, start: View, st: State) {
    LogFine(st.log, st.next, st.used) && IdsFine(st) && LockFine(table, st) && HistoryFine(table, start, st)
  }

  // ---- events that commit nothing ----

  lemma HolderStable(table: seq<Transition>, st: State, after: State, w: Worker)
    requires w.Busy? && HolderFine(table, st, w)
    requires after.row == st.row && after.log == st.log && st.next <= after.next && st.used <= after.used
    ensures HolderFine(table, after, w)
  {
    hide Accepted, Apply, KeepsKinds, Install, PatchGoesAhead, Entries;
    assert PatchGoesAhead(table, st, w.change, st.row, st.row) <==>
           PatchGoesAhead(table, after, w.change, after.row, after.row) by {
      SamePatch(table, st, after, w.change, st.row, st.row);
    }
    match w.phase
    case StatusSet(stored, t) => SamePatch(table, st, after, w.change, stored, t);
    case FieldsSet(stored, t) => SamePatch(table, st, after, w.change, stored, t);
    case _ =>
  }

  lemma SamePatch(table: seq<Transition>, st: State, after: State, change: Change, stored: Task, t: Task)
    requires after.row == st.row
    ensures PatchGoesAhead(table, st, change, stored, t) <==> PatchGoesAhead(table, after, change, stored, t)
  {
  }

  ghost predicate SameRequest(w: Worker, v: Worker) {
    v.Idle? || (w.Busy? && w.change == v.change)
  }

  lemma IdsSame(st: State, i: nat, v: Worker, after: State)
    requires IdsFine(st) && i in st.workers && SameRequest(st.workers[i], v)
    requires after.log == st.log && after.used == st.used && after.workers == st.workers[i := v]
    ensures IdsFine(after)
  {
    SameIds(st.workers[i], v);
    hide EntryIdTaken, OnlyNote, Entries, PendingId, TargetId, SameRequest;
  }

  lemma SameIds(w: Worker, v: Worker)
    requires SameRequest(w, v)
    ensures PendingId(v).Some? ==> PendingId(v) == PendingId(w)
    ensures TargetId(v).Some? ==> TargetId(v) == TargetId(w)
    ensures v.Busy? ==> w.Busy? && w.change == v.change
  {
  }

  /** One worker moves on with its request, or gives it up. */
  lemma WorkerMoves(table: seq<Transition>, start: View, st: State, i: nat, v: Worker, after: State)
    requires Inv(table, start, st) && i in st.workers && SameRequest(st.workers[i], v)
    requires after == st.(workers := st.workers[i := v], lock := after.lock, next := after.next)
             && st.next <= after.next
    requires after.lock == st.lock || st.lock == None || st.lock == Some(i)
    requires Holds(v) ==> after.lock == Some(i) && HolderFine(table, after, v)
    ensures Inv(table, start, after)
  {
    hide HolderFine, IdsFine, Replay, AllAccepted, Entries;
    IdsSame(st, i, v, after);
    forall j | j in after.workers && Holds(after.workers[j])
      ensures after.lock == Some(j) && HolderFine(table, after, after.workers[j])
    {
      if j != i { HolderStable(table, st, after, st.workers[j]); }
    }
  }

  lemma BeginKeepsInv(table: seq<Transition>, start: View, st: State, i: nat, change: Change, after: State)
    requires Inv(table, start, st) && Next(table, st, Begin(i, change), after)
    ensures Inv(table, start, after)
  {
    hide HolderFine, Replay, AllAccepted, IdsFine;
    BeginIds(st, i, change, after);
    forall j | j in after.workers && Holds(after.workers[j])
      ensures after.lock == Some(j) && HolderFine(table, after, after.workers[j])
    {
      HolderStable(table, st, after, st.workers[j]);
    }
  }

  lemma BeginIds(st: State, i: nat, change: Change, after: State)
    requires IdsFine(st) && LogFine(st.log, st.next, st.used) && i in st.workers && st.workers[i].Idle?
             && Starts(st, change, after.used)
    requires after == st.(workers := st.workers[i := Busy(change, Waiting)], used := after.used)
    ensures IdsFine(after)
  {
    var w := Busy(change, Waiting);
    hide Entries, LogFine, EntryIdTaken, OnlyNote;
    if PendingId(w).Some? {
      UnusedId(st.log, st.next, st.used, PendingId(w).value);
    } else {
      var k :| 0 <= k < |st.log| && st.log[k].entry.id == TargetId(w).value && st.log[k].entry.kind == NoteEntry;
      ReadNote(st.log, st.next, st.used, k);
    }
  }

  lemma UnusedId(log: seq<Stamped>, next: nat, used: set<Id>, id: Id)
    requires LogFine(log, next, used) && id !in used
    ensures !EntryIdTaken(Entries(log), id)
  {
    assert forall k :: 0 <= k < |log| ==> Entries(log)[k] == log[k].entry;
  }

  lemma ReadNote(log: seq<Stamped>, next: nat, used: set<Id>, k: nat)
    requires LogFine(log, next, used) && k < |log| && log[k].entry.kind == NoteEntry
    ensures log[k].entry.id in used && EntryIdTaken(Entries(log), log[k].entry.id)
            && OnlyNote(Entries(log), log[k].entry.id)
  {
    assert Entries(log)[k] == log[k].entry;
  }

  lemma UpdateReady(table: seq<Transition>, st: State, i: nat, after: State)
    requires IdsFine(st) && LockFine(table, st) && LogFine(st.log, st.next, st.used)
             && Next(table, st, Update(i), after)
    ensures HolderFine(table, after, after.workers[i])
  {
    hide EntryIdTaken, LogFine, Refusal, OnlyNote;
    var w := st.workers[i];
    assert Holds(w);
    assert PendingId(w) == Some(w.change.entryId);
    assert forall k :: 0 <= k < |st.log| ==> Entries(st.log)[k] == Entries(st.log)[k];
  }

  lemma CasReady(table: seq<Transition>, st: State, i: nat, after: State)
    requires LockFine(table, st) && Next(table, st, CompareAndSet(i), after)
    ensures HolderFine(table, after, after.workers[i])
  {
    hide Refusal;
    assert Holds(st.workers[i]);
  }

  lemma FieldsReady(table: seq<Transition>, st: State, i: nat, after: State)
    requires LockFine(table, st) && Next(table, st, WriteFields(i), after)
    ensures HolderFine(table, after, after.workers[i])
  {
    hide Refusal;
    assert Holds(st.workers[i]);
  }

  lemma AppendRow(log: seq<Stamped>, next: nat, used: set<Id>, e: Entry)
    requires LogFine(log, next, used) && e.id in used && !EntryIdTaken(Entries(log), e.id)
    ensures var after := Install(log, InsertRow(next, e));
            && Entries(after) == Entries(log) + [e]
            && LogFine(after, next + 1, used)
            && KeepsKinds(Entries(log), Entries(after), Some(e.id))
  {
    assert forall k :: 0 <= k < |log| ==> Entries(log)[k] == log[k].entry;
  }

  lemma AuditReady(table: seq<Transition>, st: State, i: nat, after: State)
    requires IdsFine(st) && LockFine(table, st) && LogFine(st.log, st.next, st.used)
             && Next(table, st, WriteAudit(i), after)
    ensures HolderFine(table, after, after.workers[i])
  {
    hide EntryIdTaken, LogFine, Refusal, OnlyNote, Install, Entries, KeepsKinds;
    var w := st.workers[i];
    assert Holds(w);
    assert PendingId(w) == Some(w.change.entryId);
    var e := StatusActivity(w.change.entryId, w.phase.t.id, w.phase.stored.status, w.phase.t.status, w.change.clock,
                            w.change.user);
    AppendRow(st.log, st.next, st.used, e);
  }

  // ---- the statements of note requests ----

  lemma EditedRow(log: seq<Stamped>, next: nat, used: set<Id>, i: nat, text: string, date: string, at: int)
    requires LogFine(log, next, used) && i < |log|
    ensures var id := log[i].entry.id;
            var after := Install(log, UpdateRow(log[i].no, Rewritten(log[i].entry, text, date, at)));
            && Entries(after) == EditIn(Entries(log), id, text, date, at)
            && LogFine(after, next, used)
            && KeepsKinds(Entries(log), Entries(after), None)
            && EntryIdTaken(Entries(log), id)
  {
    var after := Install(log, UpdateRow(log[i].no, Rewritten(log[i].entry, text, date, at)));
    assert Entries(log)[i].id == log[i].entry.id;
    forall k | 0 <= k < |log|
      ensures after[k].no == log[k].no && after[k].entry.id == log[k].entry.id
              && after[k].entry.kind == log[k].entry.kind
      ensures Entries(log)[k].id == log[k].entry.id && Entries(log)[k].kind == log[k].entry.kind
      ensures after[k].entry == if log[k].entry.id == log[i].entry.id then Rewritten(log[k].entry, text, date, at)
              else log[k].entry
    {
    }
  }

  lemma {:induction false} RemovedStays(log: seq<Stamped>, no: nat)
    ensures forall k :: 0 <= k < |RemoveNo(log, no)| ==> RemoveNo(log, no)[k] in log
  {
    if |log| == 0 {
    } else {
      var init := log[..|log| - 1];
      RemovedStays(init, no);
      assert forall x :: x in init ==> x in log;
    }
  }

  lemma {:induction false} RemovedEntries(log: seq<Stamped>, id: Id, no: nat)
    requires forall k :: 0 <= k < |log| ==> (log[k].no == no <==> log[k].entry.id == id)
    ensures Entries(RemoveNo(log, no)) == RemoveFrom(Entries(log), id)
  {
    if |log| == 0 {
    } else {
      var init, last := log[..|log| - 1], log[|log| - 1];
      RemovedEntries(init, id, no);
      assert Entries(log)[..|log| - 1] == Entries(init);
      EntriesConcat(RemoveNo(init, no), if last.no == no then [] else [last]);
    }
  }

  lemma EntriesConcat(a: seq<Stamped>, b: seq<Stamped>)
    ensures Entries(a + b) == Entries(a) + Entries(b)
  {
  }

  /** x comes after every row of log, with an id of its own. */
  predicate ComesAfter(log: seq<Stamped>, x: Stamped) {
    forall k :: 0 <= k < |log| ==> log[k].no < x.no && log[k].entry.id != x.entry.id
  }

  lemma SplitLast(log: seq<Stamped>, next: nat, used: set<Id>)
    requires LogFine(log, next, used) && |log| > 0
    ensures var init, last := log[..|log| - 1], log[|log| - 1];
            LogFine(init, next, used) && ComesAfter(init, last) && last.no < next && last.entry.id in used
  {
  }

  lemma AppendLast(log: seq<Stamped>, x: Stamped, next: nat, used: set<Id>)
    requires LogFine(log, next, used) && ComesAfter(log, x) && x.no < next && x.entry.id in used
    ensures LogFine(log + [x], next, used)
  {
  }

  lemma SubsetComesBefore(log: seq<Stamped>, sub: seq<Stamped>, x: Stamped)
    requires ComesAfter(log, x) && forall k :: 0 <= k < |sub| ==> sub[k] in log
    ensures ComesAfter(sub, x)
  {
  }

  lemma {:induction false} RemovedFine(log: seq<Stamped>, next: nat, used: set<Id>, no: nat)
    requires LogFine(log, next, used)
    ensures LogFine(RemoveNo(log, no), next, used)
  {
    hide LogFine, ComesAfter;
    if |log| == 0 {
    } else {
      var init, last := log[..|log| - 1], log[|log| - 1];
      var rest := RemoveNo(init, no);
      SplitLast(log, next, used);
      RemovedFine(init, next, used, no);
      RemovedStays(init, no);
      SubsetComesBefore(init, rest, last);
      AppendLast(rest, last, next, used);
      assert rest + [] == rest;
    }
  }

  lemma {:induction false} RemoveAbsent(entries: seq<Entry>, id: Id)
    requires !EntryIdTaken(entries, id)
    ensures RemoveFrom(entries, id) == entries
  {
    if |entries| == 0 {
    } else {
      var init := entries[..|entries| - 1];
      assert forall k :: 0 <= k < |init| ==> init[k] == entries[k];
      RemoveAbsent(init, id);
      assert entries == init + [entries[|entries| - 1]];
    }
  }

  lemma DeletedRow(log: seq<Stamped>, next: nat, used: set<Id>, i: nat)
    requires LogFine(log, next, used) && i < |log|
    ensures var id := log[i].entry.id;
            var after := Install(log, DeleteRow(log[i].no));
            && Entries(after) == RemoveFrom(Entries(log), id)
            && LogFine(after, next, used)
            && KeepsKinds(Entries(log), Entries(after), None)
  {
    var id, no := log[i].entry.id, log[i].no;
    RemovedEntries(log, id, no);
    RemovedFine(log, next, used, no);
    RemovedStays(log, no);
    var after := RemoveNo(log, no);
    hide RemoveNo, RemoveFrom, LogFine;
    forall k | 0 <= k < |after|
      ensures exists j ::
                0 <= j < |Entries(log)| && Entries(log)[j].id == Entries(after)[k].id
                && Entries(log)[j].kind == Entries(after)[k].kind
    {
      var j :| 0 <= j < |log| && log[j] == after[k];
      assert Entries(log)[j] == Entries(after)[k];
    }
  }

  lemma NoteReady(table: seq<Transition>, st: State, i: nat, after: State)
    requires IdsFine(st) && LockFine(table, st) && LogFine(st.log, st.next, st.used)
             && Next(table, st, WriteNote(i), after)
    ensures HolderFine(table, after, after.workers[i]) && st.next <= after.next
    ensures SameRequest(st.workers[i], after.workers[i]) && Holds(after.workers[i]) && st.lock == Some(i)
    ensures after == st.(workers := st.workers[i := after.workers[i]], next := after.next)
  {
    hide LogFine, Refusal, Install, KeepsKinds, RemoveFrom, EditIn, OnlyNote;
    var w := st.workers[i];
    assert Holds(w);
    match w.change {
      case Adding(e) =>
        assert PendingId(w) == Some(e.id);
        AppendRow(st.log, st.next, st.used, e);
      case Editing(id, text, date, at) =>
        assert TargetId(w) == Some(id);
        var k :| 0 <= k < |st.log| && st.log[k].entry.id == id
                 && after == With(st, i, Ready(w.phase.stored,
                                               UpdateRow(st.log[k].no, Rewritten(st.log[k].entry, text, date, at))));
        EditedRow(st.log, st.next, st.used, k, text, date, at);
      case Removing(id, at) =>
        assert TargetId(w) == Some(id);
        var write :| NoteWrite(st, w.change, write, after.next)
            && after == With(st, i, Ready(w.phase.stored, write)).(next := after.next);
        DeletionApplies(st, id, at, write, after.next);
      case Patching(_, _, _, _) =>
    }
  }

  lemma DeletionApplies(st: State, id: Id, at: int, write: Write, next: nat)
    requires NoteWrite(st, Removing(id, at), write, next) && LogFine(st.log, st.next, st.used)
    ensures var after := Install(st.log, write);
            && next == st.next
            && Entries(after) == RemoveFrom(Entries(st.log), id)
            && LogFine(after, st.next, st.used)
            && KeepsKinds(Entries(st.log), Entries(after), None)
  {
    hide LogFine, Install, KeepsKinds, RemoveFrom;
    if write == NoWrite {
      RemoveAbsent(Entries(st.log), id);
      SameKinds(Entries(st.log));
      InstallNothing(st.log);
    } else {
      var k :| 0 <= k < |st.log| && st.log[k].entry.id == id && write == DeleteRow(st.log[k].no);
      DeletedRow(st.log, st.next, st.used, k);
    }
  }

  lemma InstallNothing(log: seq<Stamped>)
    ensures Install(log, NoWrite) == log
  {
  }

  lemma SameKinds(entries: seq<Entry>)
    ensures KeepsKinds(entries, entries, None)
  {
    forall i | 0 <= i < |entries|
      ensures exists j :: 0 <= j < |entries| && entries[j].id == entries[i].id && entries[j].kind == entries[i].kind
    {
      assert entries[i].id == entries[i].id;
    }
  }

  // ---- commit ----

  lemma CommitKeepsInv(table: seq<Transition>, start: View, st: State, i: nat, after: State)
    requires Inv(table, start, st) && Next(table, st, Commit(i), after)
    ensures Inv(table, start, after)
  {
    var w := st.workers[i];
    assert Holds(w);
    hide Install, Apply, Accepted, Entries;
    assert LogFine(after.log, after.next, after.used);
    CommitIds(st, i, after);
    HistoryGrows(table, start, st.history, w.change);
    assert LockFine(table, after) by { OthersWait(table, st, i, after); }
  }

  lemma OthersWait(table: seq<Transition>, st: State, i: nat, after: State)
    requires LockFine(table, st) && i in st.workers && Holds(st.workers[i]) && after.workers == st.workers[i := Idle]
    ensures LockFine(table, after)
  {
    hide HolderFine;
  }

  lemma CommitIds(st: State, i: nat, after: State)
    requires IdsFine(st) && i in st.workers && after.workers == st.workers[i := Idle] && after.used == st.used
    requires KeepsKinds(Entries(st.log), Entries(after.log), PendingId(st.workers[i]))
    ensures IdsFine(after)
  {
    hide Entries;
    var was, now := Entries(st.log), Entries(after.log);
    forall j | j in after.workers && PendingId(after.workers[j]).Some?
      ensures !EntryIdTaken(now, PendingId(after.workers[j]).value) {
      var x := PendingId(after.workers[j]).value;
      assert !EntryIdTaken(was, x);
      assert forall k :: 0 <= k < |now| ==> now[k].id != x;
    }
    forall j | j in after.workers && TargetId(after.workers[j]).Some?
      ensures OnlyNote(now, TargetId(after.workers[j]).value) {
      var x := TargetId(after.workers[j]).value;
      assert OnlyNote(was, x);
      forall k | 0 <= k < |now| && now[k].id == x ensures now[k].kind == NoteEntry {
        assert PendingId(st.workers[i]) != Some(x);
      }
    }
  }

  lemma HistoryGrows(table: seq<Transition>, start: View, history: seq<Change>, change: Change)
    requires AllAccepted(table, start, history) && Accepted(table, Replay(start, history), change)
    ensures AllAccepted(table, start, history + [change])
    ensures Replay(start, history + [change]) == Apply(Replay(start, history), change)
  {
    hide Accepted, Apply;
    var more := history + [change];
    assert more[..|history|] == history;
    forall k | 0 <= k < |more| ensures Accepted(table, Replay(start, more[..k]), more[k]) {
      if k < |history| { assert more[..k] == history[..k]; }
    }
  }

  // ---- whole runs ----

  lemma NextKeepsInv(table: seq<Transition>, start: View, st: State, event: Event, after: State)
    requires Inv(table, start, st) && Next(table, st, event, after)
    ensures Inv(table, start, after)
  {
    var i := event.worker;
    match event {
      case Begin(_, change) => BeginKeepsInv(table, start, st, i, change, after);
      case Commit(_) => CommitKeepsInv(table, start, st, i, after);
      case DrawElsewhere(_) =>
        hide HolderFine, Replay, AllAccepted, IdsFine;
        WorkerMoves(table, start, st, i, st.workers[i], after) by { DrawChangesNothing(table, start, st, i, after); }
      case Rollback(_) =>
        WorkerMoves(table, start, st, i, Idle, after);
      case Lock(_) =>
        WorkerMoves(table, start, st, i, after.workers[i], after);
      case Update(_) =>
        UpdateReady(table, st, i, after);
        hide HolderFine, Refusal, LogFine, IdsFine, Replay, AllAccepted, Touched;
        assert Holds(st.workers[i]);
        WorkerMoves(table, start, st, i, after.workers[i], after);
      case CompareAndSet(_) =>
        CasReady(table, st, i, after);
        hide HolderFine, Refusal, LogFine, IdsFine, Replay, AllAccepted;
        assert Holds(st.workers[i]);
        WorkerMoves(table, start, st, i, after.workers[i], after);
      case WriteFields(_) =>
        FieldsReady(table, st, i, after);
        hide HolderFine, Refusal, LogFine, IdsFine, Replay, AllAccepted;
        assert Holds(st.workers[i]);
        WorkerMoves(table, start, st, i, after.workers[i], after);
      case WriteAudit(_) =>
        AuditReady(table, st, i, after);
        hide HolderFine, Refusal, LogFine, IdsFine, Replay, AllAccepted, StatusActivity;
        assert Holds(st.workers[i]);
        WorkerMoves(table, start, st, i, after.workers[i], after);
      case WriteNote(_) =>
        NoteReady(table, st, i, after);
        hide Next, HolderFine, LogFine, IdsFine, Replay, AllAccepted;
        WorkerMoves(table, start, st, i, after.workers[i], after);
    }
  }

  lemma DrawChangesNothing(table: seq<Transition>, start: View, st: State, i: nat, after: State)
    requires Inv(table, start, st) && i in st.workers && after == st.(next := st.next + 1)
    ensures st.workers[i := st.workers[i]] == st.workers
    ensures Holds(st.workers[i]) ==> after.lock == Some(i) && HolderFine(table, after, st.workers[i])
    ensures SameRequest(st.workers[i], st.workers[i])
  {
    hide HolderFine, Replay, AllAccepted, IdsFine;
    if Holds(st.workers[i]) { HolderStable(table, st, after, st.workers[i]); }
  }

  lemma InitInv(table: seq<Transition>, start: View, st: State)
    requires Init(start, st)
    ensures Inv(table, start, st)
  {
    assert Entries(st.log) == [];
  }

  lemma {:induction false} RunKeepsInv(table: seq<Transition>, start: View, states: seq<State>, events: seq<Event>,
                                       i: nat)
    requires Run(table, start, states, events) && i <= |events|
    ensures i < |states| && Inv(table, start, states[i])
  {
    hide Inv, Next, Init;
    if i == 0 {
      InitInv(table, start, states[0]);
    } else {
      RunKeepsInv(table, start, states, events, i - 1);
      NextKeepsInv(table, start, states[i - 1], events[i - 1], states[i]);
    }
  }

  /** Every interleaving is equivalent to the committed requests made one at a time,
      in commit order, each of them accepted when its turn comes; and seq order is
      that order. */
  lemma EveryRunIsSerial(table: seq<Transition>, start: View, states: seq<State>, events: seq<Event>, i: nat)
    requires Run(table, start, states, events) && i <= |events|
    ensures i < |states| && Committed(states[i]) == Replay(start, states[i].history)
    ensures AllAccepted(table, start, states[i].history)
    ensures forall a, b :: 0 <= a < b < |states[i].log| ==> states[i].log[a].no < states[i].log[b].no
  {
    hide Replay, AllAccepted, IdsFine, LockFine, Run;
    RunKeepsInv(table, start, states, events, i);
  }

  /** The compare-and-set of a status change always finds the status it expects. */
  lemma CompareAndSetHits(table: seq<Transition>, start: View, states: seq<State>, events: seq<Event>, i: nat, w: nat)
    requires Run(table, start, states, events) && i <= |events| && i < |states|
    requires w in states[i].workers && states[i].workers[w].Busy? && states[i].workers[w].change.Patching?
             && states[i].workers[w].phase.Locked?
    ensures states[i].row == states[i].workers[w].phase.stored
  {
    hide Replay, AllAccepted, IdsFine, Run;
    RunKeepsInv(table, start, states, events, i);
    assert Holds(states[i].workers[w]);
  }

  // ---- the timeline replays to the state ----

  /** Read in order, the status entries lead from one status to another in unbroken
      steps that the table allows. */
  predicate Chain(table: seq<Transition>, entries: seq<Entry>, from: Status, to: Status) {
    if |entries| == 0 then from == to
    else
      var last, init := entries[|entries| - 1], entries[..|entries| - 1];
      if last.kind != StatusEntry then Chain(table, init, from, to)
      else last.from.Some? && last.to == Some(to) && last.from.value != to
           && Refusal(table, last.from.value, to) == None && Chain(table, init, from, last.from.value)
  }

  lemma ChainAppendOther(table: seq<Transition>, entries: seq<Entry>, e: Entry, from: Status, to: Status)
    requires e.kind != StatusEntry
    ensures Chain(table, entries + [e], from, to) == Chain(table, entries, from, to)
  {
    assert (entries + [e])[..|entries|] == entries;
  }

  lemma {:induction false} ChainEdited(table: seq<Transition>, entries: seq<Entry>, id: Id, text: string,
                                       date: string, at: int, from: Status, to: Status)
    ensures Chain(table, EditIn(entries, id, text, date, at), from, to) == Chain(table, entries, from, to)
  {
    if |entries| == 0 {
    } else {
      var init := entries[..|entries| - 1];
      assert EditIn(entries, id, text, date, at)[..|entries| - 1] == EditIn(init, id, text, date, at);
      var last := entries[|entries| - 1];
      if last.kind == StatusEntry {
        if last.from.Some? { ChainEdited(table, init, id, text, date, at, from, last.from.value); }
      } else {
        ChainEdited(table, init, id, text, date, at, from, to);
      }
    }
  }

  lemma {:induction false} ChainRemoved(table: seq<Transition>, entries: seq<Entry>, id: Id, from: Status, to: Status)
    requires OnlyNote(entries, id) && Chain(table, entries, from, to)
    ensures Chain(table, RemoveFrom(entries, id), from, to)
  {
    if |entries| == 0 {
    } else {
      var init, last := entries[..|entries| - 1], entries[|entries| - 1];
      assert forall k :: 0 <= k < |init| ==> init[k] == entries[k];
      var rest := RemoveFrom(init, id);
      if last.id == id {
        ChainRemoved(table, init, id, from, to);
        assert RemoveFrom(entries, id) == rest;
      } else if last.kind == StatusEntry {
        ChainRemoved(table, init, id, from, last.from.value);
        assert (rest + [last])[..|rest|] == rest;
      } else {
        ChainRemoved(table, init, id, from, to);
        ChainAppendOther(table, rest, last, from, to);
      }
    }
  }

  lemma ApplyKeepsChain(table: seq<Transition>, v: View, change: Change, from: Status)
    requires Accepted(table, v, change) && Chain(table, v.entries, from, v.row.status)
    ensures Chain(table, Apply(v, change).entries, from, Apply(v, change).row.status)
  {
    hide Refusal, EntryIdTaken;
    match change
    case Patching(body, entryId, user, clock) =>
      var t := body(v.row).value;
      if t.status != v.row.status {
        var e := StatusActivity(entryId, v.row.id, v.row.status, t.status, clock, user);
        assert (v.entries + [e])[..|v.entries|] == v.entries;
      }
    case Adding(e) => ChainAppendOther(table, v.entries, e, from, v.row.status);
    case Editing(id, text, date, at) => ChainEdited(table, v.entries, id, text, date, at, from, v.row.status);
    case Removing(id, at) => ChainRemoved(table, v.entries, id, from, v.row.status);
  }

  lemma {:induction false} ReplayKeepsChain(table: seq<Transition>, start: View, history: seq<Change>)
    requires start.entries == [] && AllAccepted(table, start, history)
    ensures Chain(table, Replay(start, history).entries, start.row.status, Replay(start, history).row.status)
  {
    hide Apply, Accepted;
    if |history| == 0 {
    } else {
      var init := history[..|history| - 1];
      assert forall k :: 0 <= k < |init| ==> init[..k] == history[..k] && init[k] == history[k];
      ReplayKeepsChain(table, start, init);
      assert history[..|history| - 1] == init;
      ApplyKeepsChain(table, Replay(start, init), history[|history| - 1], start.row.status);
    }
  }

  /** In every reachable state the status entries, read by seq, run unbroken from the
      status at creation to the committed status, whatever the transition table. */
  lemma StatusEntriesReplay(table: seq<Transition>, start: View, states: seq<State>, events: seq<Event>, i: nat)
    requires Run(table, start, states, events) && i <= |events|
    ensures i < |states| && Chain(table, Entries(states[i].log), start.row.status, states[i].row.status)
  {
    EveryRunIsSerial(table, start, states, events, i);
    hide Next, Chain, Replay, AllAccepted;
    ReplayKeepsChain(table, start, states[i].history);
  }

  // ---- no note is lost ----

  /** The text a note should show after the given requests: its own, or the last edit's. */
  function LastText(e: Entry, later: seq<Change>): string {
    if |later| == 0 then e.text
    else
      var c := later[|later| - 1];
      if c.Editing? && c.noteId == e.id then c.text else LastText(e, later[..|later| - 1])
  }

  predicate Shows(entries: seq<Entry>, id: Id, text: string) {
    exists i :: 0 <= i < |entries| && entries[i].id == id && entries[i].kind == NoteEntry && entries[i].text == text
  }

  lemma {:induction false} RemoveKeepsOthers(entries: seq<Entry>, gone: Id, i: nat)
    requires i < |entries| && entries[i].id != gone
    ensures entries[i] in RemoveFrom(entries, gone)
  {
    var init, last := entries[..|entries| - 1], entries[|entries| - 1];
    if i < |init| { RemoveKeepsOthers(init, gone, i); } else { assert last in [last]; }
  }

  lemma ApplyKeepsNote(table: seq<Transition>, v: View, change: Change, id: Id, text: string)
    requires Accepted(table, v, change) && Shows(v.entries, id, text)
    requires !(change.Removing? && change.noteId == id)
    ensures Shows(Apply(v, change).entries, id, if change.Editing? && change.noteId == id then change.text else text)
  {
    hide Refusal;
    var i :| 0 <= i < |v.entries| && v.entries[i].id == id && v.entries[i].kind == NoteEntry
        && v.entries[i].text == text;
    var after := Apply(v, change).entries;
    match change {
      case Removing(gone, _) =>
        RemoveKeepsOthers(v.entries, gone, i);
        var k :| 0 <= k < |after| && after[k] == v.entries[i];
      case Editing(target, t, date, at) =>
        assert after[i].id == id && after[i].kind == NoteEntry;
      case _ => assert after[i] == v.entries[i];
    }
  }

  lemma {:induction false} NoteSurvives(table: seq<Transition>, start: View, history: seq<Change>, k: nat)
    requires AllAccepted(table, start, history) && k < |history| && history[k].Adding?
    requires forall m :: k < m < |history| ==> !(history[m].Removing? && history[m].noteId == history[k].entry.id)
    ensures Shows(Replay(start, history).entries, history[k].entry.id, LastText(history[k].entry, history[k + 1..]))
    decreases |history|
  {
    hide Accepted, AllAccepted, Apply;
    var n := |history| - 1;
    var init, last := history[..n], history[n];
    var e := history[k].entry;
    PrefixAccepted(table, start, history, n);
    LastAccepted(table, start, history);
    if k == n {
      assert history[k + 1..] == [];
      AddedShows(table, Replay(start, init), last);
    } else {
      NoteSurvives(table, start, init, k);
      assert history[k + 1..][..n - k - 1] == init[k + 1..];
      assert history[k + 1..][n - k - 1] == last;
      ApplyKeepsNote(table, Replay(start, init), last, e.id, LastText(e, init[k + 1..]));
    }
  }

  lemma AddedShows(table: seq<Transition>, v: View, change: Change)
    requires Accepted(table, v, change) && change.Adding?
    ensures Shows(Apply(v, change).entries, change.entry.id, change.entry.text)
  {
    assert Apply(v, change).entries[|v.entries|] == change.entry;
  }

  lemma PrefixAccepted(table: seq<Transition>, start: View, history: seq<Change>, n: nat)
    requires AllAccepted(table, start, history) && n <= |history|
    ensures AllAccepted(table, start, history[..n])
  {
    hide Accepted, Replay;
    forall m | 0 <= m < n ensures Accepted(table, Replay(start, history[..n][..m]), history[..n][m]) {
      assert history[..n][..m] == history[..m];
    }
  }

  lemma LastAccepted(table: seq<Transition>, start: View, history: seq<Change>)
    requires AllAccepted(table, start, history) && |history| > 0
    ensures Accepted(table, Replay(start, history[..|history| - 1]), history[|history| - 1])
  {
    hide Accepted, Replay;
  }

  lemma ReplayLast(start: View, history: seq<Change>)
    requires |history| > 0
    ensures Replay(start, history) == Apply(Replay(start, history[..|history| - 1]), history[|history| - 1])
  {
    hide Apply;
  }

  /** A committed note that no committed request has removed since is in the timeline,
      with its own text or that of the last committed edit. */
  lemma NoNoteIsLost(table: seq<Transition>, start: View, states: seq<State>, events: seq<Event>, i: nat, k: nat)
    requires Run(table, start, states, events) && i <= |events| && i < |states|
    requires k < |states[i].history| && states[i].history[k].Adding?
    requires var h := states[i].history; forall m :: k < m < |h| ==> !(h[m].Removing? && h[m].noteId == h[k].entry.id)
    ensures var h := states[i].history;
            Shows(Entries(states[i].log), h[k].entry.id, LastText(h[k].entry, h[k + 1..]))
  {
    EveryRunIsSerial(table, start, states, events, i);
    hide Next, Replay, AllAccepted, Shows, LastText;
    NoteSurvives(table, start, states[i].history, k);
  }

  // ---- refusals ----

  /** Why a locked patch cannot go on: its body refuses the row, or the table the step. */
  predicate PatchRefused(table: seq<Transition>, row: Task, change: Change)
    requires change.Patching?
  {
    var t := change.body(row);
    t.None? || (t.value.status != row.status && Refusal(table, row.status, t.value.status).Some?)
  }

  /** The requests that workers other than w commit from state i up to state j, in
      commit order. */
  function CommitsOfOthers(states: seq<State>, events: seq<Event>, i: nat, j: nat, w: nat): seq<Change>
    requires i <= j <= |events| && |states| == |events| + 1
  {
    if i == j then []
    else
      var before, st, event := CommitsOfOthers(states, events, i, j - 1, w), states[j - 1], events[j - 1];
      if event.Commit? && event.worker != w && event.worker in st.workers && st.workers[event.worker].Busy?
      then before + [st.workers[event.worker].change]
      else before
  }

  /** Only a commit writes: every other event leaves row, timeline and history alone. */
  lemma OnlyCommitsWrite(table: seq<Transition>, st: State, event: Event, after: State)
    requires Next(table, st, event, after)
    ensures !event.Commit? ==> Committed(after) == Committed(st) && after.history == st.history
    ensures event.Commit? ==>
              st.workers[event.worker].Busy? && after.history == st.history + [st.workers[event.worker].change]
  {
    hide Refusal, Starts, NoteWrite, Install, Touched;
  }

  lemma {:induction false} HistoryIsOfOthers(table: seq<Transition>, start: View, states: seq<State>,
                                             events: seq<Event>, i: nat, j: nat, w: nat)
    requires Run(table, start, states, events) && i <= j <= |events|
    requires forall m :: i <= m < j ==> !(events[m].Commit? && events[m].worker == w)
    ensures states[j].history == states[i].history + CommitsOfOthers(states, events, i, j, w)
    decreases j
  {
    hide Next;
    if i == j {
    } else {
      HistoryIsOfOthers(table, start, states, events, i, j - 1, w);
      OnlyCommitsWrite(table, states[j - 1], events[j - 1], states[j]);
      assert Next(table, states[j - 1], events[j - 1], states[j]);
      assert events[j - 1].worker in states[j - 1].workers by {
        EventOfWorker(table, states[j - 1], events[j - 1], states[j]);
      }
    }
  }

  lemma EventOfWorker(table: seq<Transition>, st: State, event: Event, after: State)
    requires Next(table, st, event, after)
    ensures event.worker in st.workers
  {
  }

  lemma {:induction false} ReplayOfMore(start: View, history: seq<Change>, more: seq<Change>)
    ensures Replay(start, history + more) == Replay(Replay(start, history), more)
  {
    hide Apply;
    if |more| == 0 {
      assert history + more == history;
    } else {
      var init := more[..|more| - 1];
      ReplayOfMore(start, history, init);
      assert (history + more)[..|history + more| - 1] == history + init;
    }
  }

  /** A worker that does not commit leaves no trace, whatever it has already written: from
      any state to any later one, row and timeline become what the requests committed by
      the others make of them, and nothing else enters the history. In particular they do
      not change at all while no other worker commits. */
  lemma UncommittedLeavesNoTrace(table: seq<Transition>, start: View, states: seq<State>, events: seq<Event>, i: nat,
                                 j: nat, w: nat)
    requires Run(table, start, states, events) && i <= j <= |events|
    requires forall m :: i <= m < j ==> !(events[m].Commit? && events[m].worker == w)
    ensures Committed(states[j]) == Replay(Committed(states[i]), CommitsOfOthers(states, events, i, j, w))
    ensures states[j].history == states[i].history + CommitsOfOthers(states, events, i, j, w)
  {
    hide Next, Replay, AllAccepted, Committed, CommitsOfOthers;
    EveryRunIsSerial(table, start, states, events, i);
    EveryRunIsSerial(table, start, states, events, j);
    HistoryIsOfOthers(table, start, states, events, i, j, w);
    ReplayOfMore(start, states[i].history, CommitsOfOthers(states, events, i, j, w));
  }

  ghost predicate RefusedAt(table: seq<Transition>, st: State, w: nat) {
    && w in st.workers && st.workers[w].Busy? && st.workers[w].phase.Locked? && st.workers[w].change.Patching?
    && PatchRefused(table, st.row, st.workers[w].change)
  }

  ghost predicate RefusedOrDone(table: seq<Transition>, st: State, w: nat) {
    w in st.workers && (RefusedAt(table, st, w) || st.workers[w].Idle?)
  }

  /** The events of a worker whose patch is refused, or that is idle and begins nothing. */
  lemma RefusedMoves(table: seq<Transition>, st: State, event: Event, after: State)
    requires LockFine(table, st) && Next(table, st, event, after)
    requires RefusedOrDone(table, st, event.worker) && !event.Begin?
    ensures event.Rollback? || event.DrawElsewhere?
    ensures RefusedOrDone(table, after, event.worker)
  {
    hide Refusal, Starts, Install;
    if RefusedAt(table, st, event.worker) { assert Holds(st.workers[event.worker]); }
  }

  /** The events of the others change neither its phase nor, while it holds the lock, the row. */
  lemma OthersMove(table: seq<Transition>, st: State, event: Event, after: State, w: nat)
    requires LockFine(table, st) && Next(table, st, event, after) && RefusedOrDone(table, st, w) && event.worker != w
    ensures RefusedOrDone(table, after, w)
  {
    hide Refusal, Starts, NoteWrite, Install, Touched, LockFine, PatchRefused;
    assert after.workers[w] == st.workers[w];
    if RefusedAt(table, st, w) {
      HolderHasLock(table, st, w);
      if event.Commit? { HolderHasLock(table, st, event.worker); }
    }
  }

  lemma HolderHasLock(table: seq<Transition>, st: State, w: nat)
    requires LockFine(table, st) && w in st.workers && Holds(st.workers[w])
    ensures st.lock == Some(w)
  {
    hide HolderFine;
  }

  /** A refused patch never commits: whatever happens until its worker begins another
      request, row, timeline and history become what the others make of them. */
  lemma RefusedPatchLeavesNoTrace(table: seq<Transition>, start: View, states: seq<State>, events: seq<Event>, i: nat,
                                  j: nat, w: nat)
    requires Run(table, start, states, events) && i <= j <= |events| && RefusedAt(table, states[i], w)
    requires forall m :: i <= m < j ==> !(events[m].Begin? && events[m].worker == w)
    ensures Committed(states[j]) == Replay(Committed(states[i]), CommitsOfOthers(states, events, i, j, w))
    ensures states[j].history == states[i].history + CommitsOfOthers(states, events, i, j, w)
  {
    hide Next, Replay, Committed, CommitsOfOthers, RefusedAt, Init;
    forall m: nat | i <= m < j ensures !(events[m].Commit? && events[m].worker == w) {
      RefusedUntil(table, start, states, events, i, m + 1, w);
    }
    UncommittedLeavesNoTrace(table, start, states, events, i, j, w);
  }

  lemma {:induction false} RefusedUntil(table: seq<Transition>, start: View, states: seq<State>, events: seq<Event>,
                                        i: nat, m: nat, w: nat)
    requires Run(table, start, states, events) && i <= m <= |events| && RefusedAt(table, states[i], w)
    requires forall k :: i <= k < m ==> !(events[k].Begin? && events[k].worker == w)
    ensures RefusedOrDone(table, states[m], w)
    ensures m > i ==> !(events[m - 1].Commit? && events[m - 1].worker == w)
    decreases m
  {
    hide Next, RefusedAt, LogFine, IdsFine, LockFine, HistoryFine, Init;
    if m == i {
      assert RefusedOrDone(table, states[i], w) by { RefusedNow(table, states[i], w); }
    } else {
      RefusedUntil(table, start, states, events, i, m - 1, w);
      RunKeepsInv(table, start, states, events, m - 1);
      assert Next(table, states[m - 1], events[m - 1], states[m]);
      if events[m - 1].worker == w {
        RefusedMoves(table, states[m - 1], events[m - 1], states[m]);
      } else {
        OthersMove(table, states[m - 1], events[m - 1], states[m], w);
      }
    }
  }

  lemma RefusedNow(table: seq<Transition>, st: State, w: nat)
    requires RefusedAt(table, st, w)
    ensures RefusedOrDone(table, st, w)
  {
  }
}
