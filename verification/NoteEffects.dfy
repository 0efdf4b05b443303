/** What one committed request does to a task's row and timeline, told entry by entry, and
    that what was removed stays away (internal/service/tasks.go, fsm.go, task_notes.go). */
module NoteEffects {
  import opened Base
  import opened Forest
  import opened Period
  import opened Model
  import opened Transitions
  import opened TaskRules
  import opened NotesLog

  predicate NoneHas(entries: seq<Entry>, id: Id) {
    forall k :: 0 <= k < |entries| ==> entries[k].id != id
  }

  /** The entry at one place is cut out; all others stay, in their order. */
  predicate CutOut(before: seq<Entry>, after: seq<Entry>, id: Id) {
    exists j :: 0 <= j < |before| && before[j].id == id && after == before[..j] + before[j + 1..]
  }

  /** One entry has new text, date and edit time; nothing else changes. */
  predicate EditedAt(before: seq<Entry>, after: seq<Entry>, id: Id, text: string, date: string, at: int) {
    && |after| == |before|
    && (exists j :: 0 <= j < |before| && before[j].id == id)
    && forall k :: 0 <= k < |before| ==>
         if before[k].id == id
         then after[k] == before[k].(text := text, date := date, editedAt := Some(at))
         else after[k] == before[k]
  }

  /** The record of a change of status: who, when, from what to what. */
  predicate RecordsStatus(e: Entry, entryId: Id, before: Task, after: Task, clock: Clock, u: Option<User>) {
    && e.id == entryId && e.taskId == before.id && e.kind == StatusEntry
    && e.date == FormatDate(clock.today) && e.at == clock.now
    && e.from == Some(before.status) && e.to == Some(after.status)
    && (u.Some? ==> e.author == Some(u.value.id) && e.byName == u.value.name)
    && (u.None? ==> e.author == None && e.byName == "")
    && e.text == "" && e.editedAt == None
  }

  /** What a request makes of the row and the timeline it is committed on. */
  ghost predicate Effect(before: View, after: View, change: Change) {
    match change
    case Adding(e) =>
      && after.row == before.row.(updatedAt := e.at)
      && NoneHas(before.entries, e.id) && after.entries == before.entries + [e]
    case Editing(id, text, date, at) =>
      && after.row == before.row.(updatedAt := at)
      && EditedAt(before.entries, after.entries, id, text, date, at)
    case Removing(id, at) =>
      && after.row == before.row.(updatedAt := at)
      && NoneHas(after.entries, id)
      && (if NoneHas(before.entries, id) then after.entries == before.entries
          else CutOut(before.entries, after.entries, id))
    case Patching(body, entryId, u, clock) =>
      && body(before.row) == Some(after.row)
      && (after.row.status == before.row.status ==> after.entries == before.entries)
      && (after.row.status != before.row.status ==>
           && |after.entries| == |before.entries| + 1
           && after.entries[..|before.entries|] == before.entries
           && RecordsStatus(after.entries[|before.entries|], entryId, before.row, after.row, clock, u))
  }

  predicate IdsDiffer(entries: seq<Entry>) {
    forall k, l :: 0 <= k < l < |entries| ==> entries[k].id != entries[l].id
  }

  lemma {:induction false} RemovePresent(entries: seq<Entry>, id: Id, j: nat)
    requires j < |entries| && entries[j].id == id && forall k :: 0 <= k < |entries| && k != j ==> entries[k].id != id
    ensures RemoveFrom(entries, id) == entries[..j] + entries[j + 1..]
  {
    var n := |entries| - 1;
    var init, last := entries[..n], entries[n];
    if j == n {
      RemoveAbsent(init, id);
      assert entries[..j] + entries[j + 1..] == init;
    } else {
      RemovePresent(init, id, j);
      assert entries[..j] + entries[j + 1..] == (init[..j] + init[j + 1..]) + [last];
    }
  }

  lemma RemovedIs(entries: seq<Entry>, id: Id)
    requires IdsDiffer(entries)
    ensures var after := RemoveFrom(entries, id);
            && NoneHas(after, id)
            && (if NoneHas(entries, id) then after == entries else CutOut(entries, after, id))
  {
    hide RemoveFrom;
    if NoneHas(entries, id) {
      RemoveAbsent(entries, id);
    } else {
      var j :| 0 <= j < |entries| && entries[j].id == id;
      RemovePresent(entries, id, j);
    }
  }

  /** One request on a timeline whose ids differ. */
  lemma ApplyHasEffect(table: seq<Transition>, v: View, change: Change)
    requires Accepted(table, v, change) && IdsDiffer(v.entries)
    ensures Effect(v, Apply(v, change), change)
  {
    hide Refusal, RemoveFrom;
    match change {
      case Removing(id, _) => RemovedIs(v.entries, id);
      case Adding(e) =>
      case Editing(_, _, _, _) =>
      case Patching(body, entryId, u, clock) =>
    }
  }

  /** Whatever the interleaving: a commit does to the committed row and timeline what its
      request asks for, and nothing else. */
  lemma CommitHasEffect(table: seq<Transition>, start: View, states: seq<State>, events: seq<NotesLog.Event>, i: nat)
    requires Run(table, start, states, events) && i < |events| && events[i].Commit?
    ensures events[i].worker in states[i].workers && states[i].workers[events[i].worker].Busy?
    ensures Effect(Committed(states[i]), Committed(states[i + 1]), states[i].workers[events[i].worker].change)
  {
    hide Next, Accepted, Apply, Effect, LogFine, IdsFine, LockFine, Replay, AllAccepted, Init;
    RunKeepsInv(table, start, states, events, i);
    EveryRunIsSerial(table, start, states, events, i);
    EveryRunIsSerial(table, start, states, events, i + 1);
    assert Next(table, states[i], events[i], states[i + 1]);
    EventOfWorker(table, states[i], events[i], states[i + 1]);
    OnlyCommitsWrite(table, states[i], events[i], states[i + 1]);
    var change, history := states[i].workers[events[i].worker].change, states[i + 1].history;
    assert history[..|history| - 1] == states[i].history;
    assert Replay(start, history) == Apply(Replay(start, states[i].history), change) by {
      ReplayLast(start, history);
    }
    LastAccepted(table, start, history);
    CommittedIdsDiffer(states[i]);
    ApplyHasEffect(table, Committed(states[i]), change);
  }

  lemma CommittedIdsDiffer(st: State)
    requires LogFine(st.log, st.next, st.used)
    ensures IdsDiffer(Committed(st).entries)
  {
    assert forall k :: 0 <= k < |st.log| ==> Entries(st.log)[k] == st.log[k].entry;
  }

  // ---- what was removed stays away ----

  ghost predicate RemovedIn(history: seq<Change>, id: Id) {
    exists m :: 0 <= m < |history| && history[m].Removing? && history[m].noteId == id
  }

  /** The id has been used, no entry has it, and no request may still insert it. */
  ghost predicate Gone(st: State, id: Id) {
    && id in st.used && NoneHas(Entries(st.log), id)
    && forall i :: i in st.workers ==> PendingId(st.workers[i]) != Some(id)
  }

  lemma GoneStays(table: seq<Transition>, start: View, st: State, event: NotesLog.Event, after: State, id: Id)
    requires Inv(table, start, st) && Next(table, st, event, after) && Gone(st, id)
    ensures Gone(after, id)
  {
    hide Refusal, Starts, NoteWrite, Install, Touched, LockFine, HistoryFine, IdsFine, LogFine, Entries;
    if event.Commit? {
      var w := st.workers[event.worker];
      CommitKinds(table, start, st, event.worker, after);
      forall k | 0 <= k < |Entries(after.log)| ensures Entries(after.log)[k].id != id {
        assert PendingId(w) != Some(id);
      }
    } else if event.Begin? {
      assert after.workers[event.worker] == Busy(event.change, Waiting);
      StartsFresh(st, event.change, after.used, id);
    }
  }

  lemma StartsFresh(st: State, change: Change, used: set<Id>, id: Id)
    requires Starts(st, change, used) && id in st.used
    ensures id in used && PendingId(Busy(change, Waiting)) != Some(id)
  {
  }

  lemma CommitKinds(table: seq<Transition>, start: View, st: State, i: nat, after: State)
    requires Inv(table, start, st) && Next(table, st, Commit(i), after)
    ensures KeepsKinds(Entries(st.log), Entries(after.log), PendingId(st.workers[i]))
  {
    hide Install, Apply, Accepted, Entries, KeepsKinds, LogFine, IdsFine, HistoryFine;
    assert Holds(st.workers[i]);
  }

  lemma RemovingGoes(table: seq<Transition>, start: View, states: seq<State>, events: seq<NotesLog.Event>, i: nat)
    requires Run(table, start, states, events) && i < |events| && events[i].Commit?
    requires events[i].worker in states[i].workers && states[i].workers[events[i].worker].Busy?
    requires states[i].workers[events[i].worker].change.Removing?
    ensures Gone(states[i + 1], states[i].workers[events[i].worker].change.noteId)
  {
    hide Next, Effect, LogFine, LockFine, HistoryFine, Init, Entries;
    RunKeepsInv(table, start, states, events, i);
    CommitHasEffect(table, start, states, events, i);
    assert Next(table, states[i], events[i], states[i + 1]);
    var w := states[i].workers[events[i].worker];
    RemovingEffect(Committed(states[i]), Committed(states[i + 1]), w.change);
    CommitFrees(table, states[i], events[i].worker, states[i + 1]);
    assert TargetId(w) == Some(w.change.noteId);
  }

  lemma RemovingEffect(before: View, after: View, change: Change)
    requires Effect(before, after, change) && change.Removing?
    ensures NoneHas(after.entries, change.noteId)
  {
  }

  lemma CommitFrees(table: seq<Transition>, st: State, w: nat, after: State)
    requires Next(table, st, Commit(w), after)
    ensures w in st.workers && after.workers == st.workers[w := Idle] && after.used == st.used
  {
    hide Install;
  }

  lemma {:induction false} RemovedStaysGone(table: seq<Transition>, start: View, states: seq<State>,
                                            events: seq<NotesLog.Event>, i: nat, id: Id)
    requires Run(table, start, states, events) && i <= |events| && i < |states| && RemovedIn(states[i].history, id)
    ensures Gone(states[i], id)
    decreases i
  {
    hide Next, Gone, Inv;
    if i == 0 {
    } else {
      var k := i - 1;
      RunKeepsInv(table, start, states, events, k);
      assert Next(table, states[k], events[k], states[i]);
      OnlyCommitsWrite(table, states[k], events[k], states[i]);
      if RemovedIn(states[k].history, id) {
        RemovedStaysGone(table, start, states, events, k, id);
        GoneStays(table, start, states[k], events[k], states[i], id);
      } else {
        CommitHasEffect(table, start, states, events, k);
        RemovingGoes(table, start, states, events, k);
      }
    }
  }

  /** Once a request to remove a note has been committed, no later state has that note: it
      is gone from the timeline, and no request in flight can bring it back. */
  lemma RemovedIsGone(table: seq<Transition>, start: View, states: seq<State>, events: seq<NotesLog.Event>, i: nat,
                      m: nat)
    requires Run(table, start, states, events) && i <= |events| && i < |states|
    requires m < |states[i].history| && states[i].history[m].Removing?
    ensures forall k :: 0 <= k < |states[i].log| ==> states[i].log[k].entry.id != states[i].history[m].noteId
  {
    var id := states[i].history[m].noteId;
    RemovedStaysGone(table, start, states, events, i, id);
    hide Next;
    assert forall k :: 0 <= k < |states[i].log| ==> Entries(states[i].log)[k] == states[i].log[k].entry;
  }
}
