/** The interleaved patch of NotesLog and the store's own: with the body that
    patchTaskTx computes, a commit is what PatchTask specifies
    (internal/service/tasks.go, internal/fsm/core/manager.go). */
module PatchRuns {
  import opened Base
  import opened Forest
  import opened Recur
  import opened Model
  import opened Tags
  import opened Transitions
  import opened TaskRules
  import opened TaskInvariants
  import opened NotesLog

  /** What the store makes of the row it finds under the lock, the other tables being db's. */
  ghost function StoreBody(db: DB, id: Id, p: Patch, u: Option<User>, clock: Clock, lower: Fold): Task -> Option<Task> {
    (stored: Task) =>
      var now := db.(tasks := db.tasks[id := stored]);
      match Proposed(now, id, p, u, clock, lower)
      case Err(_) => None
      case Ok(row) => if Writable(now, stored, row, u) then Some(row) else None
  }

  ghost function StoreChange(db: DB, id: Id, p: Patch, u: Option<User>, clock: Clock, lower: Fold,
                             entryId: Id): Change {
    Patching(StoreBody(db, id, p, u, clock, lower), entryId, u, clock)
  }

  /** One task of the store, as its readers see it. */
  function ViewOf(db: DB, id: Id): View
    requires id in db.tasks
  {
    View(db.tasks[id], LogOf(db.log, id))
  }

  lemma ProposedKeepsId(db: DB, id: Id, p: Patch, u: Option<User>, clock: Clock, lower: Fold)
    requires Keyed(db.tasks) && Proposed(db, id, p, u, clock, lower).Ok?
    ensures Proposed(db, id, p, u, clock, lower).value.id == id
  {
    hide Derived, Validated, Anchored, SharedOrig, Merged, CanAccess, HasCoarserChild;
    var prior := db.tasks[id];
    var d := Derived(SharedOrig(prior, p), Merged(prior, p), p, u, clock).value;
    DerivedKeepsId(prior, p, u, clock);
    ValidatedKeepsId(db, d, Some(id), u, lower);
    AnchoredKeepsId(prior.recurrence, Validated(db, d, Some(id), u, lower).value);
  }

  lemma DerivedKeepsId(t: Task, p: Patch, u: Option<User>, clock: Clock)
    requires Derived(SharedOrig(t, p), Merged(t, p), p, u, clock).Ok?
    ensures Derived(SharedOrig(t, p), Merged(t, p), p, u, clock).value.id == t.id
  {
    hide CurrentWeek, MergedRecurrence, OutsideTeam;
  }

  lemma ValidatedKeepsId(db: DB, t: Task, self: Option<Id>, u: Option<User>, lower: Fold)
    requires Validated(db, t, self, u, lower).Ok?
    ensures Validated(db, t, self, u, lower).value.id == t.id
  {
    hide PlainFieldError, BacklogError, ParentError, ReferenceError, RecurrenceError;
  }

  lemma AnchoredKeepsId(prior: Option<Recurrence>, t: Task)
    requires Anchored(prior, t).Some?
    ensures Anchored(prior, t).value.id == t.id
  {
    hide ComputeAnchor, EffectiveInterval;
  }

  lemma {:induction false} NewToTask(log: seq<Entry>, id: Id, entryId: Id)
    requires !EntryIdTaken(log, entryId)
    ensures !EntryIdTaken(LogOf(log, id), entryId)
  {
    if |log| == 0 {
    } else {
      var init := log[..|log| - 1];
      assert forall i :: 0 <= i < |init| ==> init[i] == log[i];
      NewToTask(init, id, entryId);
    }
  }

  lemma LogOfMore(log: seq<Entry>, e: Entry, id: Id)
    requires e.taskId == id
    ensures LogOf(log + [e], id) == LogOf(log, id) + [e]
  {
    assert (log + [e])[..|log|] == log;
  }

  /** The interleaved patch is accepted exactly when the store accepts it, and leaves the
      row and the timeline that the store leaves. */
  lemma StoreChangeIsPatch(db: DB, id: Id, p: Patch, u: Option<User>, clock: Clock, table: seq<Transition>,
                           lower: Fold, entryId: Id)
    requires Keyed(db.tasks) && id in db.tasks && !EntryIdTaken(db.log, entryId)
    ensures var r, change := Patched(db, id, p, u, clock, table, lower),
            StoreChange(db, id, p, u, clock, lower, entryId);
            && (Accepted(table, ViewOf(db, id), change) <==> r.Ok?)
            && (r.Ok? ==> Apply(ViewOf(db, id), change) == ViewOf(AfterPatch(db, id, r.value, u, clock, entryId), id))
  {
    hide Proposed, Writable, Refusal, LogOf, StatusActivity;
    var v := ViewOf(db, id);
    assert db.tasks[id := v.row] == db.tasks;
    assert db.(tasks := db.tasks[id := v.row]) == db;
    NewToTask(db.log, id, entryId);
    if Proposed(db, id, p, u, clock, lower).Ok? {
      ProposedKeepsId(db, id, p, u, clock, lower);
      var row := Proposed(db, id, p, u, clock, lower).value;
      var e := StatusActivity(entryId, id, v.row.status, row.status, clock, u);
      assert e.taskId == id by { EntryOfTask(entryId, id, v.row.status, row.status, clock, u); }
      LogOfMore(db.log, e, id);
    }
  }

  lemma EntryOfTask(entryId: Id, id: Id, from: Status, to: Status, clock: Clock, u: Option<User>)
    ensures StatusActivity(entryId, id, from, to, clock, u).taskId == id
  {
  }

  /** Whenever a store patch commits in some interleaving, on a committed state that is
      the store's, PatchTask accepts it, and what is committed is what it specifies. */
  lemma CommittedPatchIsStores(table: seq<Transition>, start: View, states: seq<State>, events: seq<NotesLog.Event>,
                               i: nat, db: DB, id: Id, p: Patch, u: Option<User>, clock: Clock, lower: Fold,
                               entryId: Id)
    requires Run(table, start, states, events) && i < |events| && events[i].Commit?
    requires events[i].worker in states[i].workers && states[i].workers[events[i].worker].Busy?
    requires states[i].workers[events[i].worker].change == StoreChange(db, id, p, u, clock, lower, entryId)
    requires Keyed(db.tasks) && id in db.tasks && !EntryIdTaken(db.log, entryId)
    requires Committed(states[i]) == ViewOf(db, id)
    ensures var r := Patched(db, id, p, u, clock, table, lower);
            r.Ok? && Committed(states[i + 1]) == ViewOf(AfterPatch(db, id, r.value, u, clock, entryId), id)
  {
    hide Accepted, Apply, Next, Patched, StoreChange, ViewOf, AfterPatch, Committed, Replay;
    EveryRunIsSerial(table, start, states, events, i);
    EveryRunIsSerial(table, start, states, events, i + 1);
    var change := states[i].workers[events[i].worker].change;
    assert Next(table, states[i], events[i], states[i + 1]);
    OnlyCommitsWrite(table, states[i], events[i], states[i + 1]);
    var history := states[i + 1].history;
    assert history == states[i].history + [change] && history[..|history| - 1] == states[i].history;
    assert Replay(start, history) == Apply(Replay(start, states[i].history), change) by { ReplayLast(start, history); }
    LastAccepted(table, start, history);
    StoreChangeIsPatch(db, id, p, u, clock, table, lower, entryId);
  }

  // ---- a patch that the store accepts can commit ----

  lemma RunGrows(table: seq<Transition>, start: View, states: seq<State>, events: seq<NotesLog.Event>,
                 event: NotesLog.Event, after: State)
    requires Run(table, start, states, events) && Next(table, states[|events|], event, after)
    ensures Run(table, start, states + [after], events + [event])
  {
    hide Next, Init;
    var more, all := states + [after], events + [event];
    forall k | 0 <= k < |all| ensures Next(table, more[k], all[k], more[k + 1]) {
      if k < |events| { assert all[k] == events[k] && more[k] == states[k] && more[k + 1] == states[k + 1]; }
    }
  }

  /** The states that a patch of worker w passes through, alone, from st on, and its events. */
  function PatchStates(st: State, w: nat, change: Change, t: Task): seq<State>
    requires w in st.workers && change.Patching?
  {
    var begun := st.(workers := st.workers[w := Busy(change, Waiting)], used := st.used + {change.entryId});
    var locked := With(begun, w, Locked(st.row)).(lock := Some(w));
    if t.status == st.row.status then
      var ready := With(locked, w, Ready(t, NoWrite));
      [begun, locked, ready, AfterCommit(ready, w)]
    else
      var e := StatusActivity(change.entryId, t.id, st.row.status, t.status, change.clock, change.user);
      var ready := With(locked, w, Ready(t, InsertRow(st.next, e))).(next := st.next + 1);
      [begun, locked, With(locked, w, StatusSet(st.row, t)), With(locked, w, FieldsSet(st.row, t)), ready,
       AfterCommit(ready, w)]
  }

  function PatchEvents(w: nat, change: Change, statusChanges: bool): seq<NotesLog.Event> {
    if statusChanges then [Begin(w, change), Lock(w), CompareAndSet(w), WriteFields(w), WriteAudit(w), Commit(w)]
    else [Begin(w, change), Lock(w), Update(w), Commit(w)]
  }

  function AfterCommit(st: State, w: nat): State
    requires w in st.workers && st.workers[w].Busy? && st.workers[w].phase.Ready?
  {
    st.(row := st.workers[w].phase.row, log := Install(st.log, st.workers[w].phase.write), lock := None,
        workers := st.workers[w := Idle], history := st.history + [st.workers[w].change])
  }

  lemma PatchSteps(table: seq<Transition>, st: State, w: nat, change: Change, t: Task, k: nat)
    requires w in st.workers && st.workers[w].Idle? && st.lock == None
    requires change.Patching? && change.entryId !in st.used && change.body(st.row) == Some(t) && t.id == st.row.id
    requires t.status != st.row.status ==> Refusal(table, st.row.status, t.status) == None
    requires k < |PatchEvents(w, change, t.status != st.row.status)|
    ensures var more, all := [st] + PatchStates(st, w, change, t), PatchEvents(w, change, t.status != st.row.status);
            |more| == |all| + 1 && Next(table, more[k], all[k], more[k + 1])
  {
    hide Refusal, StatusActivity, Install;
  }

  lemma {:induction false} PatchRun(table: seq<Transition>, start: View, states: seq<State>,
                                    events: seq<NotesLog.Event>, w: nat, change: Change, t: Task, k: nat)
    requires Run(table, start, states, events)
    requires var st := states[|events|];
             && w in st.workers && st.workers[w].Idle? && st.lock == None
             && change.Patching? && change.entryId !in st.used && change.body(st.row) == Some(t) && t.id == st.row.id
             && (t.status != st.row.status ==> Refusal(table, st.row.status, t.status) == None)
             && k <= |PatchEvents(w, change, t.status != st.row.status)|
             && |PatchStates(st, w, change, t)| == |PatchEvents(w, change, t.status != st.row.status)|
    ensures var st := states[|events|];
            Run(table, start, states + PatchStates(st, w, change, t)[..k],
                events + PatchEvents(w, change, t.status != st.row.status)[..k])
  {
    hide Next, Init, PatchStates, PatchEvents, Refusal;
    var st := states[|events|];
    var later, all := PatchStates(st, w, change, t), PatchEvents(w, change, t.status != st.row.status);
    if k == 0 {
      assert states + later[..0] == states && events + all[..0] == events;
    } else {
      PatchRun(table, start, states, events, w, change, t, k - 1);
      PatchSteps(table, st, w, change, t, k - 1);
      var before, done := states + later[..k - 1], events + all[..k - 1];
      assert |before| == |done| + 1;
      assert before[|done|] == ([st] + later)[k - 1];
      RunGrows(table, start, before, done, all[k - 1], later[k - 1]);
      assert before + [later[k - 1]] == states + later[..k] && done + [all[k - 1]] == events + all[..k];
    }
  }

  /** From any reachable state that is the store's, an idle worker that finds the row
      unlocked can carry a patch that PatchTask accepts through to its commit, and what
      is then committed is what PatchTask specifies. */
  lemma StorePatchCommits(table: seq<Transition>, start: View, states: seq<State>, events: seq<NotesLog.Event>,
                          w: nat, db: DB, id: Id, p: Patch, u: Option<User>, clock: Clock, lower: Fold, entryId: Id)
    returns (states2: seq<State>, events2: seq<NotesLog.Event>)
    requires Run(table, start, states, events)
    requires w in states[|events|].workers && states[|events|].workers[w].Idle? && states[|events|].lock == None
    requires Keyed(db.tasks) && id in db.tasks && !EntryIdTaken(db.log, entryId)
    requires entryId !in states[|events|].used && Committed(states[|events|]) == ViewOf(db, id)
    requires Patched(db, id, p, u, clock, table, lower).Ok?
    ensures states <= states2 && events <= events2 && Run(table, start, states2, events2)
    ensures forall k :: |events| <= k < |events2| ==> events2[k].worker == w
    ensures var row := Patched(db, id, p, u, clock, table, lower).value;
            Committed(states2[|events2|]) == ViewOf(AfterPatch(db, id, row, u, clock, entryId), id)
  {
    hide Accepted, Apply, Next, Init, Patched, AfterPatch, StoreBody, Refusal;
    var st, change := states[|events|], StoreChange(db, id, p, u, clock, lower, entryId);
    StoreChangeIsPatch(db, id, p, u, clock, table, lower, entryId);
    assert change.body(st.row).Some? by { AcceptedBody(table, ViewOf(db, id), change); }
    var t := change.body(st.row).value;
    AcceptedBody(table, ViewOf(db, id), change);
    var later, all := PatchStates(st, w, change, t), PatchEvents(w, change, t.status != st.row.status);
    PatchRun(table, start, states, events, w, change, t, |all|);
    assert later[..|later|] == later && all[..|all|] == all;
    states2, events2 := states + later, events + all;
    var n := |events2| - 1;
    BeforeCommit(st, w, change, t);
    assert events2[n] == Commit(w) && states2[n] == later[|later| - 2];
    hide PatchStates, PatchEvents, StoreChange;
    CommittedPatchIsStores(table, start, states2, events2, n, db, id, p, u, clock, lower, entryId);
  }

  /** Up to its last event the patch has committed nothing. */
  lemma BeforeCommit(st: State, w: nat, change: Change, t: Task)
    requires w in st.workers && change.Patching?
    ensures var later, all := PatchStates(st, w, change, t), PatchEvents(w, change, t.status != st.row.status);
            && |later| == |all| >= 2 && all[|all| - 1] == Commit(w) && Committed(later[|later| - 2]) == Committed(st)
            && w in later[|later| - 2].workers && later[|later| - 2].workers[w].Busy?
            && later[|later| - 2].workers[w].change == change
            && forall k :: 0 <= k < |all| ==> all[k].worker == w
  {
    hide StatusActivity, Install;
  }

  lemma AcceptedBody(table: seq<Transition>, v: View, change: Change)
    requires Accepted(table, v, change) && change.Patching?
    ensures change.body(v.row).Some? && change.body(v.row).value.id == v.row.id
    ensures change.body(v.row).value.status != v.row.status ==>
              Refusal(table, v.row.status, change.body(v.row).value.status) == None
  {
    hide Refusal;
  }
}
