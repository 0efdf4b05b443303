/** The status transition table and its lookup (internal/fsm/loader,
    internal/fsm/core, internal/service/fsm.go). */
module Transitions {
  import opened Base
  import opened Model

  datatype Event = Start | Revert | Complete | Cancel | Reopen | Resume | Uncancel | OtherEvent(name: string)

  datatype Transition = Transition(from: Status, fromSub: string, event: Event, to: Status, toSub: string)

  /** NewFromBytes refuses two rows with one (from, substatus, event) key. */
  predicate DuplicateFree(table: seq<Transition>) {
    forall i, j :: 0 <= i < j < |table| ==>
      !(table[i].from == table[j].from && table[i].fromSub == table[j].fromSub && table[i].event == table[j].event)
  }

  predicate Matches(row: Transition, from: Status, sub: string, event: Event) {
    row.from == from && row.fromSub == sub && row.event == event
  }

  /** The first exact row, else the first row with an empty substatus. */
  method FindTransition(table: seq<Transition>, from: Status, sub: string, event: Event)
    returns (res: Option<Transition>)
    ensures res == Lookup(table, from, sub, event)
  {
    for i := 0 to |table|
      invariant forall k :: 0 <= k < i ==> !Matches(table[k], from, sub, event)
    {
      if Matches(table[i], from, sub, event) {
        FirstMatchAt(table, from, sub, event, i);
        return Some(table[i]);
      }
    }
    NoMatch(table, from, sub, event);
    for i := 0 to |table|
      invariant forall k :: 0 <= k < i ==> !Matches(table[k], from, "", event)
    {
      if Matches(table[i], from, "", event) {
        FirstMatchAt(table, from, "", event, i);
        return Some(table[i]);
      }
    }
    NoMatch(table, from, "", event);
    return None;
  }

  function FirstMatch(table: seq<Transition>, from: Status, sub: string, event: Event): Option<Transition> {
    if |table| == 0 then None
    else if Matches(table[0], from, sub, event) then Some(table[0])
    else FirstMatch(table[1..], from, sub, event)
  }

  function Lookup(table: seq<Transition>, from: Status, sub: string, event: Event): Option<Transition> {
    var exact := FirstMatch(table, from, sub, event);
    if exact.Some? then exact else FirstMatch(table, from, "", event)
  }

  lemma {:induction false} FirstMatchAt(table: seq<Transition>, from: Status, sub: string, event: Event, i: nat)
    requires i < |table| && Matches(table[i], from, sub, event)
    requires forall k :: 0 <= k < i ==> !Matches(table[k], from, sub, event)
    ensures FirstMatch(table, from, sub, event) == Some(table[i])
  {
    if i == 0 {
    } else {
      FirstMatchAt(table[1..], from, sub, event, i - 1);
    }
  }

  lemma {:induction false} NoMatch(table: seq<Transition>, from: Status, sub: string, event: Event)
    requires forall k :: 0 <= k < |table| ==> !Matches(table[k], from, sub, event)
    ensures FirstMatch(table, from, sub, event) == None
  {
    if |table| == 0 {
    } else {
      NoMatch(table[1..], from, sub, event);
    }
  }

  lemma {:induction false} FirstMatchFound(table: seq<Transition>, from: Status, sub: string, event: Event)
    returns (i: nat)
    requires FirstMatch(table, from, sub, event).Some?
    ensures i < |table| && FirstMatch(table, from, sub, event) == Some(table[i]) && Matches(table[i], from, sub, event)
  {
    if Matches(table[0], from, sub, event) {
      i := 0;
    } else {
      var j := FirstMatchFound(table[1..], from, sub, event);
      i := j + 1;
    }
  }

  /** In a duplicate-free table the lookup does not depend on row order: it yields
      the one exact row, else the one wildcard row, else nothing. */
  lemma LookupIsUnique(table: seq<Transition>, from: Status, sub: string, event: Event, i: nat)
    requires DuplicateFree(table) && i < |table|
    ensures Lookup(table, from, sub, event) == Some(table[i]) <==>
              || Matches(table[i], from, sub, event)
              || (Matches(table[i], from, "", event)
                  && forall k :: 0 <= k < |table| ==> !Matches(table[k], from, sub, event))
  {
    forall s | Matches(table[i], from, s, event) ensures FirstMatch(table, from, s, event) == Some(table[i]) {
      FirstMatchAt(table, from, s, event, i);
    }
    if FirstMatch(table, from, sub, event).Some? {
      var k := FirstMatchFound(table, from, sub, event);
    } else {
      forall k | 0 <= k < |table| ensures !Matches(table[k], from, sub, event) {
        if Matches(table[k], from, sub, event) { FirstMatchAt(table, from, sub, event, k); }
      }
      if FirstMatch(table, from, "", event).Some? {
        var k := FirstMatchFound(table, from, "", event);
      }
    }
  }

  /** eventFor: the event that stands for a change of status. */
  function EventFor(from: Status, to: Status): Option<Event> {
    match (from, to)
    case (Todo, InProgress) => Some(Start)
    case (Todo, Done) => Some(Complete)
    case (Todo, Cancelled) => Some(Cancel)
    case (InProgress, Todo) => Some(Revert)
    case (InProgress, Done) => Some(Complete)
    case (InProgress, Cancelled) => Some(Cancel)
    case (Done, Todo) => Some(Reopen)
    case (Done, InProgress) => Some(Resume)
    case (Done, Cancelled) => Some(Cancel)
    case (Cancelled, Todo) => Some(Uncancel)
    case (Cancelled, InProgress) => Some(Resume)
    case (Cancelled, Done) => Some(Complete)
    case _ => None
  }

  /** Why the engine refuses a change of status; None when it goes ahead. A task
      state never has a substatus. */
  function Refusal(table: seq<Transition>, from: Status, to: Status): Option<ApiError> {
    match EventFor(from, to)
    case None => Some(IllegalTransition)
    case Some(event) =>
      match Lookup(table, from, "", event)
      case None => Some(IllegalTransition)
      case Some(row) => if row.to != to then Some(TransitionMismatch) else None
  }

  /** The engine makes a change exactly if the row for its event, in a state without a
      substatus, leads to the wanted status; a row that leads elsewhere is a mismatch. */
  lemma RefusalIs(table: seq<Transition>, from: Status, to: Status)
    requires DuplicateFree(table)
    ensures var event := EventFor(from, to);
            && (Refusal(table, from, to) == None <==>
                 exists i :: 0 <= i < |table| && table[i].from == from && table[i].fromSub == ""
                             && Some(table[i].event) == event && table[i].to == to)
            && (Refusal(table, from, to) == Some(TransitionMismatch) <==>
                 exists i :: 0 <= i < |table| && table[i].from == from && table[i].fromSub == ""
                             && Some(table[i].event) == event && table[i].to != to)
            && (Refusal(table, from, to).Some? ==>
                 Refusal(table, from, to) in {Some(TransitionMismatch), Some(IllegalTransition)})
  {
    hide EventFor;
    if EventFor(from, to).Some? {
      var event := EventFor(from, to).value;
      forall i | 0 <= i < |table| && Matches(table[i], from, "", event)
        ensures Lookup(table, from, "", event) == Some(table[i]) {
        LookupIsUnique(table, from, "", event, i);
      }
      if Lookup(table, from, "", event).Some? {
        var i := FirstMatchFound(table, from, "", event);
      }
    }
  }

  /** transitions/task.yaml. */
  const TASK_TABLE: seq<Transition> := [
    Transition(Todo, "", Start, InProgress, ""),
    Transition(Todo, "", Complete, Done, ""),
    Transition(Todo, "", Cancel, Cancelled, ""),
    Transition(InProgress, "", Revert, Todo, ""),
    Transition(InProgress, "", Complete, Done, ""),
    Transition(InProgress, "", Cancel, Cancelled, ""),
    Transition(Done, "", Reopen, Todo, ""),
    Transition(Done, "", Resume, InProgress, ""),
    Transition(Done, "", Cancel, Cancelled, ""),
    Transition(Cancelled, "", Uncancel, Todo, ""),
    Transition(Cancelled, "", Resume, InProgress, ""),
    Transition(Cancelled, "", Complete, Done, "")]

  lemma ShippedTableIsDuplicateFree()
    ensures DuplicateFree(TASK_TABLE)
  {
  }

  lemma ShippedRow(from: Status, to: Status) returns (i: nat)
    requires ValidStatus(from) && ValidStatus(to) && from != to
    ensures i < |TASK_TABLE| && TASK_TABLE[i].to == to
    ensures EventFor(from, to).Some? && Matches(TASK_TABLE[i], from, "", EventFor(from, to).value)
  {
    var block := if from == Todo then 0 else if from == InProgress then 3 else if from == Done then 6 else 9;
    var offset := match to
      case Cancelled => 2
      case Todo => 0
      case Done => if from == Cancelled then 2 else 1
      case _ => if from == Todo then 0 else 1;
    i := block + offset;
  }

  /** The shipped table is duplicate-free and refuses no change between valid statuses. */
  lemma ShippedTableIsPermissive(from: Status, to: Status)
    requires ValidStatus(from) && ValidStatus(to) && from != to
    ensures DuplicateFree(TASK_TABLE) && Refusal(TASK_TABLE, from, to) == None
  {
    ShippedTableIsDuplicateFree();
    var i := ShippedRow(from, to);
    hide TASK_TABLE, EventFor, Matches;
    LookupIsUnique(TASK_TABLE, from, "", EventFor(from, to).value, i);
  }
}
