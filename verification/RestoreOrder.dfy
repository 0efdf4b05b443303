/** restoreOrder: a stable, parents-first order of a restore payload, by rounds
    (internal/service/tasks.go). */
module RestoreOrder {
  import opened Base
  import opened Forest
  import opened Model

  function IdsOf(tasks: seq<Doc>): set<Id> {
    set i | 0 <= i < |tasks| :: tasks[i].task.id
  }

  predicate DistinctIds(tasks: seq<Doc>) {
    forall i, j :: 0 <= i < j < |tasks| ==> tasks[i].task.id != tasks[j].task.id
  }

  /** The payload's own parent relation: parents outside it do not count. */
  function PayloadParents(tasks: seq<Doc>): Parents
    requires DistinctIds(tasks)
  {
    map i | 0 <= i < |tasks| && tasks[i].task.parentId.Some? && tasks[i].task.parentId.value in IdsOf(tasks)
        :: tasks[i].task.id := tasks[i].task.parentId.value
  }

  /** Every task whose parent is in the payload comes after its parent. */
  predicate ParentsFirst(tasks: seq<Doc>, payload: set<Id>) {
    forall i :: 0 <= i < |tasks| && tasks[i].task.parentId.Some? && tasks[i].task.parentId.value in payload ==>
      exists j :: 0 <= j < i && tasks[j].task.id == tasks[i].task.parentId.value
  }

  predicate OwnParent(t: Doc) {
    t.task.parentId == Some(t.task.id)
  }

  predicate Ready(t: Doc, payload: set<Id>, placed: set<Id>) {
    t.task.parentId == None || t.task.parentId.value !in payload || t.task.parentId.value in placed || OwnParent(t)
  }

  datatype RoundResult = SelfParented | Round(placed: seq<Doc>, left: seq<Doc>)

  /** One pass over the remaining tasks; a task placed early in the pass already
      makes its children ready. */
  function OneRound(rest: seq<Doc>, payload: set<Id>, placed: set<Id>): RoundResult {
    if |rest| == 0 then Round([], [])
    else
      var t := rest[0];
      if Ready(t, payload, placed) then
        if OwnParent(t) then SelfParented
        else match OneRound(rest[1..], payload, placed + {t.task.id})
          case SelfParented => SelfParented
          case Round(now, later) => Round([t] + now, later)
      else match OneRound(rest[1..], payload, placed)
        case SelfParented => SelfParented
        case Round(now, later) => Round(now, [t] + later)
  }

  lemma {:induction false} RoundSplits(rest: seq<Doc>, payload: set<Id>, placed: set<Id>)
    ensures var r := OneRound(rest, payload, placed);
            r.Round? ==> multiset(r.placed) + multiset(r.left) == multiset(rest) && |r.placed| + |r.left| == |rest|
  {
    if |rest| == 0 {
    } else {
      var t := rest[0];
      assert rest == [t] + rest[1..];
      RoundSplits(rest[1..], payload, placed);
      RoundSplits(rest[1..], payload, placed + {t.task.id});
    }
  }

  /** Rounds until nothing is left, or until a round places nothing. */
  function Rounds(rest: seq<Doc>, payload: set<Id>, placed: set<Id>): Result<seq<Doc>, ApiError>
    decreases |rest|
  {
    if |rest| == 0 then Ok([])
    else
      RoundSplits(rest, payload, placed);
      match OneRound(rest, payload, placed)
      case SelfParented => Err(RestoreOwnParent)
      case Round(now, later) =>
        if |later| == |rest| then Err(RestoreCycle)
        else
          match Rounds(later, payload, placed + IdsOf(now))
          case Ok(s) => Ok(now + s)
          case Err(e) => Err(e)
  }

  function Ordered(tasks: seq<Doc>): Result<seq<Doc>, ApiError> {
    Rounds(tasks, IdsOf(tasks), {})
  }

  function PrependRound(now: seq<Doc>, later: seq<Doc>, r: RoundResult): RoundResult {
    match r
    case SelfParented => SelfParented
    case Round(a, b) => Round(now + a, later + b)
  }

  function PrependRounds(out: seq<Doc>, r: Result<seq<Doc>, ApiError>): Result<seq<Doc>, ApiError> {
    match r
    case Ok(s) => Ok(out + s)
    case Err(e) => Err(e)
  }

  method RestoreOrder(tasks: seq<Doc>) returns (res: Result<seq<Doc>, ApiError>)
    ensures res == Ordered(tasks)
  {
    hide *;
    var inPayload := IdsOf(tasks);
    var placed: set<Id> := {};
    var out: seq<Doc> := [];
    var remaining := tasks;
    OrderedStarts(tasks);
    while |remaining| > 0
      invariant Ordered(tasks) == PrependRounds(out, Rounds(remaining, inPayload, placed))
      decreases |remaining|
    {
      ghost var out0, placed0 := out, placed;
      ghost var now: seq<Doc> := [];
      var next: seq<Doc> := [];
      RoundStarts(remaining, inPayload, placed);
      for k := 0 to |remaining|
        invariant out == out0 + now && placed == placed0 + IdsOf(now)
        invariant OneRound(remaining, inPayload, placed0) ==
                  PrependRound(now, next, OneRound(remaining[k..], inPayload, placed))
      {
        var t := remaining[k];
        assert remaining[k..][0] == t && remaining[k..][1..] == remaining[k + 1..];
        RoundStep(now, next, remaining[k..], inPayload, placed);
        IdsOfAppend(now, t);
        if t.task.parentId == None || t.task.parentId.value !in inPayload || t.task.parentId.value in placed
            || t.task.parentId.value == t.task.id {
          if t.task.parentId.Some? && t.task.parentId.value == t.task.id {
            RoundsStep(out0, remaining, inPayload, placed0);
            return Err(RestoreOwnParent);
          }
          out := out + [t];
          placed := placed + {t.task.id};
          now := now + [t];
        } else {
          next := next + [t];
        }
      }
      assert remaining[|remaining|..] == [];
      RoundEnds(now, next, inPayload, placed);
      RoundsStep(out0, remaining, inPayload, placed0);
      if |next| == |remaining| {
        return Err(RestoreCycle);
      }
      remaining := next;
    }
    RoundsEnd(out, remaining, inPayload, placed);
    return Ok(out);
  }

  lemma OrderedStarts(tasks: seq<Doc>)
    ensures Ordered(tasks) == PrependRounds([], Rounds(tasks, IdsOf(tasks), {}))
  {
    hide IdsOf, Rounds;
    EmptyPrefix(Ordered(tasks));
  }

  lemma RoundStarts(rest: seq<Doc>, payload: set<Id>, placed: set<Id>)
    ensures rest[0..] == rest
    ensures IdsOf([]) == {} && placed == placed + {}
    ensures OneRound(rest, payload, placed) == PrependRound([], [], OneRound(rest, payload, placed))
  {
    EmptyRoundPrefix(OneRound(rest, payload, placed));
  }

  lemma RoundEnds(now: seq<Doc>, later: seq<Doc>, payload: set<Id>, placed: set<Id>)
    ensures PrependRound(now, later, OneRound([], payload, placed)) == Round(now, later)
  {
    assert now + [] == now && later + [] == later;
  }

  lemma RoundsStep(out: seq<Doc>, rest: seq<Doc>, payload: set<Id>, placed: set<Id>)
    requires |rest| > 0
    ensures PrependRounds(out, Rounds(rest, payload, placed)) ==
            match OneRound(rest, payload, placed)
            case SelfParented => Err(RestoreOwnParent)
            case Round(now, later) =>
              if |later| == |rest| then Err(RestoreCycle)
              else PrependRounds(out + now, Rounds(later, payload, placed + IdsOf(now)))
    ensures OneRound(rest, payload, placed).Round? ==> |OneRound(rest, payload, placed).left| <= |rest|
  {
    hide OneRound, IdsOf;
    RoundSplits(rest, payload, placed);
    var r := OneRound(rest, payload, placed);
    if r.Round? && |r.left| != |rest| {
      PrependRoundsConcat(out, r.placed, Rounds(r.left, payload, placed + IdsOf(r.placed)));
    }
  }

  lemma RoundsEnd(out: seq<Doc>, rest: seq<Doc>, payload: set<Id>, placed: set<Id>)
    requires |rest| == 0
    ensures PrependRounds(out, Rounds(rest, payload, placed)) == Ok(out)
  {
    assert out + [] == out;
  }

  lemma EmptyPrefix(r: Result<seq<Doc>, ApiError>)
    ensures PrependRounds([], r) == r
  {
    if r.Ok? { assert [] + r.value == r.value; }
  }

  lemma EmptyRoundPrefix(r: RoundResult)
    ensures PrependRound([], [], r) == r
  {
    if r.Round? { assert [] + r.placed == r.placed && [] + r.left == r.left; }
  }

  lemma PrependRoundsConcat(a: seq<Doc>, b: seq<Doc>, r: Result<seq<Doc>, ApiError>)
    ensures PrependRounds(a, PrependRounds(b, r)) == PrependRounds(a + b, r)
  {
    if r.Ok? { assert a + (b + r.value) == (a + b) + r.value; }
  }

  lemma RoundStep(now: seq<Doc>, later: seq<Doc>, rest: seq<Doc>, payload: set<Id>, placed: set<Id>)
    requires |rest| > 0
    ensures var t := rest[0];
            PrependRound(now, later, OneRound(rest, payload, placed)) ==
            if t.task.parentId == None || t.task.parentId.value !in payload || t.task.parentId.value in placed
                || t.task.parentId.value == t.task.id then
              if t.task.parentId.Some? && t.task.parentId.value == t.task.id then SelfParented
              else PrependRound(now + [t], later, OneRound(rest[1..], payload, placed + {t.task.id}))
            else PrependRound(now, later + [t], OneRound(rest[1..], payload, placed))
  {
    var t := rest[0];
    var r := OneRound(rest[1..], payload, if Ready(t, payload, placed) then placed + {t.task.id} else placed);
    if r.Round? {
      assert now + ([t] + r.placed) == (now + [t]) + r.placed;
      assert later + ([t] + r.left) == (later + [t]) + r.left;
    }
  }

  lemma IdsOfAppend(s: seq<Doc>, t: Doc)
    ensures IdsOf(s + [t]) == IdsOf(s) + {t.task.id}
  {
    assert (s + [t])[|s|] == t;
    forall i | 0 <= i < |s| ensures s[i].task.id in IdsOf(s + [t]) { assert (s + [t])[i] == s[i]; }
  }

  // ---- what the order promises ----

  lemma {:induction false} RoundsPermute(rest: seq<Doc>, payload: set<Id>, placed: set<Id>)
    ensures var r := Rounds(rest, payload, placed);
            r.Ok? ==> multiset(r.value) == multiset(rest)
    decreases |rest|
  {
    if |rest| == 0 {
    } else {
      RoundSplits(rest, payload, placed);
      var r := OneRound(rest, payload, placed);
      if r.Round? && |r.left| != |rest| {
        RoundsPermute(r.left, payload, placed + IdsOf(r.placed));
      }
    }
  }

  /** Each task follows its parent, when that parent is in the payload. */
  predicate ParentsKnown(s: seq<Doc>, payload: set<Id>, placed: set<Id>) {
    forall i :: 0 <= i < |s| && s[i].task.parentId.Some? && s[i].task.parentId.value in payload ==>
      s[i].task.parentId.value in placed || exists j :: 0 <= j < i && s[j].task.id == s[i].task.parentId.value
  }

  lemma {:induction false} RoundParentsKnown(rest: seq<Doc>, payload: set<Id>, placed: set<Id>)
    ensures var r := OneRound(rest, payload, placed);
            r.Round? ==> ParentsKnown(r.placed, payload, placed)
  {
    if |rest| == 0 {
    } else {
      var t := rest[0];
      RoundParentsKnown(rest[1..], payload, placed);
      RoundParentsKnown(rest[1..], payload, placed + {t.task.id});
      var r := OneRound(rest, payload, placed);
      if r.Round? && Ready(t, payload, placed) {
        assert IdsOf([t]) == {t.task.id} by { IdsOfAppend([], t); assert [] + [t] == [t]; }
        KnownPrepend([t], r.placed[1..], payload, placed);
        assert r.placed == [t] + r.placed[1..];
      }
    }
  }

  lemma KnownPrepend(a: seq<Doc>, b: seq<Doc>, payload: set<Id>, placed: set<Id>)
    requires ParentsKnown(a, payload, placed) && ParentsKnown(b, payload, placed + IdsOf(a))
    ensures ParentsKnown(a + b, payload, placed)
  {
    var s := a + b;
    forall i | 0 <= i < |s| && s[i].task.parentId.Some? && s[i].task.parentId.value in payload
        && s[i].task.parentId.value !in placed
      ensures exists j :: 0 <= j < i && s[j].task.id == s[i].task.parentId.value
    {
      var p := s[i].task.parentId.value;
      if i < |a| {
        var j :| 0 <= j < i && a[j].task.id == p;
        assert s[j].task.id == p;
      } else if p in IdsOf(a) {
        var j :| 0 <= j < |a| && a[j].task.id == p;
        assert s[j].task.id == p;
      } else {
        var j :| 0 <= j < i - |a| && b[j].task.id == p;
        assert s[|a| + j].task.id == p;
      }
    }
  }

  lemma {:induction false} RoundsParentsKnown(rest: seq<Doc>, payload: set<Id>, placed: set<Id>)
    ensures var r := Rounds(rest, payload, placed);
            r.Ok? ==> ParentsKnown(r.value, payload, placed)
    decreases |rest|
  {
    if |rest| == 0 {
    } else {
      RoundSplits(rest, payload, placed);
      RoundParentsKnown(rest, payload, placed);
      var r := OneRound(rest, payload, placed);
      if r.Round? && |r.left| != |rest| {
        RoundsParentsKnown(r.left, payload, placed + IdsOf(r.placed));
        var more := Rounds(r.left, payload, placed + IdsOf(r.placed));
        if more.Ok? { KnownPrepend(r.placed, more.value, payload, placed); }
      }
    }
  }

  /** An accepted payload is only permuted, parents first. */
  lemma OrderedIsParentsFirstPermutation(tasks: seq<Doc>)
    requires Ordered(tasks).Ok?
    ensures multiset(Ordered(tasks).value) == multiset(tasks)
    ensures ParentsFirst(Ordered(tasks).value, IdsOf(tasks))
  {
    hide Rounds;
    RoundsPermute(tasks, IdsOf(tasks), {});
    RoundsParentsKnown(tasks, IdsOf(tasks), {});
  }

  lemma {:induction false} RoundPlacesAll(tasks: seq<Doc>, k: nat, placed: set<Id>)
    requires k <= |tasks| && DistinctIds(tasks) && ParentsFirst(tasks, IdsOf(tasks)) && placed == IdsOf(tasks[..k])
    ensures OneRound(tasks[k..], IdsOf(tasks), placed) == Round(tasks[k..], [])
    decreases |tasks| - k
  {
    if k >= |tasks| {
    } else {
      var t := tasks[k];
      assert tasks[..k + 1] == tasks[..k] + [t];
      IdsOfAppend(tasks[..k], t);
      RoundPlacesAll(tasks, k + 1, placed + {t.task.id});
      assert tasks[k..][0] == t && tasks[k..][1..] == tasks[k + 1..];
      assert tasks[k..] == [t] + tasks[k + 1..];
      if t.task.parentId.Some? && t.task.parentId.value in IdsOf(tasks) {
        var j :| 0 <= j < k && tasks[j].task.id == t.task.parentId.value;
        assert tasks[..k][j] == tasks[j];
        assert t.task.parentId.value in placed;
      }
    }
  }

  /** A payload that is already parents-first comes back unchanged. */
  lemma OrderedKeepsParentsFirst(tasks: seq<Doc>)
    requires DistinctIds(tasks) && ParentsFirst(tasks, IdsOf(tasks))
    ensures Ordered(tasks) == Ok(tasks)
  {
    assert tasks[..0] == [] && tasks[0..] == tasks;
    RoundPlacesAll(tasks, 0, {});
    if |tasks| > 0 {
      assert Rounds([], IdsOf(tasks), {} + IdsOf(tasks)) == Ok([]);
      assert tasks + [] == tasks;
    }
  }

  // ---- failure is exactly a cycle ----

  /** The tasks not yet placed are part of the payload, and every payload id is
      placed or still waiting. */
  predicate Accounted(tasks: seq<Doc>, rest: seq<Doc>, placed: set<Id>) {
    && (forall t :: t in rest ==> t in tasks)
    && (forall x :: x in IdsOf(tasks) ==> x in placed || x in IdsOf(rest))
  }

  lemma IdsOfMultiset(a: seq<Doc>, b: seq<Doc>, c: seq<Doc>)
    requires multiset(a) + multiset(b) == multiset(c)
    ensures IdsOf(a) + IdsOf(b) == IdsOf(c)
    ensures forall t :: t in b ==> t in c
  {
    forall t | t in a || t in b ensures t in c {
      assert t in multiset(a) || t in multiset(b);
      assert t in multiset(c);
    }
    forall t | t in c ensures t in a || t in b { assert t in multiset(c); }
    forall x | x in IdsOf(c) ensures x in IdsOf(a) + IdsOf(b) {
      var i :| 0 <= i < |c| && c[i].task.id == x;
      assert c[i] in c;
    }
    forall x | x in IdsOf(a) + IdsOf(b) ensures x in IdsOf(c) {
      if x in IdsOf(a) {
        var i :| 0 <= i < |a| && a[i].task.id == x;
        assert a[i] in c;
      } else {
        var i :| 0 <= i < |b| && b[i].task.id == x;
        assert b[i] in c;
      }
    }
  }

  lemma {:induction false} OwnParentFound(rest: seq<Doc>, payload: set<Id>, placed: set<Id>) returns (t: Doc)
    requires OneRound(rest, payload, placed).SelfParented?
    ensures t in rest && OwnParent(t)
  {
    t := rest[0];
    if Ready(t, payload, placed) && OwnParent(t) {
    } else {
      t := OwnParentFound(rest[1..], payload, if Ready(t, payload, placed) then placed + {t.task.id} else placed);
    }
  }

  lemma {:induction false} StuckRound(rest: seq<Doc>, payload: set<Id>, placed: set<Id>)
    requires OneRound(rest, payload, placed).Round? && |OneRound(rest, payload, placed).left| == |rest|
    ensures forall t :: t in rest ==> !Ready(t, payload, placed)
  {
    if |rest| == 0 {
    } else {
      RoundSplits(rest[1..], payload, placed);
      RoundSplits(rest[1..], payload, placed + {rest[0].task.id});
      StuckRound(rest[1..], payload, placed);
      assert rest == [rest[0]] + rest[1..];
    }
  }

  lemma ParentsEntry(tasks: seq<Doc>, t: Doc)
    requires DistinctIds(tasks) && t in tasks
    ensures t.task.id in IdsOf(tasks)
    ensures t.task.id in PayloadParents(tasks) <==> t.task.parentId.Some? && t.task.parentId.value in IdsOf(tasks)
    ensures t.task.id in PayloadParents(tasks) ==> PayloadParents(tasks)[t.task.id] == t.task.parentId.value
  {
    var i :| 0 <= i < |tasks| && tasks[i] == t;
  }

  lemma {:induction false} FailureHasCycle(tasks: seq<Doc>, rest: seq<Doc>, placed: set<Id>)
    requires DistinctIds(tasks) && Accounted(tasks, rest, placed)
    requires Rounds(rest, IdsOf(tasks), placed).Err?
    ensures !Acyclic(PayloadParents(tasks))
    decreases |rest|
  {
    var payload, par := IdsOf(tasks), PayloadParents(tasks);
    RoundSplits(rest, payload, placed);
    match OneRound(rest, payload, placed)
    case SelfParented =>
      var t := OwnParentFound(rest, payload, placed);
      ParentsEntry(tasks, t);
      assert Up(par, t.task.id, 1) == Up(par, t.task.id, 0) == Some(t.task.id);
      assert OnCycle(par, t.task.id);
    case Round(now, later) =>
      if |later| == |rest| {
        StuckRound(rest, payload, placed);
        StuckHasCycle(tasks, rest, placed);
      } else {
        IdsOfMultiset(now, later, rest);
        FailureHasCycle(tasks, later, placed + IdsOf(now));
      }
  }

  lemma StuckHasCycle(tasks: seq<Doc>, rest: seq<Doc>, placed: set<Id>)
    requires DistinctIds(tasks) && Accounted(tasks, rest, placed) && |rest| > 0
    requires forall t :: t in rest ==> !Ready(t, IdsOf(tasks), placed)
    ensures !Acyclic(PayloadParents(tasks))
  {
    var par, u := PayloadParents(tasks), IdsOf(rest);
    forall y | y in u ensures y in par && par[y] in u {
      var i :| 0 <= i < |rest| && rest[i].task.id == y;
      assert rest[i] in rest;
      ParentsEntry(tasks, rest[i]);
    }
    assert rest[0].task.id in u;
    var c := ClosedSetHasCycle(par, u, rest[0].task.id);
  }

  /** The position at which an id is first placed. */
  function FirstAt(out: seq<Doc>, x: Id): (i: nat)
    requires x in IdsOf(out)
    ensures i < |out| && out[i].task.id == x
    ensures forall j :: 0 <= j < i ==> out[j].task.id != x
  {
    if out[0].task.id == x then 0
    else
      (var k :| 0 <= k < |out| && out[k].task.id == x;
       assert out[1..][k - 1].task.id == x;
       FirstAt(out[1..], x) + 1)
  }

  lemma SuccessIsAcyclic(tasks: seq<Doc>, out: seq<Doc>)
    requires DistinctIds(tasks) && multiset(out) == multiset(tasks) && ParentsFirst(out, IdsOf(tasks))
    ensures Acyclic(PayloadParents(tasks))
  {
    var par := PayloadParents(tasks);
    var rank := map x | x in IdsOf(out) :: FirstAt(out, x);
    forall x | x in par ensures x in rank && par[x] in rank && rank[par[x]] < rank[x] {
      ParentPlacedEarlier(tasks, out, x);
    }
    RankedIsAcyclic(par, rank);
  }

  lemma ParentPlacedEarlier(tasks: seq<Doc>, out: seq<Doc>, x: Id)
    requires DistinctIds(tasks) && multiset(out) == multiset(tasks) && ParentsFirst(out, IdsOf(tasks))
    requires x in PayloadParents(tasks)
    ensures x in IdsOf(out) && PayloadParents(tasks)[x] in IdsOf(out)
    ensures FirstAt(out, PayloadParents(tasks)[x]) < FirstAt(out, x)
  {
    IdsOfMultiset(out, [], tasks);
    var i := FirstAt(out, x);
    assert out[i] in multiset(out);
    assert out[i] in tasks;
    ParentsEntry(tasks, out[i]);
    hide PayloadParents, IdsOf, FirstAt;
    var j :| 0 <= j < i && out[j].task.id == out[i].task.parentId.value;
    FirstAtEarliest(out, j);
  }

  lemma FirstAtEarliest(out: seq<Doc>, j: nat)
    requires j < |out|
    ensures out[j].task.id in IdsOf(out) && FirstAt(out, out[j].task.id) <= j
  {
    assert out[j].task.id in IdsOf(out);
  }

  /** On distinct ids, the payload is refused exactly when its parent relation has
      a cycle, a task that is its own parent included. */
  lemma RefusedIffCycle(tasks: seq<Doc>)
    requires DistinctIds(tasks)
    ensures Ordered(tasks).Err? <==> !Acyclic(PayloadParents(tasks))
  {
    hide Rounds;
    if Ordered(tasks).Err? {
      FailureHasCycle(tasks, tasks, {});
    } else {
      OrderedIsParentsFirstPermutation(tasks);
      SuccessIsAcyclic(tasks, Ordered(tasks).value);
    }
  }
}
