/** topoOrder: depth-first, parents-first order of the tasks to migrate, with one
    fatal finding per parent cycle (cmd/migrate-mongo/plan.go). */
module TopoOrder {
  import opened Base
  import opened Forest
  import opened Model

  datatype Colour = Visiting | Finished

  type Colours = map<Id, Colour>

  /** The tasks' parent relation, restricted to parents that exist. */
  function ExistingParents(byID: map<Id, Task>): Parents {
    map x | x in byID && byID[x].parentId.Some? && byID[x].parentId.value in byID :: byID[x].parentId.value
  }

  /** A cycle as topoOrder names it: each node's parent is the next, the last one's
      the first, and no node is named twice. */
  predicate IsCycle(par: Parents, c: seq<Id>) {
    && |c| > 0
    && Distinct(c)
    && (forall i :: 0 <= i < |c| - 1 ==> c[i] in par && par[c[i]] == c[i + 1])
    && c[|c| - 1] in par && par[c[|c| - 1]] == c[0]
  }

  /** The nodes being visited, outermost first, each the parent of the one before. */
  predicate IsPath(par: Parents, path: seq<Id>) {
    && Distinct(path)
    && forall i :: 0 <= i < |path| - 1 ==> path[i] in par && par[path[i]] == path[i + 1]
  }

  ghost predicate Colouring(byID: map<Id, Task>, state: Colours, out: seq<Task>, path: seq<Id>) {
    && Keyed(byID)
    && state.Keys <= byID.Keys
    && IsPath(ExistingParents(byID), path)
    && (forall x :: x in path <==> x in state && state[x] == Visiting)
    && (forall i :: 0 <= i < |out| ==> out[i].id in byID && out[i] == byID[out[i].id])
    && (forall i :: 0 <= i < |out| ==> out[i].id in state && state[out[i].id] == Finished)
    && (forall x :: x in state && state[x] == Finished ==> exists i :: 0 <= i < |out| && out[i].id == x)
    && (forall i, j :: 0 <= i < j < |out| ==> out[i].id != out[j].id)
  }

  /** Off the cycles, a task is emitted after its parent. */
  ghost predicate EmittedParentsFirst(par: Parents, out: seq<Task>) {
    forall i :: 0 <= i < |out| && out[i].id in par ==>
      OnCycle(par, out[i].id) || exists j :: 0 <= j < i && out[j].id == par[out[i].id]
  }

  /** Every finding is a cycle, different findings share no node, and every
      finished node of a cycle is named. */
  ghost predicate Reported(par: Parents, state: Colours, cycles: seq<seq<Id>>) {
    && (forall f :: 0 <= f < |cycles| ==> IsCycle(par, cycles[f]))
    && (forall f, g, x :: 0 <= f < g < |cycles| && x in cycles[f] ==> x !in cycles[g])
    && (forall x :: x in state && state[x] == Finished && OnCycle(par, x) ==> Named(cycles, x))
  }

  ghost predicate Named(cycles: seq<seq<Id>>, x: Id) {
    exists f :: 0 <= f < |cycles| && x in cycles[f]
  }

  /** Named nodes have been finished, or are still on the path. */
  ghost predicate NamedAreSeen(state: Colours, cycles: seq<seq<Id>>) {
    forall f, x :: 0 <= f < |cycles| && x in cycles[f] ==> x in state
  }

  ghost predicate NamedAreFinished(state: Colours, cycles: seq<seq<Id>>) {
    forall f, x :: 0 <= f < |cycles| && x in cycles[f] ==> x in state && state[x] == Finished
  }

  // ---- cycles ----

  lemma {:induction false} CycleStep(par: Parents, c: seq<Id>, i: nat, k: nat)
    requires IsCycle(par, c) && i + k <= |c| && i < |c|
    ensures Up(par, c[i], k) == Some(if i + k < |c| then c[i + k] else c[0])
    decreases k
  {
    if k == 0 {
    } else {
      assert par[c[i]] == if i + 1 < |c| then c[i + 1] else c[0];
      if i + 1 < |c| { CycleStep(par, c, i + 1, k - 1); }
    }
  }

  /** Every node of a named cycle is on a cycle. */
  lemma NamedOnCycle(par: Parents, c: seq<Id>, x: Id)
    requires IsCycle(par, c) && x in c
    ensures OnCycle(par, x)
  {
    var i :| 0 <= i < |c| && c[i] == x;
    CycleStep(par, c, i, |c| - i);
    CycleStep(par, c, 0, i);
    UpAdd(par, x, |c| - i, i);
    assert Up(par, x, |c|) == Some(x);
  }

  /** A named cycle is closed under taking parents. */
  lemma {:induction false} NamedClosed(par: Parents, c: seq<Id>, x: Id, k: nat)
    requires IsCycle(par, c) && x in c && Up(par, x, k).Some?
    ensures Up(par, x, k).value in c
    decreases k
  {
    if k == 0 {
    } else {
      var i :| 0 <= i < |c| && c[i] == x;
      assert par[x] in c by { if i == |c| - 1 { assert par[x] == c[0]; } else { assert par[x] == c[i + 1]; } }
      NamedClosed(par, c, par[x], k - 1);
    }
  }

  /** A cycle is named as soon as the parent of one of its nodes is. */
  lemma NamedWithParent(par: Parents, c: seq<Id>, x: Id)
    requires IsCycle(par, c) && OnCycle(par, x) && x in par && par[x] in c
    ensures x in c
  {
    var k: nat :| k > 0 && Up(par, x, k) == Some(x);
    assert Up(par, par[x], k - 1) == Some(x);
    NamedClosed(par, c, par[x], k - 1);
  }

  lemma ParentOnCycle(par: Parents, x: Id)
    requires OnCycle(par, x)
    ensures x in par && OnCycle(par, par[x])
  {
    var k: nat :| k > 0 && Up(par, x, k) == Some(x);
    UpAdd(par, x, k, 1);
    assert Up(par, x, k + 1) == Up(par, par[x], k);
    assert Up(par, x, 1) == Up(par, par[x], 0) == Some(par[x]);
  }

  class Orderer {
    const byID: map<Id, Task>
    var state: Colours
    var out: seq<Task>
    var cycles: seq<seq<Id>>

    constructor (byID: map<Id, Task>)
      ensures this.byID == byID && state == map[] && out == [] && cycles == []
    {
      this.byID := byID;
      state, out, cycles := map[], [], [];
    }

    ghost predicate Valid(path: seq<Id>)
      reads this
    {
      && Colouring(byID, state, out, path)
      && EmittedParentsFirst(ExistingParents(byID), out)
      && Reported(ExistingParents(byID), state, cycles)
    }

    method Visit(id: Id, path: seq<Id>)
      requires Valid(path) && NamedAreFinished(state, cycles)
      requires id in byID && (|path| > 0 ==> path[|path| - 1] in ExistingParents(byID)
                                             && ExistingParents(byID)[path[|path| - 1]] == id)
      modifies this
      ensures Valid(path) && NamedAreSeen(state, cycles)
      ensures id in state && (id !in old(state) ==> state[id] == Finished)
      ensures forall x :: x in old(state) ==> x in state && state[x] == old(state)[x]
      ensures OnCycle(ExistingParents(byID), id) ==> Named(cycles, id)
      ensures id in old(state) ==> out == old(out) && state == old(state)
      ensures old(id !in state && (id in ExistingParents(byID) ==>
                ExistingParents(byID)[id] in state && state[ExistingParents(byID)[id]] == Finished)) ==>
              out == old(out) + [byID[id]] && state == old(state)[id := Finished]
      decreases byID.Keys - state.Keys
    {
      hide Colouring, EmittedParentsFirst, Reported, OnCycle, Named, ExistingParents;
      StateFacts(byID, state, out, cycles, path, id);
      if id in state && state[id] == Finished {
        return;
      }
      if id in state && state[id] == Visiting {
        var start := 0;
        while start < |path| && path[start] != id
          invariant 0 <= start <= |path| && id !in path[..start]
        {
          start := start + 1;
        }
        NewCycle(byID, state, out, cycles, path, start, id);
        cycles := cycles + [path[start..]];
        return;
      }
      NewNode(byID, state, out, cycles, path, id);
      state := state[id := Visiting];
      var t := byID[id];
      ParentEntry(byID, id);
      if t.parentId.Some? && t.parentId.value in byID {
        assert byID.Keys - state.Keys < old(byID.Keys - state.Keys) by { assert id in old(byID.Keys - state.Keys); }
        Visit(t.parentId.value, path + [id]);
        ParentVisited(byID, state, out, cycles, path, id);
      }
      if id in state && state[id] == Visiting {
        FinishNode(byID, state, out, cycles, path, id);
        state := state[id := Finished];
        out := out + [t];
      }
    }
  }

  lemma ParentEntry(byID: map<Id, Task>, id: Id)
    requires id in byID
    ensures id in ExistingParents(byID) <==> byID[id].parentId.Some? && byID[id].parentId.value in byID
    ensures id in ExistingParents(byID) ==> ExistingParents(byID)[id] == byID[id].parentId.value
    ensures OnCycle(ExistingParents(byID), id) ==> id in ExistingParents(byID)
  {
    if OnCycle(ExistingParents(byID), id) { ParentOnCycle(ExistingParents(byID), id); }
  }

  lemma StateFacts(byID: map<Id, Task>, state: Colours, out: seq<Task>, cycles: seq<seq<Id>>, path: seq<Id>, id: Id)
    requires Colouring(byID, state, out, path) && Reported(ExistingParents(byID), state, cycles)
    ensures id in state && state[id] == Visiting <==> id in path
    ensures id in state && state[id] == Finished && OnCycle(ExistingParents(byID), id) ==> Named(cycles, id)
    ensures state.Keys <= byID.Keys
  {
  }

  lemma NewNode(byID: map<Id, Task>, state: Colours, out: seq<Task>, cycles: seq<seq<Id>>, path: seq<Id>, id: Id)
    requires Colouring(byID, state, out, path) && id in byID && id !in state
    requires |path| > 0 ==> path[|path| - 1] in ExistingParents(byID) && ExistingParents(byID)[path[|path| - 1]] == id
    requires Reported(ExistingParents(byID), state, cycles) && NamedAreFinished(state, cycles)
    ensures Colouring(byID, state[id := Visiting], out, path + [id])
    ensures Reported(ExistingParents(byID), state[id := Visiting], cycles)
    ensures NamedAreFinished(state[id := Visiting], cycles)
  {
  }

  lemma NewCycle(byID: map<Id, Task>, state: Colours, out: seq<Task>, cycles: seq<seq<Id>>, path: seq<Id>, start: nat,
                 id: Id)
    requires Colouring(byID, state, out, path) && Reported(ExistingParents(byID), state, cycles)
             && NamedAreFinished(state, cycles)
    requires start <= |path| && id in path && id !in path[..start] && (start < |path| ==> path[start] == id)
    requires path[|path| - 1] in ExistingParents(byID) && ExistingParents(byID)[path[|path| - 1]] == id
    ensures Reported(ExistingParents(byID), state, cycles + [path[start..]])
    ensures NamedAreSeen(state, cycles + [path[start..]])
    ensures Named(cycles + [path[start..]], id)
  {
    var par, c := ExistingParents(byID), path[start..];
    var all := cycles + [c];
    PathTailIsCycle(par, path, start, id);
    assert forall y :: y in c ==> y in path && state[y] == Visiting;
    hide ExistingParents, Colouring, IsCycle, OnCycle;
    assert all[|cycles|] == c && c[0] == id;
    forall x | x in state && state[x] == Finished && OnCycle(par, x) ensures Named(all, x) {
      var f :| 0 <= f < |cycles| && x in cycles[f];
      assert all[f] == cycles[f];
    }
    forall f, g, x | 0 <= f < g < |all| && x in all[f] ensures x !in all[g] {
      assert all[f] == cycles[f] && x in cycles[f];
      if g < |cycles| { assert all[g] == cycles[g]; }
    }
  }

  lemma PathTailIsCycle(par: Parents, path: seq<Id>, start: nat, id: Id)
    requires IsPath(par, path) && start <= |path| && id in path && id !in path[..start]
             && (start < |path| ==> path[start] == id)
    requires path[|path| - 1] in par && par[path[|path| - 1]] == id
    ensures start < |path| && IsCycle(par, path[start..]) && path[start..][0] == id
  {
    assert path[..|path|] == path;
  }

  lemma {:induction false} PathReaches(par: Parents, path: seq<Id>, i: nat, j: nat)
    requires IsPath(par, path) && i <= j < |path|
    ensures Reaches(par, path[i], path[j])
    decreases j - i
  {
    ReachesParent(par, path[i], path[j]);
    if i >= j {
    } else {
      PathReaches(par, path, i + 1, j);
    }
  }

  lemma ParentVisited(byID: map<Id, Task>, state: Colours, out: seq<Task>, cycles: seq<seq<Id>>, path: seq<Id>, id: Id)
    requires Colouring(byID, state, out, path + [id]) && Reported(ExistingParents(byID), state, cycles)
    requires id in ExistingParents(byID) && ExistingParents(byID)[id] in state
    requires OnCycle(ExistingParents(byID), ExistingParents(byID)[id]) ==> Named(cycles, ExistingParents(byID)[id])
    ensures OnCycle(ExistingParents(byID), id) ==> Named(cycles, id)
    ensures OnCycle(ExistingParents(byID), id) || state[ExistingParents(byID)[id]] == Finished
  {
    var par := ExistingParents(byID);
    var p := par[id];
    if OnCycle(par, id) {
      ParentOnCycle(par, id);
      var f :| 0 <= f < |cycles| && p in cycles[f];
      NamedWithParent(par, cycles[f], id);
    }
    if state[p] == Visiting {
      var full := path + [id];
      assert p in full;
      var i :| 0 <= i < |full| && full[i] == p;
      PathReaches(par, full, i, |full| - 1);
      ParentReachingBackIsCycle(par, id);
    }
  }

  lemma FinishNode(byID: map<Id, Task>, state: Colours, out: seq<Task>, cycles: seq<seq<Id>>, path: seq<Id>, id: Id)
    requires Colouring(byID, state, out, path + [id]) && Reported(ExistingParents(byID), state, cycles)
    requires EmittedParentsFirst(ExistingParents(byID), out)
    requires OnCycle(ExistingParents(byID), id) ==> Named(cycles, id)
    requires id in ExistingParents(byID) ==>
               ExistingParents(byID)[id] in state
               && (OnCycle(ExistingParents(byID), id) || state[ExistingParents(byID)[id]] == Finished)
    ensures id in byID
    ensures Colouring(byID, state[id := Finished], out + [byID[id]], path)
    ensures EmittedParentsFirst(ExistingParents(byID), out + [byID[id]])
    ensures Reported(ExistingParents(byID), state[id := Finished], cycles)
  {
    var full := path + [id];
    assert full[|path|] == id;
    assert id in full;
    assert state[id] == Visiting && id in byID;
    FinishColouring(byID, state, out, path, id);
    FinishEmitted(byID, state, out, path, id);
  }

  lemma FinishEmitted(byID: map<Id, Task>, state: Colours, out: seq<Task>, path: seq<Id>, id: Id)
    requires Colouring(byID, state, out, path + [id]) && id in byID
    requires EmittedParentsFirst(ExistingParents(byID), out)
    requires id in ExistingParents(byID) ==>
               ExistingParents(byID)[id] in state
               && (OnCycle(ExistingParents(byID), id) || state[ExistingParents(byID)[id]] == Finished)
    ensures EmittedParentsFirst(ExistingParents(byID), out + [byID[id]])
  {
    hide ExistingParents, OnCycle, IsPath;
    var par, o := ExistingParents(byID), out + [byID[id]];
    forall i | 0 <= i < |o| && o[i].id in par && !OnCycle(par, o[i].id)
      ensures exists j :: 0 <= j < i && o[j].id == par[o[i].id]
    {
      if i < |out| {
        var j :| 0 <= j < i && out[j].id == par[out[i].id];
        assert o[j] == out[j];
      } else {
        var j :| 0 <= j < |out| && out[j].id == par[id];
        assert o[j] == out[j];
      }
    }
  }

  lemma FinishColouring(byID: map<Id, Task>, state: Colours, out: seq<Task>, path: seq<Id>, id: Id)
    requires Colouring(byID, state, out, path + [id]) && id in state && state[id] == Visiting && id in byID
    ensures Colouring(byID, state[id := Finished], out + [byID[id]], path)
  {
    hide ExistingParents;
    var full, s, o := path + [id], state[id := Finished], out + [byID[id]];
    assert full[|path|] == id;
    assert forall i :: 0 <= i < |path| ==> full[i] == path[i];
    FinishedAreEmitted(state, s, out, byID[id]);
    forall x ensures x in path <==> x in s && s[x] == Visiting {
      assert x in full <==> x in path || x == id;
    }
  }

  lemma FinishedAreEmitted(state: Colours, after: Colours, out: seq<Task>, t: Task)
    requires after == state[t.id := Finished]
    requires forall x :: x in state && state[x] == Finished ==> exists i :: 0 <= i < |out| && out[i].id == x
    ensures forall x :: x in after && after[x] == Finished ==>
            exists i :: 0 <= i < |out + [t]| && (out + [t])[i].id == x
  {
    var o := out + [t];
    forall x | x in after && after[x] == Finished ensures exists i :: 0 <= i < |o| && o[i].id == x {
      if x == t.id {
        assert o[|out|].id == x;
      } else {
        var i :| 0 <= i < |out| && out[i].id == x;
        assert o[i] == out[i];
      }
    }
  }

  /** The ids to order: each once, and all that are indexed. */
  ghost predicate Indexed(order: seq<Id>, byID: map<Id, Task>) {
    && Keyed(byID)
    && Distinct(order)
    && forall x :: x in order <==> x in byID
  }

  /** Existing parents already come before their children. */
  predicate OrderParentsFirst(order: seq<Id>, par: Parents) {
    forall i :: 0 <= i < |order| && order[i] in par ==> par[order[i]] in order[..i]
  }

  ghost predicate EmitsEachOnce(order: seq<Id>, byID: map<Id, Task>, out: seq<Task>) {
    && (forall i :: 0 <= i < |out| ==> out[i].id in byID && out[i] == byID[out[i].id])
    && (forall i, j :: 0 <= i < j < |out| ==> out[i].id != out[j].id)
    && (forall x :: x in order ==> exists i :: 0 <= i < |out| && out[i].id == x)
    && |out| == |order|
  }

  /** One finding per distinct cycle, naming exactly its members. */
  ghost predicate NamesEachCycleOnce(par: Parents, cycles: seq<seq<Id>>) {
    && (forall f :: 0 <= f < |cycles| ==> IsCycle(par, cycles[f]))
    && (forall f, g, x :: 0 <= f < g < |cycles| && x in cycles[f] ==> x !in cycles[g])
    && (forall x :: OnCycle(par, x) <==> Named(cycles, x))
  }

  method TopoOrder(order: seq<Id>, byID: map<Id, Task>) returns (out: seq<Task>, cycles: seq<seq<Id>>)
    requires Indexed(order, byID)
    ensures EmitsEachOnce(order, byID, out)
    ensures EmittedParentsFirst(ExistingParents(byID), out)
    ensures NamesEachCycleOnce(ExistingParents(byID), cycles)
    ensures OrderParentsFirst(order, ExistingParents(byID)) ==>
            out == seq(|order|, i requires 0 <= i < |order| => byID[order[i]])
  {
    var o := new Orderer(byID);
    hide Colouring, EmittedParentsFirst, Reported, OnCycle, Named, ExistingParents, EmitsEachOnce, NamesEachCycleOnce;
    NothingVisited(byID);
    for k := 0 to |order|
      invariant o.byID == byID && o.Valid([]) && NamedAreFinished(o.state, o.cycles)
      invariant forall i :: 0 <= i < k ==> order[i] in o.state && o.state[order[i]] == Finished
      invariant OrderParentsFirst(order, ExistingParents(byID)) ==>
                  && o.out == seq(k, i requires 0 <= i < k => byID[order[i]])
                  && forall x :: x in o.state ==> x in order[..k]
    {
      assert order[k] in byID;
      assert order[k] !in order[..k];
      o.Visit(order[k], []);
      TopLevelFinished(byID, o.state, o.out, o.cycles, order[k]);
      assert order[..k + 1] == order[..k] + [order[k]];
    }
    out, cycles := o.out, o.cycles;
    assert order[..|order|] == order;
    AllVisited(order, byID, o.state, out, cycles);
  }

  lemma NothingVisited(byID: map<Id, Task>)
    requires Keyed(byID)
    ensures Colouring(byID, map[], [], []) && EmittedParentsFirst(ExistingParents(byID), [])
    ensures Reported(ExistingParents(byID), map[], [])
  {
  }

  lemma TopLevelFinished(byID: map<Id, Task>, state: Colours, out: seq<Task>, cycles: seq<seq<Id>>, id: Id)
    requires Colouring(byID, state, out, []) && NamedAreSeen(state, cycles)
    ensures NamedAreFinished(state, cycles)
    ensures id in state ==> state[id] == Finished
  {
    assert forall x :: x in state ==> x !in [];
  }

  lemma AllVisited(order: seq<Id>, byID: map<Id, Task>, state: Colours, out: seq<Task>, cycles: seq<seq<Id>>)
    requires Indexed(order, byID) && Colouring(byID, state, out, []) && Reported(ExistingParents(byID), state, cycles)
    requires forall i :: 0 <= i < |order| ==> order[i] in state && state[order[i]] == Finished
    ensures EmitsEachOnce(order, byID, out) && NamesEachCycleOnce(ExistingParents(byID), cycles)
  {
    AllEmitted(order, byID, state, out);
    var par := ExistingParents(byID);
    hide Colouring;
    forall x ensures OnCycle(par, x) <==> Named(cycles, x) {
      if OnCycle(par, x) { ParentOnCycle(par, x); assert x in order; }
      hide OnCycle;
      if Named(cycles, x) {
        var f :| 0 <= f < |cycles| && x in cycles[f];
        NamedOnCycle(par, cycles[f], x);
      }
    }
  }

  lemma AllEmitted(order: seq<Id>, byID: map<Id, Task>, state: Colours, out: seq<Task>)
    requires Indexed(order, byID) && Colouring(byID, state, out, [])
    requires forall i :: 0 <= i < |order| ==> order[i] in state && state[order[i]] == Finished
    ensures EmitsEachOnce(order, byID, out)
  {
    hide ExistingParents, IsPath, Distinct;
    assert (forall i, j :: 0 <= i < j < |out| ==> out[i].id != out[j].id)
           && (forall i :: 0 <= i < |out| ==> out[i].id in byID);
    assert forall x :: x in order ==> x in state && state[x] == Finished;
    hide Colouring;
    SameLength(order, byID.Keys, out);
  }

  lemma SameLength(order: seq<Id>, ids: set<Id>, out: seq<Task>)
    requires Distinct(order) && (forall x :: x in order <==> x in ids)
    requires forall i, j :: 0 <= i < j < |out| ==> out[i].id != out[j].id
    requires forall i :: 0 <= i < |out| ==> out[i].id in ids
    requires forall x :: x in order ==> exists i :: 0 <= i < |out| && out[i].id == x
    ensures |out| == |order|
  {
    var emitted := seq(|out|, i requires 0 <= i < |out| => out[i].id);
    var o, e := set y | y in order, set y | y in emitted;
    forall x | x in emitted ensures x in o { }
    DistinctFits(emitted, o);
    forall x | x in order ensures x in e {
      var i :| 0 <= i < |out| && out[i].id == x;
      assert emitted[i] == x;
    }
    DistinctFits(order, e);
    SetOfSeq(emitted);
    SetOfSeq(order);
  }

  lemma {:induction false} SetOfSeq(s: seq<Id>)
    ensures |set x | x in s| <= |s|
  {
    if |s| == 0 {
    } else {
      SetOfSeq(s[1..]);
      assert (set x | x in s) == {s[0]} + (set x | x in s[1..]);
    }
  }
}
