/** List reads: rows in "created_at ASC, id ASC" order. */
module Listing {
  import opened Base
  import opened Forest
  import opened Model

  predicate Before(a: Task, b: Task) {
    a.createdAt < b.createdAt || (a.createdAt == b.createdAt && StringLess(a.id, b.id))
  }

  predicate IsFirst(tasks: map<Id, Task>, ids: set<Id>, x: Id)
    requires ids <= tasks.Keys
  {
    x in ids && forall y :: y in ids && y != x ==> Before(tasks[x], tasks[y])
  }

  /** The first of the given rows; (created_at, id) leaves no ties. */
  function FirstOf(tasks: map<Id, Task>, ids: set<Id>): (x: Id)
    requires Keyed(tasks) && ids <= tasks.Keys && ids != {}
    ensures IsFirst(tasks, ids, x)
  {
    FirstExists(tasks, ids);
    FirstIsUnique(tasks, ids);
    var x :| x in ids && IsFirst(tasks, ids, x);
    x
  }

  lemma {:induction false} FirstExists(tasks: map<Id, Task>, ids: set<Id>)
    requires Keyed(tasks) && ids <= tasks.Keys && ids != {}
    ensures exists x :: IsFirst(tasks, ids, x)
    decreases ids
  {
    hide StringLess;
    var z :| z in ids;
    if ids == {z} {
      assert IsFirst(tasks, ids, z);
    } else {
      var rest := ids - {z};
      FirstExists(tasks, rest);
      var x :| IsFirst(tasks, rest, x);
      StringLessTotal(x, z);
      if Before(tasks[x], tasks[z]) {
        assert IsFirst(tasks, ids, x);
      } else {
        forall y | y in ids && y != z ensures Before(tasks[z], tasks[y]) {
          if y != x && StringLess(z, x) && StringLess(x, y) { StringLessTransitive(z, x, y); }
        }
        assert IsFirst(tasks, ids, z);
      }
    }
  }

  lemma FirstIsUnique(tasks: map<Id, Task>, ids: set<Id>)
    requires Keyed(tasks) && ids <= tasks.Keys
    ensures forall x, z :: IsFirst(tasks, ids, x) && IsFirst(tasks, ids, z) ==> x == z
  {
    hide StringLess;
    forall x, z | x in ids && z in ids && x != z ensures !(Before(tasks[x], tasks[z]) && Before(tasks[z], tasks[x])) {
      if StringLess(x, z) { StringLessAsymmetric(x, z); }
    }
  }

  function Listed(tasks: map<Id, Task>, ids: set<Id>): seq<Id>
    requires Keyed(tasks) && ids <= tasks.Keys
    decreases ids
  {
    if ids == {} then []
    else
      var x := FirstOf(tasks, ids);
      [x] + Listed(tasks, ids - {x})
  }

  lemma {:induction false} ListedIsTheSet(tasks: map<Id, Task>, ids: set<Id>)
    requires Keyed(tasks) && ids <= tasks.Keys
    ensures Distinct(Listed(tasks, ids))
    ensures forall x :: x in Listed(tasks, ids) <==> x in ids
    decreases ids
  {
    if ids == {} {
    } else {
      var x := FirstOf(tasks, ids);
      ListedIsTheSet(tasks, ids - {x});
      assert forall y :: y in [x] + Listed(tasks, ids - {x}) <==> y == x || y in Listed(tasks, ids - {x});
    }
  }

  /** Rows come out in strictly increasing (created_at, id) order. */
  lemma {:induction false} ListedIsOrdered(tasks: map<Id, Task>, ids: set<Id>, i: nat, j: nat)
    requires Keyed(tasks) && ids <= tasks.Keys && i < j < |Listed(tasks, ids)|
    ensures Listed(tasks, ids)[i] in tasks && Listed(tasks, ids)[j] in tasks
    ensures Before(tasks[Listed(tasks, ids)[i]], tasks[Listed(tasks, ids)[j]])
    decreases ids
  {
    var x := FirstOf(tasks, ids);
    ListedIsTheSet(tasks, ids - {x});
    if i == 0 {
      assert Listed(tasks, ids - {x})[j - 1] in Listed(tasks, ids - {x});
    } else {
      ListedIsOrdered(tasks, ids - {x}, i - 1, j - 1);
    }
  }
}
