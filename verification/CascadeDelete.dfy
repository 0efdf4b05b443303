/** DeleteTaskCascade: the subtree breadth-first, deleted children first
    (internal/service/tasks.go). */
module CascadeDelete {
  import opened Base
  import opened Forest
  import opened Model
  import opened Listing
  import opened TaskInvariants

  /** The subtree of root: root and everything below it. */
  ghost function Subtree(tasks: map<Id, Task>, root: Id): set<Id> {
    set x | x in tasks && Reaches(ParentsOf(tasks), x, root)
  }

  /** The children of x in list order. */
  function Children(tasks: map<Id, Task>, x: Id): seq<Id>
    requires Keyed(tasks)
  {
    Listed(tasks, ChildSet(tasks, x))
  }

  function ChildSet(tasks: map<Id, Task>, x: Id): set<Id> {
    set y | y in tasks && tasks[y].parentId == Some(x)
  }

  function AllChildren(tasks: map<Id, Task>, s: seq<Id>): seq<Id>
    requires Keyed(tasks)
  {
    if |s| == 0 then [] else AllChildren(tasks, s[..|s| - 1]) + Children(tasks, s[|s| - 1])
  }

  /** The given rows and their timelines. */
  function DocsOf(db: DB, ids: seq<Id>): seq<Doc>
    requires forall x :: x in ids ==> x in db.tasks
  {
    seq(|ids|, i requires 0 <= i < |ids| => Doc(db.tasks[ids[i]], LogOf(db.log, ids[i])))
  }

  function LogWithout(log: seq<Entry>, ids: set<Id>): seq<Entry> {
    if |log| == 0 then []
    else LogWithout(log[..|log| - 1], ids) + (if log[|log| - 1].taskId in ids then [] else [log[|log| - 1]])
  }

  /** task_activity rows go with their task (ON DELETE CASCADE). */
  function Without(db: DB, ids: set<Id>): DB {
    db.(tasks := db.tasks - ids, log := LogWithout(db.log, ids))
  }

  /** parent_id is ON DELETE RESTRICT: another row still points here. */
  predicate HasChild(tasks: map<Id, Task>, x: Id) {
    exists y :: y in tasks && y != x && tasks[y].parentId == Some(x)
  }

  /** What the breadth-first reading yields: no repetition, the root first, every
      other row after its parent, and no child left out. */
  predicate Collected(tasks: map<Id, Task>, root: Id, subtree: seq<Id>) {
    && Distinct(subtree)
    && |subtree| > 0 && subtree[0] == root
    && (forall x :: x in subtree ==> x in tasks)
    && (forall i :: 0 < i < |subtree| ==>
        tasks[subtree[i]].parentId.Some? && tasks[subtree[i]].parentId.value in subtree[..i])
    && (forall y :: y in tasks && tasks[y].parentId.Some? && tasks[y].parentId.value in subtree ==> y in subtree)
  }

  /** In an acyclic forest the order satisfies the breadth-first equation. */
  predicate BreadthFirst(tasks: map<Id, Task>, root: Id, subtree: seq<Id>)
    requires Keyed(tasks)
  {
    subtree == [root] + AllChildren(tasks, subtree)
  }

  method CollectSubtree(tasks: map<Id, Task>, root: Id) returns (subtree: seq<Id>)
    requires Keyed(tasks) && root in tasks
    ensures Collected(tasks, root, subtree)
    ensures Acyclic(ParentsOf(tasks)) ==> BreadthFirst(tasks, root, subtree)
  {
    hide *;
    subtree := [root];
    var visited := {root};
    var queue := [root];
    ghost var done: seq<Id> := [];
    GrowingStarts(tasks, root);
    while |queue| > 0
      invariant subtree == done + queue
      invariant visited == Members(subtree) && visited <= tasks.Keys
      invariant Growing(tasks, root, subtree, done, |done|) && InOrder(tasks, root, subtree, done)
      decreases tasks.Keys - visited, |queue|
    {
      var cur := queue[0];
      queue := queue[1..];
      ghost var before, visited0 := subtree, visited;
      assert subtree[|done|] == cur;
      var kids := Children(tasks, cur);
      KidsFacts(tasks, root, subtree, done, cur);
      for k := 0 to |kids|
        invariant subtree == done + [cur] + queue
        invariant visited == Members(subtree) && visited0 <= visited <= tasks.Keys
        invariant Growing(tasks, root, subtree, done, |done| + 1) && KidsTaken(tasks, before, subtree, kids, k)
        invariant visited == visited0 ==> |queue| == |before| - |done| - 1
      {
        var kid := kids[k];
        KidStep(tasks, root, before, subtree, done, cur, kids, k);
        if kid in visited {
          continue;
        }
        visited := visited + {kid};
        subtree := subtree + [kid];
        queue := queue + [kid];
      }
      FinishNode(tasks, root, before, subtree, done, cur, queue);
      done := done + [cur];
    }
    assert subtree == done;
    GrowingEnds(tasks, root, subtree);
  }

  function Members(s: seq<Id>): set<Id> {
    set x | x in s
  }

  ghost predicate InOrder(tasks: map<Id, Task>, root: Id, subtree: seq<Id>, done: seq<Id>)
    requires Keyed(tasks)
  {
    Acyclic(ParentsOf(tasks)) ==> subtree == [root] + AllChildren(tasks, done)
  }

  /** The first k kids are in the subtree; in an acyclic forest they were just
      appended, and the others are still new. */
  ghost predicate KidsTaken(tasks: map<Id, Task>, before: seq<Id>, subtree: seq<Id>, kids: seq<Id>, k: nat) {
    && k <= |kids|
    && (forall i :: 0 <= i < k ==> kids[i] in subtree)
    && (Acyclic(ParentsOf(tasks)) ==>
        subtree == before + kids[..k] && forall i :: k <= i < |kids| ==> kids[i] !in subtree)
  }

  lemma KidStep(tasks: map<Id, Task>, root: Id, before: seq<Id>, subtree: seq<Id>, done: seq<Id>, cur: Id,
                kids: seq<Id>, k: nat)
    requires Keyed(tasks) && k < |kids| && kids == Children(tasks, cur)
    requires Growing(tasks, root, subtree, done, |done| + 1) && KidsTaken(tasks, before, subtree, kids, k)
    requires |done| < |subtree| && cur == subtree[|done|]
    ensures kids[k] in Members(subtree) ==> KidsTaken(tasks, before, subtree, kids, k + 1)
    ensures kids[k] !in Members(subtree) ==>
              && KidsTaken(tasks, before, subtree + [kids[k]], kids, k + 1)
              && Growing(tasks, root, subtree + [kids[k]], done, |done| + 1)
              && Members(subtree + [kids[k]]) == Members(subtree) + {kids[k]}
              && kids[k] in tasks
  {
    hide Acyclic, ParentsOf, Growing;
    assert kids[..k + 1] == kids[..k] + [kids[k]];
    ListedIsTheSet(tasks, ChildSet(tasks, cur));
    assert kids[k] in kids;
    if kids[k] !in subtree {
      GrowByKid(tasks, root, subtree, done, cur, kids[k]);
    }
  }

  lemma GrowingStarts(tasks: map<Id, Task>, root: Id)
    requires Keyed(tasks) && root in tasks
    ensures Growing(tasks, root, [root], [], 0) && InOrder(tasks, root, [root], [])
    ensures Members([root]) == {root} && {root} <= tasks.Keys && [root] == [] + [root]
  {
  }

  lemma GrowingEnds(tasks: map<Id, Task>, root: Id, subtree: seq<Id>)
    requires Keyed(tasks) && Growing(tasks, root, subtree, subtree, |subtree|) && InOrder(tasks, root, subtree, subtree)
    ensures Collected(tasks, root, subtree)
    ensures Acyclic(ParentsOf(tasks)) ==> BreadthFirst(tasks, root, subtree)
  {
    GrowingParents(tasks, root, subtree, subtree, |subtree|);
  }

  lemma GrowingParents(tasks: map<Id, Task>, root: Id, subtree: seq<Id>, done: seq<Id>, bound: nat)
    requires Growing(tasks, root, subtree, done, bound)
    ensures forall i :: 0 < i < |subtree| ==>
              && subtree[i] in tasks && tasks[subtree[i]].parentId.Some?
              && tasks[subtree[i]].parentId.value in subtree[..i]
              && tasks[subtree[i]].parentId.value in subtree[..bound]
  {
    forall i | 0 < i < |subtree|
      ensures && subtree[i] in tasks && tasks[subtree[i]].parentId.Some?
              && tasks[subtree[i]].parentId.value in subtree[..i]
              && tasks[subtree[i]].parentId.value in subtree[..bound]
    {
      assert ParentWithin(tasks, subtree, i, bound);
    }
  }

  lemma KidsFacts(tasks: map<Id, Task>, root: Id, subtree: seq<Id>, done: seq<Id>, cur: Id)
    requires Keyed(tasks) && Growing(tasks, root, subtree, done, |done|)
    requires |done| < |subtree| && cur == subtree[|done|]
    ensures Growing(tasks, root, subtree, done, |done| + 1)
    ensures KidsTaken(tasks, subtree, subtree, Children(tasks, cur), 0)
  {
    var kids := Children(tasks, cur);
    ListedIsTheSet(tasks, ChildSet(tasks, cur));
    WidenBound(tasks, root, subtree, done);
    assert kids[..0] == [] && subtree + [] == subtree;
    if Acyclic(ParentsOf(tasks)) {
      KidsAreNew(tasks, root, subtree, done, cur);
      forall i | 0 <= i < |kids| ensures kids[i] !in subtree { assert kids[i] in kids; }
    }
  }

  lemma WidenBound(tasks: map<Id, Task>, root: Id, subtree: seq<Id>, done: seq<Id>)
    requires Growing(tasks, root, subtree, done, |done|) && |done| < |subtree|
    ensures Growing(tasks, root, subtree, done, |done| + 1)
  {
    var wide := |done| + 1;
    GrowingParents(tasks, root, subtree, done, |done|);
    assert subtree[..wide] == subtree[..|done|] + [subtree[|done|]];
    forall i | 0 < i < |subtree| ensures ParentWithin(tasks, subtree, i, wide) { }
  }

  predicate ParentWithin(tasks: map<Id, Task>, s: seq<Id>, i: nat, bound: nat) {
    && i < |s| && bound <= |s| && s[i] in tasks
    && tasks[s[i]].parentId.Some?
    && tasks[s[i]].parentId.value in s[..i]
    && tasks[s[i]].parentId.value in s[..bound]
  }

  /** The loop's view: the rows in done have had their children read, and every
      row but the root has its parent among the first bound rows. */
  predicate Growing(tasks: map<Id, Task>, root: Id, subtree: seq<Id>, done: seq<Id>, bound: nat) {
    && Distinct(subtree)
    && |subtree| > 0 && subtree[0] == root
    && (forall x :: x in subtree ==> x in tasks)
    && bound <= |subtree| && |done| <= |subtree| && done == subtree[..|done|]
    && (forall i :: 0 < i < |subtree| ==> ParentWithin(tasks, subtree, i, bound))
    && (forall y :: y in tasks && tasks[y].parentId.Some? && tasks[y].parentId.value in done ==> y in subtree)
  }

  lemma ParentOfRow(tasks: map<Id, Task>, x: Id)
    requires x in tasks
    ensures x in ParentsOf(tasks) <==> tasks[x].parentId.Some?
    ensures x in ParentsOf(tasks) ==> ParentsOf(tasks)[x] == tasks[x].parentId.value
  {
  }

  lemma {:induction false} CollectedReachesRoot(tasks: map<Id, Task>, root: Id, subtree: seq<Id>, i: nat)
    requires i < |subtree| && subtree[0] == root && (forall x :: x in subtree ==> x in tasks)
    requires forall i :: 0 < i < |subtree| ==>
             tasks[subtree[i]].parentId.Some? && tasks[subtree[i]].parentId.value in subtree[..i]
    ensures Reaches(ParentsOf(tasks), subtree[i], root)
    decreases i
  {
    hide Reaches, ParentsOf;
    var x := subtree[i];
    assert x in subtree;
    ReachesParent(ParentsOf(tasks), x, root);
    ParentOfRow(tasks, x);
    if i == 0 {
    } else {
      var j :| 0 <= j < i && subtree[j] == tasks[x].parentId.value;
      CollectedReachesRoot(tasks, root, subtree, j);
    }
  }

  /** In an acyclic forest no child is met twice, so the visited set never bites. */
  lemma KidsAreNew(tasks: map<Id, Task>, root: Id, subtree: seq<Id>, done: seq<Id>, cur: Id)
    requires Keyed(tasks) && Acyclic(ParentsOf(tasks)) && Growing(tasks, root, subtree, done, |done|)
    requires |done| < |subtree| && cur == subtree[|done|]
    ensures forall kid :: kid in ChildSet(tasks, cur) ==> kid !in subtree
  {
    hide Acyclic, Reaches, ParentsOf;
    GrowingParents(tasks, root, subtree, done, |done|);
    forall kid | kid in ChildSet(tasks, cur) ensures kid !in subtree {
      if kid in subtree {
        var i :| 0 <= i < |subtree| && subtree[i] == kid;
        if i == 0 {
          CollectedReachesRoot(tasks, root, subtree, |done|);
          ParentOfRow(tasks, root);
          NoCycleAt(ParentsOf(tasks), root);
        }
      }
    }
  }

  lemma NoCycleAt(par: Parents, x: Id)
    requires Acyclic(par) && x in par
    ensures !Reaches(par, par[x], x)
  {
    if Reaches(par, par[x], x) { ParentReachingBackIsCycle(par, x); }
  }

  lemma GrowByKid(tasks: map<Id, Task>, root: Id, subtree: seq<Id>, done: seq<Id>, cur: Id, kid: Id)
    requires Growing(tasks, root, subtree, done, |done| + 1) && |done| < |subtree| && cur == subtree[|done|]
    requires kid in ChildSet(tasks, cur) && kid !in subtree
    ensures Growing(tasks, root, subtree + [kid], done, |done| + 1)
  {
    var s, n := subtree + [kid], |done| + 1;
    forall i | 0 < i < |s| ensures ParentWithin(tasks, s, i, n) {
      if i < |subtree| { assert ParentWithin(tasks, subtree, i, n); }
      KidParent(tasks, subtree, kid, |done|, i);
    }
    assert s[..|done|] == subtree[..|done|];
    hide ChildSet, ParentWithin;
    assert Distinct(s);
  }

  lemma KidParent(tasks: map<Id, Task>, subtree: seq<Id>, kid: Id, n: nat, i: nat)
    requires 0 < i <= |subtree| && n < |subtree|
    requires (forall x :: x in subtree ==> x in tasks) && kid in ChildSet(tasks, subtree[n])
    requires i < |subtree| ==> ParentWithin(tasks, subtree, i, n + 1)
    ensures ParentWithin(tasks, subtree + [kid], i, n + 1)
  {
    var s := subtree + [kid];
    assert s[..n + 1] == subtree[..n + 1];
    if i < |subtree| {
      assert s[i] == subtree[i] && s[..i] == subtree[..i];
    } else {
      assert s[..i] == subtree;
      assert subtree[..n + 1][n] == subtree[n];
    }
  }

  lemma FinishNode(tasks: map<Id, Task>, root: Id, before: seq<Id>, subtree: seq<Id>, done: seq<Id>, cur: Id,
                   queue: seq<Id>)
    requires Keyed(tasks) && Growing(tasks, root, subtree, done, |done| + 1) && subtree == done + [cur] + queue
    requires KidsTaken(tasks, before, subtree, Children(tasks, cur), |Children(tasks, cur)|)
    requires InOrder(tasks, root, before, done)
    ensures Growing(tasks, root, subtree, done + [cur], |done + [cur]|)
    ensures InOrder(tasks, root, subtree, done + [cur])
  {
    FinishOrder(tasks, root, before, subtree, done, cur);
    FinishClosed(tasks, before, subtree, done, cur);
    hide Acyclic, ParentsOf, Children, KidsTaken, InOrder, ParentWithin;
    assert (done + [cur])[..|done|] == done;
    forall y | y in tasks && tasks[y].parentId.Some? && tasks[y].parentId.value in done + [cur] ensures y in subtree {
      if tasks[y].parentId.value != cur { assert tasks[y].parentId.value in done; }
    }
    assert done + [cur] == subtree[..|done| + 1];
  }

  lemma FinishOrder(tasks: map<Id, Task>, root: Id, before: seq<Id>, subtree: seq<Id>, done: seq<Id>, cur: Id)
    requires Keyed(tasks) && InOrder(tasks, root, before, done)
    requires KidsTaken(tasks, before, subtree, Children(tasks, cur), |Children(tasks, cur)|)
    ensures InOrder(tasks, root, subtree, done + [cur])
  {
    hide Acyclic, ParentsOf, Children;
    var kids := Children(tasks, cur);
    assert kids[..|kids|] == kids && (done + [cur])[..|done|] == done;
    assert ([root] + AllChildren(tasks, done)) + kids == [root] + (AllChildren(tasks, done) + kids);
  }

  lemma FinishClosed(tasks: map<Id, Task>, before: seq<Id>, subtree: seq<Id>, done: seq<Id>, cur: Id)
    requires Keyed(tasks) && KidsTaken(tasks, before, subtree, Children(tasks, cur), |Children(tasks, cur)|)
    ensures forall y :: y in tasks && tasks[y].parentId == Some(cur) ==> y in subtree
  {
    hide Acyclic, ParentsOf;
    var kids := Children(tasks, cur);
    ListedIsTheSet(tasks, ChildSet(tasks, cur));
    forall y | y in tasks && tasks[y].parentId == Some(cur) ensures y in subtree {
      assert y in ChildSet(tasks, cur);
      var i :| 0 <= i < |kids| && kids[i] == y;
    }
  }
}
