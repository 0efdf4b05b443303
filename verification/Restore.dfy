/** RestoreTasks: what re-inserting a payload does, and that it undoes a cascade
    delete (internal/service/tasks.go). */
module Restore {
  import opened Base
  import opened Forest
  import opened Model
  import opened Tags
  import opened CascadeDelete
  import opened TaskInvariants
  import RestoreOrder

  // ---- the operation ----

  predicate TagsNormalise(docs: seq<Doc>, lower: Fold) {
    forall i :: 0 <= i < |docs| ==> Normalized(docs[i].task.tags, lower).Some?
  }

  function WithNormalTags(docs: seq<Doc>, lower: Fold): seq<Doc>
    requires TagsNormalise(docs, lower)
  {
    seq(|docs|, i requires 0 <= i < |docs| => docs[i].(task := docs[i].task.(tags := Normalized(docs[i].task.tags,
            lower).value)))
  }

  /** validateRestoreRefs for one document. */
  predicate RefsResolve(db: DB, payload: set<Id>, t: Task) {
    && (t.parentId.Some? ==> t.parentId.value in payload || t.parentId.value in db.tasks)
    && (t.teamId.Some? ==> t.teamId.value in db.teams)
    && (t.assigneeId.Some? ==> t.assigneeId.value in db.members)
    && (t.ownerId.Some? ==> t.ownerId.value in db.members)
  }

  /** ON CONFLICT DO NOTHING: the id or the (series, period) slot is taken. */
  predicate Conflicts(db: DB, t: Task) {
    t.id in db.tasks || !SeriesSlotFree(db.tasks, t)
  }

  /** An entry goes under its task; an author who is gone becomes NULL. */
  function Replayed(db: DB, taskId: Id, e: Entry): Entry {
    e.(taskId := taskId, author := if e.author.Some? && e.author.value !in db.members then None else e.author)
  }

  /** NewID: the id drawn for the entry of a task with this many entries still to replay. */
  type Draw = (Id, nat) -> Id

  function Identified(e: Entry, id: Id): Entry {
    if e.id == "" then e.(id := id) else e
  }

  /** The timeline rows of one restored task, in payload order; an entry without an id
      draws one, a known id is skipped. */
  function WithEntries(db: DB, taskId: Id, acts: seq<Entry>, draw: Draw): Result<DB, ApiError>
    decreases |acts|
  {
    if |acts| == 0 then Ok(db)
    else
      var e := Identified(acts[0], draw(taskId, |acts|));
      if EntryIdTaken(db.log, e.id) then WithEntries(db, taskId, acts[1..], draw)
      else if e.kind.OtherKind? then Err(ConstraintViolation)
      else WithEntries(db.(log := db.log + [Replayed(db, taskId, e)]), taskId, acts[1..], draw)
  }

  datatype Restoring = Restoring(db: DB, inserted: nat)

  function WithDoc(r: Restoring, doc: Doc, draw: Draw): Result<Restoring, ApiError> {
    if Conflicts(r.db, doc.task) then Ok(r)
    else if !RowFits(r.db, doc.task) then Err(ConstraintViolation)
    else
      match WithEntries(r.db.(tasks := r.db.tasks[doc.task.id := doc.task]), doc.task.id, doc.activity, draw)
      case Err(e) => Err(e)
      case Ok(db) => Ok(Restoring(db, r.inserted + 1))
  }

  function WithDocs(r: Restoring, docs: seq<Doc>, draw: Draw): Result<Restoring, ApiError>
    decreases |docs|
  {
    if |docs| == 0 then Ok(r)
    else match WithDoc(r, docs[0], draw)
      case Err(e) => Err(e)
      case Ok(next) => WithDocs(next, docs[1..], draw)
  }

  function Restored(db: DB, docs: seq<Doc>, lower: Fold, draw: Draw): Result<Restoring, ApiError> {
    if |docs| == 0 then Ok(Restoring(db, 0))
    else match RestoreOrder.Ordered(docs)
      case Err(e) => Err(e)
      case Ok(ordered) =>
        if !TagsNormalise(ordered, lower) then Err(InvalidTags)
        else
          var clean := WithNormalTags(ordered, lower);
          if exists i :: 0 <= i < |clean| && !RefsResolve(db, RestoreOrder.IdsOf(clean), clean[i].task)
          then Err(RestoreMissingRef)
          else WithDocs(Restoring(db, 0), clean, draw)
  }

  // ---- deleting a subtree ----

  /** The collected rows are the subtree, nothing more and nothing less. */
  lemma CollectedIsSubtree(tasks: map<Id, Task>, root: Id, subtree: seq<Id>)
    requires Keyed(tasks) && root in tasks && Collected(tasks, root, subtree)
    ensures Members(subtree) == Subtree(tasks, root)
  {
    hide Reaches, ParentsOf;
    forall x | x in Members(subtree) ensures x in Subtree(tasks, root) {
      var i :| 0 <= i < |subtree| && subtree[i] == x;
      CollectedReachesRoot(tasks, root, subtree, i);
    }
    forall x | x in Subtree(tasks, root) ensures x in Members(subtree) {
      BelowIsCollected(tasks, root, subtree, x);
    }
  }

  lemma BelowIsCollected(tasks: map<Id, Task>, root: Id, subtree: seq<Id>, x: Id)
    requires root in tasks && Collected(tasks, root, subtree) && x in tasks && Reaches(ParentsOf(tasks), x, root)
    ensures x in subtree
  {
    CollectedClosed(tasks, root, subtree);
    hide Collected, ParentsOf;
    BelowClosedSet(ParentsOf(tasks), Members(subtree), x, root);
  }

  lemma CollectedClosed(tasks: map<Id, Task>, root: Id, subtree: seq<Id>)
    requires Collected(tasks, root, subtree)
    ensures root in Members(subtree)
    ensures forall y :: y in ParentsOf(tasks) && ParentsOf(tasks)[y] in Members(subtree) ==> y in Members(subtree)
  {
  }

  /** Children first: when a row's turn comes, no remaining row points to it. */
  lemma DeletedChildless(tasks: map<Id, Task>, root: Id, subtree: seq<Id>, i: nat)
    requires Keyed(tasks) && Acyclic(ParentsOf(tasks)) && Collected(tasks, root, subtree) && i < |subtree|
    ensures !HasChild(tasks - Members(subtree[i + 1..]), subtree[i])
  {
    hide Acyclic, Reaches, ParentsOf;
    var left := tasks - Members(subtree[i + 1..]);
    var x := subtree[i];
    assert x in subtree;
    forall y | y in left && y != x ensures tasks[y].parentId != Some(x) {
      if tasks[y].parentId == Some(x) {
        var j :| 0 <= j < |subtree| && subtree[j] == y;
        if j == 0 {
          CollectedReachesRoot(tasks, root, subtree, i);
          ParentOfRow(tasks, root);
          NoCycleAt(ParentsOf(tasks), root);
        } else {
          LaterThanParent(tasks, subtree, i, j);
        }
      }
    }
  }

  lemma LaterThanParent(tasks: map<Id, Task>, subtree: seq<Id>, i: nat, j: nat)
    requires Distinct(subtree) && i < |subtree| && 0 < j < |subtree| && subtree[i] in subtree[..j]
    ensures i < j
  {
  }

  // ---- timelines ----

  lemma {:induction false} LogOfWithout(log: seq<Entry>, ids: set<Id>, x: Id)
    ensures LogOf(LogWithout(log, ids), x) == if x in ids then [] else LogOf(log, x)
  {
    if |log| == 0 {
    } else {
      var init, last := log[..|log| - 1], log[|log| - 1];
      LogOfWithout(init, ids, x);
      LogOfAppend(LogWithout(init, ids), last, x);
      assert LogWithout(init, ids) + [] == LogWithout(init, ids);
      assert LogOf(init, x) + [] == LogOf(init, x);
    }
  }

  lemma LogOfAppend(log: seq<Entry>, e: Entry, x: Id)
    ensures LogOf(log + [e], x) == LogOf(log, x) + (if e.taskId == x then [e] else [])
  {
    assert (log + [e])[..|log|] == log;
  }

  lemma {:induction false} LogWithoutTwice(log: seq<Entry>, a: set<Id>, b: set<Id>)
    ensures LogWithout(LogWithout(log, a), b) == LogWithout(log, a + b)
  {
    if |log| == 0 {
    } else {
      var init, last := log[..|log| - 1], log[|log| - 1];
      LogWithoutTwice(init, a, b);
      assert LogWithout(init, a) + [] == LogWithout(init, a);
      if last.taskId !in a {
        assert (LogWithout(init, a) + [last])[..|LogWithout(init, a)|] == LogWithout(init, a);
      }
    }
  }

  lemma {:induction false} LogWithoutNone(log: seq<Entry>)
    ensures LogWithout(log, {}) == log
  {
    if |log| == 0 {
    } else {
      LogWithoutNone(log[..|log| - 1]);
      assert log == log[..|log| - 1] + [log[|log| - 1]];
    }
  }

  lemma {:induction false} LogOfConcat(a: seq<Entry>, b: seq<Entry>, x: Id)
    ensures LogOf(a + b, x) == LogOf(a, x) + LogOf(b, x)
  {
    if |b| == 0 {
      assert a + b == a && LogOf(a, x) + [] == LogOf(a, x);
    } else {
      var init, last := b[..|b| - 1], b[|b| - 1];
      LogOfConcat(a, init, x);
      assert a + b == (a + init) + [last];
      LogOfAppend(a + init, last, x);
      var more := if last.taskId == x then [last] else [];
      assert (LogOf(a, x) + LogOf(init, x)) + more == LogOf(a, x) + (LogOf(init, x) + more);
    }
  }

  /** A timeline holds entries of the log, of one task, in distinct positions. */
  lemma {:induction false} LogOfEntries(log: seq<Entry>, x: Id)
    ensures forall e :: e in LogOf(log, x) <==> e in log && e.taskId == x
  {
    if |log| == 0 {
    } else {
      LogOfEntries(log[..|log| - 1], x);
      assert log == log[..|log| - 1] + [log[|log| - 1]];
    }
  }

  lemma {:induction false} LogOfDistinct(log: seq<Entry>, x: Id)
    requires DistinctEntryIds(log)
    ensures DistinctEntryIds(LogOf(log, x))
  {
    if |log| == 0 {
    } else {
      var init, last := log[..|log| - 1], log[|log| - 1];
      LogOfDistinct(init, x);
      LogOfEntries(init, x);
      var l := LogOf(init, x);
      forall i | 0 <= i < |l| ensures l[i].id != last.id {
        assert l[i] in l;
        assert l[i] in init;
      }
    }
  }

  lemma {:induction false} LogOfSelf(log: seq<Entry>, y: Id, x: Id)
    ensures LogOf(LogOf(log, y), x) == if x == y then LogOf(log, x) else []
  {
    if |log| == 0 {
    } else {
      var init, last := log[..|log| - 1], log[|log| - 1];
      LogOfSelf(init, y, x);
      LogOfAppend(LogOf(init, y), last, x);
      assert LogOf(init, y) + [] == LogOf(init, y);
    }
  }

  lemma {:induction false} SegmentLog(rows: seq<Entry>, y: Id, x: Id)
    requires forall i :: 0 <= i < |rows| ==> rows[i].taskId == y
    ensures LogOf(rows, x) == if x == y then rows else []
  {
    if |rows| == 0 {
    } else {
      var init := rows[..|rows| - 1];
      SegmentLog(init, y, x);
      assert rows == init + [rows[|rows| - 1]];
    }
  }

  // ---- restoring what was deleted ----

  lemma PayloadIsParentsFirst(db: DB, root: Id, subtree: seq<Id>, lower: Fold)
    requires Good(db, lower) && root in db.tasks && Collected(db.tasks, root, subtree)
    ensures RestoreOrder.IdsOf(DocsOf(db, subtree)) == Members(subtree)
    ensures RestoreOrder.Ordered(DocsOf(db, subtree)) == Ok(DocsOf(db, subtree))
  {
    hide RowFits, GoodRow, Reaches, Acyclic, ParentsOf, RanksDescend, LogOf;
    var docs := DocsOf(db, subtree);
    PayloadIds(db, root, subtree);
    forall i | 0 <= i < |docs| && docs[i].task.parentId.Some? && docs[i].task.parentId.value in Members(subtree)
      ensures exists j :: 0 <= j < i && docs[j].task.id == docs[i].task.parentId.value
    {
      PayloadParent(db, root, subtree, i, lower);
    }
    RestoreOrder.OrderedKeepsParentsFirst(docs);
  }

  lemma PayloadIds(db: DB, root: Id, subtree: seq<Id>)
    requires Keyed(db.tasks) && Collected(db.tasks, root, subtree)
    ensures RestoreOrder.IdsOf(DocsOf(db, subtree)) == Members(subtree)
    ensures RestoreOrder.DistinctIds(DocsOf(db, subtree))
  {
    hide LogOf;
    var docs := DocsOf(db, subtree);
    assert forall i :: 0 <= i < |subtree| ==> subtree[i] in subtree && docs[i].task.id == subtree[i];
  }

  lemma PayloadParent(db: DB, root: Id, subtree: seq<Id>, i: nat, lower: Fold)
    requires Good(db, lower) && root in db.tasks && Collected(db.tasks, root, subtree) && i < |subtree|
    requires db.tasks[subtree[i]].parentId.Some? && db.tasks[subtree[i]].parentId.value in Members(subtree)
    ensures exists j :: 0 <= j < i && DocsOf(db, subtree)[j].task.id == db.tasks[subtree[i]].parentId.value
  {
    hide RowFits, GoodRow, Acyclic, ParentsOf, RanksDescend, LogOf;
    var p := db.tasks[subtree[i]].parentId.value;
    if i == 0 {
      RootParentOutside(db.tasks, root, subtree);
    } else {
      var j :| 0 <= j < i && subtree[j] == p;
      assert subtree[j] in subtree;
      assert DocsOf(db, subtree)[j].task.id == p;
    }
  }

  lemma RootParentOutside(tasks: map<Id, Task>, root: Id, subtree: seq<Id>)
    requires Keyed(tasks) && Acyclic(ParentsOf(tasks)) && root in tasks && Collected(tasks, root, subtree)
    ensures tasks[root].parentId.Some? ==> tasks[root].parentId.value !in Members(subtree)
  {
    hide Acyclic, Reaches, ParentsOf;
    if tasks[root].parentId.Some? && tasks[root].parentId.value in Members(subtree) {
      var i :| 0 <= i < |subtree| && subtree[i] == tasks[root].parentId.value;
      CollectedReachesRoot(tasks, root, subtree, i);
      ParentOfRow(tasks, root);
      NoCycleAt(ParentsOf(tasks), root);
    }
  }

  lemma PayloadIsClean(db: DB, root: Id, subtree: seq<Id>, lower: Fold)
    requires Good(db, lower) && root in db.tasks && Collected(db.tasks, root, subtree)
    ensures var docs, rest := DocsOf(db, subtree), Without(db, Members(subtree));
            && TagsNormalise(docs, lower) && WithNormalTags(docs, lower) == docs
            && forall i :: 0 <= i < |docs| ==> RefsResolve(rest, Members(subtree), docs[i].task)
  {
    hide GoodForest, LogOf, Normalized, IsNormal, LogWithout;
    var docs := DocsOf(db, subtree);
    forall i | 0 <= i < |docs| ensures Normalized(docs[i].task.tags, lower) == Some(docs[i].task.tags) {
      assert subtree[i] in subtree;
      NormalIsFixed(docs[i].task.tags, lower);
    }
    forall i | 0 <= i < |docs| ensures RefsResolve(Without(db, Members(subtree)), Members(subtree), docs[i].task) {
      assert subtree[i] in subtree;
      assert RowFits(db, docs[i].task);
    }
  }

  /** The log after k of the deleted tasks are back. */
  function LogAfter(db: DB, subtree: seq<Id>, k: nat): seq<Entry>
    requires k <= |subtree|
  {
    if k == 0 then LogWithout(db.log, Members(subtree))
    else LogAfter(db, subtree, k - 1) + LogOf(db.log, subtree[k - 1])
  }

  function After(db: DB, subtree: seq<Id>, k: nat): Restoring
    requires k <= |subtree|
  {
    Restoring(db.(tasks := db.tasks - Members(subtree[k..]), log := LogAfter(db, subtree, k)), k)
  }

  lemma {:induction false} LogWithoutEntries(log: seq<Entry>, ids: set<Id>)
    ensures forall e :: e in LogWithout(log, ids) <==> e in log && e.taskId !in ids
  {
    if |log| == 0 {
    } else {
      LogWithoutEntries(log[..|log| - 1], ids);
      assert log == log[..|log| - 1] + [log[|log| - 1]];
    }
  }

  lemma {:induction false} LogAfterEntries(db: DB, subtree: seq<Id>, k: nat)
    requires Distinct(subtree) && k <= |subtree|
    ensures forall e :: e in LogAfter(db, subtree, k) ==> e in db.log && e.taskId !in Members(subtree[k..])
  {
    if k == 0 {
      assert subtree[0..] == subtree;
      LogWithoutEntries(db.log, Members(subtree));
    } else {
      LogAfterEntries(db, subtree, k - 1);
      LogOfEntries(db.log, subtree[k - 1]);
      assert subtree[k - 1..] == [subtree[k - 1]] + subtree[k..];
      assert forall x :: x in subtree[k..] ==> x in subtree[k - 1..];
    }
  }

  lemma {:induction false} EntriesReplay(db: DB, x: Id, prefix: seq<Entry>, acts: seq<Entry>, n: nat, draw: Draw)
    requires n <= |acts| && db.log == prefix + acts[..n] && DistinctEntryIds(prefix + acts)
    requires forall e :: e in acts ==>
             e.id != "" && e.taskId == x && !e.kind.OtherKind? && (e.author.Some? ==> e.author.value in db.members)
    ensures WithEntries(db, x, acts[n..], draw) == Ok(db.(log := prefix + acts))
    decreases |acts| - n
  {
    if n == |acts| {
      assert acts[..n] == acts && acts[n..] == [];
    } else {
      var e := acts[n];
      assert e in acts && acts[n..][0] == e && acts[n..][1..] == acts[n + 1..];
      assert (prefix + acts)[|prefix| + n] == e;
      assert forall i :: 0 <= i < |db.log| ==> (prefix + acts)[i] == db.log[i];
      assert !EntryIdTaken(db.log, e.id);
      assert Replayed(db, x, e) == e;
      var next := db.(log := db.log + [e]);
      assert next.log == prefix + acts[..n + 1] by { assert acts[..n + 1] == acts[..n] + [e]; }
      EntriesReplay(next, x, prefix, acts, n + 1, draw);
      assert next.(log := prefix + acts) == db.(log := prefix + acts);
    }
  }

  lemma {:induction false} EntryIdsStayDistinct(db: DB, subtree: seq<Id>, k: nat)
    requires DistinctEntryIds(db.log) && Distinct(subtree) && k <= |subtree|
    ensures DistinctEntryIds(LogAfter(db, subtree, k))
  {
    if k == 0 {
      LogWithoutDistinct(db.log, Members(subtree));
    } else {
      EntryIdsStayDistinct(db, subtree, k - 1);
      LogOfDistinct(db.log, subtree[k - 1]);
      LogAfterEntries(db, subtree, k - 1);
      LogOfEntries(db.log, subtree[k - 1]);
      assert subtree[k - 1..][0] == subtree[k - 1];
      DisjointLogs(db.log, LogAfter(db, subtree, k - 1), LogOf(db.log, subtree[k - 1]));
    }
  }

  lemma DisjointLogs(log: seq<Entry>, a: seq<Entry>, b: seq<Entry>)
    requires DistinctEntryIds(log) && DistinctEntryIds(a) && DistinctEntryIds(b)
    requires (forall e :: e in a ==> e in log) && (forall e :: e in b ==> e in log)
    requires forall e, f :: e in a && f in b ==> e.taskId != f.taskId
    ensures DistinctEntryIds(a + b)
  {
    forall i, j | 0 <= i < |a| && 0 <= j < |b| ensures a[i].id != b[j].id {
      assert a[i] in a && b[j] in b;
      var p :| 0 <= p < |log| && log[p] == a[i];
      var q :| 0 <= q < |log| && log[q] == b[j];
      assert p != q;
    }
  }

  lemma {:induction false} LogWithoutDistinct(log: seq<Entry>, ids: set<Id>)
    requires DistinctEntryIds(log)
    ensures DistinctEntryIds(LogWithout(log, ids))
  {
    if |log| == 0 {
    } else {
      var init, last := log[..|log| - 1], log[|log| - 1];
      LogWithoutDistinct(init, ids);
      LogWithoutEntries(init, ids);
      var l := LogWithout(init, ids);
      forall i | 0 <= i < |l| ensures l[i].id != last.id {
        assert l[i] in l;
        assert l[i] in init;
      }
    }
  }

  /** Putting back one document: its parent is there, its slot is free. */
  lemma OneDocBack(db: DB, root: Id, subtree: seq<Id>, k: nat, lower: Fold, draw: Draw)
    requires Good(db, lower) && root in db.tasks && Collected(db.tasks, root, subtree) && k < |subtree|
    ensures WithDoc(After(db, subtree, k), DocsOf(db, subtree)[k], draw) == Ok(After(db, subtree, k + 1))
  {
    hide LogAfter, LogOf, RowFits, Good, Conflicts, WithEntries;
    var x, r := subtree[k], After(db, subtree, k);
    RowComesBack(db, root, subtree, k, lower);
    EntriesComeBack(db, root, subtree, k, lower, draw);
    TableGrows(db, subtree, k);
  }

  lemma TableGrows(db: DB, subtree: seq<Id>, k: nat)
    requires Distinct(subtree) && k < |subtree| && subtree[k] in db.tasks
    ensures (db.tasks - Members(subtree[k..]))[subtree[k] := db.tasks[subtree[k]]] ==
            db.tasks - Members(subtree[k + 1..])
  {
    DropOne(subtree, k);
    hide Members;
  }

  lemma EntriesComeBack(db: DB, root: Id, subtree: seq<Id>, k: nat, lower: Fold, draw: Draw)
    requires Good(db, lower) && Collected(db.tasks, root, subtree) && k < |subtree| && subtree[k] in db.tasks
    ensures var mid := After(db, subtree,
                             k).db.(tasks := After(db, subtree, k).db.tasks[subtree[k] := db.tasks[subtree[k]]]);
            WithEntries(mid, subtree[k], LogOf(db.log, subtree[k]), draw) ==
                Ok(mid.(log := LogAfter(db, subtree, k + 1)))
  {
    hide GoodForest, GoodRow, RowFits, LogAfter, LogOf, WithEntries;
    var x, r := subtree[k], After(db, subtree, k);
    LogOfEntries(db.log, x);
    EntryIdsStayDistinct(db, subtree, k + 1);
    LogAfterStep(db, subtree, k);
    var acts := LogOf(db.log, x);
    assert acts[0..] == acts && LogAfter(db, subtree, k) + acts[..0] == LogAfter(db, subtree, k);
    forall e | e in acts ensures e.id != "" && !e.kind.OtherKind? && (e.author.Some? ==> e.author.value in db.members) {
      var i :| 0 <= i < |db.log| && db.log[i] == e;
    }
    EntriesReplay(r.db.(tasks := r.db.tasks[x := db.tasks[x]]), x, LogAfter(db, subtree, k), acts, 0, draw);
  }

  lemma LogAfterStep(db: DB, subtree: seq<Id>, k: nat)
    requires k < |subtree|
    ensures LogAfter(db, subtree, k + 1) == LogAfter(db, subtree, k) + LogOf(db.log, subtree[k])
  {
  }

  lemma RowComesBack(db: DB, root: Id, subtree: seq<Id>, k: nat, lower: Fold)
    requires Good(db, lower) && root in db.tasks && Collected(db.tasks, root, subtree) && k < |subtree|
    ensures subtree[k] in db.tasks && db.tasks[subtree[k]].id == subtree[k]
    ensures !Conflicts(After(db, subtree, k).db, db.tasks[subtree[k]])
    ensures RowFits(After(db, subtree, k).db, db.tasks[subtree[k]])
  {
    hide LogAfter, GoodRow, Acyclic, ParentsOf, RanksDescend;
    var x := subtree[k];
    assert x in subtree;
    assert x == subtree[k..][0];
    var t := db.tasks[x];
    assert RowFits(db, t);
    if t.parentId.Some? { ParentComesFirst(db.tasks, root, subtree, k); }
  }

  lemma ParentComesFirst(tasks: map<Id, Task>, root: Id, subtree: seq<Id>, k: nat)
    requires Keyed(tasks) && Acyclic(ParentsOf(tasks)) && root in tasks && Collected(tasks, root, subtree)
    requires k < |subtree| && tasks[subtree[k]].parentId.Some?
    ensures tasks[subtree[k]].parentId.value !in Members(subtree[k..])
  {
    hide Acyclic, ParentsOf;
    assert subtree[0..] == subtree;
    if k == 0 {
      RootParentOutside(tasks, root, subtree);
    } else {
      var j :| 0 <= j < k && subtree[j] == tasks[subtree[k]].parentId.value;
      forall i | k <= i < |subtree| ensures subtree[i] != subtree[j] { }
    }
  }

  lemma {:induction false} AllDocsBack(db: DB, root: Id, subtree: seq<Id>, k: nat, lower: Fold, draw: Draw)
    requires Good(db, lower) && root in db.tasks && Collected(db.tasks, root, subtree) && k <= |subtree|
    ensures WithDocs(After(db, subtree, k), DocsOf(db, subtree)[k..], draw) == Ok(After(db, subtree, |subtree|))
    decreases |subtree| - k
  {
    hide *;
    CollectedRows(db, root, subtree);
    var docs := DocsOf(db, subtree);
    if k < |subtree| {
      OneDocBack(db, root, subtree, k, lower, draw);
      AllDocsBack(db, root, subtree, k + 1, lower, draw);
      WithDocsStep(After(db, subtree, k), After(db, subtree, k + 1), docs, k, draw);
    } else {
      assert docs[k..] == [];
      NoDocsLeft(After(db, subtree, k), draw);
    }
  }

  lemma CollectedRows(db: DB, root: Id, subtree: seq<Id>)
    requires Collected(db.tasks, root, subtree)
    ensures (forall x :: x in subtree ==> x in db.tasks) && |DocsOf(db, subtree)| == |subtree|
  {
    hide LogOf;
  }

  lemma WithDocsStep(r: Restoring, next: Restoring, docs: seq<Doc>, k: nat, draw: Draw)
    requires k < |docs| && WithDoc(r, docs[k], draw) == Ok(next)
    ensures WithDocs(r, docs[k..], draw) == WithDocs(next, docs[k + 1..], draw)
  {
    hide WithDoc;
    assert docs[k..][0] == docs[k] && docs[k..][1..] == docs[k + 1..];
  }

  lemma NoDocsLeft(r: Restoring, draw: Draw)
    ensures WithDocs(r, [], draw) == Ok(r)
  {
  }

  lemma {:induction false} TimelinesBack(db: DB, subtree: seq<Id>, k: nat, x: Id)
    requires Distinct(subtree) && k <= |subtree|
    ensures LogOf(LogAfter(db, subtree, k), x) == if x in Members(subtree[k..]) then [] else LogOf(db.log, x)
  {
    hide LogOf, LogWithout, LogAfter;
    var goal := LogOf(db.log, x);
    if k == 0 {
      LogOfWithout(db.log, Members(subtree), x);
      LogAfterNone(db, subtree);
      assert subtree[0..] == subtree;
    } else {
      var y := subtree[k - 1];
      TimelinesBack(db, subtree, k - 1, x);
      LogAfterStep(db, subtree, k - 1);
      LogOfConcat(LogAfter(db, subtree, k - 1), LogOf(db.log, y), x);
      LogOfSelf(db.log, y, x);
      DropOne(subtree, k - 1);
      assert [] + goal == goal && goal + [] == goal;
    }
  }

  lemma DropOne(s: seq<Id>, k: nat)
    requires Distinct(s) && k < |s|
    ensures Members(s[k..]) == {s[k]} + Members(s[k + 1..]) && s[k] !in Members(s[k + 1..])
  {
    assert s[k..] == [s[k]] + s[k + 1..];
  }

  /** Deleting a subtree and restoring the response gives every task and every
      timeline back, and reports the size of the subtree. */
  lemma RestoreUndoesDelete(db: DB, root: Id, subtree: seq<Id>, lower: Fold, draw: Draw)
    requires Good(db, lower) && root in db.tasks && Collected(db.tasks, root, subtree)
    ensures var r := Restored(Without(db, Subtree(db.tasks, root)), DocsOf(db, subtree), lower, draw);
            && r.Ok? && r.value.inserted == |subtree| == |Subtree(db.tasks, root)|
            && r.value.db == db.(log := LogAfter(db, subtree, |subtree|))
            && forall x :: LogOf(r.value.db.log, x) == LogOf(db.log, x)
  {
    hide GoodForest, GoodRow, LogOf, LogAfter, RowFits, WithDocs, TagsNormalise, RefsResolve, LogWithout;
    CollectedIsSubtree(db.tasks, root, subtree);
    PayloadIsParentsFirst(db, root, subtree, lower);
    PayloadIsClean(db, root, subtree, lower);
    AllDocsBack(db, root, subtree, 0, lower, draw);
    LogAfterNone(db, subtree);
    MembersCount(subtree);
    var docs := DocsOf(db, subtree);
    assert docs[0..] == docs && subtree[0..] == subtree && subtree[|subtree|..] == [];
    assert db.tasks - Members([]) == db.tasks;
    assert After(db, subtree, 0).db == Without(db, Subtree(db.tasks, root));
    forall x ensures LogOf(LogAfter(db, subtree, |subtree|), x) == LogOf(db.log, x) {
      TimelinesBack(db, subtree, |subtree|, x);
      assert Members([]) == {};
    }
  }

  lemma LogAfterNone(db: DB, subtree: seq<Id>)
    ensures LogAfter(db, subtree, 0) == LogWithout(db.log, Members(subtree))
  {
  }

  lemma {:induction false} MembersCount(s: seq<Id>)
    requires Distinct(s)
    ensures |Members(s)| == |s|
  {
    if |s| == 0 {
    } else {
      MembersCount(s[1..]);
      assert Members(s) == {s[0]} + Members(s[1..]);
    }
  }
}
