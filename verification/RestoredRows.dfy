/** What restoring any payload leaves in the tables, row by row and entry by entry, and
    when it is refused (internal/service/tasks.go). */
module RestoredRows {
  import opened Base
  import opened Forest
  import opened Model
  import opened Tags
  import opened CascadeDelete
  import opened TaskInvariants
  import opened Restore
  import RestoreOrder

  // ---- one timeline ----

  /** e as it is stored under its task: an author who is no member is dropped, an entry
      without an id has the one drawn for it. */
  predicate StoredAs(n: Entry, e: Entry, taskId: Id, members: set<Id>, drawn: Id) {
    && n.taskId == taskId && n.id == (if e.id == "" then drawn else e.id)
    && n.kind == e.kind && n.date == e.date && n.at == e.at && n.byName == e.byName && n.text == e.text
    && n.from == e.from && n.to == e.to && n.editedAt == e.editedAt
    && (e.author.Some? && e.author.value in members ==> n.author == e.author)
    && (e.author.Some? && e.author.value !in members ==> n.author == None)
    && (e.author.None? ==> n.author == None)
  }

  function IdOf(acts: seq<Entry>, i: nat, taskId: Id, draw: Draw): Id
    requires i < |acts|
  {
    if acts[i].id == "" then draw(taskId, |acts| - i) else acts[i].id
  }

  /** An earlier entry that goes in has the id of entry i. */
  ghost predicate SameAsEarlier(acts: seq<Entry>, src: seq<nat>, i: nat, taskId: Id, draw: Draw)
    requires i < |acts| && forall k :: 0 <= k < |src| ==> src[k] < |acts|
  {
    exists k :: 0 <= k < |src| && src[k] < i && IdOf(acts, src[k], taskId, draw) == IdOf(acts, i, taskId, draw)
  }

  /** The places src of a timeline of m entries, from n on, in their order. */
  predicate Places(src: seq<nat>, n: nat, m: nat) {
    && (forall k :: 0 <= k < |src| ==> n <= src[k] < m)
    && (forall k, l :: 0 <= k < l < |src| ==> src[k] < src[l])
  }

  /** The log grows by the entries at these places. */
  predicate Appends(before: seq<Entry>, after: seq<Entry>, acts: seq<Entry>, src: seq<nat>, taskId: Id,
                    members: set<Id>, draw: Draw) {
    && |after| == |before| + |src| && after[..|before|] == before
    && forall k :: 0 <= k < |src| ==>
         && src[k] < |acts|
         && StoredAs(after[|before| + k], acts[src[k]], taskId, members, draw(taskId, |acts| - src[k]))
  }

  /** The log grows by the entries at the places src of the timeline, from n on, in their
      order; the others are left out because their id is taken. */
  ghost predicate Grows(before: seq<Entry>, after: seq<Entry>, acts: seq<Entry>, n: nat, src: seq<nat>, taskId: Id,
                        members: set<Id>, draw: Draw) {
    && Places(src, n, |acts|) && Appends(before, after, acts, src, taskId, members, draw)
    && (forall i :: n <= i < |acts| && i !in src ==>
         EntryIdTaken(before, IdOf(acts, i, taskId, draw)) || SameAsEarlier(acts, src, i, taskId, draw))
  }

  lemma GrowsSkip(before: seq<Entry>, after: seq<Entry>, acts: seq<Entry>, n: nat, src: seq<nat>, taskId: Id,
                  members: set<Id>, draw: Draw)
    requires n < |acts| && Grows(before, after, acts, n + 1, src, taskId, members, draw)
    requires EntryIdTaken(before, IdOf(acts, n, taskId, draw))
    ensures Grows(before, after, acts, n, src, taskId, members, draw)
  {
    hide Appends, EntryIdTaken, SameAsEarlier, IdOf;
  }

  lemma OnePlaceMore(src: seq<nat>, n: nat, m: nat)
    requires n < m && Places(src, n + 1, m)
    ensures Places([n] + src, n, m)
    ensures forall i :: n <= i < m && i !in [n] + src ==> i > n && i !in src
  {
    var more := [n] + src;
    assert more[0] == n && forall k :: 0 <= k < |src| ==> more[k + 1] == src[k];
  }

  lemma OneAppendedMore(before: seq<Entry>, e: Entry, after: seq<Entry>, acts: seq<Entry>, n: nat, src: seq<nat>,
                        taskId: Id, members: set<Id>, draw: Draw)
    requires n < |acts| && Appends(before + [e], after, acts, src, taskId, members, draw)
    requires StoredAs(e, acts[n], taskId, members, draw(taskId, |acts| - n))
    ensures Appends(before, after, acts, [n] + src, taskId, members, draw)
  {
    hide StoredAs;
    var more := [n] + src;
    assert after[..|before|] == after[..|before| + 1][..|before|] == before;
    assert after[|before|] == after[..|before| + 1][|before|] == e;
    forall k | 0 <= k < |more|
      ensures more[k] < |acts|
              && StoredAs(after[|before| + k], acts[more[k]], taskId, members, draw(taskId, |acts| - more[k]))
    {
      if k > 0 { assert more[k] == src[k - 1] && after[|before| + k] == after[|before + [e]| + (k - 1)]; }
    }
  }

  lemma GrowsTake(before: seq<Entry>, e: Entry, after: seq<Entry>, acts: seq<Entry>, n: nat, src: seq<nat>,
                  taskId: Id, members: set<Id>, draw: Draw)
    requires n < |acts| && Grows(before + [e], after, acts, n + 1, src, taskId, members, draw)
    requires StoredAs(e, acts[n], taskId, members, draw(taskId, |acts| - n)) && e.id == IdOf(acts, n, taskId, draw)
    ensures Grows(before, after, acts, n, [n] + src, taskId, members, draw)
  {
    OnePlaceMore(src, n, |acts|);
    OneAppendedMore(before, e, after, acts, n, src, taskId, members, draw);
    hide StoredAs, EntryIdTaken, SameAsEarlier, IdOf, Appends, Places;
    var more := [n] + src;
    forall i | n <= i < |acts| && i !in more
      ensures EntryIdTaken(before, IdOf(acts, i, taskId, draw)) || SameAsEarlier(acts, more, i, taskId, draw)
    {
      TakenFurther(before, e, acts, n, src, i, taskId, draw);
    }
  }

  lemma TakenFurther(before: seq<Entry>, e: Entry, acts: seq<Entry>, n: nat, src: seq<nat>, i: nat, taskId: Id,
                     draw: Draw)
    requires n < i < |acts| && e.id == IdOf(acts, n, taskId, draw)
    requires forall k :: 0 <= k < |src| ==> src[k] < |acts|
    requires EntryIdTaken(before + [e], IdOf(acts, i, taskId, draw)) || SameAsEarlier(acts, src, i, taskId, draw)
    ensures EntryIdTaken(before, IdOf(acts, i, taskId, draw)) || SameAsEarlier(acts, [n] + src, i, taskId, draw)
  {
    var more, id := [n] + src, IdOf(acts, i, taskId, draw);
    hide IdOf;
    assert more[0] == n;
    assert forall k :: 0 <= k < |src| ==> more[k + 1] == src[k];
    assert forall k :: 0 <= k < |before| ==> (before + [e])[k] == before[k];
  }

  /** What the replay of one task's timeline adds to the log. */
  lemma {:induction false} EntriesGrow(db: DB, taskId: Id, acts: seq<Entry>, n: nat, draw: Draw)
    returns (src: seq<nat>)
    requires n <= |acts| && WithEntries(db, taskId, acts[n..], draw).Ok?
    ensures var after := WithEntries(db, taskId, acts[n..], draw).value;
            after == db.(log := after.log) && Grows(db.log, after.log, acts, n, src, taskId, db.members, draw)
    decreases |acts| - n
  {
    if n == |acts| {
      src := [];
      assert db.log + [] == db.log;
    } else {
      var e := Identified(acts[n], draw(taskId, |acts| - n));
      var after := WithEntries(db, taskId, acts[n..], draw).value;
      assert acts[n..][1..] == acts[n + 1..];
      if EntryIdTaken(db.log, e.id) {
        src := EntriesGrow(db, taskId, acts, n + 1, draw);
        hide Grows;
        GrowsSkip(db.log, after.log, acts, n, src, taskId, db.members, draw);
      } else {
        var stored := Replayed(db, taskId, e);
        var rest := EntriesGrow(db.(log := db.log + [stored]), taskId, acts, n + 1, draw);
        src := [n] + rest;
        hide Grows;
        GrowsTake(db.log, stored, after.log, acts, n, rest, taskId, db.members, draw);
      }
    }
  }

  lemma {:induction false} EntriesKeepConsistent(db: DB, taskId: Id, acts: seq<Entry>, draw: Draw)
    requires Consistent(db) && taskId in db.tasks && WithEntries(db, taskId, acts, draw).Ok?
    ensures Consistent(WithEntries(db, taskId, acts, draw).value)
    decreases |acts|
  {
    hide Consistent, EntryIdTaken;
    if |acts| == 0 {
    } else {
      var e := Identified(acts[0], draw(taskId, |acts|));
      if EntryIdTaken(db.log, e.id) {
        EntriesKeepConsistent(db, taskId, acts[1..], draw);
      } else {
        LogAppendKeepsConsistent(db, Replayed(db, taskId, e));
        EntriesKeepConsistent(db.(log := db.log + [Replayed(db, taskId, e)]), taskId, acts[1..], draw);
      }
    }
  }

  // ---- one document ----

  /** Another row of the series has that period. */
  ghost predicate SlotTaken(tasks: map<Id, Task>, t: Task) {
    t.seriesId.Some? && exists x :: x in tasks && x != t.id && tasks[x].seriesId == t.seriesId
                                    && tasks[x].period == t.period
  }

  lemma ConflictIs(db: DB, t: Task)
    ensures Conflicts(db, t) <==> t.id in db.tasks || SlotTaken(db.tasks, t)
  {
  }

  /** A document is passed over if its id or its slot is taken; otherwise its row goes in
      as it is, and its timeline after the log. */
  lemma DocRestored(r: Restoring, doc: Doc, draw: Draw) returns (src: seq<nat>)
    requires WithDoc(r, doc, draw).Ok? && Consistent(r.db)
    ensures var next, x := WithDoc(r, doc, draw).value, doc.task.id;
            && Consistent(next.db)
            && (x in r.db.tasks || SlotTaken(r.db.tasks, doc.task) ==> next == r)
            && (x !in r.db.tasks && !SlotTaken(r.db.tasks, doc.task) ==>
                 && next.db == r.db.(tasks := r.db.tasks[x := doc.task], log := next.db.log)
                 && next.inserted == r.inserted + 1
                 && Grows(r.db.log, next.db.log, doc.activity, 0, src, x, r.db.members, draw))
  {
    hide Consistent, WithEntries, RowFits, Conflicts, SlotTaken, Grows;
    src := [];
    ConflictIs(r.db, doc.task);
    if !Conflicts(r.db, doc.task) {
      var mid := r.db.(tasks := r.db.tasks[doc.task.id := doc.task]);
      WriteKeepsConsistent(r.db, doc.task);
      assert doc.activity[0..] == doc.activity;
      EntriesKeepConsistent(mid, doc.task.id, doc.activity, draw);
      src := EntriesGrow(mid, doc.task.id, doc.activity, 0, draw);
    }
  }

  // ---- the whole payload ----

  /** own is the timeline stored for acts: some of its entries, in their order; every id of
      acts is in the log. */
  ghost predicate TimelineFrom(own: seq<Entry>, log: seq<Entry>, acts: seq<Entry>, src: seq<nat>, taskId: Id,
                               members: set<Id>, draw: Draw) {
    && Places(src, 0, |acts|) && Appends([], own, acts, src, taskId, members, draw)
    && (forall i :: 0 <= i < |acts| ==> EntryIdTaken(log, IdOf(acts, i, taskId, draw)))
  }

  /** Row x and its timeline are those of the document. */
  ghost predicate FromDoc(after: DB, x: Id, doc: Doc, draw: Draw)
    requires x in after.tasks
  {
    && doc.task.id == x && after.tasks[x] == doc.task
    && exists src :: TimelineFrom(LogOf(after.log, x), after.log, doc.activity, src, x, after.members, draw)
  }

  /** What restoring the documents from n on has made of db: old rows and log entries stay;
      every new row, with its timeline, is that of a document; and of every document the
      id or the slot is taken. */
  ghost predicate RestoredFrom(db: DB, after: DB, docs: seq<Doc>, n: nat, draw: Draw) {
    && after == db.(tasks := after.tasks, log := after.log)
    && (forall x :: x in db.tasks ==> x in after.tasks && after.tasks[x] == db.tasks[x])
    && (forall x :: x in after.tasks && x !in db.tasks ==>
         exists i :: n <= i < |docs| && FromDoc(after, x, docs[i], draw))
    && (forall i :: n <= i < |docs| ==> docs[i].task.id in after.tasks || SlotTaken(after.tasks, docs[i].task))
    && |db.log| <= |after.log| && after.log[..|db.log|] == db.log
    && (forall k :: |db.log| <= k < |after.log| ==>
         after.log[k].taskId in after.tasks && after.log[k].taskId !in db.tasks)
  }

  lemma {:induction false} NoneOfTask(log: seq<Entry>, x: Id)
    requires forall k :: 0 <= k < |log| ==> log[k].taskId != x
    ensures LogOf(log, x) == []
  {
    if |log| == 0 {
    } else {
      NoneOfTask(log[..|log| - 1], x);
    }
  }

  lemma NotYetThere(db: DB, x: Id)
    requires Consistent(db) && x !in db.tasks
    ensures forall k :: 0 <= k < |db.log| ==> db.log[k].taskId != x
  {
    hide RowFits;
  }

  /** The added entries are the timeline of their task. */
  lemma AddedAre(before: seq<Entry>, after: seq<Entry>, acts: seq<Entry>, src: seq<nat>, x: Id, members: set<Id>,
                 draw: Draw)
    requires Grows(before, after, acts, 0, src, x, members, draw)
    requires forall k :: 0 <= k < |before| ==> before[k].taskId != x
    ensures LogOf(after, x) == after[|before|..]
    ensures forall k :: |before| <= k < |after| ==> after[k].taskId == x
  {
    hide LogOf, IdOf, EntryIdTaken, SameAsEarlier;
    var added := after[|before|..];
    assert after == before + added;
    forall k | 0 <= k < |added| ensures added[k].taskId == x {
      assert StoredAs(after[|before| + k], acts[src[k]], x, members, draw(x, |acts| - src[k]));
    }
    NoneOfTask(before, x);
    SegmentLog(added, x, x);
    LogOfConcat(before, added, x);
    assert [] + added == added;
  }

  /** The timeline that has just been added. */
  lemma NewTimeline(db: DB, next: DB, doc: Doc, src: seq<nat>, draw: Draw)
    requires Consistent(db) && doc.task.id !in db.tasks
    requires next == db.(tasks := db.tasks[doc.task.id := doc.task], log := next.log)
    requires Grows(db.log, next.log, doc.activity, 0, src, doc.task.id, db.members, draw)
    ensures FromDoc(next, doc.task.id, doc, draw)
    ensures forall k :: |db.log| <= k < |next.log| ==> next.log[k].taskId == doc.task.id
  {
    hide Consistent, LogOf, IdOf, EntryIdTaken, SameAsEarlier, StoredAs;
    var x, acts, own := doc.task.id, doc.activity, next.log[|db.log|..];
    NotYetThere(db, x);
    AddedAre(db.log, next.log, acts, src, x, db.members, draw);
    forall i | 0 <= i < |acts| ensures EntryIdTaken(next.log, IdOf(acts, i, x, draw)) {
      IdsArrive(db.log, next.log, acts, src, i, x, db.members, draw);
    }
    assert forall k :: 0 <= k < |src| ==> own[k] == next.log[|db.log| + k];
    assert TimelineFrom(own, next.log, acts, src, x, next.members, draw);
  }

  lemma IdsArrive(before: seq<Entry>, after: seq<Entry>, acts: seq<Entry>, src: seq<nat>, i: nat, taskId: Id,
                  members: set<Id>, draw: Draw)
    requires Grows(before, after, acts, 0, src, taskId, members, draw) && i < |acts|
    ensures EntryIdTaken(after, IdOf(acts, i, taskId, draw))
  {
    assert forall k :: 0 <= k < |src| ==> after[|before| + k].id == IdOf(acts, src[k], taskId, draw);
    if i in src {
      var k :| 0 <= k < |src| && src[k] == i;
      assert after[|before| + k].id == IdOf(acts, i, taskId, draw);
    } else if SameAsEarlier(acts, src, i, taskId, draw) {
      var k :| 0 <= k < |src| && src[k] < i && IdOf(acts, src[k], taskId, draw) == IdOf(acts, i, taskId, draw);
      assert after[|before| + k].id == IdOf(acts, i, taskId, draw);
    } else {
      var k :| 0 <= k < |before| && before[k].id == IdOf(acts, i, taskId, draw);
      assert after[..|before|][k] == after[k];
    }
  }

  /** A log that grows by entries of other tasks. */
  lemma LogStays(before: seq<Entry>, after: seq<Entry>, x: Id)
    requires |before| <= |after| && after[..|before|] == before
    requires forall k :: |before| <= k < |after| ==> after[k].taskId != x
    ensures LogOf(after, x) == LogOf(before, x)
    ensures forall id :: EntryIdTaken(before, id) ==> EntryIdTaken(after, id)
  {
    hide LogOf;
    var added := after[|before|..];
    assert after == before + added;
    NoneOfTask(added, x);
    LogOfConcat(before, added, x);
    assert LogOf(before, x) + [] == LogOf(before, x);
    assert forall k :: 0 <= k < |before| ==> after[k] == before[k];
  }

  /** What stands in the tables stays there while more documents come in. */
  lemma FromDocStays(mid: DB, after: DB, x: Id, doc: Doc, docs: seq<Doc>, n: nat, draw: Draw)
    requires x in mid.tasks && FromDoc(mid, x, doc, draw) && RestoredFrom(mid, after, docs, n, draw)
    ensures FromDoc(after, x, doc, draw)
  {
    LogStays(mid.log, after.log, x);
    hide LogOf, IdOf, EntryIdTaken, Places, Appends, SlotTaken;
    var src :| TimelineFrom(LogOf(mid.log, x), mid.log, doc.activity, src, x, mid.members, draw);
    assert TimelineFrom(LogOf(after.log, x), after.log, doc.activity, src, x, after.members, draw);
  }

  lemma OneMoreDoc(db: DB, mid: DB, after: DB, docs: seq<Doc>, n: nat, src: seq<nat>, draw: Draw)
    requires n < |docs| && Consistent(db) && docs[n].task.id !in db.tasks
    requires mid == db.(tasks := db.tasks[docs[n].task.id := docs[n].task], log := mid.log)
    requires Grows(db.log, mid.log, docs[n].activity, 0, src, docs[n].task.id, db.members, draw)
    requires RestoredFrom(mid, after, docs, n + 1, draw)
    ensures RestoredFrom(db, after, docs, n, draw)
  {
    var x := docs[n].task.id;
    NewTimeline(db, mid, docs[n], src, draw);
    FromDocStays(mid, after, x, docs[n], docs, n + 1, draw);
    assert |db.log| <= |mid.log| && mid.log[..|db.log|] == db.log by { hide Consistent, FromDoc, StoredAs, IdOf; }
    hide Consistent, FromDoc, Grows, SlotTaken;
    assert after.log[..|db.log|] == after.log[..|mid.log|][..|db.log|];
    forall k | |db.log| <= k < |after.log|
      ensures after.log[k].taskId in after.tasks && after.log[k].taskId !in db.tasks {
      if k < |mid.log| { assert after.log[k] == after.log[..|mid.log|][k] == mid.log[k]; }
    }
  }

  lemma DocPassedOver(db: DB, after: DB, docs: seq<Doc>, n: nat, draw: Draw)
    requires n < |docs| && RestoredFrom(db, after, docs, n + 1, draw)
    requires docs[n].task.id in db.tasks || SlotTaken(db.tasks, docs[n].task)
    ensures RestoredFrom(db, after, docs, n, draw)
  {
    hide FromDoc;
    if SlotTaken(db.tasks, docs[n].task) {
      var t := docs[n].task;
      var x :| x in db.tasks && x != t.id && db.tasks[x].seriesId == t.seriesId && db.tasks[x].period == t.period;
      assert x in after.tasks && after.tasks[x] == db.tasks[x];
    }
  }

  lemma {:induction false} DocsRestored(r: Restoring, docs: seq<Doc>, n: nat, draw: Draw)
    requires n <= |docs| && WithDocs(r, docs[n..], draw).Ok? && Consistent(r.db)
    ensures var last := WithDocs(r, docs[n..], draw).value;
            && Consistent(last.db) && RestoredFrom(r.db, last.db, docs, n, draw)
            && |last.db.tasks| == |r.db.tasks| + (last.inserted - r.inserted)
    decreases |docs| - n
  {
    hide Consistent, RestoredFrom, WithDoc, Grows, SlotTaken;
    if n == |docs| {
      assert RestoredFrom(r.db, r.db, docs, n, draw) by { NothingRestored(r.db, docs, n, draw); }
    } else {
      assert docs[n..][0] == docs[n] && docs[n..][1..] == docs[n + 1..];
      var next := WithDoc(r, docs[n], draw).value;
      var src := DocRestored(r, docs[n], draw);
      DocsRestored(next, docs, n + 1, draw);
      var after := WithDocs(r, docs[n..], draw).value.db;
      var x := docs[n].task.id;
      if x in r.db.tasks || SlotTaken(r.db.tasks, docs[n].task) {
        DocPassedOver(r.db, after, docs, n, draw);
      } else {
        OneMoreDoc(r.db, next.db, after, docs, n, src, draw);
        assert |next.db.tasks| == |r.db.tasks| + 1 by {
          assert next.db.tasks.Keys == r.db.tasks.Keys + {x};
          assert |next.db.tasks.Keys| == |next.db.tasks| && |r.db.tasks.Keys| == |r.db.tasks|;
        }
      }
    }
  }

  lemma NothingRestored(db: DB, docs: seq<Doc>, n: nat, draw: Draw)
    requires n >= |docs|
    ensures RestoredFrom(db, db, docs, n, draw)
  {
    assert db.log[..|db.log|] == db.log;
  }

  // ---- the operation ----

  /** docs are the documents of p with their tags normalised. */
  ghost predicate TagsNormalised(docs: seq<Doc>, p: seq<Doc>, lower: Fold) {
    && |docs| == |p|
    && forall i :: 0 <= i < |p| ==>
         && docs[i] == p[i].(task := p[i].task.(tags := docs[i].task.tags))
         && Normalized(p[i].task.tags, lower) == Some(docs[i].task.tags)
  }

  /** Restoring any payload that is accepted: its documents are taken parents first, with
      tags normalised; each new row and its timeline are one of them, none is passed over
      unless its id or its slot is taken, nothing that was there changes, the count is that
      of the new rows, and the tables are consistent afterwards. */
  lemma RestoredIs(db: DB, payload: seq<Doc>, lower: Fold, draw: Draw) returns (p: seq<Doc>, docs: seq<Doc>)
    requires Consistent(db) && Restored(db, payload, lower, draw).Ok?
    ensures multiset(p) == multiset(payload) && RestoreOrder.ParentsFirst(p, RestoreOrder.IdsOf(payload))
    ensures TagsNormalised(docs, p, lower)
    ensures var r := Restored(db, payload, lower, draw).value;
            && RestoredFrom(db, r.db, docs, 0, draw) && Consistent(r.db)
            && |r.db.tasks| == |db.tasks| + r.inserted
  {
    hide Consistent, RestoredFrom, WithDocs, RefsResolve, RestoreOrder.Rounds, Normalized;
    if |payload| == 0 {
      p, docs := [], [];
      NothingRestored(db, docs, 0, draw);
    } else {
      RestoreOrder.OrderedIsParentsFirstPermutation(payload);
      p := RestoreOrder.Ordered(payload).value;
      docs := WithNormalTags(p, lower);
      assert docs[0..] == docs;
      DocsRestored(Restoring(db, 0), docs, 0, draw);
    }
  }

  /** A reference of t that leads nowhere. */
  predicate Dangles(db: DB, payload: seq<Doc>, t: Task) {
    || (t.parentId.Some? && t.parentId.value !in db.tasks
        && forall j :: 0 <= j < |payload| ==> payload[j].task.id != t.parentId.value)
    || (t.teamId.Some? && t.teamId.value !in db.teams)
    || (t.assigneeId.Some? && t.assigneeId.value !in db.members)
    || (t.ownerId.Some? && t.ownerId.value !in db.members)
  }

  lemma SameMembersAs<T>(a: seq<T>, b: seq<T>)
    requires multiset(a) == multiset(b)
    ensures forall x :: x in a <==> x in b
  {
    assert forall x :: x in a <==> x in multiset(a);
    assert forall x :: x in b <==> x in multiset(b);
  }

  lemma ResolvesIs(db: DB, payload: seq<Doc>, docs: seq<Doc>, t: Task)
    requires forall id :: id in RestoreOrder.IdsOf(docs) <==> exists j :: 0 <= j < |payload| && payload[j].task.id == id
    ensures RefsResolve(db, RestoreOrder.IdsOf(docs), t) <==> !Dangles(db, payload, t)
  {
  }

  lemma {:induction false} DocsFailOnConstraint(r: Restoring, docs: seq<Doc>, draw: Draw)
    ensures WithDocs(r, docs, draw).Err? ==> WithDocs(r, docs, draw) == Err(ConstraintViolation)
    decreases |docs|
  {
    hide Conflicts, RowFits, WithEntries;
    if |docs| == 0 {
    } else {
      var db := r.db.(tasks := r.db.tasks[docs[0].task.id := docs[0].task]);
      EntriesFailOnConstraint(db, docs[0].task.id, docs[0].activity, draw);
      if WithDoc(r, docs[0], draw).Ok? { DocsFailOnConstraint(WithDoc(r, docs[0], draw).value, docs[1..], draw); }
    }
  }

  lemma {:induction false} EntriesFailOnConstraint(db: DB, taskId: Id, acts: seq<Entry>, draw: Draw)
    ensures WithEntries(db, taskId, acts, draw).Err? ==>
              WithEntries(db, taskId, acts, draw) == Err(ConstraintViolation)
    decreases |acts|
  {
    if |acts| == 0 {
    } else {
      var e := Identified(acts[0], draw(taskId, |acts|));
      EntriesFailOnConstraint(db, taskId, acts[1..], draw);
      EntriesFailOnConstraint(db.(log := db.log + [Replayed(db, taskId, e)]), taskId, acts[1..], draw);
    }
  }

  /** A payload that can be ordered is refused for its tags exactly if some document's are
      malformed, and else for its references exactly if some document has one that leads
      neither to the tables nor, for a parent, to the payload. */
  lemma RestoreRefusals(db: DB, payload: seq<Doc>, lower: Fold, draw: Draw)
    requires |payload| > 0 && RestoreOrder.Ordered(payload).Ok?
    ensures var r := Restored(db, payload, lower, draw);
            var malformed := exists i :: 0 <= i < |payload| && Normalized(payload[i].task.tags, lower) == None;
            && (r == Err(InvalidTags) <==> malformed)
            && (r == Err(RestoreMissingRef) <==>
                 !malformed && exists i :: 0 <= i < |payload| && Dangles(db, payload, payload[i].task))
  {
    hide WithDocs, RefsResolve, RestoreOrder.Rounds, Normalized, Dangles;
    RestoreOrder.OrderedIsParentsFirstPermutation(payload);
    var p := RestoreOrder.Ordered(payload).value;
    SameMembersAs(p, payload);
    assert TagsNormalise(p, lower) <==> forall d :: d in payload ==> Normalized(d.task.tags, lower).Some? by {
      if TagsNormalise(p, lower) {
        forall d | d in payload ensures Normalized(d.task.tags, lower).Some? {
          assert d in p;
          var i :| 0 <= i < |p| && p[i] == d;
        }
      }
      if forall d :: d in payload ==> Normalized(d.task.tags, lower).Some? {
        forall i | 0 <= i < |p| ensures Normalized(p[i].task.tags, lower).Some? { assert p[i] in payload; }
      }
    }
    if TagsNormalise(p, lower) { MissingRefIs(db, payload, p, lower, draw); }
  }

  lemma MissingRefIs(db: DB, payload: seq<Doc>, p: seq<Doc>, lower: Fold, draw: Draw)
    requires |payload| > 0 && RestoreOrder.Ordered(payload) == Ok(p) && TagsNormalise(p, lower)
    requires forall d :: d in p <==> d in payload
    ensures var r := Restored(db, payload, lower, draw);
            && r != Err(InvalidTags)
            && (r == Err(RestoreMissingRef) <==>
                exists i :: 0 <= i < |payload| && Dangles(db, payload, payload[i].task))
  {
    hide WithDocs, RefsResolve, RestoreOrder.Rounds, Normalized, Dangles;
    var clean := WithNormalTags(p, lower);
    DocsFailOnConstraint(Restoring(db, 0), clean, draw);
    forall id ensures id in RestoreOrder.IdsOf(clean) <==> exists j :: 0 <= j < |payload| && payload[j].task.id == id {
      if j :| 0 <= j < |payload| && payload[j].task.id == id {
        assert payload[j] in p;
        var i :| 0 <= i < |p| && p[i] == payload[j];
        assert clean[i].task.id == id;
      }
      if i :| 0 <= i < |clean| && clean[i].task.id == id {
        assert p[i] in payload;
        var j :| 0 <= j < |payload| && payload[j] == p[i];
      }
    }
    forall i | 0 <= i < |p|
      ensures RefsResolve(db, RestoreOrder.IdsOf(clean), clean[i].task) <==> !Dangles(db, payload, p[i].task)
    {
      ResolvesIs(db, payload, clean, clean[i].task);
      SameDangling(db, payload, p[i].task, clean[i].task);
    }
    if i :| 0 <= i < |payload| && Dangles(db, payload, payload[i].task) {
      assert payload[i] in p;
      var k :| 0 <= k < |p| && p[k] == payload[i];
    }
    if k :| 0 <= k < |clean| && !RefsResolve(db, RestoreOrder.IdsOf(clean), clean[k].task) {
      assert p[k] in payload;
      var i :| 0 <= i < |payload| && payload[i] == p[k];
    }
  }

  lemma SameDangling(db: DB, payload: seq<Doc>, t: Task, u: Task)
    requires u == t.(tags := u.tags)
    ensures Dangles(db, payload, t) == Dangles(db, payload, u)
  {
  }
}
