/** TeamBoard: one read, partitioned by assignee and sorted in place
    (internal/service/task_views.go). */
module TeamBoard {
  import opened Base
  import opened Calendar
  import Digits
  import opened Forest
  import opened Period
  import opened PeriodLine
  import opened Model
  import opened Listing
  import opened TeamScreens

  // ---- the order of a column ----

  /** What sortBoardTasks looks at: open first, then priority, then due date, undated last. */
  datatype Key = Key(closed: bool, rank: int, due: string)

  function PriorityRank(p: Priority): int {
    match p
    case High => 3
    case Medium => 2
    case Low => 1
    case _ => 0
  }

  function KeyOf(t: Task): Key {
    Key(Terminal(t.status), PriorityRank(t.priority), if t.dueDate == "" then "9999-99-99" else t.dueDate)
  }

  /** The comparison given to SliceStable. */
  predicate KeyLess(a: Key, b: Key) {
    if a.closed != b.closed then !a.closed
    else if a.rank != b.rank then a.rank > b.rank
    else StringLess(a.due, b.due)
  }

  lemma KeyOrder(a: Key, b: Key, c: Key)
    ensures KeyLess(a, b) || a == b || KeyLess(b, a)
    ensures KeyLess(a, b) ==> a != b && !KeyLess(b, a)
    ensures KeyLess(a, b) && KeyLess(b, c) ==> KeyLess(a, c)
  {
    hide StringLess;
    StringLessTotal(a.due, b.due);
    if StringLess(a.due, b.due) {
      StringLessAsymmetric(a.due, b.due);
      if StringLess(b.due, c.due) { StringLessTransitive(a.due, b.due, c.due); }
    }
    if a.due == b.due && StringLess(a.due, b.due) { StringLessAsymmetric(a.due, b.due); }
  }

  predicate Ordered(s: seq<Task>) {
    forall i, j :: 0 <= i < j < |s| ==> !KeyLess(KeyOf(s[j]), KeyOf(s[i]))
  }

  function SameKey(k: Key): Task -> bool {
    (t: Task) => KeyOf(t) == k
  }

  /** out is s sorted stably: ordered, and rows of equal key keep their order. */
  ghost predicate StablySorted(s: seq<Task>, out: seq<Task>) {
    Ordered(out) && SameClasses(out, s)
  }

  /** Each row moves left past the rows that it precedes. */
  function Insert(s: seq<Task>, x: Task): seq<Task> {
    if |s| == 0 then [x]
    else if KeyLess(KeyOf(x), KeyOf(s[|s| - 1])) then Insert(s[..|s| - 1], x) + [s[|s| - 1]]
    else s + [x]
  }

  function BoardSort(s: seq<Task>): seq<Task> {
    if |s| == 0 then [] else Insert(BoardSort(s[..|s| - 1]), s[|s| - 1])
  }

  lemma {:induction false} InsertIsStable(s: seq<Task>, x: Task, k: Key)
    ensures Filter(Insert(s, x), SameKey(k)) == Filter(s, SameKey(k)) + Filter([x], SameKey(k))
  {
    hide KeyLess, KeyOf, Filter;
    if |s| > 0 && KeyLess(KeyOf(x), KeyOf(s[|s| - 1])) {
      var init, last := s[..|s| - 1], s[|s| - 1];
      InsertIsStable(init, x, k);
      FilterConcat(Insert(init, x), [last], SameKey(k));
      FilterConcat(init, [last], SameKey(k));
      assert s == init + [last];
      PassedBy(x, last, k);
      var f, g, h := Filter(init, SameKey(k)), Filter([x], SameKey(k)), Filter([last], SameKey(k));
      assert f + g + h == f + (g + h) && f + h + g == f + (h + g);
    } else {
      FilterConcat(s, [x], SameKey(k));
      assert |s| == 0 ==> [x] == s + [x];
    }
  }

  /** A row moves only past rows of other keys. */
  lemma PassedBy(x: Task, y: Task, k: Key)
    requires KeyLess(KeyOf(x), KeyOf(y))
    ensures Filter([x], SameKey(k)) + Filter([y], SameKey(k)) == Filter([y], SameKey(k)) + Filter([x], SameKey(k))
  {
    hide KeyLess, Filter;
    KeyOrder(KeyOf(x), KeyOf(y), k);
    FilterOne(x, SameKey(k));
    FilterOne(y, SameKey(k));
  }

  lemma {:induction false} InsertMembers(s: seq<Task>, x: Task)
    ensures forall y :: y in Insert(s, x) <==> y in s || y == x
    ensures |Insert(s, x)| == |s| + 1
  {
    hide KeyLess;
    if |s| > 0 && KeyLess(KeyOf(x), KeyOf(s[|s| - 1])) {
      InsertMembers(s[..|s| - 1], x);
      assert s == s[..|s| - 1] + [s[|s| - 1]];
    }
  }

  lemma {:induction false} InsertIsOrdered(s: seq<Task>, x: Task)
    requires Ordered(s)
    ensures Ordered(Insert(s, x))
  {
    hide KeyLess;
    if |s| == 0 {
    } else {
      var init, last := s[..|s| - 1], s[|s| - 1];
      if KeyLess(KeyOf(x), KeyOf(last)) {
        InsertIsOrdered(init, x);
        InsertMembers(init, x);
        var rest := Insert(init, x);
        KeyOrder(KeyOf(x), KeyOf(last), KeyOf(x));
        forall i | 0 <= i < |rest| ensures !KeyLess(KeyOf(last), KeyOf(rest[i])) {
          assert rest[i] in rest;
        }
      } else {
        forall i | 0 <= i < |s| ensures !KeyLess(KeyOf(x), KeyOf(s[i])) {
          if i < |s| - 1 { NotLessTransitive(KeyOf(x), KeyOf(last), KeyOf(s[i])); }
        }
      }
    }
  }

  lemma NotLessTransitive(a: Key, b: Key, c: Key)
    requires !KeyLess(a, b) && !KeyLess(b, c)
    ensures !KeyLess(a, c)
  {
    KeyOrder(a, b, c);
    KeyOrder(b, a, c);
    KeyOrder(b, c, a);
    KeyOrder(a, c, b);
    KeyOrder(c, b, a);
    hide KeyLess;
  }

  lemma {:induction false} BoardSortIsOrdered(s: seq<Task>)
    ensures Ordered(BoardSort(s))
  {
    hide Ordered, Insert;
    if |s| == 0 {
      NothingOrdered();
    } else {
      BoardSortIsOrdered(s[..|s| - 1]);
      InsertIsOrdered(BoardSort(s[..|s| - 1]), s[|s| - 1]);
    }
  }

  lemma {:induction false} BoardSortKeeps(s: seq<Task>, k: Key)
    ensures Filter(BoardSort(s), SameKey(k)) == Filter(s, SameKey(k))
  {
    hide Ordered, Insert, SameKey;
    if |s| == 0 {
    } else {
      var init, last := s[..|s| - 1], s[|s| - 1];
      BoardSortKeeps(init, k);
      BoardSortIsOrdered(init);
      assert s == init + [last];
      assert BoardSort(s) == Insert(BoardSort(init), last);
      hide BoardSort, Filter;
      InsertIsStable(BoardSort(init), last, k);
      FilterConcat(init, [last], SameKey(k));
    }
  }

  /** sortBoardTasks sorts stably. */
  lemma BoardSortIsStable(s: seq<Task>)
    ensures StablySorted(s, BoardSort(s))
  {
    hide Ordered, BoardSort, Filter;
    BoardSortIsOrdered(s);
    forall k ensures Filter(BoardSort(s), SameKey(k)) == Filter(s, SameKey(k)) { BoardSortKeeps(s, k); }
  }

  lemma NothingOrdered()
    ensures Ordered([])
  {
  }

  // ---- a stable sort has one result ----

  /** Of every key, the same rows in the same order. */
  ghost predicate SameClasses(a: seq<Task>, b: seq<Task>) {
    forall k :: Filter(a, SameKey(k)) == Filter(b, SameKey(k))
  }

  lemma SameMembers(a: seq<Task>, b: seq<Task>)
    requires SameClasses(a, b)
    ensures forall y :: y in a ==> y in b
  {
    hide Filter;
    forall y | y in a ensures y in b {
      FilterMembers(a, SameKey(KeyOf(y)));
      FilterMembers(b, SameKey(KeyOf(y)));
      assert Filter(a, SameKey(KeyOf(y))) == Filter(b, SameKey(KeyOf(y)));
    }
  }

  lemma BothWays(a: seq<Task>, b: seq<Task>)
    requires SameClasses(a, b)
    ensures SameClasses(b, a)
  {
    hide Filter;
  }

  lemma SameLast(a: seq<Task>, b: seq<Task>)
    requires Ordered(a) && Ordered(b) && |a| > 0 && |b| > 0 && SameClasses(a, b)
    requires (forall y :: y in a ==> y in b) && (forall y :: y in b ==> y in a)
    ensures a[|a| - 1] == b[|b| - 1]
  {
    hide KeyLess, Filter;
    var x, y := a[|a| - 1], b[|b| - 1];
    assert x in a && y in b;
    var i :| 0 <= i < |b| && b[i] == x;
    var j :| 0 <= j < |a| && a[j] == y;
    KeyOrder(KeyOf(x), KeyOf(y), KeyOf(x));
    assert KeyOf(x) == KeyOf(y);
    assert Filter(a, SameKey(KeyOf(x))) == Filter(b, SameKey(KeyOf(x)));
    hide SameClasses, Ordered, KeyOf;
    LastOfClass(a);
    LastOfClass(b);
  }

  lemma LastOfClass(a: seq<Task>)
    requires |a| > 0
    ensures var x := a[|a| - 1];
            var f := Filter(a, SameKey(KeyOf(x)));
            |f| > 0 && f[|f| - 1] == x
  {
    hide KeyOf;
  }

  lemma DropLast(a: seq<Task>, b: seq<Task>)
    requires |a| > 0 && |b| > 0 && SameClasses(a, b) && a[|a| - 1] == b[|b| - 1]
    ensures SameClasses(a[..|a| - 1], b[..|b| - 1])
  {
    hide Filter, KeyOf;
    var c, d, x := a[..|a| - 1], b[..|b| - 1], a[|a| - 1];
    assert a == c + [x] && b == d + [x];
    forall k ensures Filter(c, SameKey(k)) == Filter(d, SameKey(k)) {
      FilterConcat(c, [x], SameKey(k));
      FilterConcat(d, [x], SameKey(k));
      SameSuffix(Filter(c, SameKey(k)), Filter(d, SameKey(k)), Filter([x], SameKey(k)));
    }
  }

  lemma SameSuffix(c: seq<Task>, d: seq<Task>, e: seq<Task>)
    requires c + e == d + e
    ensures c == d
  {
    assert |c| == |d|;
    assert (c + e)[..|c|] == c && (d + e)[..|d|] == d;
  }

  lemma OrderedPrefix(a: seq<Task>)
    requires Ordered(a) && |a| > 0
    ensures Ordered(a[..|a| - 1])
  {
  }

  /** Two stably sorted arrangements of the same rows are equal. */
  lemma {:induction false} StableSortIsUnique(a: seq<Task>, b: seq<Task>)
    requires Ordered(a) && Ordered(b) && SameClasses(a, b)
    ensures a == b
    decreases |a|
  {
    hide *;
    assert |b| > 0 ==> b[0] in b;
    SameMembers(a, b);
    BothWays(a, b);
    SameMembers(b, a);
    if |a| == 0 {
    } else {
      assert a[0] in a;
      SameLast(a, b);
      DropLast(a, b);
      OrderedPrefix(a);
      OrderedPrefix(b);
      StableSortIsUnique(a[..|a| - 1], b[..|b| - 1]);
      assert a == a[..|a| - 1] + [a[|a| - 1]] && b == b[..|b| - 1] + [b[|b| - 1]];
    }
  }

  // ---- the order, in terms of status, priority and dates ----

  predicate Closed(t: Task) {
    t.status == Done || t.status == Cancelled
  }

  /** High before medium before low before none. */
  predicate MoreUrgent(p: Priority, q: Priority) {
    || (p == High && q != High)
    || (p == Medium && q != High && q != Medium)
    || (p == Low && q != High && q != Medium && q != Low)
  }

  /** The earlier day, and any day before none. */
  predicate DueEarlier(a: string, b: string) {
    a != "" && (b == "" || (ParseDate(a).Some? && ParseDate(b).Some? && ParseDate(a).value < ParseDate(b).value))
  }

  /** Open before closed; then the more urgent; then the one due earlier; then the older. */
  predicate StandsBefore(a: Task, b: Task) {
    if Closed(a) != Closed(b) then Closed(b)
    else if MoreUrgent(a.priority, b.priority) || MoreUrgent(b.priority, a.priority)
    then MoreUrgent(a.priority, b.priority)
    else if a.dueDate != b.dueDate then DueEarlier(a.dueDate, b.dueDate)
    else a.createdAt < b.createdAt || (a.createdAt == b.createdAt && StringLess(a.id, b.id))
  }

  predicate DateReadable(s: string) {
    s == "" || ParseDate(s).Some?
  }

  lemma {:induction false} LessAfterPrefix(s: string, t: string, k: nat)
    requires k < |s| && k < |t| && s[k] < t[k] && forall i :: 0 <= i < k ==> s[i] <= t[i]
    ensures StringLess(s, t)
  {
    if k == 0 {
    } else if s[0] == t[0] {
      LessAfterPrefix(s[1..], t[1..], k - 1);
    }
  }

  /** What stands for an undated task sorts after every date: no month is past 12. */
  lemma DatesBeforeNone(s: string)
    requires ParseDate(s).Some?
    ensures StringLess(s, "9999-99-99") && s != "9999-99-99"
  {
    hide StringLess, ValidCivil, DayOf, FormatDate;
    var month := s[5..7];
    assert month == [s[5], s[6]] && month[..1] == [s[5]] && month[..1][..0] == "";
    assert Digits.Value(month) <= 12 by {
      MonthsToTwelve(Digits.Value(s[..4]), Digits.Value(month), Digits.Value(s[8..]));
    }
    assert forall i :: 0 <= i < 4 ==> Digits.IsDigit(s[..4][i]) && s[..4][i] == s[i];
    assert Digits.IsDigit(month[0]) && Digits.IsDigit(month[1]);
    assert Digits.Value(month) == 10 * Digits.Value(month[..1]) + (s[6] as int - '0' as int);
    assert Digits.Value(month[..1]) == s[5] as int - '0' as int;
    assert s[5] < '9';
    var none := "9999-99-99";
    assert none[4] == '-' && none[5] == '9' && forall i :: 0 <= i < 4 ==> none[i] == '9';
    LessAfterPrefix(s, none, 5);
  }

  lemma MonthsToTwelve(y: int, m: int, d: int)
    requires ValidCivil(Civil(y, m, d))
    ensures m <= 12
  {
  }

  lemma DueOrder(a: string, b: string)
    requires DateReadable(a) && DateReadable(b) && a != b
    ensures var x, y := if a == "" then "9999-99-99" else a, if b == "" then "9999-99-99" else b;
            (StringLess(x, y) <==> DueEarlier(a, b)) && x != y
  {
    hide ParseDate, StringLess, FormatDate, YearOfIndex;
    if a != "" { DatesBeforeNone(a); }
    if b != "" { DatesBeforeNone(b); }
    if a == "" {
      StringLessAsymmetric(b, "9999-99-99");
    } else if b != "" {
      var d, e := ParseDate(a).value, ParseDate(b).value;
      ParseDateAccepts(a, d);
      ParseDateAccepts(b, e);
      FormatOrder(Daily, d, e);
    }
  }

  /** The sort key decides what stands before what, save among rows of one key. */
  lemma KeyDecides(a: Task, b: Task)
    requires DateReadable(a.dueDate) && DateReadable(b.dueDate)
    ensures KeyLess(KeyOf(a), KeyOf(b)) ==> StandsBefore(a, b)
    ensures KeyOf(a) == KeyOf(b) && Before(a, b) ==> StandsBefore(a, b)
  {
    hide ParseDate, StringLess;
    if a.dueDate != b.dueDate { DueOrder(a.dueDate, b.dueDate); } else { NotLessThanItself(KeyOf(a).due); }
  }

  predicate InListOrder(s: seq<Task>) {
    forall i, j :: 0 <= i < j < |s| ==> Before(s[i], s[j])
  }

  lemma {:induction false} FilterKeepsListOrder(s: seq<Task>, p: Task -> bool)
    requires InListOrder(s)
    ensures InListOrder(Filter(s, p))
  {
    hide Before;
    if |s| == 0 {
    } else {
      var init, last := s[..|s| - 1], s[|s| - 1];
      FilterKeepsListOrder(init, p);
      FilterMembers(init, p);
      var f := Filter(init, p);
      forall i | 0 <= i < |f| ensures Before(f[i], last) {
        assert f[i] in init;
      }
    }
  }

  /** Two rows that pass a filter pass it in their order. */
  lemma {:induction false} FilterPlaces(s: seq<Task>, p: Task -> bool, i: nat, j: nat) returns (a: nat, b: nat)
    requires i < j < |s| && p(s[i]) && p(s[j])
    ensures a < b < |Filter(s, p)| && Filter(s, p)[a] == s[i] && Filter(s, p)[b] == s[j]
  {
    var init := s[..|s| - 1];
    if j < |init| {
      a, b := FilterPlaces(init, p, i, j);
    } else {
      FilterMembers(init, p);
      assert s[i] == init[i] && init[i] in Filter(init, p);
      a :| 0 <= a < |Filter(init, p)| && Filter(init, p)[a] == s[i];
      b := |Filter(init, p)|;
    }
  }

  /** A stably sorted list of rows in list order stands in board order. */
  lemma SortedStands(s: seq<Task>, out: seq<Task>, i: nat, j: nat)
    requires InListOrder(s) && StablySorted(s, out) && i < j < |out|
    requires DateReadable(out[i].dueDate) && DateReadable(out[j].dueDate)
    ensures StandsBefore(out[i], out[j])
  {
    hide ParseDate, StringLess, Filter, StandsBefore, DateReadable, KeyLess, KeyOf, Before;
    var k := KeyOf(out[i]);
    KeyOrder(KeyOf(out[i]), KeyOf(out[j]), k);
    KeyDecides(out[i], out[j]);
    if KeyOf(out[j]) == k {
      var a, b := FilterPlaces(out, SameKey(k), i, j);
      FilterKeepsListOrder(s, SameKey(k));
      assert Filter(out, SameKey(k)) == Filter(s, SameKey(k));
    }
  }

  // ---- the read ----

  /** Rows in list order. */
  function Rows(tasks: map<Id, Task>, ids: set<Id>): seq<Task>
    requires Keyed(tasks) && ids <= tasks.Keys
  {
    ListedIsTheSet(tasks, ids);
    var listed := Listed(tasks, ids);
    seq(|listed|, i requires 0 <= i < |listed| => (assert listed[i] in listed; tasks[listed[i]]))
  }

  predicate HasTags(t: Task, tags: seq<string>) {
    forall i :: 0 <= i < |tags| ==> tags[i] in t.tags
  }

  /** The board's one query. */
  function BoardIds(tasks: map<Id, Task>, team: Id, tags: seq<string>, w: string): (ids: set<Id>)
    ensures ids <= tasks.Keys
  {
    set x | x in tasks && tasks[x].teamId == Some(team) && OnBoard(tasks[x], w) && HasTags(tasks[x], tags)
  }

  /** The same query, asked for one assignee. */
  function AssignedIds(tasks: map<Id, Task>, team: Id, tags: seq<string>, w: string, who: Option<Id>): (ids: set<Id>)
    ensures ids <= tasks.Keys
  {
    set x | x in BoardIds(tasks, team, tags, w) && tasks[x].assigneeId == who
  }

  function AssignedTo(who: Option<Id>): Task -> bool {
    (t: Task) => t.assigneeId == who
  }

  /** Who sees a task on the board: open and dated, or of the current week. */
  predicate Shown(t: Task, team: Id, tags: seq<string>, w: string, who: Option<Id>) {
    && t.teamId == Some(team) && t.assigneeId == who
    && (forall i :: 0 <= i < |tags| ==> tags[i] in t.tags)
    && (((t.status == Todo || t.status == InProgress) && t.dueDate != "")
        || ((t.status == Todo || t.status == InProgress || Closed(t)) && t.weekOf != "" && t.weekOf == w))
  }

  /** A column holds exactly the rows shown for who, each standing before the next. */
  ghost predicate ColumnFor(column: seq<Task>, tasks: map<Id, Task>, team: Id, tags: seq<string>, w: string,
                            who: Option<Id>) {
    && (forall t :: t in column <==> t.id in tasks && tasks[t.id] == t && Shown(t, team, tags, w, who))
    && (forall i, j :: 0 <= i < j < |column| && DateReadable(column[i].dueDate) && DateReadable(column[j].dueDate) ==>
         StandsBefore(column[i], column[j]))
  }

  lemma RowsAre(tasks: map<Id, Task>, ids: set<Id>)
    requires Keyed(tasks) && ids <= tasks.Keys
    ensures forall t :: t in Rows(tasks, ids) <==> t.id in ids && tasks[t.id] == t
    ensures InListOrder(Rows(tasks, ids))
  {
    hide Listed, Before;
    ListedIsTheSet(tasks, ids);
    var listed, rows := Listed(tasks, ids), Rows(tasks, ids);
    forall t: Task | t.id in ids && tasks[t.id] == t ensures t in rows {
      assert t.id in listed;
      var i :| 0 <= i < |listed| && listed[i] == t.id;
      assert rows[i] == t;
    }
    forall i, j | 0 <= i < j < |rows| ensures Before(rows[i], rows[j]) { ListedIsOrdered(tasks, ids, i, j); }
  }

  lemma ShownAre(tasks: map<Id, Task>, team: Id, tags: seq<string>, w: string, who: Option<Id>, t: Task)
    ensures t.id in AssignedIds(tasks, team, tags, w, who) && tasks[t.id] == t <==>
            t.id in tasks && tasks[t.id] == t && Shown(t, team, tags, w, who)
  {
  }

  /** The stably sorted query for who is that column. */
  lemma SortedQueryIsColumn(tasks: map<Id, Task>, team: Id, tags: seq<string>, w: string, who: Option<Id>)
    requires Keyed(tasks)
    ensures ColumnFor(BoardSort(Rows(tasks, AssignedIds(tasks, team, tags, w, who))), tasks, team, tags, w, who)
  {
    hide Rows, AssignedIds, BoardSort, Shown, StandsBefore, Filter, Ordered, DateReadable, InListOrder;
    var ids := AssignedIds(tasks, team, tags, w, who);
    var rows := Rows(tasks, ids);
    var column := BoardSort(rows);
    RowsAre(tasks, ids);
    BoardSortIsStable(rows);
    SameMembers(column, rows);
    BothWays(column, rows);
    SameMembers(rows, column);
    forall t ensures t in column <==> t.id in tasks && tasks[t.id] == t && Shown(t, team, tags, w, who) {
      ShownAre(tasks, team, tags, w, who, t);
    }
    forall i, j | 0 <= i < j < |column| && DateReadable(column[i].dueDate) && DateReadable(column[j].dueDate)
      ensures StandsBefore(column[i], column[j])
    {
      SortedStands(rows, column, i, j);
    }
  }

  datatype Board = Board(columns: seq<seq<Task>>, unassigned: seq<Task>, staleOpen: nat)

  /** Open, undated and of an earlier week. */
  predicate Stale(t: Task, team: Id, w: string) {
    && t.teamId == Some(team) && (t.status == Todo || t.status == InProgress)
    && t.dueDate == "" && t.weekOf != "" && StringLess(t.weekOf, w)
  }

  /** Every column is what a query for that member alone would list, stably sorted, and so
      the rows shown for the member, each standing before the next. */
  method BuildBoard(tasks: map<Id, Task>, team: Id, members: seq<Id>, tags: seq<string>, w: string)
    returns (board: Board)
    requires Keyed(tasks)
    ensures |board.columns| == |members|
    ensures forall i :: 0 <= i < |members| ==>
              board.columns[i] == BoardSort(Rows(tasks, AssignedIds(tasks, team, tags, w, Some(members[i]))))
    ensures board.unassigned == BoardSort(Rows(tasks, AssignedIds(tasks, team, tags, w, None)))
    ensures forall i :: 0 <= i < |members| ==>
              ColumnFor(board.columns[i], tasks, team, tags, w, Some(members[i]))
    ensures ColumnFor(board.unassigned, tasks, team, tags, w, None)
    ensures board.staleOpen == |set x | x in tasks && Stale(tasks[x], team, w)|
  {
    hide OnBoard, InRollover, Stale, BoardSort, Rows, AssignedIds, BoardIds, Filter, ColumnFor;
    var all := Rows(tasks, BoardIds(tasks, team, tags, w));
    var byAssignee: map<Id, seq<Task>> := map x | x in members :: [];
    var unassigned: seq<Task> := [];
    assert all[..0] == [];
    NothingToFilter();
    for k := 0 to |all|
      invariant byAssignee.Keys == set x | x in members
      invariant forall x :: x in byAssignee ==> byAssignee[x] == Filter(all[..k], AssignedTo(Some(x)))
      invariant unassigned == Filter(all[..k], AssignedTo(None))
    {
      var v := all[k];
      FilterStep(all, k);
      if v.assigneeId == None {
        unassigned := unassigned + [v];
        continue;
      }
      if v.assigneeId.value in byAssignee {
        byAssignee := byAssignee[v.assigneeId.value := byAssignee[v.assigneeId.value] + [v]];
      }
    }
    assert all[..|all|] == all;
    var columns: seq<seq<Task>> := [];
    for i := 0 to |members|
      invariant |columns| == i
      invariant forall j :: 0 <= j < i ==>
                columns[j] == BoardSort(Rows(tasks, AssignedIds(tasks, team, tags, w, Some(members[j]))))
    {
      assert members[i] in byAssignee;
      FilteredRead(tasks, team, tags, w, Some(members[i]));
      columns := columns + [BoardSort(byAssignee[members[i]])];
    }
    FilteredRead(tasks, team, tags, w, None);
    board := Board(columns, BoardSort(unassigned),
                   |set x | x in tasks && tasks[x].teamId == Some(team) && InRollover(tasks[x], w)|);
    StaleIsRollover(tasks, team, w);
    forall who ensures ColumnFor(BoardSort(Rows(tasks, AssignedIds(tasks, team, tags, w, who))), tasks, team, tags, w,
                                 who) {
      SortedQueryIsColumn(tasks, team, tags, w, who);
    }
  }

  lemma StaleIsRollover(tasks: map<Id, Task>, team: Id, w: string)
    ensures (set x | x in tasks && Stale(tasks[x], team, w)) ==
            set x | x in tasks && tasks[x].teamId == Some(team) && InRollover(tasks[x], w)
  {
  }

  lemma NothingToFilter()
    ensures forall p: Task -> bool :: Filter([], p) == []
  {
  }

  lemma FilterStep(s: seq<Task>, k: nat)
    requires k < |s|
    ensures forall who ::
              Filter(s[..k + 1], AssignedTo(who))
              == Filter(s[..k], AssignedTo(who)) + (if s[k].assigneeId == who then [s[k]] else [])
  {
    assert s[..k + 1][..k] == s[..k];
  }

  // ---- filtering a read is reading with a filter ----

  lemma RowsStep(tasks: map<Id, Task>, ids: set<Id>)
    requires Keyed(tasks) && ids <= tasks.Keys && ids != {}
    ensures var x := FirstOf(tasks, ids); Rows(tasks, ids) == [tasks[x]] + Rows(tasks, ids - {x})
  {
    hide FirstOf;
  }

  lemma {:induction false} FilterRows(tasks: map<Id, Task>, ids: set<Id>, sub: set<Id>, p: Task -> bool)
    requires Keyed(tasks) && ids <= tasks.Keys && sub == set x | x in ids && p(tasks[x])
    ensures Filter(Rows(tasks, ids), p) == Rows(tasks, sub)
    decreases ids
  {
    hide Filter, Listed, FirstOf, Before;
    if ids == {} {
      assert Rows(tasks, ids) == [] by { NoRows(tasks); }
      NothingToFilter();
      assert sub == {};
    } else {
      var x := FirstOf(tasks, ids);
      var rest := set y | y in ids - {x} && p(tasks[y]);
      RowsStep(tasks, ids);
      FilterRows(tasks, ids - {x}, rest, p);
      FilterConcat([tasks[x]], Rows(tasks, ids - {x}), p);
      FilterOne(tasks[x], p);
      if p(tasks[x]) {
        FirstIsUnique(tasks, sub);
        assert IsFirst(tasks, sub, x);
        RowsStep(tasks, sub);
        assert sub - {x} == rest;
      } else {
        assert sub == rest;
        assert [] + Rows(tasks, rest) == Rows(tasks, rest);
      }
    }
  }

  lemma NoRows(tasks: map<Id, Task>)
    requires Keyed(tasks)
    ensures Rows(tasks, {}) == []
  {
  }

  lemma FilteredRead(tasks: map<Id, Task>, team: Id, tags: seq<string>, w: string, who: Option<Id>)
    requires Keyed(tasks)
    ensures Filter(Rows(tasks, BoardIds(tasks, team, tags, w)), AssignedTo(who)) ==
            Rows(tasks, AssignedIds(tasks, team, tags, w, who))
  {
    hide OnBoard, Filter, Rows;
    FilterRows(tasks, BoardIds(tasks, team, tags, w), AssignedIds(tasks, team, tags, w, who), AssignedTo(who));
  }
}
