/** Lazy catch-up under concurrency: several requests run Materialize on one series
    at the same time, each insert a transaction of its own, any of them liable to
    stop half-way (internal/service/task_views.go, internal/model/recur.go). */
module CatchUp {
  import opened Base
  import opened Forest
  import opened Period
  import opened PeriodLine
  import opened Duration
  import opened Recur
  import opened Model
  import opened TaskInvariants
  import opened Materialization

  /** The greatest of some periods, as strings compare. */
  predicate IsMax(rows: seq<string>, m: string) {
    m in rows && forall p :: p in rows && p != m ==> StringLess(p, m)
  }

  /** A series: its rule, and the periods of its rows before the first run. */
  datatype Series = Series(rule: Recurrence, horizon: Horizon, zone: Zone, start: seq<string>, latest: string) {
    /** The rule is readable and the latest row lies in a year from 0 to 9999. */
    predicate Valid() {
      && RecurrenceHorizon(rule.freq) == Some(horizon)
      && (rule.anchor == "" || AnchorIndex(rule).Some?)
      && Distinct(start) && IsMax(start, latest)
      && ParsePeriod(horizon, latest).Some? && FourDigit(horizon, ParsePeriod(horizon, latest).value)
    }

    function First(): int
      requires Valid()
    {
      ParsePeriod(horizon, latest).value
    }

    /** Period j comes after the first latest row, and the rule asks for it. */
    predicate Due(j: int)
      requires Valid()
    {
      First() < j && Occurs(rule, horizon, j, zone) == Some(true)
    }

    function Text(j: int): string {
      FormatPeriod(horizon, j)
    }

    /** A current period: its year is at most 9999 and it is not that year's last. */
    predicate Reachable(c: int) {
      Ranked(horizon) && FourDigit(horizon, c) && c < LastIndex(horizon)
    }
  }

  /** One request: not running, having read the rows, or inserting what it found missing. */
  datatype Worker = Idle | Read(latest: string) | Inserting(goal: int, todo: seq<string>)

  /** rows are the periods of the series' rows in insertion order; goals are the
      current periods of the runs begun so far, finished those of the runs that ended. */
  datatype State = State(rows: seq<string>, workers: map<nat, Worker>, goals: set<int>, finished: set<int>)

  datatype Event =
    | ReadRows(worker: nat)
    | Plan(worker: nat, current: int)
    | Insert(worker: nat)
    | Finish(worker: nat)
    | Stop(worker: nat)

  ghost predicate Init(s: Series, st: State) {
    st.rows == s.start && st.goals == {} && st.finished == {} && forall w :: w in st.workers ==> st.workers[w].Idle?
  }

  ghost predicate Next(s: Series, st: State, event: Event, after: State) {
    && event.worker in st.workers
    && var w := st.workers[event.worker];
       match event
       case ReadRows(i) =>
         w.Idle? && exists m :: IsMax(st.rows, m) && after == st.(workers := st.workers[i := Read(m)])
       case Plan(i, c) =>
         && w.Read? && s.Reachable(c)
         && (CanonicalText(s, c);
             after == match Missing(s.rule, s.horizon, w.latest, s.Text(c), s.zone)
                      case Some(periods) => st.(workers := st.workers[i := Inserting(c, periods)],
                                                goals := st.goals + {c})
                      case None => st.(workers := st.workers[i := Idle]))
       case Insert(i) =>
         && w.Inserting? && |w.todo| > 0
         && after == st.(rows := if w.todo[0] in st.rows then st.rows else st.rows + [w.todo[0]],
                         workers := st.workers[i := w.(todo := w.todo[1..])])
       case Finish(i) =>
         w.Inserting? && w.todo == [] && after ==
             st.(workers := st.workers[i := Idle], finished := st.finished + {w.goal})
       case Stop(i) =>
         after == st.(workers := st.workers[i := Idle])
  }

  lemma CanonicalText(s: Series, c: int)
    requires s.Reachable(c)
    ensures Canonical(s.horizon, s.Text(c)) && ParsePeriod(s.horizon, s.Text(c)) == Some(c)
  {
    hide FormatPeriod, ParsePeriod, YearOfIndex, LastIndex;
    ParseOfFormat(s.horizon, c);
  }

  ghost predicate Run(s: Series, states: seq<State>, events: seq<Event>) {
    && |states| == |events| + 1
    && Init(s, states[0])
    && forall i :: 0 <= i < |events| ==> Next(s, states[i], events[i], states[i + 1])
  }

  // ---- the invariant ----

  /** Every due period before k has its row. */
  ghost predicate Filled(s: Series, rows: seq<string>, k: int)
    requires s.Valid()
  {
    forall j :: j < k && s.Due(j) ==> s.Text(j) in rows
  }

  /** p was inserted as due period j: some run reached that far, and nothing due
      before it was skipped. */
  ghost predicate Grown(s: Series, st: State, p: string, j: int)
    requires s.Valid()
  {
    s.Due(j) && p == s.Text(j) && Filled(s, st.rows, j) && exists c :: c in st.goals && s.Reachable(c) && j <= c
  }

  /** A latest row that a run may start from. */
  ghost predicate Settled(s: Series, rows: seq<string>, m: string)
    requires s.Valid()
  {
    && ParsePeriod(s.horizon, m).Some?
    && s.First() <= ParsePeriod(s.horizon, m).value
    && FourDigit(s.horizon, ParsePeriod(s.horizon, m).value)
    && Filled(s, rows, ParsePeriod(s.horizon, m).value + 1)
  }

  /** What is left to insert is everything due from k on. */
  ghost predicate PlannedFrom(s: Series, st: State, w: Worker, k: int)
    requires s.Valid() && w.Inserting?
  {
    s.First() < k && Filled(s, st.rows, k) && w.todo == Occurrences(s.rule, s.horizon, k, w.goal + 1, s.zone)
  }

  ghost predicate WorkerFine(s: Series, st: State, w: Worker)
    requires s.Valid()
  {
    match w
    case Idle => true
    case Read(m) => Settled(s, st.rows, m)
    case Inserting(c, todo) => c in st.goals && s.Reachable(c) && exists k :: PlannedFrom(s, st, w, k)
  }

  ghost predicate RowsFine(s: Series, st: State)
    requires s.Valid()
  {
    && Distinct(st.rows)
    && s.start <= st.rows
    && forall p :: p in st.rows && p !in s.start ==> exists j :: Grown(s, st, p, j)
  }

  ghost predicate Inv(s: Series, st: State)
    requires s.Valid()
  {
    && RowsFine(s, st)
    && (forall i :: i in st.workers ==> WorkerFine(s, st, st.workers[i]))
    && (forall c :: c in st.finished ==> c in st.goals && Filled(s, st.rows, c + 1))
  }

  // ---- each event keeps it ----

  lemma NextKeepsInv(s: Series, st: State, event: Event, after: State)
    requires s.Valid() && Inv(s, st) && Next(s, st, event, after)
    ensures Inv(s, after)
  {
    hide *;
    NextCases(s, st, event, after);
    match event {
      case ReadRows(i) =>
        var m :| IsMax(st.rows, m) && after == st.(workers := st.workers[i := Read(m)]);
        InvParts(s, st);
        ReadIsSettled(s, st, m);
        SetWorker(s, st, i, Read(m), after);
      case Plan(i, c) => PlanKeepsInv(s, st, i, c, after);
      case Insert(i) => InsertKeepsInv(s, st, i, after);
      case Finish(i) => FinishKeepsInv(s, st, i, after);
      case Stop(i) => IdleFine(s, st); SetWorker(s, st, i, Idle, after);
    }
  }

  lemma NextCases(s: Series, st: State, event: Event, after: State)
    requires Next(s, st, event, after)
    ensures event.worker in st.workers
    ensures event.ReadRows? ==> exists m :: IsMax(st.rows, m)
                                            && after == st.(workers := st.workers[event.worker := Read(m)])
    ensures event.Stop? ==> after == st.(workers := st.workers[event.worker := Idle])
  {
    hide IsMax, Missing, FormatPeriod, ParsePeriod;
  }

  lemma InvParts(s: Series, st: State)
    requires s.Valid() && Inv(s, st)
    ensures RowsFine(s, st)
    ensures forall i :: i in st.workers ==> WorkerFine(s, st, st.workers[i])
    ensures forall c :: c in st.finished ==> c in st.goals && Filled(s, st.rows, c + 1)
  {
    hide RowsFine, WorkerFine, Filled;
  }

  lemma IdleFine(s: Series, st: State)
    requires s.Valid()
    ensures WorkerFine(s, st, Idle)
  {
  }

  /** Changing one worker, and nothing else, keeps the invariant if that worker is fine. */
  lemma SetWorker(s: Series, st: State, i: nat, w: Worker, after: State)
    requires s.Valid() && Inv(s, st) && WorkerFine(s, st, w) && after == st.(workers := st.workers[i := w])
    ensures Inv(s, after)
  {
    StateGrows(s, st, after);
    hide Filled, WorkerFine, RowsFine;
  }

  /** Rows and goals only grow, so nothing that was fine stops being so. */
  lemma StateGrows(s: Series, st: State, after: State)
    requires s.Valid() && st.goals <= after.goals && forall p :: p in st.rows ==> p in after.rows
    ensures forall k :: Filled(s, st.rows, k) ==> Filled(s, after.rows, k)
    ensures forall w :: WorkerFine(s, st, w) ==> WorkerFine(s, after, w)
    ensures forall p, j :: Grown(s, st, p, j) ==> Grown(s, after, p, j)
  {
    hide Occurs, FormatPeriod, ParsePeriod, Occurrences, YearOfIndex, LastIndex;
    forall k | Filled(s, st.rows, k) ensures Filled(s, after.rows, k) { }
    hide Filled;
    forall w | WorkerFine(s, st, w) ensures WorkerFine(s, after, w) {
      if w.Inserting? {
        var k :| PlannedFrom(s, st, w, k);
        assert PlannedFrom(s, after, w, k);
      }
    }
  }

  /** The greatest row read is either the first latest row or a period that was grown. */
  lemma ReadIsSettled(s: Series, st: State, m: string)
    requires s.Valid() && RowsFine(s, st) && IsMax(st.rows, m)
    ensures WorkerFine(s, st, Read(m))
  {
    hide Occurs, StringLess, YearOfIndex, LastIndex, ParsePeriod, FormatPeriod;
    if m in s.start {
      assert forall p :: p in s.start ==> p in st.rows;
      if m != s.latest { StringLessAsymmetric(m, s.latest); }
    } else {
      var j :| Grown(s, st, m, j);
      DueText(s, st, m, j);
    }
  }

  lemma DueText(s: Series, st: State, p: string, j: int)
    requires s.Valid() && Grown(s, st, p, j)
    ensures ParsePeriod(s.horizon, p) == Some(j) && FourDigit(s.horizon, j)
  {
    hide Occurs, FormatPeriod, ParsePeriod, YearOfIndex, LastIndex, Filled, IsMax, Distinct;
    var c :| c in st.goals && s.Reachable(c) && j <= c;
    YearOfIndexMonotone(s.horizon, s.First(), j);
    YearOfIndexMonotone(s.horizon, j, c);
    ParseOfFormat(s.horizon, j);
  }

  /** A run that starts at a settled row plans everything that is due and not there. */
  lemma PlanKeepsInv(s: Series, st: State, i: nat, c: int, after: State)
    requires s.Valid() && Inv(s, st) && Next(s, st, Plan(i, c), after)
    ensures Inv(s, after)
    ensures c in after.goals
  {
    hide Occurs, FormatPeriod, ParsePeriod, Occurrences, YearOfIndex, LastIndex, Missing, Filled, RowsFine,
         StringLess, IsMax, Distinct, Canonical;
    var w := st.workers[i];
    CanonicalText(s, c);
    PlanSucceeds(s, st, w.latest, c);
    var periods := Missing(s.rule, s.horizon, w.latest, s.Text(c), s.zone).value;
    var mid := st.(goals := st.goals + {c});
    var v := Inserting(c, periods);
    StateGrows(s, st, mid);
    assert Inv(s, mid) by { RowsStayFine(s, st, mid); }
    PlanIsFine(s, mid, w.latest, c);
    SetWorker(s, mid, i, v, after);
  }

  lemma RowsStayFine(s: Series, st: State, after: State)
    requires s.Valid() && RowsFine(s, st) && after.rows == st.rows && st.goals <= after.goals
    ensures RowsFine(s, after)
  {
    hide Occurs, FormatPeriod, ParsePeriod, YearOfIndex, LastIndex, Filled;
    forall p | p in after.rows && p !in s.start ensures exists j :: Grown(s, after, p, j) {
      var j :| Grown(s, st, p, j);
      assert Grown(s, after, p, j);
    }
  }

  /** The rule is decidable from any settled row, so planning never fails. */
  lemma PlanSucceeds(s: Series, st: State, m: string, c: int)
    requires s.Valid() && Settled(s, st.rows, m) && s.Reachable(c)
    ensures Canonical(s.horizon, s.Text(c)) && Missing(s.rule, s.horizon, m, s.Text(c), s.zone).Some?
  {
    hide Occurs, FormatPeriod, ParsePeriod, YearOfIndex, LastIndex, Filled, StringLess, AnchorIndex, IsMax, Distinct;
    CanonicalText(s, c);
    var i := ParsePeriod(s.horizon, m).value;
    forall k | i + 1 <= k < c + 1 ensures Occurs(s.rule, s.horizon, k, s.zone).Some? {
      PrintableUpToLast(s.horizon, i, k);
      RuleDecides(s.rule, s.horizon, k, s.zone);
    }
  }

  lemma PlanIsFine(s: Series, st: State, m: string, c: int)
    requires s.Valid() && Settled(s, st.rows, m) && s.Reachable(c) && c in st.goals
    requires Canonical(s.horizon, s.Text(c)) && Missing(s.rule, s.horizon, m, s.Text(c), s.zone).Some?
    ensures WorkerFine(s, st, Inserting(c, Missing(s.rule, s.horizon, m, s.Text(c), s.zone).value))
  {
    hide Occurs, FormatPeriod, ParsePeriod, YearOfIndex, LastIndex, StringLess, AnchorIndex, IsMax, Distinct, Decidable;
    CanonicalText(s, c);
    var i := ParsePeriod(s.horizon, m).value;
    var w := Inserting(c, Missing(s.rule, s.horizon, m, s.Text(c), s.zone).value);
    if StringAtMost(s.Text(c), m) {
      if m == s.Text(c) { NotLessThanItself(m); } else { StringLessAsymmetric(s.Text(c), m); }
      NotBeforeCanonical(s.horizon, m, c);
    }
    assert Occurrences(s.rule, s.horizon, i + 1, c + 1, s.zone) == w.todo || i >= c;
    if i >= c { NoneLeft(s, i + 1, c); }
    assert PlannedFrom(s, st, w, i + 1);
  }

  lemma NoneLeft(s: Series, k: int, c: int)
    requires k > c
    ensures Occurrences(s.rule, s.horizon, k, c + 1, s.zone) == []
  {
  }

  /** The first occurrence of a nonempty plan, and what follows it. */
  lemma {:induction false} FirstOccurrence(s: Series, k: int, hi: int) returns (j: int)
    requires s.Valid() && s.First() < k && |Occurrences(s.rule, s.horizon, k, hi, s.zone)| > 0
    ensures k <= j < hi && s.Due(j)
    ensures Occurrences(s.rule, s.horizon, k, hi, s.zone) ==
            [s.Text(j)] + Occurrences(s.rule, s.horizon, j + 1, hi, s.zone)
    ensures forall i :: k <= i < j ==> !s.Due(i)
    decreases hi - k
  {
    hide Occurs, FormatPeriod, ParsePeriod, FourDigit, IsMax, Distinct;
    if s.Due(k) {
      j := k;
    } else {
      j := FirstOccurrence(s, k + 1, hi);
    }
  }

  lemma InsertKeepsInv(s: Series, st: State, i: nat, after: State)
    requires s.Valid() && Inv(s, st) && Next(s, st, Insert(i), after)
    ensures Inv(s, after)
  {
    hide Occurs, FormatPeriod, ParsePeriod, Occurrences, YearOfIndex, LastIndex, Missing, Filled, RowsFine, IsMax,
         Distinct, FourDigit;
    var w := st.workers[i];
    var k :| PlannedFrom(s, st, w, k);
    var j := FirstOccurrence(s, k, w.goal + 1);
    var p := s.Text(j);
    assert w.todo == [p] + Occurrences(s.rule, s.horizon, j + 1, w.goal + 1, s.zone);
    FilledUpTo(s, st.rows, k, j);
    var mid := st.(rows := if p in st.rows then st.rows else st.rows + [p]);
    StateGrows(s, st, mid);
    RowAdded(s, st, p, j, w.goal, mid);
    FilledPast(s, mid.rows, j);
    var v := w.(todo := w.todo[1..]);
    assert v.todo == Occurrences(s.rule, s.horizon, j + 1, w.goal + 1, s.zone);
    assert PlannedFrom(s, mid, v, j + 1);
    SetWorker(s, mid, i, v, after);
  }

  lemma FilledUpTo(s: Series, rows: seq<string>, k: int, j: int)
    requires s.Valid() && Filled(s, rows, k) && forall i :: k <= i < j ==> !s.Due(i)
    ensures Filled(s, rows, j)
  {
    hide Occurs, FormatPeriod, ParsePeriod;
  }

  lemma FilledPast(s: Series, rows: seq<string>, j: int)
    requires s.Valid() && Filled(s, rows, j) && s.Text(j) in rows
    ensures Filled(s, rows, j + 1)
  {
    hide Occurs, FormatPeriod, ParsePeriod;
  }

  lemma RowAdded(s: Series, st: State, p: string, j: int, c: int, after: State)
    requires s.Valid() && RowsFine(s, st) && s.Due(j) && p == s.Text(j) && Filled(s, st.rows, j)
    requires c in st.goals && s.Reachable(c) && j <= c
    requires after == st.(rows := if p in st.rows then st.rows else st.rows + [p])
    ensures RowsFine(s, after)
  {
    hide Occurs, FormatPeriod, ParsePeriod, YearOfIndex, LastIndex, Filled, FourDigit, IsMax;
    StateGrows(s, st, after);
    assert Grown(s, st, p, j);
    forall q | q in after.rows && q !in s.start ensures exists i :: Grown(s, after, q, i) {
      if q in st.rows {
        var i :| Grown(s, st, q, i);
        assert Grown(s, after, q, i);
      } else {
        assert Grown(s, after, q, j);
      }
    }
  }

  lemma FinishKeepsInv(s: Series, st: State, i: nat, after: State)
    requires s.Valid() && Inv(s, st) && Next(s, st, Finish(i), after)
    ensures Inv(s, after)
  {
    hide Occurs, FormatPeriod, ParsePeriod, Occurrences, YearOfIndex, LastIndex, Missing, Filled, RowsFine, IsMax,
         Distinct, FourDigit;
    var w := st.workers[i];
    var k :| PlannedFrom(s, st, w, k);
    NothingDue(s, k, w.goal + 1);
    FilledUpTo(s, st.rows, k, w.goal + 1);
    var mid := st.(finished := st.finished + {w.goal});
    StateGrows(s, st, mid);
    RowsStayFine(s, st, mid);
    IdleFine(s, mid);
    SetWorker(s, mid, i, Idle, after);
  }

  lemma {:induction false} NothingDue(s: Series, k: int, hi: int)
    requires s.Valid() && s.First() < k && Occurrences(s.rule, s.horizon, k, hi, s.zone) == []
    ensures forall i :: k <= i < hi ==> !s.Due(i)
    decreases hi - k
  {
    hide Occurs, FormatPeriod, ParsePeriod, FourDigit, IsMax, Distinct;
    if k >= hi {
    } else {
      NothingDue(s, k + 1, hi);
    }
  }

  // ---- whole runs ----

  lemma InitInv(s: Series, st: State)
    requires s.Valid() && Init(s, st)
    ensures Inv(s, st)
  {
    hide Occurs, FormatPeriod, ParsePeriod, FourDigit, IsMax;
  }

  lemma {:induction false} RunKeepsInv(s: Series, states: seq<State>, events: seq<Event>, i: nat)
    requires s.Valid() && Run(s, states, events) && i <= |events|
    ensures i < |states| && Inv(s, states[i])
  {
    hide Inv, Next, Init;
    if i == 0 {
      InitInv(s, states[0]);
    } else {
      RunKeepsInv(s, states, events, i - 1);
      NextKeepsInv(s, states[i - 1], events[i - 1], states[i]);
    }
  }

  /** Whatever the interleaving, the stops and the order of the times: as soon as a
      run for the greatest current period has finished, the rows are exactly those
      that one run at that period leaves on the first rows, each once. */
  lemma CatchUpIsPathIndependent(s: Series, states: seq<State>, events: seq<Event>, i: nat, c: int, p: string)
    requires s.Valid() && Run(s, states, events) && i <= |events|
    requires c in states[i].finished && s.Reachable(c) && forall g :: g in states[i].goals ==> g <= c
    ensures Distinct(states[i].rows)
    ensures Canonical(s.horizon, s.Text(c)) && Missing(s.rule, s.horizon, s.latest, s.Text(c), s.zone).Some?
    ensures p in states[i].rows <==> p in s.start || p in Missing(s.rule, s.horizon, s.latest, s.Text(c), s.zone).value
  {
    hide *;
    RunKeepsInv(s, states, events, i);
    InvParts(s, states[i]);
    OneRunRows(s, states[i].rows, c, p);
    RowsAreStartOrDue(s, states[i], c, p);
  }

  /** What one run adds to the first rows. */
  lemma OneRunRows(s: Series, rows: seq<string>, c: int, p: string)
    requires s.Valid() && s.Reachable(c)
    ensures Canonical(s.horizon, s.Text(c)) && Missing(s.rule, s.horizon, s.latest, s.Text(c), s.zone).Some?
    ensures p in Missing(s.rule, s.horizon, s.latest, s.Text(c), s.zone).value <==>
            exists j :: j <= c && s.Due(j) && p == s.Text(j)
  {
    hide Occurs, FormatPeriod, ParsePeriod, YearOfIndex, LastIndex, Missing, IsMax, Distinct, AnchorIndex;
    CanonicalText(s, c);
    assert Settled(s, s.start, s.latest);
    PlanSucceeds(s, State(s.start, map[], {}, {}), s.latest, c);
    MissingIsExact(s.rule, s.horizon, s.latest, s.Text(c), s.zone, p);
    if j :| j <= c && s.Due(j) && p == s.Text(j) {
      assert ParsePeriod(s.horizon, s.latest).value < j <= ParsePeriod(s.horizon, s.Text(c)).value;
    }
    if k :| ParsePeriod(s.horizon, s.latest).value < k <= ParsePeriod(s.horizon, s.Text(c)).value
            && p == FormatPeriod(s.horizon, k) && Occurs(s.rule, s.horizon, k, s.zone) == Some(true)
    {
      assert s.Due(k) && p == s.Text(k);
    }
  }

  lemma RowsAreStartOrDue(s: Series, st: State, c: int, p: string)
    requires s.Valid() && RowsFine(s, st) && Filled(s, st.rows, c + 1) && forall g :: g in st.goals ==> g <= c
    ensures Distinct(st.rows)
    ensures p in st.rows <==> p in s.start || exists j :: j <= c && s.Due(j) && p == s.Text(j)
  {
    hide Occurs, FormatPeriod, ParsePeriod, FourDigit, IsMax;
    if p in st.rows && p !in s.start {
      var j :| Grown(s, st, p, j);
    }
    if p in s.start { assert p in st.rows; }
  }

  /** Once a run for c has finished, a run for any current period up to c plans nothing. */
  lemma SecondRunAddsNothing(s: Series, states: seq<State>, events: seq<Event>, i: nat, c: int, m: string, d: int)
    requires s.Valid() && Run(s, states, events) && i <= |events|
    requires c in states[i].finished && s.Reachable(c) && s.Reachable(d) && d <= c && IsMax(states[i].rows, m)
    ensures Canonical(s.horizon, s.Text(d)) && Missing(s.rule, s.horizon, m, s.Text(d), s.zone) == Some([])
  {
    hide *;
    RunKeepsInv(s, states, events, i);
    InvParts(s, states[i]);
    ReadIsSettled(s, states[i], m);
    ReadFine(s, states[i], m);
    PlanSucceeds(s, states[i], m, d);
    NothingMissing(s, states[i].rows, c, m, d);
  }

  lemma ReadFine(s: Series, st: State, m: string)
    requires s.Valid() && WorkerFine(s, st, Read(m))
    ensures Settled(s, st.rows, m)
  {
    hide Settled;
  }

  lemma NothingMissing(s: Series, rows: seq<string>, c: int, m: string, d: int)
    requires s.Valid() && Settled(s, rows, m) && IsMax(rows, m) && Filled(s, rows, c + 1) && s.Reachable(d) && d <= c
    requires Canonical(s.horizon, s.Text(d)) && Missing(s.rule, s.horizon, m, s.Text(d), s.zone).Some?
    ensures Missing(s.rule, s.horizon, m, s.Text(d), s.zone) == Some([])
  {
    hide Occurs, FormatPeriod, ParsePeriod, YearOfIndex, LastIndex, Missing, Distinct, AnchorIndex, StringLess;
    CanonicalText(s, d);
    var out := Missing(s.rule, s.horizon, m, s.Text(d), s.zone).value;
    if out != [] {
      var p := out[0];
      MissingIsExact(s.rule, s.horizon, m, s.Text(d), s.zone, p);
      var k :| ParsePeriod(s.horizon, m).value < k <= d && p == FormatPeriod(s.horizon, k)
          && Occurs(s.rule, s.horizon, k, s.zone) == Some(true);
      assert s.Due(k);
      YearOfIndexMonotone(s.horizon, s.First(), k);
      YearOfIndexMonotone(s.horizon, k, d);
      ParseOfFormat(s.horizon, k);
      if !StringLess(m, p) { NotBeforeCanonical(s.horizon, m, k); }
      StringLessAsymmetric(m, p);
    }
  }

  // ---- the store's own run is such a run ----

  ghost predicate HasPeriod(tasks: map<Id, Task>, series: Id, p: string) {
    exists x :: x in SeriesRows(tasks, series) && tasks[x].period == p
  }

  ghost predicate SpawnsPeriod(start: DB, spawns: seq<Spawn>, series: Id, p: string) {
    exists i :: 0 <= i < |spawns| && spawns[i].period == p && spawns[i].latest in start.tasks
                && start.tasks[spawns[i].latest].seriesId == Some(series)
  }

  lemma {:induction false} InsertAllPeriods(start: DB, spawns: seq<Spawn>, newId: (Id, string) -> Id, clock: Clock,
                                            series: Id, p: string)
    requires FreshIds(start.tasks, newId) && Distinct(spawns)
    requires forall i :: 0 <= i < |spawns| ==> spawns[i].latest in start.tasks && Live(start.tasks[spawns[i].latest])
    ensures HasPeriod(InsertAll(start, start, spawns, newId, clock).tasks, series, p) <==>
            HasPeriod(start.tasks, series, p) || SpawnsPeriod(start, spawns, series, p)
    decreases |spawns|
  {
    if |spawns| == 0 {
    } else {
      var init, last := spawns[..|spawns| - 1], spawns[|spawns| - 1];
      assert spawns == init + [last];
      InsertAllPeriods(start, init, newId, clock, series, p);
      var db := InsertAll(start, start, init, newId, clock);
      InsertAllRows(start, init, newId, clock);
      FreshAfter(start, db, init, last, newId);
      InsertOneMore(start, init, last, newId, clock);
      hide InsertAll, InsertSpawn, Live, FreshIds, Distinct, HasPeriod, Extends;
      OneInsertPeriods(db, start.tasks[last.latest], last.period, newId(last.latest, last.period), clock, series, p);
      assert SpawnsPeriod(start, spawns, series, p) <==>
             SpawnsPeriod(start, init, series, p)
                 || (last.period == p && start.tasks[last.latest].seriesId == Some(series)) by {
        LastOrEarlier(start, init, last, series, p);
      }
    }
  }

  lemma LastOrEarlier(start: DB, init: seq<Spawn>, last: Spawn, series: Id, p: string)
    requires last.latest in start.tasks
    ensures SpawnsPeriod(start, init + [last], series, p) <==>
            SpawnsPeriod(start, init, series, p)
                || (last.period == p && start.tasks[last.latest].seriesId == Some(series))
  {
    var all := init + [last];
    if i :| 0 <= i < |init| && init[i].period == p && init[i].latest in start.tasks
            && start.tasks[init[i].latest].seriesId == Some(series) {
      assert all[i] == init[i];
    }
    if last.period == p && start.tasks[last.latest].seriesId == Some(series) { assert all[|init|] == last; }
  }

  lemma OneInsertPeriods(db: DB, t: Task, period: string, newId: Id, clock: Clock, series: Id, p: string)
    requires Live(t) && newId !in db.tasks
    ensures HasPeriod(InsertSpawn(db, t, period, newId, clock).tasks, series, p) <==>
            HasPeriod(db.tasks, series, p) || (period == p && t.seriesId == Some(series))
  {
    hide DueDateForSpawn, Live;
    var row := SpawnRow(t, period, newId, clock);
    if SeriesSlotFree(db.tasks, row) {
      var after := db.tasks[newId := row];
      if period == p && t.seriesId == Some(series) { assert newId in SeriesRows(after, series); }
      if x :| x in SeriesRows(db.tasks, series) && db.tasks[x].period == p {
        assert x in SeriesRows(after, series) && after[x].period == p;
      }
    } else {
      var x :| x in db.tasks && x != row.id && db.tasks[x].seriesId == row.seriesId && db.tasks[x].period == row.period;
      assert t.seriesId.Some? && x in SeriesRows(db.tasks, t.seriesId.value);
    }
  }

  /** A completed Materialize adds to each live series the periods that one worker
      alone would plan from its latest row, and no others. */
  lemma StoreRunIsOneRun(start: DB, spawns: seq<Spawn>, newId: (Id, string) -> Id, clock: Clock, zone: Zone,
                         series: Id, x: Id, p: string)
    requires Keyed(start.tasks) && GoodClock(clock) && FreshIds(start.tasks, newId) && Distinct(spawns)
             && RunOf(start, spawns, clock, zone)
    requires IsLatest(start.tasks, series, x) && Live(start.tasks[x])
    requires Canonical(SpawnHorizon(start.tasks[x]), PeriodOfDay(SpawnHorizon(start.tasks[x]), clock.today))
    requires Wanted(start.tasks[x], clock, zone).Some?
    ensures HasPeriod(InsertAll(start, start, spawns, newId, clock).tasks, series, p) <==>
            HasPeriod(start.tasks, series, p) || p in Wanted(start.tasks[x], clock, zone).value
  {
    hide InsertAll, HasPeriod, Live, Wanted, PeriodOfDay, Canonical, GoodClock, FreshIds, Distinct;
    forall i | 0 <= i < |spawns| ensures spawns[i].latest in start.tasks && Live(start.tasks[spawns[i].latest]) {
      WantedRow(start, spawns[i], clock, zone);
    }
    InsertAllPeriods(start, spawns, newId, clock, series, p);
    OnlyLatestSpawns(start, spawns, clock, zone, series, x, p);
  }

  lemma OnlyLatestSpawns(start: DB, spawns: seq<Spawn>, clock: Clock, zone: Zone, series: Id, x: Id, p: string)
    requires Keyed(start.tasks) && GoodClock(clock) && RunOf(start, spawns, clock, zone)
    requires IsLatest(start.tasks, series, x) && Live(start.tasks[x])
    requires Canonical(SpawnHorizon(start.tasks[x]), PeriodOfDay(SpawnHorizon(start.tasks[x]), clock.today))
    requires Wanted(start.tasks[x], clock, zone).Some?
    ensures SpawnsPeriod(start, spawns, series, p) <==> p in Wanted(start.tasks[x], clock, zone).value
  {
    hide Live, Wanted, PeriodOfDay, Canonical, GoodClock, StringLess;
    if i :| 0 <= i < |spawns| && spawns[i].period == p && spawns[i].latest in start.tasks
            && start.tasks[spawns[i].latest].seriesId == Some(series) {
      assert SpawnWanted(start, spawns[i], clock, zone);
      var y := spawns[i].latest;
      if y != x { StringLessAsymmetric(start.tasks[x].period, start.tasks[y].period); }
    }
    if p in Wanted(start.tasks[x], clock, zone).value {
      assert SpawnWanted(start, Spawn(x, p), clock, zone);
    }
  }
}
