/** Distances between periods, measured the way the source measures them: as the
    elapsed time between two local midnights, saturated to 64-bit nanoseconds and
    truncated toward zero. */
module Duration {
  import opened Base
  import opened Calendar
  import opened Period
  import opened PeriodLine

  const NANOS_PER_SECOND := 1_000_000_000
  const NANOS_PER_DAY := 86_400_000_000_000
  const NANOS_PER_WEEK := 604_800_000_000_000
  const MAX_DURATION := 0x7fff_ffff_ffff_ffff
  const MIN_DURATION := -0x8000_0000_0000_0000
  const SECONDS_PER_WEEK := 604_800

  /** The seconds east of UTC in force at each local midnight, by day number. */
  type Zone = int -> int

  /** time.Sub: out-of-range differences saturate. */
  function Saturate(nanos: int): int {
    if nanos > MAX_DURATION then MAX_DURATION
    else if nanos < MIN_DURATION then MIN_DURATION
    else nanos
  }

  /** Go's integer conversion of a quotient: truncation toward zero. */
  function TruncatedQuotient(a: int, n: int): int
    requires n > 0
  {
    if a >= 0 then a / n else -((-a) / n)
  }

  function DaysBetween(a: string, b: string): Option<int> {
    match (ParseDate(a), ParseDate(b))
    case (Some(d), Some(e)) => Some(TruncatedQuotient(Saturate((e - d) * NANOS_PER_DAY), NANOS_PER_DAY))
    case _ => None
  }

  /** The instants of two local midnights differ by whole days less the change of offset. */
  function MidnightDistance(d: int, e: int, zone: Zone): int {
    (e - d) * NANOS_PER_DAY - (zone(e) - zone(d)) * NANOS_PER_SECOND
  }

  function WeeksBetween(a: string, b: string, zone: Zone): Option<int> {
    match (ParseISOWeek(a), ParseISOWeek(b))
    case (Some(v), Some(w)) =>
      Some(TruncatedQuotient(Saturate(MidnightDistance(WeekMonday(v), WeekMonday(w), zone)), NANOS_PER_WEEK))
    case _ => None
  }

  function MonthsBetween(a: string, b: string): Option<int> {
    match (ParseMonth(a), ParseMonth(b))
    case (Some(i), Some(j)) => Some(j - i)
    case _ => None
  }

  /** floorMod: the truncating remainder, shifted up when negative. */
  function FloorMod(a: int, n: int): int {
    var k := if n <= 0 then 1 else n;
    var m := a - k * TruncatedQuotient(a, k);
    if m < 0 then m + k else m
  }

  lemma FloorModIsRemainder(a: int, n: int)
    requires n > 0
    ensures FloorMod(a, n) == a % n
  {
    if a < 0 {
      var q, r := (-a) / n, (-a) % n;
      assert -a == n * q + r;
      if r == 0 {
        RemainderIs(a, n, -q, 0);
      } else {
        assert a == n * (-q - 1) + (n - r) by { Distribute(n, q); }
        RemainderIs(a, n, -q - 1, n - r);
      }
    } else {
      assert a == n * (a / n) + a % n;
    }
  }

  lemma Distribute(n: int, q: int)
    ensures n * (-q - 1) == -(n * q) - n
  {
  }

  lemma RemainderIs(a: int, n: int, q: int, r: int)
    requires n > 0 && a == n * q + r && 0 <= r < n
    ensures a % n == r
  {
    var k := a / n - q;
    assert a == n * (a / n) + a % n;
    assert n * k == r - a % n by { assert n * k == n * (a / n) - n * q; }
    if k > 0 {
      MulAtLeast(n, k);
      assert false;
    } else if k < 0 {
      MulAtLeast(n, -k);
      assert false;
    }
  }

  lemma MulAtLeast(n: int, k: int)
    requires n > 0 && k >= 1
    ensures n * k >= n
  {
  }

  // ---- when the elapsed time counts whole periods ----

  /** 106751 days are the most that fit in 64-bit nanoseconds. */
  lemma DayCountExact(n: int)
    ensures TruncatedQuotient(Saturate(n * NANOS_PER_DAY), NANOS_PER_DAY) == n <==> -106751 <= n <= 106751
  {
    if -106751 <= n <= 106751 {
      assert Saturate(n * NANOS_PER_DAY) == n * NANOS_PER_DAY;
    }
  }

  /** DaysBetween counts NextPeriod steps exactly up to 106751 days (292 years). */
  lemma DaysBetweenExact(a: string, b: string, d: int, e: int)
    requires ParseDate(a) == Some(d) && ParseDate(b) == Some(e)
    ensures DaysBetween(a, b) == Some(e - d) <==> -106751 <= e - d <= 106751
  {
    hide ParseDate;
    DayCountExact(e - d);
  }

  /** What the source counts for n weeks while the offset changes by less than a week. */
  function WeeksCounted(n: int, change: int): int {
    if n > 15250 then 15250
    else if n < -15250 then -15250
    else if n > 0 && change > 0 then n - 1
    else if n < 0 && change < 0 then n + 1
    else n
  }

  lemma WeekCountExact(n: int, change: int)
    requires -SECONDS_PER_WEEK < change < SECONDS_PER_WEEK
    requires n == 0 ==> change == 0
    ensures TruncatedQuotient(Saturate(n * NANOS_PER_WEEK - change * NANOS_PER_SECOND), NANOS_PER_WEEK)
            == WeeksCounted(n, change)
  {
    var x := n * NANOS_PER_WEEK - change * NANOS_PER_SECOND;
    if n > 15250 {
      WeekQuotient(15250, Saturate(x));
    } else if n < -15250 {
      WeekQuotient(15250, -Saturate(x));
    } else if n > 0 {
      WeekQuotient(if change > 0 then n - 1 else n, Saturate(x));
    } else if n < 0 {
      WeekQuotient(if change < 0 then -n - 1 else -n, -Saturate(x));
    }
  }

  lemma WeekQuotient(q: int, x: int)
    requires q >= 0 && q * NANOS_PER_WEEK <= x < (q + 1) * NANOS_PER_WEEK
    ensures x / NANOS_PER_WEEK == q
  {
  }

  /** WeeksBetween is the number n of NextPeriod steps exactly when the clock did
      not change against the direction of travel and n weeks fit in 64 bits. */
  lemma WeeksBetweenExact(a: string, b: string, v: Week, w: Week, zone: Zone)
    requires ParseISOWeek(a) == Some(v) && ParseISOWeek(b) == Some(w)
    requires -SECONDS_PER_WEEK < zone(WeekMonday(w)) - zone(WeekMonday(v)) < SECONDS_PER_WEEK
    ensures var n := WeekIndex(w) - WeekIndex(v);
            var change := zone(WeekMonday(w)) - zone(WeekMonday(v));
            WeeksBetween(a, b, zone) == Some(n) <==> -15250 <= n <= 15250 && SignsOppose(n, change)
  {
    var n := WeekIndex(w) - WeekIndex(v);
    var change := zone(WeekMonday(w)) - zone(WeekMonday(v));
    hide ParseISOWeek, WeekMonday, WeekOf, TruncatedQuotient, Saturate, WeeksInYear, WeekMark;
    ParseISOWeekAccepts(a, v);
    ParseISOWeekAccepts(b, w);
    WeekMidnights(v, w, zone);
    WeekCountExact(n, change);
  }

  lemma WeekMidnights(v: Week, w: Week, zone: Zone)
    requires WeekExists(v) && WeekExists(w)
    ensures MidnightDistance(WeekMonday(v), WeekMonday(w), zone) ==
            (WeekIndex(w) - WeekIndex(v)) * NANOS_PER_WEEK
            - (zone(WeekMonday(w)) - zone(WeekMonday(v))) * NANOS_PER_SECOND
    ensures WeekIndex(w) == WeekIndex(v) ==> WeekMonday(w) == WeekMonday(v)
  {
    hide WeekMonday, WeeksInYear, WeekIndex, WeekAt;
    IndexAtWeek(v);
    IndexAtWeek(w);
  }

  /** n * change <= 0, without the product. */
  predicate SignsOppose(n: int, change: int) {
    !(n > 0 && change > 0) && !(n < 0 && change < 0)
  }

  lemma SignsOpposeIsProduct(n: int, change: int)
    ensures SignsOppose(n, change) <==> n * change <= 0
  {
    if n > 0 && change > 0 { MulAtLeast(n, change); }
    if n < 0 && change < 0 { MulAtLeast(-n, -change); assert n * change == (-n) * (-change); }
    if n > 0 && change < 0 { MulAtLeast(n, -change); assert n * change == -(n * (-change)); }
    if n < 0 && change > 0 { MulAtLeast(-n, change); assert n * change == -((-n) * change); }
  }

  /** Whether n weeks are a multiple of k can be read off the count exactly when k is
      one, the clock did not move along with the direction of travel, or neither n nor
      its neighbour toward zero is a multiple; a saturated count stands for 15250. */
  predicate WeeksDecide(n: int, change: int, k: int)
    requires k > 0
  {
    if -15250 <= n <= 15250 then
      k == 1 || SignsOppose(n, change) || (n % k != 0 && (if n > 0 then n - 1 else n + 1) % k != 0)
    else n % k == 0 <==> 15250 % k == 0
  }

  lemma WeeksDecideExactly(n: int, change: int, k: int)
    requires k > 0
    ensures (FloorMod(WeeksCounted(n, change), k) == 0 <==> n % k == 0) <==> WeeksDecide(n, change, k)
  {
    hide FloorMod;
    FloorModIsRemainder(WeeksCounted(n, change), k);
    NegatedMultiple(15250, k);
    if k >= 2 {
      if n % k == 0 { NeighboursOfMultiple(n, k); }
      if (n - 1) % k == 0 { NeighboursOfMultiple(n - 1, k); }
      if (n + 1) % k == 0 { NeighboursOfMultiple(n + 1, k); }
    } else {
      EveryMultipleOfOne(n);
      EveryMultipleOfOne(WeeksCounted(n, change));
      EveryMultipleOfOne(15250);
    }
  }

  lemma EveryMultipleOfOne(n: int)
    ensures n % 1 == 0
  {
  }

  lemma NeighboursOfMultiple(n: int, k: int)
    requires k >= 2 && n % k == 0
    ensures (n - 1) % k != 0 && (n + 1) % k != 0
  {
    var q := n / k;
    assert n == k * q;
    assert n - 1 == k * (q - 1) + (k - 1) by { assert k * (q - 1) == k * q - k; }
    RemainderIs(n - 1, k, q - 1, k - 1);
    RemainderIs(n + 1, k, q, 1);
  }

  lemma NegatedMultiple(n: int, k: int)
    requires k > 0
    ensures (-n) % k == 0 <==> n % k == 0
  {
    if n % k == 0 {
      assert n == k * (n / k);
      assert -n == k * -(n / k);
      RemainderIs(-n, k, -(n / k), 0);
    }
    if (-n) % k == 0 {
      assert -n == k * ((-n) / k);
      assert n == k * -((-n) / k);
      RemainderIs(n, k, -((-n) / k), 0);
    }
  }

  /** The same for days, whose count only saturates. */
  predicate DaysDecide(n: int, k: int)
    requires k > 0
  {
    -106751 <= n <= 106751 || (n % k == 0 <==> 106751 % k == 0)
  }

  lemma DaysDecideExactly(n: int, k: int)
    requires k > 0
    ensures (FloorMod(TruncatedQuotient(Saturate(n * NANOS_PER_DAY), NANOS_PER_DAY), k) == 0 <==> n % k == 0)
            <==> DaysDecide(n, k)
  {
    hide FloorMod;
    var counted := TruncatedQuotient(Saturate(n * NANOS_PER_DAY), NANOS_PER_DAY);
    DayCountExact(n);
    assert n > 106751 ==> counted == 106751;
    assert n < -106751 ==> counted == -106751;
    FloorModIsRemainder(counted, k);
    NegatedMultiple(106751, k);
  }

  /** In a zone whose offset never changes, WeeksBetween telescopes. */
  lemma WeeksBetweenTelescopes(a: string, b: string, c: string, zone: Zone)
    requires ParseISOWeek(a).Some? && ParseISOWeek(b).Some? && ParseISOWeek(c).Some?
    requires forall d, e :: zone(d) == zone(e)
    requires var i, j, k := WeekIndex(ParseISOWeek(a).value), WeekIndex(ParseISOWeek(b).value),
             WeekIndex(ParseISOWeek(c).value);
             -15250 <= j - i <= 15250 && -15250 <= k - j <= 15250 && -15250 <= k - i <= 15250
    ensures WeeksBetween(a, b, zone).Some? && WeeksBetween(b, c, zone).Some?
    ensures WeeksBetween(a, c, zone) == Some(WeeksBetween(a, b, zone).value + WeeksBetween(b, c, zone).value)
  {
    hide ParseISOWeek, WeekMonday, WeekIndex, WeeksBetween;
    var u, v, w := ParseISOWeek(a).value, ParseISOWeek(b).value, ParseISOWeek(c).value;
    WeeksBetweenExact(a, b, u, v, zone);
    WeeksBetweenExact(b, c, v, w, zone);
    WeeksBetweenExact(a, c, u, w, zone);
  }

  /** One hour lost to a forward clock change makes ten weeks count as nine. */
  lemma ForwardClockChangeLosesAWeek(v: Week, w: Week, zone: Zone)
    requires WeekExists(v) && WeekExists(w) && 0 <= v.year <= 9999 && 0 <= w.year <= 9999
    requires WeekIndex(w) - WeekIndex(v) == 10
    requires zone(WeekMonday(v)) == 3600 && zone(WeekMonday(w)) == 7200
    ensures WeeksBetween(WeekText(v), WeekText(w), zone) == Some(9)
  {
    hide ParseISOWeek, WeekMonday, WeekOf, TruncatedQuotient, Saturate, WeeksInYear, WeekText, WeekIndex;
    ParseOfWeekText(v);
    ParseOfWeekText(w);
    WeekMidnights(v, w, zone);
    WeekCountExact(10, 3600);
  }
}
