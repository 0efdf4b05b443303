/** A parent relation as a finite map from child to parent: chains, cycles, and
    the facts about them that both orderers and the task store rely on. */
module Forest {
  import opened Base

  type Id = string
  type Parents = map<Id, Id>

  /** The k-th ancestor of x; None once the chain has ended. */
  function Up(par: Parents, x: Id, k: nat): Option<Id>
    decreases k
  {
    if k == 0 then Some(x)
    else if x in par then Up(par, par[x], k - 1)
    else None
  }

  ghost predicate OnCycle(par: Parents, x: Id) {
    exists k: nat :: k > 0 && Up(par, x, k) == Some(x)
  }

  ghost predicate Acyclic(par: Parents) {
    forall x :: !OnCycle(par, x)
  }

  /** a is x itself or one of its ancestors. */
  ghost predicate Reaches(par: Parents, x: Id, a: Id) {
    exists k: nat :: Up(par, x, k) == Some(a)
  }

  lemma {:induction false} UpAdd(par: Parents, x: Id, j: nat, k: nat)
    ensures Up(par, x, j + k) == match Up(par, x, j) case Some(y) => Up(par, y, k) case None => None
    decreases j
  {
    if j > 0 && x in par { UpAdd(par, par[x], j - 1, k); }
  }

  lemma ReachesParent(par: Parents, x: Id, a: Id)
    ensures Reaches(par, x, a) <==> x == a || (x in par && Reaches(par, par[x], a))
  {
    if x == a { assert Up(par, x, 0) == Some(a); }
    if x in par && Reaches(par, par[x], a) {
      var k: nat :| Up(par, par[x], k) == Some(a);
      assert Up(par, x, k + 1) == Some(a);
    }
    if Reaches(par, x, a) && x != a {
      var k: nat :| Up(par, x, k) == Some(a);
      assert Up(par, par[x], k - 1) == Some(a);
    }
  }

  lemma OutsideReachesNothing(par: Parents, x: Id, a: Id)
    requires x !in par && x != a
    ensures !Reaches(par, x, a)
  {
    ReachesParent(par, x, a);
  }

  lemma ReachesTransitive(par: Parents, x: Id, y: Id, z: Id)
    requires Reaches(par, x, y) && Reaches(par, y, z)
    ensures Reaches(par, x, z)
  {
    var j: nat :| Up(par, x, j) == Some(y);
    var k: nat :| Up(par, y, k) == Some(z);
    UpAdd(par, x, j, k);
  }

  lemma ParentReachingBackIsCycle(par: Parents, x: Id)
    requires x in par && Reaches(par, par[x], x)
    ensures OnCycle(par, x)
  {
    var k: nat :| Up(par, par[x], k) == Some(x);
    assert Up(par, x, k + 1) == Some(x);
  }

  // ---- ranks ----

  /** Numbers that grow toward the leaves. */
  ghost predicate RanksBelow(par: Parents, rank: map<Id, int>) {
    forall x :: x in par ==> x in rank && par[x] in rank && rank[par[x]] < rank[x]
  }

  lemma {:induction false} RanksShrinkUpward(par: Parents, rank: map<Id, int>, x: Id, k: nat)
    requires RanksBelow(par, rank) && x in rank && Up(par, x, k).Some?
    ensures Up(par, x, k).value in rank && rank[Up(par, x, k).value] <= rank[x] - k
    decreases k
  {
    if k == 0 {
    } else {
      RanksShrinkUpward(par, rank, par[x], k - 1);
    }
  }

  lemma RankedIsAcyclic(par: Parents, rank: map<Id, int>)
    requires RanksBelow(par, rank)
    ensures Acyclic(par)
  {
    forall x ensures !OnCycle(par, x) {
      if OnCycle(par, x) {
        var k: nat :| k > 0 && Up(par, x, k) == Some(x);
        assert x in par;
        RanksShrinkUpward(par, rank, x, k);
      }
    }
  }

  // ---- pigeonhole: a chain that never leaves a finite set repeats ----

  /** The first n nodes of the chain from x. */
  function Chain(par: Parents, x: Id, n: nat): (c: seq<Id>)
    requires forall k :: 0 <= k < n ==> Up(par, x, k).Some?
    ensures |c| == n
  {
    seq(n, (k: nat) requires 0 <= k < n => Up(par, x, k).value)
  }

  predicate Distinct<T(==)>(s: seq<T>) {
    forall i, j :: 0 <= i < j < |s| ==> s[i] != s[j]
  }

  lemma {:induction false} DistinctFits<T>(s: seq<T>, u: set<T>)
    requires Distinct(s) && forall x :: x in s ==> x in u
    ensures |s| <= |u|
  {
    if |s| == 0 {
    } else {
      var x := s[|s| - 1];
      var t := s[..|s| - 1];
      forall y | y in t ensures y in u - {x} {
        var i :| 0 <= i < |t| && t[i] == y;
        assert s[i] != s[|s| - 1];
      }
      DistinctFits(t, u - {x});
    }
  }

  /** In a nonempty finite set closed under taking parents there is a cycle. */
  lemma ClosedSetHasCycle(par: Parents, u: set<Id>, x: Id) returns (c: Id)
    requires x in u && forall y :: y in u ==> y in par && par[y] in u
    ensures c in u && OnCycle(par, c)
  {
    forall k: nat ensures Up(par, x, k).Some? && Up(par, x, k).value in u { StaysInside(par, u, x, k); }
    var n := |u| + 1;
    var chain := Chain(par, x, n);
    if Distinct(chain) {
      DistinctFits(chain, u);
      assert false;
    }
    var i, j :| 0 <= i < j < |chain| && chain[i] == chain[j];
    c := chain[i];
    UpAdd(par, x, i, j - i);
    assert Up(par, c, j - i) == Some(c);
  }

  lemma {:induction false} StaysInside(par: Parents, u: set<Id>, x: Id, k: nat)
    requires x in u && forall y :: y in u ==> y in par && par[y] in u
    ensures Up(par, x, k).Some? && Up(par, x, k).value in u
    decreases k
  {
    if k == 0 {
    } else {
      StaysInside(par, u, par[x], k - 1);
    }
  }

  /** A set closed under taking children holds everything below its members. */
  lemma BelowClosedSet(par: Parents, u: set<Id>, x: Id, a: Id)
    requires a in u && Reaches(par, x, a) && forall y :: y in par && par[y] in u ==> y in u
    ensures x in u
  {
    var k: nat :| Up(par, x, k) == Some(a);
    BelowClosedSetAt(par, u, x, a, k);
  }

  lemma {:induction false} BelowClosedSetAt(par: Parents, u: set<Id>, x: Id, a: Id, k: nat)
    requires a in u && Up(par, x, k) == Some(a) && forall y :: y in par && par[y] in u ==> y in u
    ensures x in u
    decreases k
  {
    if k == 0 {
    } else {
      BelowClosedSetAt(par, u, par[x], a, k - 1);
    }
  }

  // ---- changing one parent ----

  /** Re-parenting below a node that does not reach x creates no cycle. */
  lemma AttachKeepsAcyclic(par: Parents, x: Id, p: Id)
    requires Acyclic(par) && !Reaches(par, p, x)
    ensures Acyclic(par[x := p])
  {
    var q := par[x := p];
    forall y ensures !OnCycle(q, y) {
      if OnCycle(q, y) { CycleWasThere(par, x, p, y); }
    }
  }

  lemma CycleWasThere(par: Parents, x: Id, p: Id, y: Id)
    requires !Reaches(par, p, x) && OnCycle(par[x := p], y)
    ensures OnCycle(par, y)
  {
    var q := par[x := p];
    var k: nat :| k > 0 && Up(q, y, k) == Some(y);
    if j: nat :| j < k && Up(q, y, j) == Some(x) {
      UpAdd(q, y, j, k);
      UpAdd(q, y, k, j);
      assert Up(q, x, k) == Some(x);
      assert Up(q, p, k - 1) == Some(x);
      FirstArrival(par, x, p, p, k - 1);
    } else {
      AvoidsChangedNode(par, q, x, p, y, k);
    }
  }

  lemma {:induction false} FirstArrival(par: Parents, x: Id, p: Id, y: Id, k: nat)
    requires Up(par[x := p], y, k) == Some(x)
    ensures Reaches(par, y, x)
    decreases k
  {
    ReachesParent(par, y, x);
    if y == x {
    } else {
      FirstArrival(par, x, p, par[y], k - 1);
    }
  }

  lemma {:induction false} AvoidsChangedNode(par: Parents, q: Parents, x: Id, p: Id, y: Id, k: nat)
    requires q == par[x := p]
    requires forall j: nat :: j < k ==> Up(q, y, j) != Some(x)
    ensures Up(par, y, k) == Up(q, y, k)
    decreases k
  {
    if k == 0 {
    } else {
      assert Up(q, y, 0) == Some(y);
      if y in par {
        forall j: nat | j < k - 1 ensures Up(q, par[y], j) != Some(x) {
          assert Up(q, y, j + 1) == Up(q, par[y], j);
        }
        AvoidsChangedNode(par, q, x, p, par[y], k - 1);
      }
    }
  }

  /** A smaller relation has no new chains. */
  lemma {:induction false} SubrelationChain(sub: Parents, par: Parents, x: Id, k: nat)
    requires forall y :: y in sub ==> y in par && par[y] == sub[y]
    requires Up(sub, x, k).Some?
    ensures Up(par, x, k) == Up(sub, x, k)
    decreases k
  {
    if k == 0 {
    } else {
      SubrelationChain(sub, par, sub[x], k - 1);
    }
  }

  lemma SubrelationCycle(sub: Parents, par: Parents, x: Id)
    requires OnCycle(sub, x) && forall y :: y in sub ==> y in par && par[y] == sub[y]
    ensures OnCycle(par, x)
  {
    var k: nat :| k > 0 && Up(sub, x, k) == Some(x);
    SubrelationChain(sub, par, x, k);
  }

  lemma SubrelationAcyclic(sub: Parents, par: Parents)
    requires Acyclic(par) && forall y :: y in sub ==> y in par && par[y] == sub[y]
    ensures Acyclic(sub)
  {
    forall x ensures !OnCycle(sub, x) {
      if OnCycle(sub, x) { SubrelationCycle(sub, par, x); }
    }
  }
}
