/** Tables with an integer primary key: their least and greatest keys, their rows in key order, and
    tables without gaps. */
module OrderedTable {

  lemma Pick<T>(s: set<T>) returns (x: T)
    requires |s| > 0
    ensures x in s
  {
    x :| x in s;
  }

  lemma {:induction false} MinExists(s: set<int>)
    requires |s| > 0
    ensures exists m :: m in s && forall k | k in s :: m <= k
  {
    var x := Pick(s);
    var rest := s - {x};
    assert forall k | k in s :: k == x || k in rest;
    if |rest| == 0 {
      assert forall k | k in s :: x <= k;
    } else {
      MinExists(rest);
      var m :| m in rest && forall k | k in rest :: m <= k;
      var least := if x < m then x else m;
      assert least in s && forall k | k in s :: least <= k;
    }
  }

  lemma {:induction false} MaxExists(s: set<int>)
    requires |s| > 0
    ensures exists m :: m in s && forall k | k in s :: k <= m
  {
    var x := Pick(s);
    var rest := s - {x};
    assert forall k | k in s :: k == x || k in rest;
    if |rest| == 0 {
      assert forall k | k in s :: k <= x;
    } else {
      MaxExists(rest);
      var m :| m in rest && forall k | k in rest :: k <= m;
      var greatest := if x > m then x else m;
      assert greatest in s && forall k | k in s :: k <= greatest;
    }
  }

  /** `SELECT MIN(key)` */
  function Min(s: set<int>): (m: int)
    requires s != {}
    ensures m in s && forall k | k in s :: m <= k
  {
    MinExists(s);
    var m :| m in s && forall k | k in s :: m <= k;
    m
  }

  /** `SELECT MAX(key)` */
  function Max(s: set<int>): (m: int)
    requires s != {}
    ensures m in s && forall k | k in s :: k <= m
  {
    MaxExists(s);
    var m :| m in s && forall k | k in s :: k <= m;
    m
  }

  function Above(s: set<int>, after: int): (r: set<int>)
    ensures r <= s
  {
    set k | k in s && k > after
  }

  // ---- The sorted table ----

  ghost predicate Ascending(r: seq<int>) {
    forall i, j | 0 <= i < j < |r| :: r[i] < r[j]
  }

  function Sorted(s: set<int>): (r: seq<int>) {
    if s == {} then [] else [Min(s)] + Sorted(s - {Min(s)})
  }

  lemma {:induction false} SortedMembers(s: set<int>)
    ensures |Sorted(s)| == |s|
    ensures forall k :: k in s <==> k in Sorted(s)
  {
    if s != {} {
      var rest := s - {Min(s)};
      SortedMembers(rest);
      assert forall k :: k in s <==> k == Min(s) || k in rest;
      assert Sorted(s) == [Min(s)] + Sorted(rest);
    }
  }

  lemma SortedStep(s: set<int>)
    requires s != {}
    ensures Sorted(s) == [Min(s)] + Sorted(s - {Min(s)})
  {
  }

  lemma PutInFront(x: int, tail: seq<int>)
    requires Ascending(tail) && forall k | k in tail :: x < k
    ensures Ascending([x] + tail)
  {
    forall i | 0 <= i < |tail| ensures x < tail[i] { assert tail[i] in tail; }
  }

  lemma {:induction false} SortedAscends(s: set<int>)
    ensures Ascending(Sorted(s))
  {
    if s == {} {
      EmptyAscends(Sorted(s));
    } else {
      hide Ascending, Sorted;
      var rest := s - {Min(s)};
      SortedAscends(rest);
      SortedStep(s);
      SortedMembers(rest);
      PutInFront(Min(s), Sorted(rest));
    }
  }

  function Clip(n: int, bound: int): int {
    if n < bound then n else bound
  }

  // ---- Lists of keys ----

  /** In order, possibly with repeats. */
  ghost predicate NonDescending(r: seq<int>) {
    forall i, j | 0 <= i < j < |r| :: r[i] <= r[j]
  }

  function Members(r: seq<int>): (s: set<int>)
    ensures forall k :: k in s <==> k in r
  {
    if r == [] then {} else Members(r[..|r| - 1]) + {r[|r| - 1]}
  }

  /** The last key of a list in order is new, or the list repeats. */
  lemma LastKey(r: seq<int>)
    requires NonDescending(r) && r != []
    ensures var n := |r| - 1;
      NonDescending(r[..n]) && (Ascending(r) <==> Ascending(r[..n]) && r[n] !in r[..n])
  {
    var n := |r| - 1;
    assert forall i | 0 <= i < n :: r[..n][i] == r[i];
    if Ascending(r[..n]) && r[n] !in r[..n] {
      forall i | 0 <= i < n ensures r[i] < r[n] { assert r[..n][i] in r[..n]; }
    }
  }

  /** A list in order has as many members as entries exactly when nothing is repeated. */
  lemma {:induction false} MemberCount(r: seq<int>)
    requires NonDescending(r)
    ensures |Members(r)| <= |r|
    ensures |Members(r)| == |r| <==> Ascending(r)
  {
    if r != [] {
      hide NonDescending, Ascending;
      LastKey(r);
      MemberCount(r[..|r| - 1]);
    } else {
      EmptyAscends(r);
    }
  }

  lemma EmptyAscends(r: seq<int>)
    requires r == []
    ensures Ascending(r)
  {
  }

  lemma FirstIsLeast(r: seq<int>)
    requires Ascending(r) && r != []
    ensures Members(r) != {} && Min(Members(r)) == r[0]
    ensures Ascending(r[1..]) && Members(r) - {r[0]} == Members(r[1..])
  {
    assert r[0] in r;
    assert r == [r[0]] + r[1..];
    assert Min(Members(r)) in r;
  }

  /** An ascending list is determined by its members. */
  lemma {:induction false} AscendingIsSorted(r: seq<int>)
    requires Ascending(r)
    ensures r == Sorted(Members(r))
    decreases |r|
  {
    if r != [] {
      hide Ascending, Members, Min, Sorted;
      FirstIsLeast(r);
      SortedStep(Members(r));
      AscendingIsSorted(r[1..]);
      assert r == [r[0]] + r[1..];
    }
  }

  // ---- Contiguous tables ----

  /** The keys lo + 1 .. hi. */
  function Interval(lo: int, hi: int): (s: set<int>)
    ensures forall k :: k in s <==> lo < k <= hi
    decreases hi - lo
  {
    if hi <= lo then {} else Interval(lo, hi - 1) + {hi}
  }

  lemma {:induction false} IntervalSize(lo: int, hi: int)
    requires lo <= hi
    ensures |Interval(lo, hi)| == hi - lo
    decreases hi - lo
  {
    if lo < hi {
      IntervalSize(lo, hi - 1);
      assert hi !in Interval(lo, hi - 1);
    }
  }

  lemma IntervalEnds(lo: int, hi: int)
    requires lo < hi
    ensures Interval(lo, hi) != {}
    ensures Min(Interval(lo, hi)) == lo + 1 && Max(Interval(lo, hi)) == hi
  {
    assert lo + 1 in Interval(lo, hi) && hi in Interval(lo, hi);
  }
}
