/**
 * Generic operations on a table held as a sequence of rows in the order the
 * store returns them: filtering, first-match lookup, sums, primary keys, and
 * the ORDER BY ... LIMIT queries.
 */
module Rows {
  import opened Wrappers

  /** The rows satisfying `p`, in store order (a WHERE clause). */
  function Filter<T(!new)>(s: seq<T>, p: T -> bool): (r: seq<T>)
    ensures |r| <= |s|
    ensures forall x :: x in r <==> x in s && p(x)
    ensures multiset(r) <= multiset(s)
  {
    if s == [] then []
    else
      assert s == [s[0]] + s[1..];
      (if p(s[0]) then [s[0]] else []) + Filter(s[1..], p)
  }

  /** The first row is kept or dropped, then the rest are filtered. */
  lemma FilterStep<T(!new)>(s: seq<T>, p: T -> bool)
    requires |s| > 0
    ensures Filter(s, p) == (if p(s[0]) then [s[0]] else []) + Filter(s[1..], p)
  {
  }

  /** Filtering twice is filtering by both conditions. */
  lemma {:induction false} FilterFilter<T(!new)>(s: seq<T>, p: T -> bool, q: T -> bool, pq: T -> bool)
    requires forall x :: x in s ==> pq(x) == (p(x) && q(x))
    ensures Filter(Filter(s, p), q) == Filter(s, pq)
  {
    if s != [] {
      FilterFilter(s[1..], p, q, pq);
      if p(s[0]) {
        assert Filter(s, p) == [s[0]] + Filter(s[1..], p);
        assert Filter(s, p)[1..] == Filter(s[1..], p);
      } else {
        assert Filter(s, p) == Filter(s[1..], p);
      }
    }
  }

  /** Conditions that agree on the rows select the same rows. */
  lemma {:induction false} FilterSame<T(!new)>(s: seq<T>, p: T -> bool, q: T -> bool)
    requires forall x :: x in s ==> p(x) == q(x)
    ensures Filter(s, p) == Filter(s, q)
  {
    if s != [] {
      FilterSame(s[1..], p, q);
    }
  }

  lemma {:induction false} FilterAll<T(!new)>(s: seq<T>)
    ensures Filter(s, (x: T) => true) == s
  {
    if s != [] {
      FilterAll(s[1..]);
      assert s == [s[0]] + s[1..];
    }
  }

  /** A row appended to the table is selected after the others, if it matches. */
  lemma {:induction false} FilterAppend<T(!new)>(s: seq<T>, x: T, p: T -> bool)
    ensures Filter(s + [x], p) == Filter(s, p) + (if p(x) then [x] else [])
  {
    if s == [] {
      assert s + [x] == [x];
    } else {
      assert (s + [x])[1..] == s[1..] + [x];
      FilterAppend(s[1..], x, p);
    }
  }

  /** The number of rows satisfying `p` (SELECT count(*) ... WHERE). */
  function Count<T(!new)>(s: seq<T>, p: T -> bool): (n: nat)
    ensures n <= |s|
    ensures n == 0 <==> forall x :: x in s ==> !p(x)
  {
    var r := Filter(s, p);
    assert r != [] ==> r[0] in r;
    |r|
  }

  /** A count grows by one exactly when the appended row satisfies the predicate. */
  lemma CountAppend<T(!new)>(s: seq<T>, x: T, p: T -> bool)
    ensures Count(s + [x], p) == Count(s, p) + (if p(x) then 1 else 0)
  {
    FilterAppend(s, x, p);
  }

  /** Rows of two disjoint kinds are together no more than the table. */
  lemma {:induction false} CountDisjoint<T(!new)>(s: seq<T>, p: T -> bool, q: T -> bool)
    requires forall x :: x in s ==> !(p(x) && q(x))
    ensures Count(s, p) + Count(s, q) <= |s|
  {
    if s != [] {
      CountDisjoint(s[1..], p, q);
      assert Filter(s, p) == (if p(s[0]) then [s[0]] else []) + Filter(s[1..], p);
      assert Filter(s, q) == (if q(s[0]) then [s[0]] else []) + Filter(s[1..], q);
    }
  }

  /** Index of the first row satisfying `p` (`.filter(...).first()`). */
  function FindFirst<T>(s: seq<T>, p: T -> bool): (r: Option<nat>)
    ensures r.Some? ==> r.value < |s| && p(s[r.value])
    ensures r.Some? ==> forall j :: 0 <= j < r.value ==> !p(s[j])
    ensures r.None? <==> forall j :: 0 <= j < |s| ==> !p(s[j])
  {
    if s == [] then None
    else if p(s[0]) then Some(0)
    else match FindFirst(s[1..], p)
      case None => None
      case Some(i) => Some(i + 1)
  }

  /** Sum of `f` over the rows (SELECT sum(...)). */
  function SumOf<T>(s: seq<T>, f: T -> int): int
  {
    if s == [] then 0 else f(s[0]) + SumOf(s[1..], f)
  }

  lemma {:induction false} SumOfAppend<T>(a: seq<T>, b: seq<T>, f: T -> int)
    ensures SumOf(a + b, f) == SumOf(a, f) + SumOf(b, f)
  {
    if a == [] {
      assert a + b == b;
    } else {
      assert (a + b)[1..] == a[1..] + b;
      SumOfAppend(a[1..], b, f);
    }
  }

  /** Deletes the row at index `i`, keeping the order of the others. */
  function RemoveAt<T>(s: seq<T>, i: nat): (r: seq<T>)
    requires i < |s|
    ensures |r| == |s| - 1
    ensures forall j :: 0 <= j < i ==> r[j] == s[j]
    ensures forall j :: i <= j < |r| ==> r[j] == s[j + 1]
    ensures multiset(r) == multiset(s) - multiset{s[i]}
  {
    assert s == s[..i] + [s[i]] + s[i + 1..];
    s[..i] + s[i + 1..]
  }

  /** No two rows share a key (a primary-key or UNIQUE constraint). */
  ghost predicate Unique<T, K>(s: seq<T>, key: T -> K)
  {
    forall i, j :: 0 <= i < j < |s| ==> key(s[i]) != key(s[j])
  }

  lemma UniqueAppend<T, K>(s: seq<T>, x: T, key: T -> K)
    requires Unique(s, key)
    requires forall y :: y in s ==> key(y) != key(x)
    ensures Unique(s + [x], key)
  {
    var t := s + [x];
    forall i, j | 0 <= i < j < |t| ensures key(t[i]) != key(t[j]) {
      if j == |s| {
        assert t[i] in s;
      }
    }
  }

  lemma UniqueUpdate<T, K>(s: seq<T>, i: nat, x: T, key: T -> K)
    requires Unique(s, key) && i < |s| && key(x) == key(s[i])
    ensures Unique(s[i := x], key)
  {
  }

  lemma UniqueRemoveAt<T, K>(s: seq<T>, i: nat, key: T -> K)
    requires Unique(s, key) && i < |s|
    ensures Unique(RemoveAt(s, i), key)
  {
    var r := RemoveAt(s, i);
    forall a, b | 0 <= a < b < |r| ensures key(r[a]) != key(r[b]) {
      var a', b' := if a < i then a else a + 1, if b < i then b else b + 1;
      assert r[a] == s[a'] && r[b] == s[b'];
    }
  }

  lemma UniqueTail<T, K>(s: seq<T>, key: T -> K)
    requires Unique(s, key) && |s| > 0
    ensures Unique(s[1..], key)
    ensures forall y :: y in s[1..] ==> key(y) != key(s[0])
  {
    forall a, b | 0 <= a < b < |s| - 1 ensures key(s[1..][a]) != key(s[1..][b]) {
      assert s[1..][a] == s[a + 1] && s[1..][b] == s[b + 1];
    }
    forall y | y in s[1..] ensures key(y) != key(s[0]) {
      var j :| 0 <= j < |s[1..]| && s[1..][j] == y;
      assert s[j + 1] == y;
    }
  }

  lemma UniqueCons<T, K>(x: T, s: seq<T>, key: T -> K)
    requires Unique(s, key)
    requires forall y :: y in s ==> key(y) != key(x)
    ensures Unique([x] + s, key)
  {
    var r := [x] + s;
    forall a, b | 0 <= a < b < |r| ensures key(r[a]) != key(r[b]) {
      if a == 0 {
        assert r[b] in s;
      } else {
        assert r[a] == s[a - 1] && r[b] == s[b - 1];
      }
    }
  }

  lemma {:induction false} UniqueFilter<T(!new), K>(s: seq<T>, p: T -> bool, key: T -> K)
    requires Unique(s, key)
    ensures Unique(Filter(s, p), key)
  {
    if s != [] {
      UniqueTail(s, key);
      UniqueFilter(s[1..], p, key);
      var rest := Filter(s[1..], p);
      if p(s[0]) {
        UniqueCons(s[0], rest, key);
        assert Filter(s, p) == [s[0]] + rest;
      } else {
        assert Filter(s, p) == [] + rest;
      }
    }
  }

  lemma UniqueConcat<T, K>(s: seq<T>, t: seq<T>, key: T -> K)
    requires Unique(s, key) && Unique(t, key)
    requires forall x, y :: x in s && y in t ==> key(x) != key(y)
    ensures Unique(s + t, key)
  {
    var r := s + t;
    forall a, b | 0 <= a < b < |r| ensures key(r[a]) != key(r[b]) {
      if a < |s| && b >= |s| {
        assert r[a] in s && r[b] == t[b - |s|];
      } else if a >= |s| {
        assert r[a] == t[a - |s|] && r[b] == t[b - |s|];
      }
    }
  }

  /** The key a new row receives: one more than the largest key in use. */
  function NextId<T(!new)>(s: seq<T>, key: T -> int): (r: int)
    ensures r >= 1
    ensures forall x :: x in s ==> key(x) < r
  {
    if s == [] then 1
    else
      var rest := NextId(s[1..], key);
      assert forall x :: x in s ==> x == s[0] || x in s[1..];
      if key(s[0]) < rest then rest else key(s[0]) + 1
  }

  // ---------------------------------------------------------------------
  // ORDER BY on a nullable integer column, PostgreSQL style: NULL sorts as
  // if larger than every value, so ASC puts NULLs last and DESC first.
  // ---------------------------------------------------------------------

  /** `a` sorts no later than `b` in ascending order. */
  predicate KeyLe(a: Option<int>, b: Option<int>)
  {
    b.None? || (a.Some? && a.value <= b.value)
  }

  /** `x` may precede `y` in the requested direction. */
  predicate InOrder<T>(x: T, y: T, key: T -> Option<int>, desc: bool)
  {
    if desc then KeyLe(key(y), key(x)) else KeyLe(key(x), key(y))
  }

  ghost predicate Ordered<T>(s: seq<T>, key: T -> Option<int>, desc: bool)
  {
    forall i, j :: 0 <= i < j < |s| ==> InOrder(s[i], s[j], key, desc)
  }

  lemma InOrderTotal<T>(x: T, y: T, key: T -> Option<int>, desc: bool)
    ensures InOrder(x, y, key, desc) || InOrder(y, x, key, desc)
  {
  }

  lemma InOrderTransitive<T>(x: T, y: T, z: T, key: T -> Option<int>, desc: bool)
    requires InOrder(x, y, key, desc) && InOrder(y, z, key, desc)
    ensures InOrder(x, z, key, desc)
  {
  }

  /** Places `x` before the first element it may precede. */
  function Insert<T(!new)>(x: T, s: seq<T>, key: T -> Option<int>, desc: bool): (r: seq<T>)
    ensures multiset(r) == multiset(s) + multiset{x}
  {
    if s == [] then [x]
    else if InOrder(x, s[0], key, desc) then [x] + s
    else
      assert s == [s[0]] + s[1..];
      [s[0]] + Insert(x, s[1..], key, desc)
  }

  lemma OrderedCons<T>(x: T, s: seq<T>, key: T -> Option<int>, desc: bool)
    requires Ordered(s, key, desc)
    requires forall y :: y in s ==> InOrder(x, y, key, desc)
    ensures Ordered([x] + s, key, desc)
  {
    var r := [x] + s;
    forall i, j | 0 <= i < j < |r| ensures InOrder(r[i], r[j], key, desc) {
      if i == 0 {
        assert r[j] in s;
      } else {
        assert r[i] == s[i - 1] && r[j] == s[j - 1];
      }
    }
  }

  /** The head of an ordered sequence may precede every later element. */
  lemma HeadFirst<T>(s: seq<T>, key: T -> Option<int>, desc: bool)
    requires Ordered(s, key, desc) && |s| > 0
    ensures forall y :: y in s[1..] ==> InOrder(s[0], y, key, desc)
  {
    forall y | y in s[1..] ensures InOrder(s[0], y, key, desc) {
      var k :| 0 <= k < |s[1..]| && s[1..][k] == y;
      assert s[k + 1] == y;
    }
  }

  lemma OrderedTail<T>(s: seq<T>, key: T -> Option<int>, desc: bool)
    requires Ordered(s, key, desc) && |s| > 0
    ensures Ordered(s[1..], key, desc)
  {
    forall i, j | 0 <= i < j < |s| - 1 ensures InOrder(s[1..][i], s[1..][j], key, desc) {
      assert s[1..][i] == s[i + 1] && s[1..][j] == s[j + 1];
    }
  }

  lemma {:induction false} InsertOrdered<T(!new)>(x: T, s: seq<T>, key: T -> Option<int>, desc: bool)
    requires Ordered(s, key, desc)
    ensures Ordered(Insert(x, s, key, desc), key, desc)
  {
    if s == [] {
    } else if InOrder(x, s[0], key, desc) {
      forall y | y in s ensures InOrder(x, y, key, desc) {
        var j :| 0 <= j < |s| && s[j] == y;
        if j > 0 {
          InOrderTransitive(x, s[0], s[j], key, desc);
        }
      }
      OrderedCons(x, s, key, desc);
    } else {
      InOrderTotal(x, s[0], key, desc);
      OrderedTail(s, key, desc);
      HeadFirst(s, key, desc);
      InsertOrdered(x, s[1..], key, desc);
      var t := Insert(x, s[1..], key, desc);
      forall y | y in t ensures InOrder(s[0], y, key, desc) {
        assert y in multiset(t);
        assert y == x || y in multiset(s[1..]);
      }
      OrderedCons(s[0], t, key, desc);
    }
  }

  /** The rows in the requested order (a stable insertion sort). */
  function SortBy<T(!new)>(s: seq<T>, key: T -> Option<int>, desc: bool): (r: seq<T>)
    ensures Ordered(r, key, desc)
    ensures multiset(r) == multiset(s)
  {
    if s == [] then []
    else
      assert s == [s[0]] + s[1..];
      var rest := SortBy(s[1..], key, desc);
      InsertOrdered(s[0], rest, key, desc);
      Insert(s[0], rest, key, desc)
  }

  /** `ORDER BY key [DESC] LIMIT k`. */
  function TopBy<T(!new)>(s: seq<T>, key: T -> Option<int>, desc: bool, k: nat): (r: seq<T>)
  {
    var sorted := SortBy(s, key, desc);
    if |sorted| <= k then sorted else sorted[..k]
  }

  /** In an ordered sequence, every element before position `m` may precede every element from `m` on. */
  lemma PrefixFirst<T>(s: seq<T>, m: nat, key: T -> Option<int>, desc: bool)
    requires Ordered(s, key, desc) && m <= |s|
    ensures forall x, y :: x in s[..m] && y in s[m..] ==> InOrder(x, y, key, desc)
  {
    forall x, y | x in s[..m] && y in s[m..] ensures InOrder(x, y, key, desc) {
      var i :| 0 <= i < m && s[..m][i] == x;
      var j :| 0 <= j < |s| - m && s[m..][j] == y;
      assert s[i] == x && s[m + j] == y;
    }
  }

  /**
   * What a LIMIT query promises: min(k, |s|) rows, in order, drawn from the
   * table, and no row left out sorts strictly before a row returned.
   */
  lemma TopByIsTopK<T(!new)>(s: seq<T>, key: T -> Option<int>, desc: bool, k: nat)
    ensures |TopBy(s, key, desc, k)| == if |s| <= k then |s| else k
    ensures Ordered(TopBy(s, key, desc, k), key, desc)
    ensures multiset(TopBy(s, key, desc, k)) <= multiset(s)
    ensures forall x, y :: x in TopBy(s, key, desc, k) && y in multiset(s) - multiset(TopBy(s, key, desc, k))
              ==> InOrder(x, y, key, desc)
  {
    var sorted := SortBy(s, key, desc);
    assert |sorted| == |multiset(sorted)| == |s|;
    var m := if |sorted| <= k then |sorted| else k;
    var r := sorted[..m];
    assert TopBy(s, key, desc, k) == r;
    assert sorted == r + sorted[m..];
    assert multiset(sorted) == multiset(r) + multiset(sorted[m..]);
    PrefixFirst(sorted, m, key, desc);
    forall x, y | x in r && y in multiset(s) - multiset(r)
      ensures InOrder(x, y, key, desc)
    {
      assert y in multiset(sorted[m..]);
    }
  }
}
