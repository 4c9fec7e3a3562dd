/**
 * Sequence operations that stand for the query engine: WHERE as an
 * order-preserving filter, LIMIT/OFFSET as a window, ORDER BY as an
 * insertion sort on a lexicographic key (an abstract total order; rows
 * with equal keys keep their scan order).
 */
module Seqs {
  import opened Wrappers

  /** The rows of `s` that satisfy `p`, in their original order. */
  function Filter<T(!new)>(s: seq<T>, p: T -> bool): (r: seq<T>)
    ensures |r| <= |s|
    ensures forall x :: x in r <==> x in s && p(x)
  {
    if s == [] then []
    else (if p(s[0]) then [s[0]] else []) + Filter(s[1..], p)
  }

  lemma {:induction false} FilterConcat<T(!new)>(a: seq<T>, b: seq<T>, p: T -> bool)
    ensures Filter(a + b, p) == Filter(a, p) + Filter(b, p)
  {
    if a == [] {
      assert a + b == b;
    } else {
      assert (a + b)[1..] == a[1..] + b;
      FilterConcat(a[1..], b, p);
    }
  }

  /** A filter that every row passes leaves the sequence as it is. */
  lemma {:induction false} FilterKeepsAll<T(!new)>(s: seq<T>, p: T -> bool)
    requires forall x :: x in s ==> p(x)
    ensures Filter(s, p) == s
  {
    if s != [] {
      FilterKeepsAll(s[1..], p);
    }
  }

  /** A filter that no row passes yields nothing. */
  lemma {:induction false} FilterDropsAll<T(!new)>(s: seq<T>, p: T -> bool)
    requires forall x :: x in s ==> !p(x)
    ensures Filter(s, p) == []
  {
    if s != [] {
      FilterDropsAll(s[1..], p);
    }
  }

  /** Filtering twice by the same condition is filtering once. */
  lemma FilterIdempotent<T(!new)>(s: seq<T>, p: T -> bool)
    ensures Filter(Filter(s, p), p) == Filter(s, p)
  {
    FilterKeepsAll(Filter(s, p), p);
  }

  /** No two rows of `s` share a key (a primary key or a UNIQUE column). */
  predicate KeysDistinct<T, K(==)>(s: seq<T>, key: T -> K)
  {
    forall i, j :: 0 <= i < j < |s| ==> key(s[i]) != key(s[j])
  }

  /** Filters by predicates that agree on the rows give the same rows. */
  lemma {:induction false} FilterExt<T(!new)>(s: seq<T>, p: T -> bool, q: T -> bool)
    requires forall x :: x in s ==> p(x) == q(x)
    ensures Filter(s, p) == Filter(s, q)
  {
    if s != [] {
      assert forall x :: x in s[1..] ==> x in s;
      FilterExt(s[1..], p, q);
    }
  }

  /** Two successive filters are one filter by the conjunction. */
  lemma {:induction false} FilterFilter<T(!new)>(s: seq<T>, p: T -> bool, q: T -> bool, both: T -> bool)
    requires forall x :: both(x) == (p(x) && q(x))
    ensures Filter(Filter(s, p), q) == Filter(s, both)
  {
    if s != [] {
      FilterFilter(s[1..], p, q, both);
      var rest := Filter(s[1..], p);
      if p(s[0]) {
        assert Filter(s, p) == [s[0]] + rest;
        assert ([s[0]] + rest)[1..] == rest;
      } else {
        assert Filter(s, p) == rest;
      }
    }
  }

  /** Filtering never introduces a duplicate key. */
  lemma {:induction false} FilterKeysDistinct<T(!new), K>(s: seq<T>, p: T -> bool, key: T -> K)
    ensures KeysDistinct(s, key) ==> KeysDistinct(Filter(s, p), key)
  {
    if s != [] && KeysDistinct(s, key) {
      FilterKeysDistinct(s[1..], p, key);
      var r := Filter(s[1..], p);
      forall j | 0 <= j < |r| ensures key(s[0]) != key(r[j]) {
        assert r[j] in r;
        var k :| 0 <= k < |s[1..]| && s[1..][k] == r[j];
        assert s[k + 1] == r[j];
      }
    }
  }

  /** The first row of a non-empty sequence is one of its members. */
  lemma HeadIsMember<T>(s: seq<T>)
    requires s != []
    ensures s[0] in s
  {
  }

  /** `s.map(f)`, e.g. a SELECT list applied to every row. */
  function Map<A(!new), B(!new)>(s: seq<A>, f: A -> B): (r: seq<B>)
    ensures |r| == |s|
    ensures forall i :: 0 <= i < |s| ==> r[i] == f(s[i])
    ensures forall x :: x in s ==> f(x) in r
    ensures forall y :: y in r ==> exists x :: x in s && y == f(x)
  {
    var r := seq(|s|, i requires 0 <= i < |s| => f(s[i]));
    assert forall x :: x in s ==> f(x) in r by {
      forall x | x in s ensures f(x) in r {
        var i :| 0 <= i < |s| && s[i] == x;
        assert r[i] == f(x);
      }
    }
    assert forall y :: y in r ==> exists x :: x in s && y == f(x) by {
      forall y | y in r ensures exists x :: x in s && y == f(x) {
        var i :| 0 <= i < |r| && r[i] == y;
        assert s[i] in s;
      }
    }
    r
  }

  /** Under distinct keys, two rows with the same key are the same row. */
  lemma KeyDetermines<T, K>(s: seq<T>, key: T -> K, x: T, y: T)
    requires KeysDistinct(s, key)
    requires x in s && y in s && key(x) == key(y)
    ensures x == y
  {
    var i :| 0 <= i < |s| && s[i] == x;
    var j :| 0 <= j < |s| && s[j] == y;
    assert i == j;
  }

  /** The first row satisfying `p`, if any (`result[0] || null` after a WHERE). */
  function First<T>(s: seq<T>, p: T -> bool): (r: Option<T>)
    ensures r.Some? ==> r.value in s && p(r.value)
    ensures r.None? <==> forall i :: 0 <= i < |s| ==> !p(s[i])
  {
    if s == [] then None else if p(s[0]) then Some(s[0]) else First(s[1..], p)
  }

  /** Appending a row behind rows of which none satisfies `p` makes it the first. */
  lemma {:induction false} FirstAppend<T>(s: seq<T>, x: T, p: T -> bool)
    requires First(s, p).None? && p(x)
    ensures First(s + [x], p) == Some(x)
  {
    if s == [] {
      assert (s + [x])[0] == x;
    } else {
      assert (s + [x])[1..] == s[1..] + [x];
      FirstAppend(s[1..], x, p);
    }
  }

  /** The first row whose key is `k` (a lookup by primary key). */
  function FindByKey<T, K(==)>(s: seq<T>, key: T -> K, k: K): (r: Option<T>)
    ensures r.Some? ==> r.value in s && key(r.value) == k
    ensures r.None? <==> forall i :: 0 <= i < |s| ==> key(s[i]) != k
  {
    if s == [] then None else if key(s[0]) == k then Some(s[0]) else FindByKey(s[1..], key, k)
  }

  /** When keys are distinct, the row found by key is the one row carrying it. */
  lemma FindByKeyUnique<T, K>(s: seq<T>, key: T -> K, x: T)
    requires KeysDistinct(s, key)
    requires x in s
    ensures FindByKey(s, key, key(x)) == Some(x)
  {
    var r := FindByKey(s, key, key(x));
    var i :| 0 <= i < |s| && s[i] == x;
    var j :| 0 <= j < |s| && s[j] == r.value;
    assert i == j;
  }

  /** The number of rows satisfying `p` (SQL `count(*)` under a WHERE). */
  function Count<T>(s: seq<T>, p: T -> bool): (n: nat)
    ensures n <= |s|
    ensures n == 0 <==> forall i :: 0 <= i < |s| ==> !p(s[i])
  {
    if s == [] then 0
    else (if p(s[0]) then 1 else 0) + Count(s[1..], p)
  }

  /** Some row satisfies `p` exactly when the count is positive. */
  lemma CountPositive<T>(s: seq<T>, p: T -> bool)
    ensures Count(s, p) > 0 <==> exists x :: x in s && p(x)
  {
    if exists x :: x in s && p(x) {
      var x :| x in s && p(x);
      var i :| 0 <= i < |s| && s[i] == x;
      assert p(s[i]);
    }
  }

  /** An appended row adds one to the count exactly when it satisfies `p`. */
  lemma {:induction false} CountAppend<T>(s: seq<T>, x: T, p: T -> bool)
    ensures Count(s + [x], p) == Count(s, p) + (if p(x) then 1 else 0)
  {
    if s == [] {
      assert (s + [x])[1..] == [];
    } else {
      assert (s + [x])[1..] == s[1..] + [x];
      CountAppend(s[1..], x, p);
    }
  }

  lemma {:induction false} CountIsFilterLength<T(!new)>(s: seq<T>, p: T -> bool)
    ensures Count(s, p) == |Filter(s, p)|
  {
    if s != [] {
      CountIsFilterLength(s[1..], p);
    }
  }

  /** Rows that satisfy a stronger condition are never more numerous. */
  lemma {:induction false} CountMonotone<T>(s: seq<T>, p: T -> bool, q: T -> bool)
    requires forall x :: x in s && p(x) ==> q(x)
    ensures Count(s, p) <= Count(s, q)
  {
    if s != [] {
      CountMonotone(s[1..], p, q);
    }
  }

  function Min(a: int, b: int): int { if a <= b then a else b }

  /** SQL `LIMIT limit OFFSET offset`: skip `offset` rows, then keep at most `limit`. */
  function Window<T>(s: seq<T>, offset: nat, limit: nat): (r: seq<T>)
    ensures |r| <= limit
    ensures |r| == if offset >= |s| then 0 else Min(limit, |s| - offset)
    ensures forall i :: 0 <= i < |r| ==> r[i] == s[offset + i]
  {
    if offset >= |s| then [] else s[offset..offset + Min(limit, |s| - offset)]
  }

  /** A window of a sorted sequence is sorted. */
  lemma WindowSorted<T>(s: seq<T>, offset: nat, limit: nat, key: T -> seq<int>, desc: bool)
    requires SortedBy(s, key, desc)
    ensures SortedBy(Window(s, offset, limit), key, desc)
  {
    var r := Window(s, offset, limit);
    forall i, j | 0 <= i < j < |r| ensures InOrder(key(r[i]), key(r[j]), desc) {
      assert r[i] == s[offset + i] && r[j] == s[offset + j];
    }
  }

  /** Every row of a window is a row of the sequence. */
  lemma WindowRows<T>(s: seq<T>, offset: nat, limit: nat)
    ensures forall x :: x in Window(s, offset, limit) ==> x in s
  {
    var r := Window(s, offset, limit);
    forall x | x in r ensures x in s {
      var i :| 0 <= i < |r| && r[i] == x;
      assert s[offset + i] == x;
    }
  }

  /** `s.map(row => f(row))` applied only to the rows satisfying `p` (an UPDATE ... WHERE). */
  function MapWhere<T>(s: seq<T>, p: T -> bool, f: T -> T): (r: seq<T>)
    ensures |r| == |s|
    ensures forall i :: 0 <= i < |s| ==> r[i] == if p(s[i]) then f(s[i]) else s[i]
  {
    seq(|s|, i requires 0 <= i < |s| => if p(s[i]) then f(s[i]) else s[i])
  }

  lemma MapWhereKeysDistinct<T, K>(s: seq<T>, p: T -> bool, f: T -> T, key: T -> K)
    requires KeysDistinct(s, key)
    requires forall x :: key(f(x)) == key(x)
    ensures KeysDistinct(MapWhere(s, p, f), key)
  {
    var r := MapWhere(s, p, f);
    forall i, j | 0 <= i < j < |r| ensures key(r[i]) != key(r[j]) {
      assert key(r[i]) == key(s[i]) && key(r[j]) == key(s[j]);
    }
  }

  /** Pairs `(x, ys[k])` for the rows of `ys` matching `x`, in the order of `ys`. */
  function Pairs<A(!new), B(!new)>(x: A, ys: seq<B>, on: (A, B) -> bool): (r: seq<(A, B)>)
    ensures forall q :: q in r <==> q.0 == x && q.1 in ys && on(x, q.1)
  {
    if ys == [] then []
    else (if on(x, ys[0]) then [(x, ys[0])] else []) + Pairs(x, ys[1..], on)
  }

  /** SQL `xs INNER JOIN ys ON on`: for each row of `xs` in order, its matching rows of `ys` in order. */
  function Join<A(!new), B(!new)>(xs: seq<A>, ys: seq<B>, on: (A, B) -> bool): (r: seq<(A, B)>)
    ensures forall q :: q in r <==> q.0 in xs && q.1 in ys && on(q.0, q.1)
  {
    if xs == [] then [] else Pairs(xs[0], ys, on) + Join(xs[1..], ys, on)
  }

  // ---------------------------------------------------------------------------
  // ORDER BY

  /** Lexicographic order on integer keys, a total preorder (in fact a total order). */
  predicate LexLe(a: seq<int>, b: seq<int>)
  {
    a == [] || (b != [] && (a[0] < b[0] || (a[0] == b[0] && LexLe(a[1..], b[1..]))))
  }

  lemma {:induction false} LexLeTotal(a: seq<int>, b: seq<int>)
    ensures LexLe(a, b) || LexLe(b, a)
  {
    if a != [] && b != [] && a[0] == b[0] {
      LexLeTotal(a[1..], b[1..]);
    }
  }

  lemma {:induction false} LexLeTransitive(a: seq<int>, b: seq<int>, c: seq<int>)
    requires LexLe(a, b) && LexLe(b, c)
    ensures LexLe(a, c)
  {
    if a != [] && b != [] && c != [] && a[0] == b[0] && b[0] == c[0] {
      LexLeTransitive(a[1..], b[1..], c[1..]);
    }
  }

  lemma {:induction false} LexLeAntisymmetric(a: seq<int>, b: seq<int>)
    requires LexLe(a, b) && LexLe(b, a)
    ensures a == b
  {
    if a != [] && b != [] {
      LexLeAntisymmetric(a[1..], b[1..]);
      assert a == [a[0]] + a[1..];
      assert b == [b[0]] + b[1..];
    }
  }

  /** `a` may come before `b` in ascending (`desc == false`) or descending order. */
  predicate InOrder(a: seq<int>, b: seq<int>, desc: bool)
  {
    if desc then LexLe(b, a) else LexLe(a, b)
  }

  predicate SortedBy<T>(s: seq<T>, key: T -> seq<int>, desc: bool)
  {
    forall i, j :: 0 <= i < j < |s| ==> InOrder(key(s[i]), key(s[j]), desc)
  }

  /** Inserts `x` before the first row it may precede. */
  function Insert<T>(x: T, s: seq<T>, key: T -> seq<int>, desc: bool): (r: seq<T>)
    ensures multiset(r) == multiset(s) + multiset{x}
    ensures |r| == |s| + 1
  {
    if s == [] then [x]
    else if InOrder(key(x), key(s[0]), desc) then [x] + s
    else
      assert s == [s[0]] + s[1..];
      [s[0]] + Insert(x, s[1..], key, desc)
  }

  /** ORDER BY `key` ASC (or DESC): insertion sort, stable on equal keys. */
  function SortBy<T>(s: seq<T>, key: T -> seq<int>, desc: bool): (r: seq<T>)
    ensures multiset(r) == multiset(s)
    ensures |r| == |s|
  {
    if s == [] then []
    else
      assert s == [s[0]] + s[1..];
      Insert(s[0], SortBy(s[1..], key, desc), key, desc)
  }

  lemma InOrderTransitive(a: seq<int>, b: seq<int>, c: seq<int>, desc: bool)
    requires InOrder(a, b, desc) && InOrder(b, c, desc)
    ensures InOrder(a, c, desc)
  {
    if desc { LexLeTransitive(c, b, a); } else { LexLeTransitive(a, b, c); }
  }

  lemma InOrderTotal(a: seq<int>, b: seq<int>, desc: bool)
    ensures InOrder(a, b, desc) || InOrder(b, a, desc)
  {
    LexLeTotal(a, b);
  }

  lemma {:induction false} InsertSorted<T>(x: T, s: seq<T>, key: T -> seq<int>, desc: bool)
    requires SortedBy(s, key, desc)
    ensures SortedBy(Insert(x, s, key, desc), key, desc)
  {
    var r := Insert(x, s, key, desc);
    if s == [] {
    } else if InOrder(key(x), key(s[0]), desc) {
      forall j | 0 <= j < |s| ensures InOrder(key(x), key(s[j]), desc) {
        if j > 0 { InOrderTransitive(key(x), key(s[0]), key(s[j]), desc); }
      }
      ConsSorted(x, s, key, desc);
    } else {
      InOrderTotal(key(x), key(s[0]), desc);
      var rest := Insert(x, s[1..], key, desc);
      InsertSorted(x, s[1..], key, desc);
      assert r == [s[0]] + rest;
      forall j | 0 <= j < |rest| ensures InOrder(key(s[0]), key(rest[j]), desc) {
        assert rest[j] in multiset(rest);
        assert rest[j] == x || rest[j] in multiset(s[1..]);
        if rest[j] != x {
          var k :| 0 <= k < |s[1..]| && s[1..][k] == rest[j];
          assert s[k + 1] == rest[j];
        }
      }
      ConsSorted(s[0], rest, key, desc);
    }
  }

  /** A row that may precede every row of a sorted sequence keeps it sorted when put first. */
  lemma ConsSorted<T>(h: T, s: seq<T>, key: T -> seq<int>, desc: bool)
    requires SortedBy(s, key, desc)
    requires forall j :: 0 <= j < |s| ==> InOrder(key(h), key(s[j]), desc)
    ensures SortedBy([h] + s, key, desc)
  {
    var r := [h] + s;
    forall i, j | 0 <= i < j < |r| ensures InOrder(key(r[i]), key(r[j]), desc) {
      assert r[j] == s[j - 1];
      if i > 0 { assert r[i] == s[i - 1]; }
    }
  }

  /** The sorted rows are ordered by the key: ORDER BY is honoured. */
  lemma {:induction false} SortBySorted<T>(s: seq<T>, key: T -> seq<int>, desc: bool)
    ensures SortedBy(SortBy(s, key, desc), key, desc)
  {
    if s != [] {
      SortBySorted(s[1..], key, desc);
      InsertSorted(s[0], SortBy(s[1..], key, desc), key, desc);
    }
  }

  /** Sorting neither adds nor drops rows. */
  lemma SortBySameRows<T>(s: seq<T>, key: T -> seq<int>, desc: bool)
    ensures forall x :: x in SortBy(s, key, desc) <==> x in s
  {
    var r := SortBy(s, key, desc);
    forall x ensures x in r <==> x in s {
      assert x in r <==> x in multiset(r);
      assert x in s <==> x in multiset(s);
    }
  }

  /** Inserting a row whose key no row has keeps the keys distinct. */
  lemma {:induction false} InsertKeysDistinct<T, K>(x: T, s: seq<T>, sortKey: T -> seq<int>, desc: bool, key: T -> K)
    requires KeysDistinct(s, key)
    requires forall i :: 0 <= i < |s| ==> key(s[i]) != key(x)
    ensures KeysDistinct(Insert(x, s, sortKey, desc), key)
  {
    if s == [] {
    } else if InOrder(sortKey(x), sortKey(s[0]), desc) {
      ConsKeysDistinct(x, s, key);
    } else {
      var rest := Insert(x, s[1..], sortKey, desc);
      TailKeysDistinct(s, key);
      InsertKeysDistinct(x, s[1..], sortKey, desc, key);
      forall j | 0 <= j < |rest| ensures key(s[0]) != key(rest[j]) {
        assert rest[j] in multiset(rest);
        if rest[j] != x {
          assert rest[j] in multiset(s[1..]);
          var k :| 0 <= k < |s[1..]| && s[1..][k] == rest[j];
          assert s[k + 1] == rest[j];
        }
      }
      assert Insert(x, s, sortKey, desc) == [s[0]] + rest;
      ConsKeysDistinct(s[0], rest, key);
    }
  }

  lemma ConsKeysDistinct<T, K>(h: T, s: seq<T>, key: T -> K)
    requires KeysDistinct(s, key)
    requires forall j :: 0 <= j < |s| ==> key(h) != key(s[j])
    ensures KeysDistinct([h] + s, key)
  {
    var r := [h] + s;
    forall i, j | 0 <= i < j < |r| ensures key(r[i]) != key(r[j]) {
      assert r[j] == s[j - 1];
      if i > 0 {
        assert r[i] == s[i - 1];
      }
    }
  }

  lemma TailKeysDistinct<T, K>(s: seq<T>, key: T -> K)
    requires s != [] && KeysDistinct(s, key)
    ensures KeysDistinct(s[1..], key)
  {
    forall i, j | 0 <= i < j < |s| - 1 ensures key(s[1..][i]) != key(s[1..][j]) {
      assert s[1..][i] == s[i + 1] && s[1..][j] == s[j + 1];
    }
  }

  /** Sorting keeps the keys distinct. */
  lemma {:induction false} SortByKeysDistinct<T, K>(s: seq<T>, sortKey: T -> seq<int>, desc: bool, key: T -> K)
    requires KeysDistinct(s, key)
    ensures KeysDistinct(SortBy(s, sortKey, desc), key)
  {
    if s != [] {
      var rest := SortBy(s[1..], sortKey, desc);
      SortByKeysDistinct(s[1..], sortKey, desc, key);
      forall i | 0 <= i < |rest| ensures key(rest[i]) != key(s[0]) {
        assert rest[i] in multiset(rest);
        assert rest[i] in multiset(s[1..]);
        var k :| 0 <= k < |s[1..]| && s[1..][k] == rest[i];
        assert s[k + 1] == rest[i];
      }
      InsertKeysDistinct(s[0], rest, sortKey, desc, key);
    }
  }

  lemma WindowKeysDistinct<T, K>(s: seq<T>, offset: nat, limit: nat, key: T -> K)
    requires KeysDistinct(s, key)
    ensures KeysDistinct(Window(s, offset, limit), key)
  {
  }

  // ---------------------------------------------------------------------------
  // ORDER BY ... LIMIT ... OFFSET

  /**
   * A page of `rows` in the order of `key`: exactly min(limit, n - offset)
   * rows (none once `offset` reaches the number n of rows), drawn from
   * `rows`, in order; on the first page no row left out may come before
   * the page's last row.
   */
  function SortedWindow<T>(rows: seq<T>, key: T -> seq<int>, desc: bool, offset: nat, limit: nat): (r: seq<T>)
    ensures |r| == if offset >= |rows| then 0 else Min(limit, |rows| - offset)
    ensures multiset(r) <= multiset(rows)
    ensures forall x :: x in r ==> x in rows
    ensures SortedBy(r, key, desc)
    ensures offset == 0 && r != [] ==>
      forall x :: x in rows && x !in r ==> InOrder(key(r[|r| - 1]), key(x), desc)
  {
    var sorted := SortBy(rows, key, desc);
    SortBySorted(rows, key, desc);
    SortBySameRows(rows, key, desc);
    WindowSorted(sorted, offset, limit, key, desc);
    WindowRows(sorted, offset, limit);
    WindowMultiset(sorted, offset, limit);
    FirstWindowComesFirst(sorted, limit, key, desc);
    Window(sorted, offset, limit)
  }

  /** A value found at two different positions occurs at least twice. */
  lemma TwoPositions<T>(s: seq<T>, i: nat, j: nat)
    requires i < |s| && j < |s| && i != j && s[i] == s[j]
    ensures multiset(s)[s[i]] >= 2
  {
    var lo, hi := if i < j then i else j, if i < j then j else i;
    assert s == s[..hi] + [s[hi]] + s[hi + 1..];
    assert s[..hi][lo] == s[i];
    assert s[i] in multiset(s[..hi]);
  }

  /** Two different left rows joined to one right row put it twice among the joined right rows. */
  lemma JoinedRightTwice<A(!new), B(!new)>(xs: seq<A>, ys: seq<B>, on: (A, B) -> bool, right: ((A, B)) -> B, a: A, b: A, y: B)
    requires forall q :: right(q) == q.1
    requires a in xs && b in xs && a != b && y in ys && on(a, y) && on(b, y)
    ensures multiset(Map(Join(xs, ys, on), right))[y] >= 2
  {
    var j := Join(xs, ys, on);
    assert (a, y) in j && (b, y) in j;
    var i :| 0 <= i < |j| && j[i] == (a, y);
    var k :| 0 <= k < |j| && j[k] == (b, y);
    TwoPositions(Map(j, right), i, k);
  }

  /** A first page at least as long as the rows holds every row. */
  lemma WholeSortedWindow<T>(rows: seq<T>, key: T -> seq<int>, desc: bool, offset: nat, limit: nat)
    requires offset == 0 && limit >= |rows|
    ensures forall x :: x in SortedWindow(rows, key, desc, offset, limit) <==> x in rows
  {
    var sorted := SortBy(rows, key, desc);
    assert SortedWindow(rows, key, desc, offset, limit) == Window(sorted, offset, limit);
    assert Window(sorted, offset, limit) == sorted;
    SortBySameRows(rows, key, desc);
  }

  lemma WindowMultiset<T>(s: seq<T>, offset: nat, limit: nat)
    ensures multiset(Window(s, offset, limit)) <= multiset(s)
  {
    var r := Window(s, offset, limit);
    if offset < |s| {
      var end := offset + |r|;
      assert r == s[offset..end];
      assert s == s[..offset] + s[offset..end] + s[end..];
    }
  }

  /** In a sorted sequence, every row after the first window may follow the window's last row. */
  lemma FirstWindowComesFirst<T>(s: seq<T>, limit: nat, key: T -> seq<int>, desc: bool)
    requires SortedBy(s, key, desc)
    ensures var r := Window(s, 0, limit);
      r != [] ==> forall x :: x in s && x !in r ==> InOrder(key(r[|r| - 1]), key(x), desc)
  {
    var r := Window(s, 0, limit);
    forall x | x in s && x !in r && r != []
      ensures InOrder(key(r[|r| - 1]), key(x), desc)
    {
      var j :| 0 <= j < |s| && s[j] == x;
      assert forall i :: 0 <= i < |r| ==> s[i] in r;
      assert r[|r| - 1] == s[|r| - 1];
    }
  }

  /**
   * Successive pages tile the sorted rows: the page of `a` rows at
   * `offset` followed by the page of `b` rows after it is the page of
   * `a + b` rows at `offset`.
   */
  lemma SortedWindowsTile<T>(rows: seq<T>, key: T -> seq<int>, desc: bool, offset: nat, a: nat, b: nat)
    ensures SortedWindow(rows, key, desc, offset, a) + SortedWindow(rows, key, desc, offset + a, b)
         == SortedWindow(rows, key, desc, offset, a + b)
  {
    var s := SortBy(rows, key, desc);
    WindowsTile(s, offset, a, b);
  }

  lemma WindowsTile<T>(s: seq<T>, offset: nat, a: nat, b: nat)
    ensures Window(s, offset, a) + Window(s, offset + a, b) == Window(s, offset, a + b)
  {
    var n := |s|;
    if offset >= n {
    } else if offset + a >= n {
      assert Window(s, offset, a) == s[offset..n];
      assert Window(s, offset, a + b) == s[offset..n];
    } else {
      var m := Min(b, n - offset - a);
      assert Window(s, offset, a) == s[offset..offset + a];
      assert Window(s, offset + a, b) == s[offset + a..offset + a + m];
      assert Window(s, offset, a + b) == s[offset..offset + a + m];
      assert s[offset..offset + a + m] == s[offset..offset + a] + s[offset + a..offset + a + m];
    }
  }

  /** In descending order on one column, a row that may come first has the larger value. */
  lemma DescendingSingle(a: int, b: int)
    requires InOrder([a], [b], true)
    ensures a >= b
  {
    assert [a][1..] == [];
  }

  /** The elements of `s` without repetition, each where it first occurs (SQL GROUP BY). */
  function Distinct<T(==, !new)>(s: seq<T>): (r: seq<T>)
    ensures forall x :: x in r <==> x in s
    ensures forall i, j :: 0 <= i < j < |r| ==> r[i] != r[j]
  {
    if s == [] then []
    else
      var rest := Distinct(s[..|s| - 1]);
      assert s == s[..|s| - 1] + [s[|s| - 1]];
      if s[|s| - 1] in rest then rest else rest + [s[|s| - 1]]
  }

  /** Sum of `f` over the rows (a JavaScript `reduce((sum, x) => sum + f(x), 0)`). */
  function Sum<T>(s: seq<T>, f: T -> int): int
  {
    if s == [] then 0 else f(s[0]) + Sum(s[1..], f)
  }

  lemma {:induction false} SumConcat<T>(a: seq<T>, b: seq<T>, f: T -> int)
    ensures Sum(a + b, f) == Sum(a, f) + Sum(b, f)
  {
    if a == [] {
      assert a + b == b;
    } else {
      assert (a + b)[1..] == a[1..] + b;
      SumConcat(a[1..], b, f);
    }
  }

  lemma {:induction false} SumNonNegative<T>(s: seq<T>, f: T -> int)
    requires forall x :: x in s ==> f(x) >= 0
    ensures Sum(s, f) >= 0
  {
    if s != [] {
      SumNonNegative(s[1..], f);
    }
  }
}
