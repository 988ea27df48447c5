/** List comprehensions and Python's stable `sorted`/`list.sort`, on `seq`. */
module Sequences {

  /** `[x for x in s if keep(x)]`. */
  function Filter<T>(s: seq<T>, keep: T -> bool): (r: seq<T>)
    ensures |r| <= |s|
  {
    if s == [] then [] else (if keep(s[0]) then [s[0]] else []) + Filter(s[1..], keep)
  }

  /** The filtered list holds exactly the elements that pass. */
  lemma {:induction false} FilterMembers<T(!new)>(s: seq<T>, keep: T -> bool)
    ensures forall x :: x in Filter(s, keep) <==> x in s && keep(x)
    decreases |s|
  {
    if s != [] {
      FilterMembers(s[1..], keep);
      assert s == [s[0]] + s[1..];
    }
  }

  lemma {:induction false} FilterConcat<T>(a: seq<T>, b: seq<T>, keep: T -> bool)
    ensures Filter(a + b, keep) == Filter(a, keep) + Filter(b, keep)
    decreases |a|
  {
    if a != [] {
      var head := if keep(a[0]) then [a[0]] else [];
      calc {
        Filter(a + b, keep);
        { assert (a + b)[0] == a[0] && (a + b)[1..] == a[1..] + b; }
        head + Filter(a[1..] + b, keep);
        { FilterConcat(a[1..], b, keep); }
        head + (Filter(a[1..], keep) + Filter(b, keep));
        Filter(a, keep) + Filter(b, keep);
      }
    } else {
      assert a + b == b;
    }
  }

  /** A non-empty list is its front followed by its last element. */
  lemma Snoc<T>(s: seq<T>)
    requires s != []
    ensures s == s[..|s| - 1] + [s[|s| - 1]]
  {
  }

  /** Filtering a prefix one element longer adds that element when it passes. */
  lemma FilterSnoc<T>(s: seq<T>, i: nat, keep: T -> bool)
    requires 0 < i <= |s|
    ensures Filter(s[..i], keep) == Filter(s[..i - 1], keep) + if keep(s[i - 1]) then [s[i - 1]] else []
  {
    assert s[..i] == s[..i - 1] + [s[i - 1]];
    FilterConcat(s[..i - 1], [s[i - 1]], keep);
  }

  /** Filtering around one element. */
  lemma FilterAround<T>(a: seq<T>, x: T, b: seq<T>, keep: T -> bool)
    ensures Filter(a + [x] + b, keep) == Filter(a, keep) + (if keep(x) then [x] else []) + Filter(b, keep)
  {
    assert Filter([x], keep) == if keep(x) then [x] else [];
    FilterConcat(a, [x], keep);
    FilterConcat(a + [x], b, keep);
  }

  /** Filtering twice is filtering once by both tests. */
  lemma {:induction false} FilterFilter<T>(s: seq<T>, p: T -> bool, q: T -> bool, both: T -> bool)
    requires forall x :: both(x) == (p(x) && q(x))
    ensures Filter(Filter(s, p), q) == Filter(s, both)
    decreases |s|
  {
    if s != [] {
      FilterFilter(s[1..], p, q, both);
      var head := if p(s[0]) then [s[0]] else [];
      FilterConcat(head, Filter(s[1..], p), q);
    }
  }

  /** Filtering by two tests that agree everywhere gives the same list. */
  lemma {:induction false} FilterSame<T>(s: seq<T>, p: T -> bool, q: T -> bool)
    requires forall x :: p(x) == q(x)
    ensures Filter(s, p) == Filter(s, q)
    decreases |s|
  {
    if s != [] {
      FilterSame(s[1..], p, q);
    }
  }

  /** Filtering a list whose elements all pass changes nothing. */
  lemma {:induction false} FilterAll<T>(s: seq<T>, keep: T -> bool)
    requires forall i :: 0 <= i < |s| ==> keep(s[i])
    ensures Filter(s, keep) == s
    decreases |s|
  {
    if s != [] {
      FilterAll(s[1..], keep);
    }
  }

  /** `before` is a strict weak order: asymmetric, and "not before" is
      transitive. Python's `<` on numbers and on strings is one. */
  ghost predicate StrictWeakOrder<T(!new)>(before: (T, T) -> bool) {
    && (forall a, b :: before(a, b) ==> !before(b, a))
    && (forall a, b, c :: !before(a, b) && !before(b, c) ==> !before(a, c))
  }

  /** No element is strictly before an element to its left. */
  ghost predicate SortedBy<T>(s: seq<T>, before: (T, T) -> bool) {
    forall i, j :: 0 <= i < j < |s| ==> !before(s[j], s[i])
  }

  /** Places `x` in front of the first element of `s` that is not strictly
      before it. */
  function Insert<T>(x: T, s: seq<T>, before: (T, T) -> bool): (r: seq<T>)
    ensures multiset(r) == multiset(s) + multiset{x}
    ensures |r| == |s| + 1
  {
    if s == [] then [x]
    else if before(s[0], x) then
      assert s == [s[0]] + s[1..];
      [s[0]] + Insert(x, s[1..], before)
    else [x] + s
  }

  /** Stable insertion sort: the result of Python's `sorted(s, key=...)`
      where `before(a, b)` means the key of `a` is smaller than that of `b`. */
  function SortBy<T>(s: seq<T>, before: (T, T) -> bool): (r: seq<T>)
    ensures multiset(r) == multiset(s)
    ensures |r| == |s|
  {
    if s == [] then []
    else
      assert s == [s[0]] + s[1..];
      Insert(s[0], SortBy(s[1..], before), before)
  }

  lemma {:induction false} InsertSorted<T(!new)>(x: T, s: seq<T>, before: (T, T) -> bool)
    requires StrictWeakOrder(before) && SortedBy(s, before)
    ensures SortedBy(Insert(x, s, before), before)
    decreases |s|
  {
    if s != [] {
      if before(s[0], x) {
        var t := Insert(x, s[1..], before);
        InsertSorted(x, s[1..], before);
        forall k | 0 <= k < |t| ensures !before(t[k], s[0]) {
          assert t[k] in multiset(t);
          assert t[k] in multiset(s[1..]) + multiset{x};
          if t[k] != x {
            assert t[k] in s[1..];
            var m :| 0 <= m < |s[1..]| && s[1..][m] == t[k];
            assert s[m + 1] == t[k];
          }
        }
        assert Insert(x, s, before) == [s[0]] + t;
      } else {
        var r := [x] + s;
        forall i, j | 0 <= i < j < |r| ensures !before(r[j], r[i]) {
          if i == 0 {
            assert r[j] == s[j - 1];
            if j - 1 > 0 {
              assert !before(s[j - 1], s[0]);
            }
          }
        }
      }
    }
  }

  /** `SortBy` orders its result. */
  lemma {:induction false} SortBySorted<T(!new)>(s: seq<T>, before: (T, T) -> bool)
    requires StrictWeakOrder(before)
    ensures SortedBy(SortBy(s, before), before)
    decreases |s|
  {
    if s != [] {
      SortBySorted(s[1..], before);
      InsertSorted(s[0], SortBy(s[1..], before), before);
    }
  }

  /** Sorting keeps the elements. */
  lemma SortByMembers<T>(s: seq<T>, before: (T, T) -> bool)
    ensures forall x :: x in SortBy(s, before) <==> x in s
  {
    var r := SortBy(s, before);
    assert forall x :: x in r <==> x in multiset(r);
    assert forall x :: x in s <==> x in multiset(s);
  }

  /** Sorting a list without repetitions gives one without repetitions. */
  lemma {:induction false} SortByDistinct<T>(s: seq<T>, before: (T, T) -> bool)
    requires Distinct(s)
    ensures Distinct(SortBy(s, before))
    decreases |s|
  {
    if s != [] {
      SortByDistinct(s[1..], before);
      SortByMembers(s[1..], before);
      assert s[0] !in s[1..];
      InsertDistinct(s[0], SortBy(s[1..], before), before);
    }
  }

  lemma {:induction false} InsertDistinct<T>(x: T, s: seq<T>, before: (T, T) -> bool)
    requires Distinct(s) && x !in s
    ensures Distinct(Insert(x, s, before))
    decreases |s|
  {
    if s != [] && before(s[0], x) {
      var rest := Insert(x, s[1..], before);
      assert x !in s[1..];
      InsertDistinct(x, s[1..], before);
      assert forall y :: y in rest <==> y in multiset(rest);
      assert s[0] !in s[1..];
      assert s[0] !in rest;
      assert Insert(x, s, before) == [s[0]] + rest;
    }
  }

  /** Filtering keeps a list sorted. */
  lemma {:induction false} FilterSorted<T(!new)>(s: seq<T>, keep: T -> bool, before: (T, T) -> bool)
    requires SortedBy(s, before)
    ensures SortedBy(Filter(s, keep), before)
    decreases |s|
  {
    if s != [] {
      var rest := Filter(s[1..], keep);
      FilterSorted(s[1..], keep, before);
      FilterMembers(s[1..], keep);
      if keep(s[0]) {
        forall k | 0 <= k < |rest| ensures !before(rest[k], s[0]) {
          assert rest[k] in s[1..];
          var m :| 0 <= m < |s[1..]| && s[1..][m] == rest[k];
          assert s[m + 1] == rest[k];
        }
        var r := [s[0]] + rest;
        forall i, j | 0 <= i < j < |r| ensures !before(r[j], r[i]) {
          if i > 0 {
            assert r[i] == rest[i - 1] && r[j] == rest[j - 1];
          }
        }
      }
    }
  }

  /** Neither element is strictly before the other. */
  predicate Tied<T>(a: T, b: T, before: (T, T) -> bool) {
    !before(a, b) && !before(b, a)
  }

  /** The elements of `s` tied with `y`, in their order in `s`. */
  function TiedWith<T>(s: seq<T>, y: T, before: (T, T) -> bool): seq<T> {
    if s == [] then [] else (if Tied(s[0], y, before) then [s[0]] else []) + TiedWith(s[1..], y, before)
  }

  lemma {:induction false} InsertTiedWith<T(!new)>(x: T, s: seq<T>, y: T, before: (T, T) -> bool)
    requires StrictWeakOrder(before)
    ensures TiedWith(Insert(x, s, before), y, before)
         == (if Tied(x, y, before) then [x] else []) + TiedWith(s, y, before)
    decreases |s|
  {
    var tx := if Tied(x, y, before) then [x] else [];
    if s != [] && before(s[0], x) {
      var rest := Insert(x, s[1..], before);
      InsertTiedWith(x, s[1..], y, before);
      if Tied(x, y, before) {
        assert !Tied(s[0], y, before);
      }
      var t0 := if Tied(s[0], y, before) then [s[0]] else [];
      calc {
        TiedWith(Insert(x, s, before), y, before);
        { assert Insert(x, s, before) == [s[0]] + rest;
          assert ([s[0]] + rest)[0] == s[0] && ([s[0]] + rest)[1..] == rest; }
        t0 + TiedWith(rest, y, before);
        t0 + (tx + TiedWith(s[1..], y, before));
        tx + (t0 + TiedWith(s[1..], y, before));
        tx + TiedWith(s, y, before);
      }
    } else if s != [] {
      assert Insert(x, s, before) == [x] + s;
      assert ([x] + s)[0] == x && ([x] + s)[1..] == s;
    }
  }

  /** `SortBy` is stable: tied elements keep their relative order. */
  lemma {:induction false} SortByStable<T(!new)>(s: seq<T>, y: T, before: (T, T) -> bool)
    requires StrictWeakOrder(before)
    ensures TiedWith(SortBy(s, before), y, before) == TiedWith(s, y, before)
    decreases |s|
  {
    if s != [] {
      SortByStable(s[1..], y, before);
      InsertTiedWith(s[0], SortBy(s[1..], before), y, before);
    }
  }

  /** `s * n` for a list: `n` copies of `s`, one after the other. */
  function Repeat<T>(s: seq<T>, n: nat): (r: seq<T>)
    ensures |r| == n * |s|
  {
    if n == 0 then [] else Repeat(s, n - 1) + s
  }

  /** Copy number `m` of `s` occupies the `m`-th stretch of `|s|` elements. */
  lemma {:induction false} RepeatCopy<T>(s: seq<T>, n: nat, m: nat)
    requires m < n
    ensures (m + 1) * |s| <= n * |s|
    ensures Repeat(s, n)[m * |s|..(m + 1) * |s|] == s
    decreases n
  {
    var prev := Repeat(s, n - 1);
    assert Repeat(s, n) == prev + s;
    if m == n - 1 {
      assert |prev| == m * |s|;
      assert (m + 1) * |s| == m * |s| + |s|;
    } else {
      RepeatCopy(s, n - 1, m);
      assert (m + 1) * |s| <= (n - 1) * |s| <= n * |s|;
      assert (prev + s)[m * |s|..(m + 1) * |s|] == prev[m * |s|..(m + 1) * |s|];
    }
  }

  /** No element occurs twice. */
  predicate Distinct<T(==)>(s: seq<T>) {
    forall i, j :: 0 <= i < j < |s| ==> s[i] != s[j]
  }

  /** The distinct elements of `s` in order of first appearance, as a dict
      built by inserting each element as a key keeps them. */
  function Dedup<T(==,!new)>(s: seq<T>): (r: seq<T>)
    ensures Distinct(r)
    ensures forall x :: x in r <==> x in s
  {
    if s == [] then []
    else
      var front, last := s[..|s| - 1], s[|s| - 1];
      assert s == front + [last];
      var d := Dedup(front);
      if last in d then d else d + [last]
  }

  /** A list without repetitions has as many elements as the set of them. */
  lemma {:induction false} DistinctCard<T>(s: seq<T>, members: set<T>)
    requires Distinct(s) && forall x :: x in s <==> x in members
    ensures |s| == |members|
    decreases |s|
  {
    if s != [] {
      var front, last := s[..|s| - 1], s[|s| - 1];
      assert forall i :: 0 <= i < |front| ==> front[i] == s[i];
      assert last !in front by {
        forall i | 0 <= i < |front| ensures front[i] != last {
          assert s[i] != s[|s| - 1];
        }
      }
      assert forall x :: x in s <==> x in front || x == last by {
        assert s == front + [last];
      }
      DistinctCard(front, members - {last});
    }
  }

  /** Two lists without repetitions and with no element in common join into
      one without repetitions. */
  lemma DistinctConcat<T>(a: seq<T>, b: seq<T>)
    requires Distinct(a) && Distinct(b) && forall x :: x in a ==> x !in b
    ensures Distinct(a + b)
  {
    var c := a + b;
    forall i, j | 0 <= i < j < |c| ensures c[i] != c[j] {
      if j < |a| {
        assert c[i] == a[i] && c[j] == a[j];
      } else if i >= |a| {
        assert c[i] == b[i - |a|] && c[j] == b[j - |a|];
      } else {
        assert c[i] == a[i] && c[j] == b[j - |a|];
        assert a[i] in a;
      }
    }
  }

  /** A list without repetitions, less its last element, is still without
      repetitions and does not hold that element. */
  lemma DistinctSnoc<T>(s: seq<T>, x: T)
    requires Distinct(s + [x])
    ensures Distinct(s) && x !in s
  {
    var c := s + [x];
    forall i, j | 0 <= i < j < |s| ensures s[i] != s[j] {
      assert c[i] == s[i] && c[j] == s[j];
    }
    forall i | 0 <= i < |s| ensures s[i] != x {
      assert c[i] == s[i] && c[|s|] == x;
    }
  }

  /** Filtering a list without repetitions gives one without repetitions. */
  lemma {:induction false} FilterDistinct<T(!new)>(s: seq<T>, keep: T -> bool)
    requires Distinct(s)
    ensures Distinct(Filter(s, keep))
    decreases |s|
  {
    if s != [] {
      assert Distinct(s[1..]) by {
        forall i, j | 0 <= i < j < |s[1..]| ensures s[1..][i] != s[1..][j] {
          assert s[1..][i] == s[i + 1] && s[1..][j] == s[j + 1];
        }
      }
      FilterDistinct(s[1..], keep);
      FilterMembers(s[1..], keep);
      assert s[0] !in s[1..];
    }
  }

  /** A list of distinct elements drawn from a finite set is no longer than the set. */
  lemma {:induction false} DistinctBound<T>(s: seq<T>, from: set<T>)
    requires Distinct(s) && forall x :: x in s ==> x in from
    ensures |s| <= |from|
    decreases |s|
  {
    if s != [] {
      forall x | x in s[1..] ensures x in from - {s[0]} {
        var k :| 0 <= k < |s[1..]| && s[1..][k] == x;
        assert s[k + 1] == x;
      }
      DistinctBound(s[1..], from - {s[0]});
    }
  }

  lemma AppendAssoc<T>(a: seq<T>, b: seq<T>, c: seq<T>)
    ensures a + b + c == a + (b + c)
  {
  }

  /** A list longer than the set it is drawn from repeats an element. */
  lemma {:induction false} Repeats<T>(s: seq<T>, from: set<T>)
    requires |s| > |from| && forall x :: x in s ==> x in from
    ensures exists i, j :: 0 <= i < j < |s| && s[i] == s[j]
    decreases |s|
  {
    var rest := s[1..];
    if s[0] in rest {
      var k :| 0 <= k < |rest| && rest[k] == s[0];
      assert s[0] == s[k + 1];
    } else {
      forall x | x in rest ensures x in from - {s[0]} {
        var k :| 0 <= k < |rest| && rest[k] == x;
        assert s[k + 1] == x;
      }
      Repeats(rest, from - {s[0]});
      var i, j :| 0 <= i < j < |rest| && rest[i] == rest[j];
      assert s[i + 1] == s[j + 1];
    }
  }

  /** A slice that falls inside the middle part of a concatenation. */
  lemma SliceMiddle<T>(a: seq<T>, b: seq<T>, c: seq<T>, i: nat, j: nat)
    requires i <= j <= |b|
    ensures (a + b + c)[|a| + i..|a| + j] == b[i..j]
  {
    assert forall k :: 0 <= k < j - i ==> (a + b + c)[|a| + i..|a| + j][k] == b[i..j][k];
  }

  /** Cutting a slice out of a list of distinct elements leaves them distinct. */
  lemma DistinctCut<T>(s: seq<T>, a: nat, b: nat)
    requires Distinct(s) && a <= b <= |s|
    ensures Distinct(s[..a] + s[b..])
  {
    var r := s[..a] + s[b..];
    forall i, j | 0 <= i < j < |r| ensures r[i] != r[j] {
      var i', j' := if i < a then i else i + b - a, if j < a then j else j + b - a;
      assert r[i] == s[i'] && r[j] == s[j'];
    }
  }
}
