/** Sequence functions that stand for the SQL clauses and Python comprehensions of the source. */
module Collections {
  datatype Option<+T> = None | Some(value: T)

  datatype Result<+T, +E> = Ok(value: T) | Err(error: E)

  function Max(a: int, b: int): int {
    if a < b then b else a
  }

  /** WHERE: the rows of `s` that satisfy `p`, in table order. */
  function Filter<T(!new)>(s: seq<T>, p: T -> bool): (r: seq<T>)
    ensures |r| <= |s|
    ensures forall x {:trigger x in r} :: x in r ==> x in s && p(x)
  {
    if s == [] then []
    else
      var last := s[|s| - 1];
      if p(last) then Filter(s[..|s| - 1], p) + [last] else Filter(s[..|s| - 1], p)
  }

  function Map<T, U>(s: seq<T>, f: T -> U): (r: seq<U>)
    ensures |r| == |s| && forall i :: 0 <= i < |s| ==> r[i] == f(s[i])
  {
    seq(|s|, i requires 0 <= i < |s| => f(s[i]))
  }

  lemma MapAppend<T, U>(s: seq<T>, t: seq<T>, f: T -> U)
    ensures Map(s + t, f) == Map(s, f) + Map(t, f)
  {
  }

  function Reverse<T>(s: seq<T>): (r: seq<T>)
    ensures |r| == |s| && forall i :: 0 <= i < |s| ==> r[i] == s[|s| - 1 - i]
  {
    seq(|s|, i requires 0 <= i < |s| => s[|s| - 1 - i])
  }

  /** LIMIT n, and the slice `s[:n]`. */
  function Take<T>(s: seq<T>, n: nat): (r: seq<T>)
    ensures |r| == (if n < |s| then n else |s|) && r <= s
  {
    if n < |s| then s[..n] else s
  }

  function Sum(s: seq<nat>): nat {
    if s == [] then 0 else Sum(s[..|s| - 1]) + s[|s| - 1]
  }

  lemma {:induction false} FilterKeeps<T(!new)>(s: seq<T>, p: T -> bool, x: T)
    requires x in s && p(x)
    ensures x in Filter(s, p)
  {
    var n := |s| - 1;
    if x != s[n] {
      assert s == s[..n] + [s[n]];
      FilterKeeps(s[..n], p, x);
    }
  }

  lemma {:induction false} FilterAppend<T(!new)>(s: seq<T>, t: seq<T>, p: T -> bool)
    ensures Filter(s + t, p) == Filter(s, p) + Filter(t, p)
  {
    if t == [] {
      assert s + t == s;
    } else {
      var n := |t| - 1;
      var st := s + t;
      assert st[..|st| - 1] == s + t[..n] && st[|st| - 1] == t[n];
      FilterAppend(s, t[..n], p);
      var left, right := Filter(s, p), Filter(t[..n], p);
      if p(t[n]) {
        assert Filter(st, p) == (left + right) + [t[n]];
        assert (left + right) + [t[n]] == left + (right + [t[n]]);
      }
    }
  }

  lemma {:induction false} FilterCongruent<T(!new)>(s: seq<T>, p: T -> bool, q: T -> bool)
    requires forall x :: x in s ==> p(x) == q(x)
    ensures Filter(s, p) == Filter(s, q)
  {
    if s != [] {
      FilterCongruent(s[..|s| - 1], p, q);
    }
  }

  lemma {:induction false} FilterFilter<T(!new)>(s: seq<T>, p: T -> bool, q: T -> bool, both: T -> bool)
    requires forall x :: x in s ==> both(x) == (p(x) && q(x))
    ensures Filter(Filter(s, p), q) == Filter(s, both)
  {
    if s != [] {
      var n := |s| - 1;
      FilterFilter(s[..n], p, q, both);
      FilterAppend(Filter(s[..n], p), [s[n]], q);
      assert Filter([s[n]], q) == if q(s[n]) then [s[n]] else [];
    }
  }

  lemma {:induction false} FilterAll<T(!new)>(s: seq<T>, p: T -> bool)
    requires forall x :: x in s ==> p(x)
    ensures Filter(s, p) == s
  {
    if s != [] {
      FilterAll(s[..|s| - 1], p);
    }
  }

  lemma {:induction false} FilterNone<T(!new)>(s: seq<T>, p: T -> bool)
    requires forall x :: x in s ==> !p(x)
    ensures Filter(s, p) == []
  {
    if s != [] {
      FilterNone(s[..|s| - 1], p);
    }
  }

  /** Fewer rows pass a stronger condition. */
  lemma {:induction false} FilterMonotone<T(!new)>(s: seq<T>, p: T -> bool, q: T -> bool)
    requires forall x :: x in s && p(x) ==> q(x)
    ensures |Filter(s, p)| <= |Filter(s, q)|
  {
    if s != [] {
      FilterMonotone(s[..|s| - 1], p, q);
    }
  }

  /** Fewer rows pass a stronger condition: strictly fewer exactly when some row passes only the weaker one. */
  lemma {:induction false} FilterStrictly<T(!new)>(s: seq<T>, p: T -> bool, q: T -> bool)
    requires forall x :: x in s && p(x) ==> q(x)
    ensures |Filter(s, p)| < |Filter(s, q)| <==> exists x :: x in s && q(x) && !p(x)
  {
    if s != [] {
      var n := |s| - 1;
      FilterStrictly(s[..n], p, q);
      FilterMonotone(s[..n], p, q);
      assert forall x :: x in s <==> x in s[..n] || x == s[n];
    }
  }

  /** An update that leaves the condition alone commutes with WHERE. */
  lemma {:induction false} FilterMap<T(!new), U(!new)>(s: seq<T>, f: T -> U, p: T -> bool, q: U -> bool)
    requires forall x :: x in s ==> q(f(x)) == p(x)
    ensures Filter(Map(s, f), q) == Map(Filter(s, p), f)
  {
    if s != [] {
      var n := |s| - 1;
      FilterMap(s[..n], f, p, q);
      assert Map(s, f)[..n] == Map(s[..n], f);
      assert Map(Filter(s[..n], p) + [s[n]], f) == Map(Filter(s[..n], p), f) + [f(s[n])];
    }
  }

  /** A strictly increasing key stays strictly increasing under WHERE. */
  ghost predicate Increasing<T>(s: seq<T>, key: T -> int) {
    forall i, j :: 0 <= i < j < |s| ==> key(s[i]) < key(s[j])
  }

  lemma IncreasingIsInjective<T>(s: seq<T>, key: T -> int, i: nat, j: nat)
    requires Increasing(s, key) && i < |s| && j < |s| && key(s[i]) == key(s[j])
    ensures i == j
  {
  }

  lemma {:induction false} FilterIncreasing<T(!new)>(s: seq<T>, p: T -> bool, key: T -> int)
    requires Increasing(s, key)
    ensures Increasing(Filter(s, p), key)
  {
    if s != [] {
      var n := |s| - 1;
      FilterIncreasing(s[..n], p, key);
      forall x | x in Filter(s[..n], p) ensures key(x) < key(s[n]) {
        assert x in s[..n];
      }
    }
  }

  function Under<T>(key: T -> int, k: int): T -> bool {
    x => key(x) < k
  }

  function AtLeast<T>(key: T -> int, k: int): T -> bool {
    x => key(x) >= k
  }

  /** Splitting an increasing sequence at a key value cuts it in two contiguous pieces. */
  lemma {:induction false} SplitByKey<T(!new)>(s: seq<T>, key: T -> int, k: int)
    requires Increasing(s, key)
    ensures Filter(s, Under(key, k)) + Filter(s, AtLeast(key, k)) == s
  {
    if s != [] {
      var n := |s| - 1;
      SplitByKey(s[..n], key, k);
      if key(s[n]) < k {
        FilterNone(s[..n], AtLeast(key, k));
        FilterAll(s[..n], Under(key, k));
      }
    }
  }

  /** A unique key finds exactly its own row. */
  lemma {:induction false} FindByKey<T(!new)>(s: seq<T>, key: T -> int, p: T -> bool, k: nat)
    requires Increasing(s, key) && k < |s|
    requires forall x :: x in s ==> p(x) == (key(x) == key(s[k]))
    ensures Filter(s, p) == [s[k]]
  {
    var n := |s| - 1;
    if k == n {
      FilterNone(s[..n], p);
    } else {
      FindByKey(s[..n], key, p, k);
    }
  }

  /** The elements below the k-th key are the first k elements. */
  lemma {:induction false} FilterBelowIndex<T(!new)>(s: seq<T>, key: T -> int, p: T -> bool, k: nat)
    requires Increasing(s, key) && k < |s|
    requires forall x :: x in s ==> p(x) == (key(x) < key(s[k]))
    ensures Filter(s, p) == s[..k]
  {
    var n := |s| - 1;
    if k == n {
      FilterAll(s[..n], p);
    } else {
      FilterBelowIndex(s[..n], key, p, k);
      assert s[..n][..k] == s[..k];
    }
  }

  /** Newest first, the elements above `k` are the ones that come first. */
  lemma {:induction false} AboveComesFirst<T(!new)>(s: seq<T>, key: T -> int, k: int, p: T -> bool, i: nat)
    requires Increasing(s, key) && i < |s| && p(s[i])
    requires forall x :: x in s ==> p(x) == (key(x) >= k)
    ensures |s| - 1 - i < |Filter(s, p)|
  {
    FilterCongruent(s, p, AtLeast(key, k));
    var below, above := Filter(s, Under(key, k)), Filter(s, AtLeast(key, k));
    SplitByKey(s, key, k);
    assert s == below + above;
    assert forall j :: 0 <= j < |below| ==> below[j] in below && s[j] == below[j];
  }

  lemma {:induction false} FilterReverse<T(!new)>(s: seq<T>, p: T -> bool)
    ensures Filter(Reverse(s), p) == Reverse(Filter(s, p))
  {
    if s != [] {
      var n := |s| - 1;
      FilterReverse(s[..n], p);
      assert Reverse(s) == [s[n]] + Reverse(s[..n]);
      FilterAppend([s[n]], Reverse(s[..n]), p);
      assert Filter([s[n]], p) == if p(s[n]) then [s[n]] else [];
      if p(s[n]) {
        assert Reverse(Filter(s[..n], p) + [s[n]]) == [s[n]] + Reverse(Filter(s[..n], p));
      }
    }
  }

  /** ORDER BY key DESC: insertion into a descending sequence, and the sort built from it. */
  function InsertDescending<T>(x: T, s: seq<T>, key: T -> int): seq<T> {
    if s == [] || key(s[0]) <= key(x) then [x] + s
    else [s[0]] + InsertDescending(x, s[1..], key)
  }

  function OrderDescending<T>(s: seq<T>, key: T -> int): seq<T> {
    if s == [] then []
    else InsertDescending(s[|s| - 1], OrderDescending(s[..|s| - 1], key), key)
  }

  ghost predicate Descending<T>(s: seq<T>, key: T -> int) {
    forall i, j :: 0 <= i < j < |s| ==> key(s[i]) >= key(s[j])
  }

  lemma {:induction false} InsertIsPermutation<T>(x: T, s: seq<T>, key: T -> int)
    ensures multiset(InsertDescending(x, s, key)) == multiset(s) + multiset{x}
  {
    if s != [] {
      assert s == [s[0]] + s[1..];
      InsertIsPermutation(x, s[1..], key);
    }
  }

  lemma {:induction false} InsertKeepsDescending<T>(x: T, s: seq<T>, key: T -> int)
    requires Descending(s, key)
    ensures Descending(InsertDescending(x, s, key), key)
    ensures s != [] && key(s[0]) > key(x) ==> InsertDescending(x, s, key)[0] == s[0]
  {
    if s != [] && key(s[0]) > key(x) {
      InsertKeepsDescending(x, s[1..], key);
      var r := InsertDescending(x, s[1..], key);
      assert key(r[0]) <= key(s[0]);
      forall i | 0 <= i < |r| ensures key(r[i]) <= key(s[0]) {
      }
    }
  }

  /** The sort is a sort: descending, and a permutation of its input. */
  lemma {:induction false} OrderIsDescending<T>(s: seq<T>, key: T -> int)
    ensures Descending(OrderDescending(s, key), key)
    ensures multiset(OrderDescending(s, key)) == multiset(s)
  {
    if s != [] {
      assert s == s[..|s| - 1] + [s[|s| - 1]];
      OrderIsDescending(s[..|s| - 1], key);
      InsertIsPermutation(s[|s| - 1], OrderDescending(s[..|s| - 1], key), key);
      InsertKeepsDescending(s[|s| - 1], OrderDescending(s[..|s| - 1], key), key);
    }
  }

  lemma OrderKeepsMembers<T>(s: seq<T>, key: T -> int, x: T)
    ensures x in OrderDescending(s, key) <==> x in s
  {
    OrderIsDescending(s, key);
    assert x in OrderDescending(s, key) <==> x in multiset(OrderDescending(s, key));
    assert x in s <==> x in multiset(s);
  }

  ghost predicate DistinctKeys<T>(s: seq<T>, id: T -> int) {
    forall i, j :: 0 <= i < j < |s| ==> id(s[i]) != id(s[j])
  }

  lemma {:induction false} InsertKeepsDistinct<T>(x: T, s: seq<T>, key: T -> int, id: T -> int)
    requires DistinctKeys(s, id) && forall y :: y in s ==> id(y) != id(x)
    ensures DistinctKeys(InsertDescending(x, s, key), id)
    ensures forall y :: y in InsertDescending(x, s, key) ==> y == x || y in s
  {
    if s != [] && key(s[0]) > key(x) {
      assert s == [s[0]] + s[1..];
      InsertKeepsDistinct(x, s[1..], key, id);
      var r := InsertDescending(x, s[1..], key);
      forall i | 0 <= i < |r| ensures id(r[i]) != id(s[0]) {
        assert r[i] in r;
      }
    }
  }

  lemma {:induction false} OrderKeepsDistinct<T>(s: seq<T>, key: T -> int, id: T -> int)
    requires DistinctKeys(s, id)
    ensures DistinctKeys(OrderDescending(s, key), id)
  {
    if s != [] {
      var n := |s| - 1;
      OrderKeepsDistinct(s[..n], key, id);
      forall y | y in OrderDescending(s[..n], key) ensures id(y) != id(s[n]) {
        OrderKeepsMembers(s[..n], key, y);
      }
      InsertKeepsDistinct(s[n], OrderDescending(s[..n], key), key, id);
    }
  }

  /** Rows already in increasing key order come back reversed. */
  lemma {:induction false} OrderOfIncreasing<T>(s: seq<T>, key: T -> int)
    requires Increasing(s, key)
    ensures OrderDescending(s, key) == Reverse(s)
  {
    if s != [] {
      var n := |s| - 1;
      OrderOfIncreasing(s[..n], key);
      var rest := Reverse(s[..n]);
      assert rest != [] ==> rest[0] == s[n - 1];
      assert Reverse(s) == [s[n]] + rest;
    }
  }

  lemma {:induction false} FilterDisjointUnion<T(!new)>(s: seq<T>, p: T -> bool, q: T -> bool, either: T -> bool)
    requires forall x :: x in s ==> !(p(x) && q(x)) && either(x) == (p(x) || q(x))
    ensures |Filter(s, either)| == |Filter(s, p)| + |Filter(s, q)|
  {
    if s != [] {
      FilterDisjointUnion(s[..|s| - 1], p, q, either);
    }
  }

  /** Rows with increasing keys are distinct, so counting them counts a set. */
  lemma {:induction false} IncreasingCountsSet<T>(s: seq<T>, key: T -> int)
    requires Increasing(s, key)
    ensures |s| == |set x | x in s|
  {
    if s == [] {
      assert (set x | x in s) == {};
    } else {
      var n := |s| - 1;
      IncreasingCountsSet(s[..n], key);
      assert (set x | x in s) == (set x | x in s[..n]) + {s[n]};
      assert s[n] !in s[..n] by {
        forall i | 0 <= i < n ensures s[i] != s[n] {
          assert key(s[i]) < key(s[n]);
        }
      }
    }
  }
}
