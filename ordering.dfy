/**
 * Python's `sorted(xs, key=..., reverse=True)` (a stable sort: elements with
 * equal keys keep their original order) and Python's slice `xs[:n]`.
 */
module Ordering {

  predicate NonIncreasing<T>(xs: seq<T>, key: T -> real) {
    forall i, j :: 0 <= i < j < |xs| ==> key(xs[i]) >= key(xs[j])
  }

  /** The elements of `xs` whose key is `v`, in their order in `xs`. */
  function WithKey<T>(xs: seq<T>, key: T -> real, v: real): seq<T> {
    if xs == [] then []
    else (if key(xs[0]) == v then [xs[0]] else []) + WithKey(xs[1..], key, v)
  }

  /** Puts `x` before the first element whose key is not larger than its own. */
  function Insert<T>(x: T, xs: seq<T>, key: T -> real): (r: seq<T>)
    ensures multiset(r) == multiset(xs) + multiset{x}
    ensures forall i :: 0 <= i < |r| ==> r[i] == x || r[i] in xs
  {
    if xs == [] || key(xs[0]) <= key(x) then [x] + xs
    else
      assert xs == [xs[0]] + xs[1..];
      [xs[0]] + Insert(x, xs[1..], key)
  }

  /** Python's `sorted(xs, key=key, reverse=True)`, as an insertion sort. */
  function SortDesc<T>(xs: seq<T>, key: T -> real): (r: seq<T>)
    ensures multiset(r) == multiset(xs)
  {
    if xs == [] then []
    else
      assert xs == [xs[0]] + xs[1..];
      Insert(xs[0], SortDesc(xs[1..], key), key)
  }

  /** Python's `xs[:n]`, including the negative `n` that counts from the end. */
  function SliceTo<T>(xs: seq<T>, n: int): (r: seq<T>)
    ensures |r| == if n >= 0 then (if n <= |xs| then n else |xs|)
                   else (if |xs| + n >= 0 then |xs| + n else 0)
    ensures r == xs[..|r|]
  {
    if n >= 0 then (if n <= |xs| then xs[..n] else xs)
    else (if |xs| + n >= 0 then xs[..|xs| + n] else [])
  }

  lemma {:induction false} InsertSorted<T>(x: T, xs: seq<T>, key: T -> real)
    requires NonIncreasing(xs, key)
    ensures NonIncreasing(Insert(x, xs, key), key)
  {
    if xs != [] && key(xs[0]) > key(x) {
      var rest := Insert(x, xs[1..], key);
      assert NonIncreasing(rest, key) by {
        InsertSorted(x, xs[1..], key);
      }
      assert forall i :: 0 <= i < |rest| ==> key(rest[i]) <= key(xs[0]) by {
        forall i | 0 <= i < |rest| ensures key(rest[i]) <= key(xs[0]) {
          if rest[i] != x {
            var m :| 0 <= m < |xs[1..]| && xs[1..][m] == rest[i];
            assert xs[1..][m] == xs[m + 1];
          }
        }
      }
      var r := [xs[0]] + rest;
      assert Insert(x, xs, key) == r;
      forall i, j | 0 <= i < j < |r| ensures key(r[i]) >= key(r[j]) {
        if i == 0 {
          assert r[j] == rest[j - 1];
        } else {
          assert r[i] == rest[i - 1] && r[j] == rest[j - 1];
        }
      }
    }
  }

  /** The result of `SortDesc` is ordered by non-increasing key. */
  lemma {:induction false} SortDescSorted<T>(xs: seq<T>, key: T -> real)
    ensures NonIncreasing(SortDesc(xs, key), key)
  {
    if xs != [] {
      SortDescSorted(xs[1..], key);
      InsertSorted(xs[0], SortDesc(xs[1..], key), key);
    }
  }

  lemma {:induction false} InsertWithKey<T>(x: T, xs: seq<T>, key: T -> real, v: real)
    ensures WithKey(Insert(x, xs, key), key, v)
         == (if key(x) == v then [x] else []) + WithKey(xs, key, v)
  {
    var mine: seq<T> := if key(x) == v then [x] else [];
    if xs == [] || key(xs[0]) <= key(x) {
      assert WithKey(Insert(x, xs, key), key, v) == mine + WithKey(xs, key, v) by {
        assert Insert(x, xs, key) == [x] + xs;
        assert ([x] + xs)[1..] == xs;
      }
    } else {
      var rest := Insert(x, xs[1..], key);
      var head: seq<T> := if key(xs[0]) == v then [xs[0]] else [];
      assert WithKey(rest, key, v) == mine + WithKey(xs[1..], key, v) by {
        InsertWithKey(x, xs[1..], key, v);
      }
      assert WithKey(Insert(x, xs, key), key, v) == head + WithKey(rest, key, v) by {
        assert Insert(x, xs, key) == [xs[0]] + rest;
        assert ([xs[0]] + rest)[1..] == rest;
      }
      assert WithKey(xs, key, v) == head + WithKey(xs[1..], key, v);
      assert mine == [] || head == [];
    }
  }

  /** Stability: among elements with equal keys, `SortDesc` keeps the input order. */
  lemma {:induction false} SortDescStable<T>(xs: seq<T>, key: T -> real, v: real)
    ensures WithKey(SortDesc(xs, key), key, v) == WithKey(xs, key, v)
  {
    if xs != [] {
      SortDescStable(xs[1..], key, v);
      InsertWithKey(xs[0], SortDesc(xs[1..], key), key, v);
    }
  }
}
