/**
 * Python's `list.sort(key=key, reverse=True)`, which the assistant uses twice:
 * on scored sentences (main.py:634) and on the collected sources
 * (main.py:956). Python's sort is stable, also with `reverse=True`, so
 * elements with equal keys keep their original order. It is given here as an
 * insertion sort that places each element before the already-sorted ones
 * whose key is not larger.
 */
module Sorting {

  predicate NonIncreasing<T>(s: seq<T>, key: T -> int) {
    forall i, j :: 0 <= i < j < |s| ==> key(s[i]) >= key(s[j])
  }

  /** Inserts `x` before the first element whose key is at most `key(x)`. */
  function InsertDesc<T>(x: T, sorted: seq<T>, key: T -> int): (r: seq<T>)
    ensures multiset(r) == multiset(sorted) + multiset{x}
    ensures NonIncreasing(sorted, key) ==> NonIncreasing(r, key)
  {
    if sorted == [] || key(sorted[0]) <= key(x) then [x] + sorted
    else
      var rest := InsertDesc(x, sorted[1..], key);
      assert sorted == [sorted[0]] + sorted[1..];
      if NonIncreasing(sorted, key) then
        HeadBoundsInsert(x, sorted, rest, key);
        [sorted[0]] + rest
      else [sorted[0]] + rest
  }

  /**
   * The sortedness step of `InsertDesc`: the head of `sorted`, with a key
   * larger than `x`'s, can stay in front of `x` inserted into the rest.
   */
  lemma HeadBoundsInsert<T>(x: T, sorted: seq<T>, rest: seq<T>, key: T -> int)
    requires sorted != [] && key(sorted[0]) > key(x) && NonIncreasing(sorted, key)
    requires multiset(rest) == multiset(sorted[1..]) + multiset{x}
    requires NonIncreasing(rest, key)
    ensures NonIncreasing([sorted[0]] + rest, key)
  {
    var r := [sorted[0]] + rest;
    forall j | 0 < j < |r| ensures key(r[0]) >= key(r[j]) {
      assert r[j] == rest[j - 1];
      assert rest[j - 1] in multiset(rest);
      if rest[j - 1] != x {
        assert rest[j - 1] in multiset(sorted[1..]);
        var k :| 0 <= k < |sorted[1..]| && sorted[1..][k] == rest[j - 1];
        assert sorted[k + 1] == rest[j - 1];
      }
    }
    forall i, j | 0 <= i < j < |r| ensures key(r[i]) >= key(r[j]) {
      if i > 0 {
        assert r[i] == rest[i - 1] && r[j] == rest[j - 1];
      }
    }
  }

  /** The sorted list: a permutation of `xs` with non-increasing keys. */
  function SortDesc<T>(xs: seq<T>, key: T -> int): (r: seq<T>)
    ensures multiset(r) == multiset(xs)
    ensures |r| == |xs|
    ensures NonIncreasing(r, key)
  {
    if xs == [] then []
    else
      assert xs == [xs[0]] + xs[1..];
      InsertDesc(xs[0], SortDesc(xs[1..], key), key)
  }

  /** The elements of `s` whose key is `v`, in their order in `s`. */
  function WithKey<T>(s: seq<T>, key: T -> int, v: int): seq<T> {
    if s == [] then []
    else (if key(s[0]) == v then [s[0]] else []) + WithKey(s[1..], key, v)
  }

  lemma {:induction false} InsertDescKeepsTies<T>(x: T, s: seq<T>, key: T -> int, v: int)
    ensures WithKey(InsertDesc(x, s, key), key, v)
         == (if key(x) == v then [x] else []) + WithKey(s, key, v)
  {
    var mine := if key(x) == v then [x] else [];
    if s == [] || key(s[0]) <= key(x) {
      var r := [x] + s;
      assert InsertDesc(x, s, key) == r;
      assert r[0] == x && r[1..] == s;
      assert WithKey(r, key, v) == mine + WithKey(s, key, v);
    } else {
      var rest := InsertDesc(x, s[1..], key);
      InsertDescKeepsTies(x, s[1..], key, v);
      var r := [s[0]] + rest;
      assert InsertDesc(x, s, key) == r;
      assert r[0] == s[0] && r[1..] == rest;
      var tail := WithKey(s[1..], key, v);
      assert WithKey(s, key, v) == (if key(s[0]) == v then [s[0]] else []) + tail;
      // `s[0]` has a larger key than `x`, so at most one of them carries `v`.
      if key(s[0]) == v {
        assert WithKey(r, key, v) == [s[0]] + WithKey(rest, key, v);
        assert WithKey(rest, key, v) == tail;
      } else {
        assert WithKey(r, key, v) == WithKey(rest, key, v);
      }
    }
  }

  /**
   * Stability: for every key value, the elements carrying it appear in the
   * sorted list in the same order as in the input.
   */
  lemma {:induction false} SortDescIsStable<T>(xs: seq<T>, key: T -> int, v: int)
    ensures WithKey(SortDesc(xs, key), key, v) == WithKey(xs, key, v)
  {
    if xs != [] {
      SortDescIsStable(xs[1..], key, v);
      InsertDescKeepsTies(xs[0], SortDesc(xs[1..], key), key, v);
    }
  }
}
