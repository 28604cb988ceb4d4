/**
 * Ranking by fitness (ga/algorithms.py): `sort` orders a list by its fitness
 * key the way Python's stable `list.sort(key=...)` does, and `get_fittest` /
 * `get_weakest` are `max` / `min` with that key, which return the first
 * element with the extreme key.
 */
module Ranking {

  /** The list is in ascending key order. */
  predicate SortedBy<T>(s: seq<T>, key: T -> real) {
    forall i, j :: 0 <= i < j < |s| ==> key(s[i]) <= key(s[j])
  }

  /** `x` placed after every element whose key does not exceed its own (the stable place). */
  function Insert<T(==)>(x: T, s: seq<T>, key: T -> real): (r: seq<T>)
    requires SortedBy(s, key)
    ensures multiset(r) == multiset(s) + multiset{x}
    ensures SortedBy(r, key)
    decreases |s|
  {
    if |s| == 0 then [x]
    else if key(x) < key(s[0]) then [x] + s
    else
      var rest := Insert(x, s[1..], key);
      assert s == [s[0]] + s[1..];
      assert forall k :: 0 <= k < |rest| ==> key(s[0]) <= key(rest[k]) by {
        forall k | 0 <= k < |rest| ensures key(s[0]) <= key(rest[k]) {
          assert rest[k] in multiset(rest);
          assert rest[k] == x || rest[k] in multiset(s[1..]);
          if rest[k] != x {
            var m :| 0 <= m < |s[1..]| && s[1..][m] == rest[k];
            assert s[m + 1] == rest[k];
          }
        }
      }
      [s[0]] + rest
  }

  /** `list.sort(key=key)`: the list in ascending key order, a permutation of the input. */
  function SortBy<T(==)>(xs: seq<T>, key: T -> real): (r: seq<T>)
    ensures |r| == |xs| && multiset(r) == multiset(xs)
    ensures SortedBy(r, key)
    decreases |xs|
  {
    if |xs| == 0 then []
    else
      var front := SortBy(xs[..|xs| - 1], key);
      assert xs == xs[..|xs| - 1] + [xs[|xs| - 1]];
      var r := Insert(xs[|xs| - 1], front, key);
      assert |r| == |multiset(r)|;
      r
  }

  /** The elements of `s` with key `v`, in order. */
  function WithKey<T>(s: seq<T>, key: T -> real, v: real): seq<T>
    decreases |s|
  {
    if |s| == 0 then []
    else (if key(s[0]) == v then [s[0]] else []) + WithKey(s[1..], key, v)
  }

  lemma {:induction false} WithKeyAppend<T>(a: seq<T>, b: seq<T>, key: T -> real, v: real)
    ensures WithKey(a + b, key, v) == WithKey(a, key, v) + WithKey(b, key, v)
    decreases |a|
  {
    if |a| > 0 {
      assert (a + b)[1..] == a[1..] + b;
      WithKeyAppend(a[1..], b, key, v);
    } else {
      assert a + b == b;
    }
  }

  /** Inserting at the stable place puts `x` after the elements of equal key. */
  lemma {:induction false} InsertStable<T>(x: T, s: seq<T>, key: T -> real, v: real)
    requires SortedBy(s, key)
    ensures WithKey(Insert(x, s, key), key, v) == WithKey(s, key, v) + WithKey([x], key, v)
    decreases |s|
  {
    if |s| == 0 {
      assert Insert(x, s, key) == [x];
    } else if key(x) < key(s[0]) {
      InsertFrontStable(x, s, key, v);
    } else {
      var rest := Insert(x, s[1..], key);
      var head := WithKey([s[0]], key, v);
      var tail := WithKey(s[1..], key, v);
      var one := WithKey([x], key, v);
      assert Insert(x, s, key) == [s[0]] + rest;
      InsertStable(x, s[1..], key, v);
      WithKeyAppend([s[0]], rest, key, v);
      assert WithKey(Insert(x, s, key), key, v) == head + (tail + one);
      WithKeyAppend([s[0]], s[1..], key, v);
      assert [s[0]] + s[1..] == s;
      assert WithKey(s, key, v) == head + tail;
      assert head + (tail + one) == (head + tail) + one;
    }
  }

  /** An element keyed below the whole sorted list goes first, and no element of its key follows it. */
  lemma InsertFrontStable<T>(x: T, s: seq<T>, key: T -> real, v: real)
    requires SortedBy(s, key) && |s| > 0 && key(x) < key(s[0])
    ensures WithKey(Insert(x, s, key), key, v) == WithKey(s, key, v) + WithKey([x], key, v)
  {
    var one := WithKey([x], key, v);
    assert one == (if key(x) == v then [x] else []) by {
      assert [x][1..] == [] && [x][0] == x;
      assert WithKey([x][1..], key, v) == [];
    }
    assert Insert(x, s, key) == [x] + s;
    WithKeyAppend([x], s, key, v);
    if key(x) == v {
      forall k | 0 <= k < |s| ensures key(s[k]) != v {
        if k > 0 {
          assert key(s[0]) <= key(s[k]);
        }
      }
      WithKeyNone(s, key, v);
    }
  }

  lemma {:induction false} WithKeyNone<T>(s: seq<T>, key: T -> real, v: real)
    requires forall k :: 0 <= k < |s| ==> key(s[k]) != v
    ensures WithKey(s, key, v) == []
    decreases |s|
  {
    if |s| > 0 {
      WithKeyNone(s[1..], key, v);
    }
  }

  /** The sort is stable: the elements of any one key keep their relative order. */
  lemma {:induction false} SortStable<T>(xs: seq<T>, key: T -> real, v: real)
    ensures WithKey(SortBy(xs, key), key, v) == WithKey(xs, key, v)
    decreases |xs|
  {
    if |xs| > 0 {
      var front := xs[..|xs| - 1];
      SortStable(front, key, v);
      InsertStable(xs[|xs| - 1], SortBy(front, key), key, v);
      WithKeyAppend(front, [xs[|xs| - 1]], key, v);
      assert front + [xs[|xs| - 1]] == xs;
    }
  }

  /** `max(xs, key=key)`: the index of the first element with the greatest key. */
  function FittestIndex<T>(xs: seq<T>, key: T -> real): (k: nat)
    requires |xs| > 0
    ensures k < |xs|
    ensures forall j :: 0 <= j < |xs| ==> key(xs[j]) <= key(xs[k])
    ensures forall j :: 0 <= j < k ==> key(xs[j]) < key(xs[k])
    decreases |xs|
  {
    if |xs| == 1 then 0
    else
      var k := FittestIndex(xs[..|xs| - 1], key);
      assert forall j :: 0 <= j < |xs| - 1 ==> xs[..|xs| - 1][j] == xs[j];
      if key(xs[|xs| - 1]) > key(xs[k]) then |xs| - 1 else k
  }

  /** `min(xs, key=key)`: the index of the first element with the least key. */
  function WeakestIndex<T>(xs: seq<T>, key: T -> real): (k: nat)
    requires |xs| > 0
    ensures k < |xs|
    ensures forall j :: 0 <= j < |xs| ==> key(xs[k]) <= key(xs[j])
    ensures forall j :: 0 <= j < k ==> key(xs[k]) < key(xs[j])
    decreases |xs|
  {
    if |xs| == 1 then 0
    else
      var k := WeakestIndex(xs[..|xs| - 1], key);
      assert forall j :: 0 <= j < |xs| - 1 ==> xs[..|xs| - 1][j] == xs[j];
      if key(xs[|xs| - 1]) < key(xs[k]) then |xs| - 1 else k
  }

  /** After sorting, the first element is a weakest one. */
  lemma SortedFirstWeakest<T>(xs: seq<T>, key: T -> real)
    requires |xs| > 0
    ensures key(SortBy(xs, key)[0]) == key(xs[WeakestIndex(xs, key)])
  {
    var s := SortBy(xs, key);
    var w := WeakestIndex(xs, key);
    var i := IndexOf(s, xs[w]);
    var j := IndexOf(xs, s[0]);
    assert key(xs[w]) <= key(xs[j]);
    if 0 < i {
      assert key(s[0]) <= key(s[i]);
    }
  }

  /** After sorting, the last element is a fittest one. */
  lemma SortedLastFittest<T>(xs: seq<T>, key: T -> real)
    requires |xs| > 0
    ensures key(SortBy(xs, key)[|xs| - 1]) == key(xs[FittestIndex(xs, key)])
  {
    var s := SortBy(xs, key);
    var last := s[|s| - 1];
    var best := xs[FittestIndex(xs, key)];
    assert key(last) <= key(best) by {
      var j := IndexOf(xs, last);
    }
    assert key(best) <= key(last) by {
      var i := IndexOf(s, best);
      if i < |s| - 1 {
        assert key(s[i]) <= key(s[|s| - 1]);
      }
    }
  }

  /** A position at which an element of the multiset of `s` occurs. */
  lemma IndexOf<T>(s: seq<T>, x: T) returns (i: nat)
    requires x in multiset(s)
    ensures i < |s| && s[i] == x
  {
    assert x in s;
    i :| 0 <= i < |s| && s[i] == x;
  }
}
