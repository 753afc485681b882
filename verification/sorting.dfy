/** Python's stable sort with `reverse=True` (`sorted(xs, reverse=True)` and
    `list.sort(key=..., reverse=True)`): elements in non-increasing key order, and elements
    with equal keys in their original relative order. */
module Sorting {

  /** Non-increasing by key. */
  ghost predicate SortedDesc<T>(xs: seq<T>, key: T -> int) {
    forall i, j :: 0 <= i < j < |xs| ==> key(xs[j]) <= key(xs[i])
  }

  /** The elements whose key is `v`, in their order of appearance. */
  function WithKey<T>(xs: seq<T>, key: T -> int, v: int): (r: seq<T>)
    ensures |r| <= |xs|
  {
    if |xs| == 0 then []
    else (if key(xs[0]) == v then [xs[0]] else []) + WithKey(xs[1..], key, v)
  }

  /** Places `x` in front of the first element whose key is not greater than its own. */
  function InsertDesc<T>(x: T, ys: seq<T>, key: T -> int): seq<T>
  {
    if |ys| == 0 || key(ys[0]) <= key(x) then [x] + ys
    else [ys[0]] + InsertDesc(x, ys[1..], key)
  }

  function SortDesc<T>(xs: seq<T>, key: T -> int): seq<T>
  {
    if |xs| == 0 then [] else InsertDesc(xs[0], SortDesc(xs[1..], key), key)
  }

  lemma {:induction false} InsertDescPermutes<T>(x: T, ys: seq<T>, key: T -> int)
    ensures multiset(InsertDesc(x, ys, key)) == multiset([x] + ys)
  {
    if |ys| == 0 || key(ys[0]) <= key(x) {
    } else {
      InsertDescPermutes(x, ys[1..], key);
      assert ys == [ys[0]] + ys[1..];
    }
  }

  lemma {:induction false} InsertDescSorted<T>(x: T, ys: seq<T>, key: T -> int)
    requires SortedDesc(ys, key)
    ensures SortedDesc(InsertDesc(x, ys, key), key)
  {
    if |ys| == 0 || key(ys[0]) <= key(x) {
    } else {
      var rest := InsertDesc(x, ys[1..], key);
      InsertDescSorted(x, ys[1..], key);
      InsertDescPermutes(x, ys[1..], key);
      forall i, j | 0 <= i < j < |[ys[0]] + rest|
        ensures key(([ys[0]] + rest)[j]) <= key(([ys[0]] + rest)[i])
      {
        if i == 0 {
          var e := rest[j - 1];
          assert e in multiset(rest);
          assert e in multiset([x] + ys[1..]);
          if e != x {
            assert e in ys[1..];
          }
        }
      }
    }
  }

  lemma {:induction false} InsertDescStable<T>(x: T, ys: seq<T>, key: T -> int, v: int)
    requires SortedDesc(ys, key)
    ensures WithKey(InsertDesc(x, ys, key), key, v) == WithKey([x] + ys, key, v)
  {
    if |ys| == 0 || key(ys[0]) <= key(x) {
    } else {
      var rest := InsertDesc(x, ys[1..], key);
      InsertDescStable(x, ys[1..], key, v);
      assert ([ys[0]] + rest)[1..] == rest;
      assert ([x] + ys)[1..] == ys;
      assert ([x] + ys[1..])[1..] == ys[1..];
      assert ys == [ys[0]] + ys[1..];
    }
  }

  /** The result is sorted, a permutation of the input, and stable. */
  lemma {:induction false} SortDescProperties<T>(xs: seq<T>, key: T -> int)
    ensures SortedDesc(SortDesc(xs, key), key)
    ensures multiset(SortDesc(xs, key)) == multiset(xs)
    ensures |SortDesc(xs, key)| == |xs|
    ensures forall v :: WithKey(SortDesc(xs, key), key, v) == WithKey(xs, key, v)
  {
    if |xs| == 0 {
    } else {
      var rest := SortDesc(xs[1..], key);
      SortDescProperties(xs[1..], key);
      InsertDescPermutes(xs[0], rest, key);
      InsertDescSorted(xs[0], rest, key);
      assert xs == [xs[0]] + xs[1..];
      forall v
        ensures WithKey(SortDesc(xs, key), key, v) == WithKey(xs, key, v)
      {
        InsertDescStable(xs[0], rest, key, v);
        assert ([xs[0]] + rest)[1..] == rest;
      }
      assert |SortDesc(xs, key)| == |multiset(SortDesc(xs, key))|;
    }
  }
}
