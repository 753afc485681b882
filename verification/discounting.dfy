/** Discounted cumulative gain over binary relevance lists. The logarithmic discount
    `1 / log2(i + 2)` is represented by any positive, strictly decreasing function `d`;
    every result below holds for all such functions, the logarithmic one included. */
module Discounting {
  import opened Sorting

  /** What the proofs need of the discount: positive and strictly decreasing. */
  ghost predicate IsDiscount(d: nat -> real) {
    && (forall i: nat :: d(i) > 0.0)
    && (forall i: nat, j: nat :: i < j ==> d(j) < d(i))
  }

  function Pow2(n: nat): nat {
    if n == 0 then 1 else 2 * Pow2(n - 1)
  }

  /** The gain `2**rel - 1` of one position. */
  function Gain(rel: nat): real {
    (Pow2(rel) - 1) as real
  }

  /** With binary relevance the gain is the relevance itself. */
  lemma BinaryGain(rel: nat)
    requires rel <= 1
    ensures Gain(rel) == rel as real
  {
  }

  predicate Binary(rel: seq<nat>) {
    forall i :: 0 <= i < |rel| ==> rel[i] <= 1
  }

  /** Number of relevant positions. */
  function CountOnes(rel: seq<nat>): nat {
    multiset(rel)[1]
  }

  /** Sum of `Gain(rel[i]) * d(offset + i)`, accumulated left to right. */
  function Dcg(rel: seq<nat>, d: nat -> real, offset: nat): real {
    if |rel| == 0 then 0.0 else Gain(rel[0]) * d(offset) + Dcg(rel[1..], d, offset + 1)
  }

  /** `d(offset) + ... + d(offset + n - 1)`: the DCG of `n` relevant positions placed first. */
  function DiscountSum(d: nat -> real, offset: nat, n: nat): real
    decreases n
  {
    if n == 0 then 0.0 else d(offset) + DiscountSum(d, offset + 1, n - 1)
  }

  function Key(x: nat): int {
    x
  }

  /** The ideal ordering: `sorted(relevance, reverse=True)`. */
  function Ideal(rel: seq<nat>): seq<nat> {
    SortDesc(rel, Key)
  }

  /** Every relevant position precedes every irrelevant one. */
  ghost predicate HitsFirst(rel: seq<nat>) {
    SortedDesc(rel, Key)
  }

  lemma CountOnesCons(rel: seq<nat>)
    requires |rel| > 0
    ensures CountOnes(rel) == (if rel[0] == 1 then 1 else 0) + CountOnes(rel[1..])
  {
    assert rel == [rel[0]] + rel[1..];
  }

  lemma CountOnesPositive(rel: seq<nat>)
    ensures CountOnes(rel) > 0 <==> exists i :: 0 <= i < |rel| && rel[i] == 1
  {
    if CountOnes(rel) > 0 {
      assert 1 in rel;
    }
  }

  lemma {:induction false} DiscountSumPositive(d: nat -> real, offset: nat, n: nat)
    requires IsDiscount(d)
    ensures n > 0 ==> DiscountSum(d, offset, n) > 0.0
    ensures DiscountSum(d, offset, n) >= 0.0
    decreases n
  {
    if n > 0 {
      DiscountSumPositive(d, offset + 1, n - 1);
    }
  }

  /** Moving a run of relevant positions one place down strictly lowers its gain. */
  lemma {:induction false} DiscountSumShift(d: nat -> real, offset: nat, n: nat)
    requires IsDiscount(d)
    ensures n > 0 ==> DiscountSum(d, offset + 1, n) < DiscountSum(d, offset, n)
    ensures DiscountSum(d, offset + 1, n) <= DiscountSum(d, offset, n)
    decreases n
  {
    if n > 0 {
      DiscountSumShift(d, offset + 1, n - 1);
      assert d(offset + 1) < d(offset);
    }
  }

  /** DCG is never negative and never above the DCG of the same number of hits placed first. */
  lemma {:induction false} DcgBounded(rel: seq<nat>, d: nat -> real, offset: nat)
    requires Binary(rel) && IsDiscount(d)
    ensures 0.0 <= Dcg(rel, d, offset) <= DiscountSum(d, offset, CountOnes(rel))
    decreases |rel|
  {
    if |rel| > 0 {
      var h := CountOnes(rel[1..]);
      CountOnesCons(rel);
      DcgBounded(rel[1..], d, offset + 1);
      assert d(offset) > 0.0;
      if rel[0] == 1 {
        assert Dcg(rel, d, offset) == d(offset) + Dcg(rel[1..], d, offset + 1);
      } else {
        assert Dcg(rel, d, offset) == Dcg(rel[1..], d, offset + 1);
        DiscountSumShift(d, offset, h);
      }
    }
  }

  /** Hits placed first reach the bound exactly. */
  lemma {:induction false} DcgOfHitsFirst(rel: seq<nat>, d: nat -> real, offset: nat)
    requires Binary(rel) && HitsFirst(rel)
    ensures Dcg(rel, d, offset) == DiscountSum(d, offset, CountOnes(rel))
    decreases |rel|
  {
    if |rel| > 0 {
      var rest := rel[1..];
      assert HitsFirst(rest) by {
        forall i, j | 0 <= i < j < |rest|
          ensures Key(rest[j]) <= Key(rest[i])
        {
          assert rest[i] == rel[i + 1] && rest[j] == rel[j + 1];
        }
      }
      CountOnesCons(rel);
      DcgOfHitsFirst(rest, d, offset + 1);
      BinaryGain(rel[0]);
      if rel[0] == 0 {
        forall i | 0 <= i < |rest|
          ensures rest[i] == 0
        {
          assert Key(rel[i + 1]) <= Key(rel[0]);
        }
        CountOnesPositive(rest);
        assert CountOnes(rest) == 0;
        assert Dcg(rel, d, offset) == Dcg(rest, d, offset + 1);
      } else {
        assert Dcg(rel, d, offset) == d(offset) + Dcg(rest, d, offset + 1);
      }
    }
  }

  /** Any miss ahead of a hit loses gain strictly. */
  lemma {:induction false} DcgBelowWhenMissFirst(rel: seq<nat>, d: nat -> real, offset: nat)
    requires Binary(rel) && IsDiscount(d) && !HitsFirst(rel)
    ensures Dcg(rel, d, offset) < DiscountSum(d, offset, CountOnes(rel))
    decreases |rel|
  {
    var i, j :| 0 <= i < j < |rel| && Key(rel[i]) < Key(rel[j]);
    CountOnesCons(rel);
    if rel[0] == 1 {
      assert i > 0;
      assert !HitsFirst(rel[1..]) by {
        assert Key(rel[1..][i - 1]) < Key(rel[1..][j - 1]);
      }
      DcgBelowWhenMissFirst(rel[1..], d, offset + 1);
    } else {
      var h := CountOnes(rel[1..]);
      assert rel[j] == 1;
      assert h > 0 by {
        CountOnesPositive(rel[1..]);
        assert rel[1..][j - 1] == 1;
      }
      DcgBounded(rel[1..], d, offset + 1);
      DiscountSumShift(d, offset, h);
    }
  }

  /** A single hit makes the DCG positive. */
  lemma {:induction false} DcgPositive(rel: seq<nat>, d: nat -> real, offset: nat, i: nat)
    requires Binary(rel) && IsDiscount(d)
    requires i < |rel| && rel[i] == 1
    ensures Dcg(rel, d, offset) > 0.0
    decreases |rel|
  {
    DcgBounded(rel[1..], d, offset + 1);
    assert d(offset) > 0.0;
    if i > 0 {
      DcgPositive(rel[1..], d, offset + 1, i - 1);
    }
  }

  /** The ideal list is a descending permutation of the relevance list, so it is binary
      with the same number of hits, and its DCG is the bound. */
  lemma IdealDcg(rel: seq<nat>, d: nat -> real)
    requires Binary(rel)
    ensures multiset(Ideal(rel)) == multiset(rel) && HitsFirst(Ideal(rel))
    ensures Binary(Ideal(rel)) && CountOnes(Ideal(rel)) == CountOnes(rel)
    ensures Dcg(Ideal(rel), d, 0) == DiscountSum(d, 0, CountOnes(rel))
  {
    SortDescProperties(rel, Key);
    var ideal := Ideal(rel);
    forall i | 0 <= i < |ideal|
      ensures ideal[i] <= 1
    {
      assert ideal[i] in multiset(rel);
    }
    DcgOfHitsFirst(ideal, d, 0);
  }
}
