/** The cost that merging two least counts at a time reaches, and why no prefix
    code costs less. Counts of zero mark indices that a merge has absorbed. */
module HuffmanOptimal {
  import opened Sums

  function Active(counts: seq<nat>): set<nat> {
    set i: nat | i < |counts| && counts[i] > 0
  }

  /** The first index with the least positive count among the first `n`, other
      than `skip`; -1 when there is none. Ties go to the lower index. */
  function LeastUpTo(counts: seq<nat>, skip: int, n: nat): (r: int)
    requires n <= |counts|
    ensures r == -1 || (0 <= r < n && r != skip)
    ensures r >= 0 ==> counts[r] > 0
    ensures forall i :: 0 <= i < n && i != skip && counts[i] > 0 ==> r >= 0 && counts[r] <= counts[i]
    ensures forall i :: 0 <= i < r && i != skip && counts[i] > 0 ==> counts[r] < counts[i]
  {
    if n == 0 then -1
    else
      var before := LeastUpTo(counts, skip, n - 1);
      if counts[n - 1] == 0 || n - 1 == skip then before
      else if before < 0 || counts[n - 1] < counts[before] then n - 1
      else before
  }

  function Least(counts: seq<nat>): int {
    LeastUpTo(counts, -1, |counts|)
  }

  function Second(counts: seq<nat>): int {
    LeastUpTo(counts, Least(counts), |counts|)
  }

  lemma TwoExist(counts: seq<nat>)
    requires |Active(counts)| >= 2
    ensures Least(counts) >= 0 && Second(counts) >= 0 && Least(counts) != Second(counts)
  {
    var i :| i in Active(counts);
    var rest := Active(counts) - {Least(counts)};
    assert Least(counts) in Active(counts);
    assert |rest| == |Active(counts)| - 1;
    var j :| j in rest;
  }

  /** The second least count joins the least one. */
  function Merged(counts: seq<nat>, a: nat, b: nat): seq<nat>
    requires a < |counts| && b < |counts|
  {
    counts[a := counts[a] + counts[b]][b := 0]
  }

  lemma MergedActive(counts: seq<nat>, a: nat, b: nat)
    requires a in Active(counts) && b in Active(counts) && a != b
    ensures Active(Merged(counts, a, b)) == Active(counts) - {b}
    ensures |Active(Merged(counts, a, b))| == |Active(counts)| - 1
  {
  }

  /** The total weight of all merges: the cost of the Huffman code. */
  function HuffmanCost(counts: seq<nat>): nat
    decreases |Active(counts)|
  {
    if |Active(counts)| < 2 then 0
    else
      TwoExist(counts);
      var a, b := Least(counts), Second(counts);
      MergedActive(counts, a, b);
      counts[a] + counts[b] + HuffmanCost(Merged(counts, a, b))
  }

  /** The heights of the merged trees: the joint tree is one higher than the
      higher one of the two. */
  function Joined(heights: seq<nat>, a: nat, b: nat): seq<nat>
    requires a < |heights| && b < |heights|
  {
    heights[a := 1 + if heights[a] > heights[b] then heights[a] else heights[b]]
  }

  /** The height of the tree that merging ends with, from trees of these heights. */
  function HeightFrom(counts: seq<nat>, heights: seq<nat>): nat
    requires |heights| == |counts|
    decreases |Active(counts)|
  {
    if |Active(counts)| < 2 then if Least(counts) < 0 then 0 else heights[Least(counts)]
    else
      TwoExist(counts);
      var a, b := Least(counts), Second(counts);
      MergedActive(counts, a, b);
      HeightFrom(Merged(counts, a, b), Joined(heights, a, b))
  }

  /** The height of the Huffman tree: the length of its longest code. */
  function HuffmanHeight(counts: seq<nat>): nat {
    HeightFrom(counts, seq(|counts|, _ => 0))
  }

  // ----- Costs and Kraft sums of arbitrary code lengths ------------------------

  function CostTerms(counts: seq<nat>, lengths: seq<nat>): (terms: seq<nat>)
    requires |lengths| == |counts|
    ensures |terms| == |counts|
  {
    seq(|counts|, i requires 0 <= i < |counts| => Times(counts[i], lengths[i]))
  }

  function Cost(counts: seq<nat>, lengths: seq<nat>): nat
    requires |lengths| == |counts|
  {
    Sum(CostTerms(counts, lengths))
  }

  /** All active lengths are at most `max`. */
  predicate Within(counts: seq<nat>, lengths: seq<nat>, max: nat) {
    |lengths| == |counts| && forall i :: 0 <= i < |counts| && counts[i] > 0 ==> lengths[i] <= max
  }

  /** The part of the code space that one code takes, in units of 2^-max. */
  function CodeSpace(count: nat, length: nat, max: nat): nat
    requires count > 0 ==> length <= max
  {
    if count > 0 then Pow2(max - length) else 0
  }

  function KraftTerms(counts: seq<nat>, lengths: seq<nat>, max: nat): (terms: seq<nat>)
    requires Within(counts, lengths, max)
    ensures |terms| == |counts|
  {
    seq(|counts|, i requires 0 <= i < |counts| => CodeSpace(counts[i], lengths[i], max))
  }

  /** The Kraft inequality, scaled by 2^max. */
  predicate Kraft(counts: seq<nat>, lengths: seq<nat>, max: nat) {
    Within(counts, lengths, max) && Sum(KraftTerms(counts, lengths, max)) <= Pow2(max)
  }

  /** Changing one length changes one term of each sum. */
  lemma SetLength(counts: seq<nat>, lengths: seq<nat>, max: nat, i: nat, length: nat)
    requires Within(counts, lengths, max) && i < |counts| && length <= max
    ensures Within(counts, lengths[i := length], max)
    ensures Sum(KraftTerms(counts, lengths[i := length], max))
         == Sum(KraftTerms(counts, lengths, max)) - CodeSpace(counts[i], lengths[i], max)
            + CodeSpace(counts[i], length, max)
    ensures Cost(counts, lengths[i := length])
         == Cost(counts, lengths) - Times(counts[i], lengths[i]) + Times(counts[i], length)
  {
    hide Sum, CodeSpace, Times;
    var k, c := KraftTerms(counts, lengths, max), CostTerms(counts, lengths);
    assert KraftTerms(counts, lengths[i := length], max) == k[i := CodeSpace(counts[i], length, max)];
    SumUpdate(k, i, CodeSpace(counts[i], length, max));
    assert CostTerms(counts, lengths[i := length]) == c[i := Times(counts[i], length)];
    SumUpdate(c, i, Times(counts[i], length));
  }

  /** Exchanging the lengths of two active indices keeps the Kraft sum, and does
      not raise the cost when the greater length moves to the smaller count. */
  lemma Exchange(counts: seq<nat>, lengths: seq<nat>, max: nat, i: nat, p: nat)
    requires Kraft(counts, lengths, max) && i in Active(counts) && p in Active(counts) && i != p
    requires counts[i] <= counts[p] && lengths[i] <= lengths[p]
    ensures var swapped := lengths[i := lengths[p]][p := lengths[i]];
            Kraft(counts, swapped, max) && Cost(counts, swapped) <= Cost(counts, lengths)
  {
    hide Cost, Times, KraftTerms, Pow2, Sum;
    ExchangeProducts(counts[i], counts[p], lengths[i], lengths[p]);
    SetLength(counts, lengths, max, i, lengths[p]);
    SetLength(counts, lengths[i := lengths[p]], max, p, lengths[i]);
  }

  lemma ExchangeProducts(small: nat, large: nat, short: nat, long: nat)
    requires small <= large && short <= long
    ensures Times(small, long) + Times(large, short) <= Times(small, short) + Times(large, long)
  {
    assert (large - small) * (long - short) >= 0;
  }

  /** Two siblings of greatest length become one code, a bit shorter. */
  lemma MergeSiblings(counts: seq<nat>, lengths: seq<nat>, max: nat, a: nat, b: nat)
    requires Kraft(counts, lengths, max) && a in Active(counts) && b in Active(counts) && a != b
    requires max > 0 && lengths[a] == lengths[b] == max
    ensures var shorter := lengths[a := max - 1];
            && Kraft(Merged(counts, a, b), shorter, max)
            && Cost(counts, lengths) == Cost(Merged(counts, a, b), shorter) + counts[a] + counts[b]
  {
    var shorter := lengths[a := max - 1];
    MergedActive(counts, a, b);
    assert Within(Merged(counts, a, b), shorter, max);
    MergeKraft(counts, lengths, max, a, b);
    MergeCost(counts, lengths, max, a, b);
  }

  lemma MergeKraft(counts: seq<nat>, lengths: seq<nat>, max: nat, a: nat, b: nat)
    requires Within(counts, lengths, max) && a in Active(counts) && b in Active(counts) && a != b
    requires max > 0 && lengths[a] == lengths[b] == max
    requires Within(Merged(counts, a, b), lengths[a := max - 1], max)
    ensures Sum(KraftTerms(Merged(counts, a, b), lengths[a := max - 1], max)) == Sum(KraftTerms(counts, lengths, max))
  {
    var k := KraftTerms(counts, lengths, max);
    var joint := CodeSpace(counts[a] + counts[b], max - 1, max);
    assert Pow2(1) == 2 && Pow2(0) == 1;
    assert joint == CodeSpace(counts[a], max, max) + CodeSpace(counts[b], max, max);
    assert CodeSpace(0, lengths[b], max) == 0;
    hide CodeSpace, Sum, Pow2;
    assert KraftTerms(Merged(counts, a, b), lengths[a := max - 1], max) == k[a := joint][b := 0];
    SumUpdate(k, a, joint);
    SumUpdate(k[a := joint], b, 0);
  }

  lemma MergeCost(counts: seq<nat>, lengths: seq<nat>, max: nat, a: nat, b: nat)
    requires |lengths| == |counts| && a < |counts| && b < |counts| && a != b
    requires max > 0 && lengths[a] == lengths[b] == max
    ensures Cost(counts, lengths) == Cost(Merged(counts, a, b), lengths[a := max - 1]) + counts[a] + counts[b]
  {
    var c := CostTerms(counts, lengths);
    var joint := Times(counts[a] + counts[b], max - 1);
    assert joint == Times(counts[a], max) + Times(counts[b], max) - counts[a] - counts[b];
    assert Times(0, lengths[b]) == 0;
    hide Times, Sum;
    assert CostTerms(Merged(counts, a, b), lengths[a := max - 1]) == c[a := joint][b := 0];
    SumUpdate(c, a, joint);
    SumUpdate(c[a := joint], b, 0);
  }

  /** The active indices with the greatest length. */
  function Longest(counts: seq<nat>, lengths: seq<nat>, max: nat): set<nat>
    requires |lengths| == |counts|
  {
    set i | i in Active(counts) && lengths[i] == max
  }

  /** When all lengths are below `max`, the scale can be halved. */
  lemma {:induction false} HalveTerms(counts: seq<nat>, lengths: seq<nat>, max: nat)
    requires max > 0 && Within(counts, lengths, max - 1)
    ensures Sum(KraftTerms(counts, lengths, max)) == 2 * Sum(KraftTerms(counts, lengths, max - 1))
  {
    var full, half := KraftTerms(counts, lengths, max), KraftTerms(counts, lengths, max - 1);
    SumOfSums(half, half, full);
  }

  /** A lone longest code can lose its last bit: the Kraft sum is odd, so there is
      room. */
  lemma ShortenLone(counts: seq<nat>, lengths: seq<nat>, max: nat, x: nat)
    requires Kraft(counts, lengths, max) && max > 0 && Longest(counts, lengths, max) == {x}
    ensures var shorter := lengths[x := max - 1];
            Kraft(counts, shorter, max - 1) && Cost(counts, shorter) <= Cost(counts, lengths)
  {
    var shorter := lengths[x := max - 1];
    assert x in Longest(counts, lengths, max);
    assert Times(counts[x], max - 1) <= Times(counts[x], max);
    SetLength(counts, lengths, max, x, max - 1);
    assert Pow2(1) == 2 && Pow2(0) == 1 && Pow2(max) == 2 * Pow2(max - 1);
    BelowLongest(counts, lengths, max, x);
    hide Times, Sum, Pow2, KraftTerms, Cost, Longest;
    HalveTerms(counts, shorter, max);
  }

  lemma BelowLongest(counts: seq<nat>, lengths: seq<nat>, max: nat, x: nat)
    requires Within(counts, lengths, max) && max > 0 && Longest(counts, lengths, max) == {x}
    ensures x < |counts| && Within(counts, lengths[x := max - 1], max - 1)
  {
    assert x in Longest(counts, lengths, max);
    forall i | 0 <= i < |counts| && counts[i] > 0 && i != x
      ensures lengths[i] <= max - 1
    {
      assert i !in Longest(counts, lengths, max);
    }
  }

  lemma DropScale(counts: seq<nat>, lengths: seq<nat>, max: nat)
    requires Kraft(counts, lengths, max) && max > 0 && Longest(counts, lengths, max) == {}
    ensures Kraft(counts, lengths, max - 1)
  {
    forall i | 0 <= i < |counts| && counts[i] > 0
      ensures lengths[i] <= max - 1
    {
      assert i !in Longest(counts, lengths, max);
    }
    HalveTerms(counts, lengths, max);
  }

  lemma NoRoomForTwo(counts: seq<nat>, lengths: seq<nat>)
    requires |Active(counts)| >= 2
    ensures !Kraft(counts, lengths, 0)
  {
    if Within(counts, lengths, 0) {
      TwoExist(counts);
      var a, b := Least(counts), Second(counts);
      var k := KraftTerms(counts, lengths, 0);
      assert k[a] == k[b] == Pow2(0) == 1;
      SumPositive(k, if a < b then a else b, if a < b then b else a);
    }
  }

  /** There is always a code at least as cheap in which two codes share the
      greatest length. */
  lemma {:induction false} TwoLongest(counts: seq<nat>, lengths: seq<nat>, max: nat)
    returns (better: seq<nat>, top: nat)
    requires Kraft(counts, lengths, max) && |Active(counts)| >= 2
    ensures Kraft(counts, better, top) && top > 0
    ensures Cost(counts, better) <= Cost(counts, lengths)
    ensures |Longest(counts, better, top)| >= 2
    decreases max
  {
    hide Kraft, Cost;
    NoRoomForTwo(counts, lengths);
    KraftLengths(counts, lengths, max);
    var longest := Longest(counts, lengths, max);
    if |longest| >= 2 {
      better, top := lengths, max;
    } else if longest == {} {
      DropScale(counts, lengths, max);
      better, top := TwoLongest(counts, lengths, max - 1);
    } else {
      var x :| x in longest;
      assert |longest - {x}| == |longest| - 1;
      assert longest == {x};
      ShortenLone(counts, lengths, max, x);
      better, top := TwoLongest(counts, lengths[x := max - 1], max - 1);
    }
  }

  lemma KraftLengths(counts: seq<nat>, lengths: seq<nat>, max: nat)
    requires Kraft(counts, lengths, max)
    ensures Within(counts, lengths, max)
  {
  }

  /** Gives the index `x` the greatest length, in exchange with another. */
  lemma Lengthen(counts: seq<nat>, lengths: seq<nat>, top: nat, x: nat, keep: nat) returns (better: seq<nat>)
    requires Kraft(counts, lengths, top) && |Longest(counts, lengths, top)| >= 2
    requires x in Active(counts) && keep in Active(counts) && x != keep
    requires forall i :: i in Active(counts) && i != keep ==> counts[x] <= counts[i]
    ensures Kraft(counts, better, top) && Cost(counts, better) <= Cost(counts, lengths)
    ensures better[x] == top && better[keep] == lengths[keep]
    ensures |Longest(counts, better, top)| >= 2
  {
    hide Cost;
    if lengths[x] == top {
      better := lengths;
    } else {
      var p := Another(Longest(counts, lengths, top), keep);
      Exchange(counts, lengths, top, x, p);
      better := lengths[x := lengths[p]][p := lengths[x]];
      assert Longest(counts, better, top) == Longest(counts, lengths, top) - {p} + {x};
    }
  }

  /** A code no dearer, in which the two least counts have the greatest length. */
  lemma LeastAreLongest(counts: seq<nat>, lengths: seq<nat>, max: nat)
    returns (better: seq<nat>, top: nat)
    requires Kraft(counts, lengths, max) && |Active(counts)| >= 2
    ensures Kraft(counts, better, top) && top > 0 && Cost(counts, better) <= Cost(counts, lengths)
    ensures Least(counts) >= 0 && Second(counts) >= 0 && Least(counts) != Second(counts)
    ensures better[Least(counts)] == better[Second(counts)] == top
  {
    hide Cost, KraftTerms;
    TwoExist(counts);
    var a, b := Least(counts), Second(counts);
    better, top := TwoLongest(counts, lengths, max);
    better := Lengthen(counts, better, top, a, b);
    better := Lengthen(counts, better, top, b, a);
  }

  lemma Another(s: set<nat>, x: nat) returns (y: nat)
    requires |s| >= 2
    ensures y in s && y != x
  {
    if x in s {
      assert |s - {x}| == |s| - 1;
      y :| y in s - {x};
    } else {
      y :| y in s;
    }
  }

  /** No lengths that satisfy the Kraft inequality cost less than merging. */
  lemma {:induction false} HuffmanIsLeast(counts: seq<nat>, lengths: seq<nat>, max: nat)
    requires Kraft(counts, lengths, max)
    ensures HuffmanCost(counts) <= Cost(counts, lengths)
    decreases |Active(counts)|
  {
    if |Active(counts)| >= 2 {
      var better, top := LeastAreLongest(counts, lengths, max);
      var a, b := Least(counts), Second(counts);
      MergeSiblings(counts, better, top, a, b);
      MergedActive(counts, a, b);
      HuffmanIsLeast(Merged(counts, a, b), better[a := top - 1], top);
    }
  }
}
