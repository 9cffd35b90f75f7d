/** What the merge loop of the Huffman builder keeps, about the trees it grows. Of
    the 256 indices those with a positive count stand for trees; a merge joins the
    tree of the second least count to the tree of the least one. */
module HuffmanForest {
  import opened Words
  import opened Sums
  import opened HuffmanTree
  import opened HuffmanOptimal

  const LEAF_FLAG: u16 := 0x8000

  /** A child word is a symbol with the leaf flag, or the index of the pair of its
      own children. All pairs lie at `low` or above. */
  predicate Represents(pairs: seq<u16>, low: nat, child: u16, t: Tree)
    decreases t
  {
    match t
    case Leaf(s) => s < 256 && child == LEAF_FLAG + s
    case Node(l, r) =>
      && low <= child && child < LEAF_FLAG && child + 1 < |pairs|
      && Represents(pairs, low, pairs[child], l)
      && Represents(pairs, low, pairs[child + 1], r)
  }

  lemma {:induction false} RepresentsBelow(pairs: seq<u16>, more: seq<u16>, low: nat, lower: nat, child: u16, t: Tree)
    requires Represents(pairs, low, child, t) && lower <= low && |more| == |pairs|
    requires forall k :: low <= k < |pairs| ==> more[k] == pairs[k]
    ensures Represents(more, lower, child, t)
    decreases t
  {
    if t.Node? {
      RepresentsBelow(pairs, more, low, lower, pairs[child], t.left);
      RepresentsBelow(pairs, more, low, lower, pairs[child + 1], t.right);
    }
  }

  /** The trees, the child words that represent them, and which index holds each
      symbol. */
  datatype Forest = Forest(trees: seq<Tree>, places: seq<u16>, owner: seq<nat>)

  predicate Sized(f: Forest, counts: seq<nat>) {
    |counts| == |f.trees| == |f.places| == |f.owner| == 256
  }

  /** Every live tree has its weight as its count. */
  ghost predicate Weighed(f: Forest, initial: seq<nat>, counts: seq<nat>) {
    Sized(f, counts) && |initial| == 256 &&
    forall i :: 0 <= i < 256 && counts[i] > 0 ==>
      Counts(f.trees[i], initial) && Distinct(f.trees[i]) && Weight(f.trees[i], initial) == counts[i]
  }

  ghost predicate Placed(f: Forest, counts: seq<nat>, pairs: seq<u16>, low: nat) {
    Sized(f, counts) && |pairs| == 510 &&
    forall i :: 0 <= i < 256 && counts[i] > 0 ==> Represents(pairs, low, f.places[i], f.trees[i])
  }

  /** The live trees have no symbol in common, and every symbol that occurred at
      first is in one of them. */
  ghost predicate Partitioned(f: Forest, initial: seq<nat>, counts: seq<nat>) {
    && Sized(f, counts) && |initial| == 256
    && (forall i, j :: 0 <= i < 256 && 0 <= j < 256 && i != j && counts[i] > 0 && counts[j] > 0 ==>
          Leaves(f.trees[i]) !! Leaves(f.trees[j]))
    && (forall s :: 0 <= s < 256 && initial[s] > 0 ==>
          f.owner[s] < 256 && counts[f.owner[s]] > 0 && s in Leaves(f.trees[f.owner[s]]))
  }

  /** No live tree is lighter than a child of another live tree. */
  ghost predicate Balanced(f: Forest, initial: seq<nat>, counts: seq<nat>)
    requires Weighed(f, initial, counts)
  {
    && (forall i :: 0 <= i < 256 && counts[i] > 0 ==> FibonacciHeavy(f.trees[i], initial))
    && (forall i, j :: 0 <= i < 256 && 0 <= j < 256 && i != j && counts[i] > 0 && counts[j] > 0 ==>
          counts[j] >= HeavierChild(f.trees[i], initial))
  }

  /** Every live tree starts with its own index, and has its lighter subtrees first. */
  ghost predicate Stable(f: Forest, initial: seq<nat>, counts: seq<nat>)
    requires Weighed(f, initial, counts)
  {
    forall i :: 0 <= i < 256 && counts[i] > 0 ==>
      Leftmost(f.trees[i]) == i && LighterFirst(f.trees[i], initial)
  }

  function PathTerms(f: Forest, initial: seq<nat>, counts: seq<nat>): (terms: seq<nat>)
    requires Weighed(f, initial, counts)
    ensures |terms| == 256
  {
    seq(256, i requires 0 <= i < 256 => if counts[i] > 0 then PathCost(f.trees[i], initial) else 0)
  }

  /** The inner nodes so far and the merges still to come add up to the cost. */
  ghost predicate Costed(f: Forest, initial: seq<nat>, counts: seq<nat>)
    requires Weighed(f, initial, counts)
  {
    Sum(PathTerms(f, initial, counts)) + HuffmanCost(counts) == HuffmanCost(initial)
  }

  function Heights(f: Forest): (heights: seq<nat>)
    ensures |heights| == |f.trees|
  {
    seq(|f.trees|, i requires 0 <= i < |f.trees| => Height(f.trees[i]))
  }

  /** Merging on from these trees leads to the height of the Huffman tree. */
  ghost predicate Measured(f: Forest, initial: seq<nat>, counts: seq<nat>) {
    Sized(f, counts) && HeightFrom(counts, Heights(f)) == HuffmanHeight(initial)
  }

  ghost predicate Grown(f: Forest, initial: seq<nat>, counts: seq<nat>, pairs: seq<u16>, merges: nat) {
    && merges <= 255
    && Weighed(f, initial, counts)
    && Placed(f, counts, pairs, 510 - 2 * merges)
    && Partitioned(f, initial, counts)
    && Balanced(f, initial, counts)
    && Stable(f, initial, counts)
    && Costed(f, initial, counts)
    && Measured(f, initial, counts)
    && Sum(counts) == Sum(initial)
    && |Active(counts)| + merges == |Active(initial)|
  }

  lemma GrownIsSized(f: Forest, initial: seq<nat>, counts: seq<nat>, pairs: seq<u16>, merges: nat)
    requires Grown(f, initial, counts, pairs, merges)
    ensures Sized(f, counts) && |pairs| == 510 && Sum(counts) == Sum(initial)
  {
  }

  /** Single leaves. */
  function Seedlings(): (f: Forest)
    ensures |f.trees| == |f.places| == |f.owner| == 256
  {
    Forest(seq(256, i requires 0 <= i < 256 => Leaf(i)),
           seq(256, i requires 0 <= i < 256 => LEAF_FLAG + i),
           seq(256, i requires 0 <= i < 256 => i))
  }

  function Join(f: Forest, a: nat, b: nat, place: u16): Forest
    requires a < |f.trees| && b < |f.trees| && a < |f.places|
  {
    Forest(f.trees[a := Node(f.trees[a], f.trees[b])],
           f.places[a := place],
           seq(|f.owner|, s requires 0 <= s < |f.owner| => if f.owner[s] == b then a else f.owner[s]))
  }

  lemma SeedlingsGrown(initial: seq<nat>, pairs: seq<u16>)
    requires |initial| == 256 && |pairs| == 510
    ensures Grown(Seedlings(), initial, initial, pairs, 0)
  {
    var f := Seedlings();
    assert Weighed(f, initial, initial);
    assert Fibonacci(2) == 1;
    assert Heights(f) == seq(256, _ => 0);
    SumOfZeros(PathTerms(f, initial, initial));
  }

  /** The two least counts of a forest that can still be merged. */
  predicate Picks(counts: seq<nat>, a: nat, b: nat) {
    |Active(counts)| >= 2 && a == Least(counts) && b == Second(counts)
  }

  lemma PicksLeast(counts: seq<nat>, a: nat, b: nat)
    requires Picks(counts, a, b)
    ensures a < |counts| && b < |counts| && a != b && counts[a] > 0 && counts[b] > 0
    ensures forall j :: 0 <= j < |counts| && counts[j] > 0 ==> counts[a] <= counts[j]
    ensures forall j :: 0 <= j < |counts| && counts[j] > 0 && j != a ==> counts[b] <= counts[j]
    ensures counts[a] == counts[b] ==> a < b
  {
    TwoExist(counts);
  }

  lemma JoinWeighed(f: Forest, initial: seq<nat>, counts: seq<nat>, a: nat, b: nat, place: u16)
    requires Weighed(f, initial, counts) && Partitioned(f, initial, counts) && Picks(counts, a, b)
    ensures a < 256 && b < 256
    ensures Weighed(Join(f, a, b, place), initial, Merged(counts, a, b))
  {
    PicksLeast(counts, a, b);
  }

  lemma JoinPlaced(f: Forest, counts: seq<nat>, pairs: seq<u16>, low: nat, a: nat, b: nat)
    requires Placed(f, counts, pairs, low) && Picks(counts, a, b) && 2 <= low <= 510
    ensures a < 256 && b < 256
    ensures Placed(Join(f, a, b, low - 2), Merged(counts, a, b),
                   pairs[low - 1 := f.places[b]][low - 2 := f.places[a]], low - 2)
  {
    PicksLeast(counts, a, b);
    var more := pairs[low - 1 := f.places[b]][low - 2 := f.places[a]];
    forall i | 0 <= i < 256 && counts[i] > 0
      ensures Represents(more, low - 2, f.places[i], f.trees[i])
    {
      RepresentsBelow(pairs, more, low, low - 2, f.places[i], f.trees[i]);
    }
  }

  lemma JoinPartitioned(f: Forest, initial: seq<nat>, counts: seq<nat>, a: nat, b: nat, place: u16)
    requires Partitioned(f, initial, counts) && Picks(counts, a, b)
    ensures a < 256 && b < 256
    ensures Partitioned(Join(f, a, b, place), initial, Merged(counts, a, b))
  {
    PicksLeast(counts, a, b);
    var g, merged := Join(f, a, b, place), Merged(counts, a, b);
    assert Leaves(g.trees[a]) == Leaves(f.trees[a]) + Leaves(f.trees[b]);
  }

  lemma JoinBalanced(f: Forest, initial: seq<nat>, counts: seq<nat>, a: nat, b: nat, place: u16)
    requires Weighed(f, initial, counts) && Balanced(f, initial, counts) && Picks(counts, a, b)
    requires a < 256 && b < 256 && Weighed(Join(f, a, b, place), initial, Merged(counts, a, b))
    ensures Balanced(Join(f, a, b, place), initial, Merged(counts, a, b))
  {
    PicksLeast(counts, a, b);
    JoinIsHeavy(f.trees[a], f.trees[b], initial);
  }

  lemma JoinStable(f: Forest, initial: seq<nat>, counts: seq<nat>, a: nat, b: nat, place: u16)
    requires Weighed(f, initial, counts) && Stable(f, initial, counts) && Picks(counts, a, b)
    requires a < 256 && b < 256 && Weighed(Join(f, a, b, place), initial, Merged(counts, a, b))
    ensures Stable(Join(f, a, b, place), initial, Merged(counts, a, b))
  {
    PicksLeast(counts, a, b);
  }

  lemma JoinCosted(f: Forest, initial: seq<nat>, counts: seq<nat>, a: nat, b: nat, place: u16)
    requires Weighed(f, initial, counts) && Costed(f, initial, counts) && Picks(counts, a, b)
    requires a < 256 && b < 256 && Weighed(Join(f, a, b, place), initial, Merged(counts, a, b))
    ensures Costed(Join(f, a, b, place), initial, Merged(counts, a, b))
  {
    PicksLeast(counts, a, b);
    var terms := PathTerms(f, initial, counts);
    var joint := counts[a] + counts[b] + terms[a] + terms[b];
    assert PathTerms(Join(f, a, b, place), initial, Merged(counts, a, b)) == terms[a := joint][b := 0];
    SumUpdate(terms, a, joint);
    SumUpdate(terms[a := joint], b, 0);
  }

  lemma JoinMeasured(f: Forest, initial: seq<nat>, counts: seq<nat>, a: nat, b: nat, place: u16)
    requires Measured(f, initial, counts) && Picks(counts, a, b)
    ensures a < 256 && b < 256
    ensures Measured(Join(f, a, b, place), initial, Merged(counts, a, b))
  {
    PicksLeast(counts, a, b);
    assert Heights(Join(f, a, b, place)) == Joined(Heights(f), a, b);
  }

  lemma MergedSum(counts: seq<nat>, a: nat, b: nat)
    requires a < |counts| && b < |counts| && a != b
    ensures Sum(Merged(counts, a, b)) == Sum(counts)
    ensures Sum(counts) >= counts[a] + counts[b]
  {
    hide Sum;
    SumUpdate(counts, a, counts[a] + counts[b]);
    SumUpdate(counts[a := counts[a] + counts[b]], b, 0);
    SumUpdate(Merged(counts, a, b), a, 0);
  }

  lemma JoinGrows(f: Forest, initial: seq<nat>, counts: seq<nat>, pairs: seq<u16>, merges: nat, a: nat, b: nat)
    requires Grown(f, initial, counts, pairs, merges) && merges < 255 && Picks(counts, a, b)
    ensures a < 256 && b < 256
    ensures var low := 510 - 2 * merges;
            Grown(Join(f, a, b, low - 2), initial, Merged(counts, a, b),
                  pairs[low - 1 := f.places[b]][low - 2 := f.places[a]], merges + 1)
  {
    hide Weighed, Placed, Partitioned, Balanced, Stable, Costed, Measured;
    PicksLeast(counts, a, b);
    var low := 510 - 2 * merges;
    JoinWeighed(f, initial, counts, a, b, low - 2);
    JoinPlaced(f, counts, pairs, low, a, b);
    JoinPartitioned(f, initial, counts, a, b, low - 2);
    JoinBalanced(f, initial, counts, a, b, low - 2);
    JoinStable(f, initial, counts, a, b, low - 2);
    JoinCosted(f, initial, counts, a, b, low - 2);
    JoinMeasured(f, initial, counts, a, b, low - 2);
    MergedSum(counts, a, b);
    MergedActive(counts, a, b);
  }

  // ----- How many symbols occur ---------------------------------------------

  function Indices(n: nat): (indices: set<nat>)
    ensures forall i: nat :: i in indices <==> i < n
    ensures |indices| == n
  {
    if n == 0 then {} else Indices(n - 1) + {n - 1}
  }

  predicate AllOccur(counts: seq<nat>) {
    forall i :: 0 <= i < |counts| ==> counts[i] > 0
  }

  /** All symbols occur exactly when none of the indices is missing. */
  lemma FullActive(counts: seq<nat>)
    ensures |Active(counts)| <= |counts|
    ensures |Active(counts)| == |counts| <==> AllOccur(counts)
  {
    SubsetSize(Active(counts), Indices(|counts|));
    if AllOccur(counts) {
      assert Active(counts) == Indices(|counts|);
    }
    if Active(counts) == Indices(|counts|) {
      forall i | 0 <= i < |counts|
        ensures counts[i] > 0
      {
        assert i in Indices(|counts|);
      }
    }
  }

  /** The leaves are exactly the 256 symbols. */
  ghost predicate AllSymbols(t: Tree) {
    forall s: nat :: s in Leaves(t) <==> s < 256
  }

  /** The finished tree: one tree, of all 256 symbols, its lighter subtrees first, as
      high as its weight allows and as high and as cheap as merging makes it. */
  ghost predicate Finished(t: Tree, initial: seq<nat>) {
    && |initial| == 256
    && AllSymbols(t) && Distinct(t) && Counts(t, initial) && LighterFirst(t, initial)
    && Fibonacci(Height(t) + 2) <= Sum(initial)
    && Height(t) == HuffmanHeight(initial)
    && Sum(CodeTerms(t, initial)) == HuffmanCost(initial)
  }

  lemma {:induction false} LeavesHaveCounts(t: Tree, initial: seq<nat>)
    requires Counts(t, initial)
    ensures forall s :: s in Leaves(t) ==> s < |initial|
  {
    if t.Node? {
      LeavesHaveCounts(t.left, initial);
      LeavesHaveCounts(t.right, initial);
    }
  }

  lemma SumOfOne(s: seq<nat>, i: nat)
    requires i < |s| && forall j :: 0 <= j < |s| && j != i ==> s[j] == 0
    ensures Sum(s) == s[i]
  {
    SumUpdate(s, i, 0);
    SumOfZeros(s[i := 0]);
  }

  lemma OneLeft(counts: seq<nat>, root: nat)
    requires Active(counts) == {root}
    ensures HuffmanCost(counts) == 0
  {
  }

  lemma LastOwnsAll(f: Forest, initial: seq<nat>, counts: seq<nat>, root: nat)
    requires Weighed(f, initial, counts) && Partitioned(f, initial, counts) && AllOccur(initial)
    requires Active(counts) == {root}
    ensures AllSymbols(f.trees[root])
  {
    assert root in Active(counts);
    assert forall j :: 0 <= j < 256 && counts[j] > 0 ==> j in Active(counts);
    LeavesHaveCounts(f.trees[root], initial);
    forall s: nat | s < 256
      ensures s in Leaves(f.trees[root])
    {
      assert f.owner[s] == root;
    }
  }

  lemma LastCost(f: Forest, initial: seq<nat>, counts: seq<nat>, root: nat)
    requires Weighed(f, initial, counts) && Costed(f, initial, counts) && Active(counts) == {root}
    ensures root < 256 && counts[root] > 0
    ensures Sum(CodeTerms(f.trees[root], initial)) == HuffmanCost(initial)
    ensures Sum(counts) == counts[root]
  {
    assert root in Active(counts);
    assert forall j :: 0 <= j < 256 && counts[j] > 0 ==> j in Active(counts);
    hide Sum, HuffmanCost;
    OneLeft(counts, root);
    SumOfOne(counts, root);
    SumOfOne(PathTerms(f, initial, counts), root);
    PathCostIsCodeCost(f.trees[root], initial);
  }

  lemma LastHeight(f: Forest, initial: seq<nat>, counts: seq<nat>, root: nat)
    requires Measured(f, initial, counts) && Active(counts) == {root}
    ensures root < 256 && Height(f.trees[root]) == HuffmanHeight(initial)
  {
    assert root in Active(counts);
    assert Least(counts) in Active(counts);
  }

  lemma LastTreeFinished(f: Forest, initial: seq<nat>, counts: seq<nat>, pairs: seq<u16>, root: nat)
    requires Grown(f, initial, counts, pairs, 255) && root < 256 && counts[root] > 0
    ensures AllOccur(initial)
    ensures Finished(f.trees[root], initial)
  {
    FullActive(initial);
    SubsetSize({root}, Active(counts));
    LastOwnsAll(f, initial, counts, root);
    LastCost(f, initial, counts, root);
    LastHeight(f, initial, counts, root);
    hide Placed, Measured, HeightFrom, Partitioned, Costed, Sum, HuffmanCost, Leaves, Fibonacci, Weight, Code,
         CodeTerms;
  }

  /** Whenever all symbols occur, merging ends with a finished tree. */
  lemma TreeExists(initial: seq<nat>) returns (t: Tree)
    requires |initial| == 256 && AllOccur(initial)
    ensures Finished(t, initial)
  {
    hide Weighed, Placed, Partitioned, Balanced, Stable, Costed, Measured, Finished, Join, Merged, Sum, Least, Second;
    var pairs: seq<u16> := seq(510, _ => 0);
    var f, counts := Seedlings(), initial;
    SeedlingsGrown(initial, pairs);
    FullActive(initial);
    for merges := 0 to 255
      invariant Grown(f, initial, counts, pairs, merges)
    {
      var a, b := Least(counts), Second(counts);
      GrownIsSized(f, initial, counts, pairs, merges);
      TwoExist(counts);
      JoinGrows(f, initial, counts, pairs, merges, a, b);
      var low := 510 - 2 * merges;
      pairs := pairs[low - 1 := f.places[b]][low - 2 := f.places[a]];
      f, counts := Join(f, a, b, low - 2), Merged(counts, a, b);
    }
    GrownIsSized(f, initial, counts, pairs, 255);
    var root :| root in Active(counts);
    LastTreeFinished(f, initial, counts, pairs, root);
    t := f.trees[root];
  }
}
