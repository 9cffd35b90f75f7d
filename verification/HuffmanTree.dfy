/** Code trees: the codes they give their symbols, what those cost, and how high a
    tree of a given weight can be. */
module HuffmanTree {
  import opened Sums
  import opened PrefixCodes

  datatype Tree = Leaf(symbol: nat) | Node(left: Tree, right: Tree)

  function Leaves(t: Tree): set<nat> {
    match t
    case Leaf(s) => {s}
    case Node(l, r) => Leaves(l) + Leaves(r)
  }

  /** No symbol occurs twice. */
  predicate Distinct(t: Tree) {
    t.Node? ==> Leaves(t.left) !! Leaves(t.right) && Distinct(t.left) && Distinct(t.right)
  }

  function Height(t: Tree): nat {
    match t
    case Leaf(_) => 0
    case Node(l, r) => 1 + if Height(l) > Height(r) then Height(l) else Height(r)
  }

  /** The path from the root to a symbol; false is left. */
  function Code(t: Tree, s: nat): Bits
    requires s in Leaves(t)
  {
    match t
    case Leaf(_) => []
    case Node(l, r) => if s in Leaves(l) then [false] + Code(l, s) else [true] + Code(r, s)
  }

  lemma {:induction false} CodeFitsHeight(t: Tree, s: nat)
    requires s in Leaves(t)
    ensures |Code(t, s)| <= Height(t)
  {
    if t.Node? {
      CodeFitsHeight(if s in Leaves(t.left) then t.left else t.right, s);
    }
  }

  lemma {:induction false} LongestCode(t: Tree) returns (s: nat)
    requires Distinct(t)
    ensures s in Leaves(t) && |Code(t, s)| == Height(t)
  {
    if t.Leaf? {
      s := t.symbol;
    } else {
      s := LongestCode(if Height(t.left) > Height(t.right) then t.left else t.right);
    }
  }

  /** No code is a prefix of another. */
  lemma {:induction false} CodesArePrefixFree(t: Tree, s: nat, u: nat)
    requires Distinct(t) && s in Leaves(t) && u in Leaves(t) && s != u
    ensures !(Code(t, s) <= Code(t, u))
  {
    if t.Node? {
      var sub := if s in Leaves(t.left) then t.left else t.right;
      if u in Leaves(sub) {
        CodesArePrefixFree(sub, s, u);
        assert Code(t, s)[1..] == Code(sub, s) && Code(t, u)[1..] == Code(sub, u);
      } else {
        assert Code(t, s)[0] != Code(t, u)[0];
      }
    }
  }

  /** Codes are complete: wherever one code goes on, another goes the other way. */
  lemma {:induction false} CodesAreComplete(t: Tree, s: nat, n: nat, b: bool) returns (u: nat)
    requires s in Leaves(t) && Distinct(t) && n < |Code(t, s)|
    ensures u in Leaves(t) && Code(t, s)[..n] + [b] <= Code(t, u)
  {
    var inLeft := s in Leaves(t.left);
    if n == 0 {
      var sub := if b then t.right else t.left;
      u := AnyLeaf(sub);
      assert Code(t, u)[0] == b;
    } else {
      var sub := if inLeft then t.left else t.right;
      u := CodesAreComplete(sub, s, n - 1, b);
      assert Code(t, s)[..n] == [!inLeft] + Code(sub, s)[..n - 1];
      assert Code(t, u) == [!inLeft] + Code(sub, u);
    }
  }

  lemma {:induction false} AnyLeaf(t: Tree) returns (s: nat)
    ensures s in Leaves(t)
  {
    if t.Leaf? {
      s := t.symbol;
    } else {
      s := AnyLeaf(t.left);
    }
  }

  // ----- Weights -----------------------------------------------------------

  /** Every leaf has a count. */
  predicate Counts(t: Tree, counts: seq<nat>) {
    match t
    case Leaf(s) => s < |counts|
    case Node(l, r) => Counts(l, counts) && Counts(r, counts)
  }

  function Weight(t: Tree, counts: seq<nat>): nat
    requires Counts(t, counts)
  {
    match t
    case Leaf(s) => counts[s]
    case Node(l, r) => Weight(l, counts) + Weight(r, counts)
  }

  function Leftmost(t: Tree): nat {
    match t
    case Leaf(s) => s
    case Node(l, _) => Leftmost(l)
  }

  /** Bit 0 goes to the lighter subtree; of two equally heavy ones, to the one that
      starts with the lower symbol. */
  predicate LighterFirst(t: Tree, counts: seq<nat>)
    requires Counts(t, counts)
  {
    match t
    case Leaf(_) => true
    case Node(l, r) =>
      && LighterFirst(l, counts) && LighterFirst(r, counts)
      && Weight(l, counts) <= Weight(r, counts)
      && (Weight(l, counts) == Weight(r, counts) ==> Leftmost(l) < Leftmost(r))
  }

  /** Two codes that differ in the last bit only: the rarer symbol has the 0, and of
      two equally frequent ones the lower symbol. */
  lemma {:induction false} SiblingsAreOrdered(t: Tree, counts: seq<nat>, path: Bits, s: nat, u: nat)
    requires Counts(t, counts) && Distinct(t) && LighterFirst(t, counts) && s in Leaves(t) && u in Leaves(t)
    requires Code(t, s) == path + [false] && Code(t, u) == path + [true]
    ensures s < |counts| && u < |counts|
    ensures counts[s] <= counts[u] && (counts[s] == counts[u] ==> s < u)
  {
    var sub := if s in Leaves(t.left) then t.left else t.right;
    if path == [] {
      assert Code(t, s)[0] == false && Code(t, u)[0] == true;
      assert Code(t, s)[1..] == Code(t.left, s) && Code(t, u)[1..] == Code(t.right, u);
      EmptyCode(t.left, s);
      EmptyCode(t.right, u);
    } else {
      assert Code(t, s)[1..] == path[1..] + [false] && Code(t, u)[1..] == path[1..] + [true];
      assert Code(t, s)[0] == path[0] == Code(t, u)[0];
      SiblingsAreOrdered(sub, counts, path[1..], s, u);
    }
  }

  lemma EmptyCode(t: Tree, s: nat)
    requires s in Leaves(t) && Code(t, s) == []
    ensures t == Leaf(s)
  {
  }

  /** The weight of all inner nodes. */
  function PathCost(t: Tree, counts: seq<nat>): nat
    requires Counts(t, counts)
  {
    match t
    case Leaf(_) => 0
    case Node(l, r) => Weight(t, counts) + PathCost(l, counts) + PathCost(r, counts)
  }

  function WeightTerm(t: Tree, count: nat, s: nat): nat {
    if s in Leaves(t) then count else 0
  }

  function CodeTerm(t: Tree, count: nat, s: nat): nat {
    if s in Leaves(t) then Times(count, |Code(t, s)|) else 0
  }

  /** Each symbol's count, if it is a leaf of `t`. */
  function WeightTerms(t: Tree, counts: seq<nat>): (terms: seq<nat>)
    ensures |terms| == |counts|
  {
    seq(|counts|, i requires 0 <= i < |counts| => WeightTerm(t, counts[i], i))
  }

  /** Each symbol's count times its code length, if it is a leaf of `t`. */
  function CodeTerms(t: Tree, counts: seq<nat>): (terms: seq<nat>)
    ensures |terms| == |counts|
  {
    seq(|counts|, i requires 0 <= i < |counts| => CodeTerm(t, counts[i], i))
  }

  lemma {:induction false} WeightIsSum(t: Tree, counts: seq<nat>)
    requires Counts(t, counts) && Distinct(t)
    ensures Weight(t, counts) == Sum(WeightTerms(t, counts))
  {
    match t
    case Leaf(s) =>
      var zeros := seq(|counts|, _ => 0);
      SumOfZeros(zeros);
      assert Leaves(t) == {s};
      assert WeightTerms(t, counts) == zeros[s := counts[s]];
      SumUpdate(zeros, s, counts[s]);
    case Node(l, r) =>
      WeightIsSum(l, counts);
      WeightIsSum(r, counts);
      assert Leaves(t) == Leaves(l) + Leaves(r) && Leaves(l) !! Leaves(r);
      SumOfSums(WeightTerms(l, counts), WeightTerms(r, counts), WeightTerms(t, counts));
  }

  /** The inner nodes weigh what the codes cost. */
  lemma {:induction false} PathCostIsCodeCost(t: Tree, counts: seq<nat>)
    requires Counts(t, counts) && Distinct(t)
    ensures PathCost(t, counts) == Sum(CodeTerms(t, counts))
  {
    match t
    case Leaf(s) =>
      SumOfZeros(CodeTerms(t, counts));
    case Node(l, r) =>
      PathCostIsCodeCost(l, counts);
      PathCostIsCodeCost(r, counts);
      WeightIsSum(t, counts);
      var below := seq(|counts|, i requires 0 <= i < |counts| =>
        CodeTerms(l, counts)[i] + CodeTerms(r, counts)[i]);
      SumOfSums(CodeTerms(l, counts), CodeTerms(r, counts), below);
      forall i | 0 <= i < |counts|
        ensures CodeTerms(t, counts)[i] == WeightTerms(t, counts)[i] + below[i]
      {
        OneBitMore(t, counts[i], i);
      }
      SumOfSums(WeightTerms(t, counts), below, CodeTerms(t, counts));
  }

  lemma OneBitMore(t: Tree, count: nat, s: nat)
    requires t.Node? && Distinct(t)
    ensures CodeTerm(t, count, s) == WeightTerm(t, count, s) + CodeTerm(t.left, count, s) + CodeTerm(t.right, count, s)
  {
    if s in Leaves(t) {
      var sub := if s in Leaves(t.left) then t.left else t.right;
      assert |Code(t, s)| == 1 + |Code(sub, s)|;
      TimesNext(count, |Code(sub, s)|);
      hide Times;
    }
  }

  lemma TimesNext(count: nat, length: nat)
    ensures Times(count, 1 + length) == count + Times(count, length)
  {
  }

  // ----- Height ------------------------------------------------------------

  function Fibonacci(n: nat): nat {
    if n < 2 then n else Fibonacci(n - 1) + Fibonacci(n - 2)
  }

  lemma {:induction false} FibonacciGrows(m: nat, n: nat)
    requires 1 <= m <= n
    ensures Fibonacci(m) <= Fibonacci(n)
  {
    if m < n {
      FibonacciGrows(m, n - 1);
    }
  }

  /** The greater weight of the two subtrees of a node. */
  function HeavierChild(t: Tree, counts: seq<nat>): nat
    requires Counts(t, counts)
  {
    if t.Leaf? then 0
    else if Weight(t.left, counts) > Weight(t.right, counts) then Weight(t.left, counts)
    else Weight(t.right, counts)
  }

  /** A tree, and every subtree of it, weighs at least the Fibonacci number of its
      height plus two. */
  predicate FibonacciHeavy(t: Tree, counts: seq<nat>)
    requires Counts(t, counts)
  {
    && Weight(t, counts) >= Fibonacci(Height(t) + 2)
    && (t.Node? ==> FibonacciHeavy(t.left, counts) && FibonacciHeavy(t.right, counts))
  }

  /** Joining two trees keeps that, if neither is lighter than a child of the
      other. */
  lemma JoinIsHeavy(l: Tree, r: Tree, counts: seq<nat>)
    requires Counts(l, counts) && Counts(r, counts)
    requires FibonacciHeavy(l, counts) && FibonacciHeavy(r, counts)
    requires Weight(l, counts) >= HeavierChild(r, counts) && Weight(r, counts) >= HeavierChild(l, counts)
    ensures FibonacciHeavy(Node(l, r), counts)
  {
    hide HeavierChild, Fibonacci;
    if Height(l) > Height(r) {
      TallJoin(l, r, counts);
    } else {
      TallJoin(r, l, counts);
    }
  }

  lemma TallJoin(tall: Tree, other: Tree, counts: seq<nat>)
    requires Counts(tall, counts) && Counts(other, counts)
    requires FibonacciHeavy(tall, counts) && FibonacciHeavy(other, counts)
    requires Height(tall) >= Height(other) && Weight(other, counts) >= HeavierChild(tall, counts)
    ensures Weight(tall, counts) + Weight(other, counts) >= Fibonacci(Height(tall) + 3)
  {
    FibonacciNext(Height(tall) + 1);
    FibonacciStarts();
    hide Fibonacci;
    if tall.Node? {
      HeavyChild(tall, counts);
      hide HeavierChild, FibonacciHeavy;
    } else {
      LeafIsHeavy(other, counts);
    }
  }

  lemma FibonacciNext(n: nat)
    ensures Fibonacci(n + 2) == Fibonacci(n + 1) + Fibonacci(n)
  {
  }

  lemma FibonacciStarts()
    ensures Fibonacci(1) == 1 && Fibonacci(2) == 1
  {
  }

  /** A tree no higher than a leaf weighs at least one. */
  lemma LeafIsHeavy(t: Tree, counts: seq<nat>)
    requires Counts(t, counts) && FibonacciHeavy(t, counts) && Height(t) == 0
    ensures Weight(t, counts) >= 1
  {
    FibonacciStarts();
    hide Fibonacci;
  }

  lemma HeavyChild(t: Tree, counts: seq<nat>)
    requires Counts(t, counts) && t.Node? && FibonacciHeavy(t, counts)
    ensures HeavierChild(t, counts) >= Fibonacci(Height(t) + 1)
  {
    hide Fibonacci;
    var taller := if Height(t.left) > Height(t.right) then t.left else t.right;
    assert FibonacciHeavy(taller, counts);
  }
}
