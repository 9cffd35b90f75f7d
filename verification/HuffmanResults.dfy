/** What the codes of a finished tree are: prefix-free, complete, cheapest, and
    short enough for the packed word. */
module HuffmanResults {
  import opened Sums
  import opened PrefixCodes
  import opened PackedCodes
  import opened HuffmanTree
  import opened HuffmanOptimal
  import opened HuffmanForest

  /** The codes of all 256 symbols. */
  function CodeWords(t: Tree): (words: seq<Bits>)
    requires AllSymbols(t)
    ensures |words| == 256
  {
    seq(256, s requires 0 <= s < 256 => Code(t, s))
  }

  lemma CodeWordsPrefixFree(t: Tree)
    requires AllSymbols(t) && Distinct(t)
    ensures PrefixFree(CodeWords(t))
  {
    forall i, j | 0 <= i < 256 && 0 <= j < 256 && i != j
      ensures !(CodeWords(t)[i] <= CodeWords(t)[j])
    {
      CodesArePrefixFree(t, i, j);
    }
  }

  /** Two words of which one goes on with 0 where the other ends with 1. */
  predicate Siblings(zero: Bits, one: Bits) {
    |zero| > 0 && one == zero[..|zero| - 1] + [true] && !zero[|zero| - 1]
  }

  /** Of two codes that differ in the last bit only, the 0 belongs to the rarer symbol,
      and to the lower one of two that are equally frequent. */
  ghost predicate SiblingOrder(row: seq<nat>, words: seq<Bits>)
    requires |words| == |row|
  {
    forall s, u :: 0 <= s < |row| && 0 <= u < |row| && Siblings(words[s], words[u]) ==>
      row[s] <= row[u] && (row[s] == row[u] ==> s < u)
  }

  lemma CodesAreOrdered(t: Tree, row: seq<nat>)
    requires Finished(t, row)
    ensures SiblingOrder(row, CodeWords(t))
  {
    var words := CodeWords(t);
    hide HuffmanCost, HuffmanHeight, Sum, Height, Fibonacci, CodeTerms, LighterFirst, Counts, Distinct;
    forall s, u | 0 <= s < 256 && 0 <= u < 256 && Siblings(words[s], words[u])
      ensures row[s] <= row[u] && (row[s] == row[u] ==> s < u)
    {
      var path := words[s][..|words[s]| - 1];
      assert words[s] == path + [false];
      SiblingsAreOrdered(t, row, path, s, u);
    }
  }

  /** What it costs to send every symbol as often as it occurs. */
  function WordCost(row: seq<nat>, words: seq<Bits>): nat
    requires |words| == |row|
  {
    Sum(seq(|row|, i requires 0 <= i < |row| => Times(row[i], |words[i]|)))
  }

  function Lengths(words: seq<Bits>): (lengths: seq<nat>)
    ensures |lengths| == |words|
  {
    seq(|words|, i requires 0 <= i < |words| => |words[i]|)
  }

  lemma {:induction false} KraftTermsAddUp(row: seq<nat>, words: seq<Bits>, max: nat)
    requires |row| == |words| && AllOccur(row) && Short(words, max)
    ensures Within(row, Lengths(words), max)
    ensures Sum(KraftTerms(row, Lengths(words), max)) == KraftSum(words, max)
  {
    if words != [] {
      var n := |words| - 1;
      KraftTermsAddUp(row[..n], words[..n], max);
      assert KraftTerms(row, Lengths(words), max)[..n] == KraftTerms(row[..n], Lengths(words[..n]), max);
    }
  }

  /** No prefix code on the 256 symbols costs less than the one that is built. */
  lemma CodesAreCheapest(t: Tree, row: seq<nat>, words: seq<Bits>)
    requires Finished(t, row) && AllOccur(row) && |words| == 256 && PrefixFree(words)
    ensures WordCost(row, CodeWords(t)) <= WordCost(row, words)
  {
    var max := MaxLength(words);
    KraftInequality(words, max);
    KraftTermsAddUp(row, words, max);
    HuffmanIsLeast(row, Lengths(words), max);
    WordCostIsCost(row, words);
    CodeCost(t, row);
  }

  lemma WordCostIsCost(row: seq<nat>, words: seq<Bits>)
    requires |row| == |words|
    ensures Cost(row, Lengths(words)) == WordCost(row, words)
  {
    assert CostTerms(row, Lengths(words))
        == seq(|row|, i requires 0 <= i < |row| => Times(row[i], |words[i]|));
  }

  lemma CodeCost(t: Tree, row: seq<nat>)
    requires Finished(t, row)
    ensures WordCost(row, CodeWords(t)) == HuffmanCost(row)
  {
    hide HuffmanCost, Sum, Times, Code, Fibonacci, Counts, Distinct;
    assert CodeTerms(t, row) == seq(|row|, i requires 0 <= i < |row| => Times(row[i], |CodeWords(t)[i]|));
  }

  lemma FiveMore(n: nat)
    ensures Fibonacci(n + 5) == 3 * Fibonacci(n) + 5 * Fibonacci(n + 1)
    ensures Fibonacci(n + 6) == 5 * Fibonacci(n) + 8 * Fibonacci(n + 1)
  {
    assert Fibonacci(n + 3) == 2 * Fibonacci(n + 1) + Fibonacci(n);
    assert Fibonacci(n + 4) == 3 * Fibonacci(n + 1) + 2 * Fibonacci(n);
  }

  lemma Fibonacci30()
    ensures Fibonacci(30) == 832040
  {
    FiveMore(0);
    FiveMore(5);
    FiveMore(10);
    FiveMore(15);
    FiveMore(20);
    FiveMore(25);
  }

  /** All codes fit the packed word exactly when the tree that merging makes is at
      most 27 high. */
  lemma CodesFitExactly(t: Tree, row: seq<nat>)
    requires Finished(t, row)
    ensures (forall s :: 0 <= s < 256 ==> |CodeWords(t)[s]| <= MAX_CODE) <==> HuffmanHeight(row) <= MAX_CODE
  {
    hide HuffmanCost, HuffmanHeight, Sum, Code, Height, Fibonacci, Counts, Distinct, CodeTerms;
    forall s | 0 <= s < 256
      ensures |CodeWords(t)[s]| <= Height(t)
    {
      CodeFitsHeight(t, s);
    }
    var longest := LongestCode(t);
    assert |CodeWords(t)[longest]| == Height(t);
  }

  lemma FinishedHeight(t: Tree, row: seq<nat>)
    requires Finished(t, row)
    ensures Height(t) == HuffmanHeight(row) && Fibonacci(Height(t) + 2) <= Sum(row)
  {
  }

  /** With a total below 832040 no code is longer than 27 bits. */
  lemma CodesFit(row: seq<nat>)
    requires |row| == 256 && AllOccur(row) && Sum(row) < 832040
    ensures HuffmanHeight(row) <= MAX_CODE
  {
    hide HuffmanHeight, Sum, Height, Fibonacci, Finished;
    var t := TreeExists(row);
    FinishedHeight(t, row);
    Fibonacci30();
    if Height(t) >= 28 {
      FibonacciGrows(30, Height(t) + 2);
    }
  }
}
