/** Prefix-free families of bit strings satisfy the Kraft inequality. */
module PrefixCodes {
  import opened Sums

  type Bits = seq<bool>

  predicate PrefixFree(words: seq<Bits>) {
    forall i, j :: 0 <= i < |words| && 0 <= j < |words| && i != j ==> !(words[i] <= words[j])
  }

  predicate Short(words: seq<Bits>, max: nat) {
    forall i :: 0 <= i < |words| ==> |words[i]| <= max
  }

  /** The part of the code space that the words take, in units of 2^-max. */
  function KraftSum(words: seq<Bits>, max: nat): nat
    requires Short(words, max)
  {
    if words == [] then 0
    else var n := |words| - 1; KraftSum(words[..n], max) + Pow2(max - |words[n]|)
  }

  /** What follows the first bit `b`, of the words that begin with it. */
  function Tails(words: seq<Bits>, b: bool): seq<Bits> {
    if words == [] then []
    else
      var n := |words| - 1;
      Tails(words[..n], b) + (if words[n] != [] && words[n][0] == b then [words[n][1..]] else [])
  }

  lemma {:induction false} TailOrigin(words: seq<Bits>, b: bool, i: nat)
    requires i < |Tails(words, b)|
    ensures exists k :: 0 <= k < |words| && words[k] == [b] + Tails(words, b)[i]
  {
    var n := |words| - 1;
    if i < |Tails(words[..n], b)| {
      TailOrigin(words[..n], b, i);
      var k :| 0 <= k < n && words[..n][k] == [b] + Tails(words[..n], b)[i];
      assert words[k] == [b] + Tails(words, b)[i];
    } else {
      assert words[n] == [b] + Tails(words, b)[i];
    }
  }

  lemma {:induction false} TailsPrefixFree(words: seq<Bits>, b: bool)
    requires PrefixFree(words)
    ensures PrefixFree(Tails(words, b))
  {
    if words != [] {
      var n := |words| - 1;
      var before, all := Tails(words[..n], b), Tails(words, b);
      TailsPrefixFree(words[..n], b);
      assert all == before + (if words[n] != [] && words[n][0] == b then [words[n][1..]] else []);
      hide Tails;
      forall i | 0 <= i < |before| && |all| > |before|
        ensures !(all[i] <= all[|before|]) && !(all[|before|] <= all[i])
      {
        TailOrigin(words[..n], b, i);
        var k :| 0 <= k < n && words[..n][k] == [b] + before[i];
        assert words[k] == [b] + all[i] && words[n] == [b] + all[|before|];
        assert !(words[k] <= words[n]) && !(words[n] <= words[k]);
      }
    }
  }

  lemma KraftSumSnoc(words: seq<Bits>, word: Bits, max: nat)
    requires Short(words, max) && |word| <= max
    ensures Short(words + [word], max)
    ensures KraftSum(words + [word], max) == KraftSum(words, max) + Pow2(max - |word|)
  {
    assert (words + [word])[..|words|] == words;
  }

  lemma TailsSnoc(words: seq<Bits>, word: Bits)
    requires word != []
    ensures Tails(words + [word], word[0]) == Tails(words, word[0]) + [word[1..]]
    ensures Tails(words + [word], !word[0]) == Tails(words, !word[0])
  {
    assert (words + [word])[..|words|] == words;
  }

  predicate NoneEmpty(words: seq<Bits>) {
    forall i :: 0 <= i < |words| ==> words[i] != []
  }

  lemma NoneEmptyParts(words: seq<Bits>)
    requires words != [] && NoneEmpty(words)
    ensures words[|words| - 1] != [] && NoneEmpty(words[..|words| - 1])
  {
  }

  /** Splitting by the first bit splits the Kraft sum. */
  lemma {:induction false} SplitKraftSum(words: seq<Bits>, max: nat)
    requires max > 0 && Short(words, max) && NoneEmpty(words)
    ensures Short(Tails(words, false), max - 1) && Short(Tails(words, true), max - 1)
    ensures KraftSum(words, max) == KraftSum(Tails(words, false), max - 1) + KraftSum(Tails(words, true), max - 1)
  {
    if words != [] {
      hide Tails, KraftSum, Pow2, NoneEmpty, Short;
      var init, word := words[..|words| - 1], words[|words| - 1];
      assert words == init + [word];
      NoneEmptyParts(words);
      ShortParts(words, max);
      SplitKraftSum(init, max);
      KraftSumSnoc(init, word, max);
      TailsSnoc(init, word);
      KraftSumSnoc(Tails(init, word[0]), word[1..], max - 1);
      assert max - |word| == max - 1 - |word[1..]|;
      if word[0] {
        assert Tails(words, false) == Tails(init, false);
      } else {
        assert Tails(words, true) == Tails(init, true);
      }
    }
  }

  lemma ShortParts(words: seq<Bits>, max: nat)
    requires words != [] && Short(words, max)
    ensures Short(words[..|words| - 1], max) && |words[|words| - 1]| <= max
  {
  }

  lemma EmptyWordIsAlone(words: seq<Bits>, i: nat)
    requires i < |words| && words[i] == []
    ensures PrefixFree(words) ==> |words| == 1
  {
    if |words| > 1 {
      var j := if i == 0 then 1 else 0;
      assert words[i] <= words[j];
    }
  }

  lemma {:induction false} KraftInequality(words: seq<Bits>, max: nat)
    requires PrefixFree(words) && Short(words, max)
    ensures KraftSum(words, max) <= Pow2(max)
    decreases max, 1
  {
    hide KraftSum, PrefixFree, Short;
    if NoneEmpty(words) {
      KraftOfNonempty(words, max);
    } else {
      var i :| 0 <= i < |words| && words[i] == [];
      EmptyWordIsAlone(words, i);
      LoneEmptyWord(words, max);
    }
  }

  /** The empty word takes all of the code space. */
  lemma LoneEmptyWord(words: seq<Bits>, max: nat)
    requires words == [[]]
    ensures Short(words, max) && KraftSum(words, max) == Pow2(max)
  {
    assert words == [] + [[]];
    KraftSumSnoc([], [], max);
    hide Pow2;
  }

  lemma NoWords(words: seq<Bits>)
    requires Short(words, 0)
    ensures NoneEmpty(words) ==> words == []
  {
    if words != [] {
      assert words[0] == [];
    }
  }

  lemma {:induction false} KraftOfNonempty(words: seq<Bits>, max: nat)
    requires PrefixFree(words) && Short(words, max) && NoneEmpty(words)
    ensures KraftSum(words, max) <= Pow2(max)
    decreases max, 0
  {
    if max == 0 {
      NoWords(words);
    } else {
      assert Pow2(max) == 2 * Pow2(max - 1);
      hide Tails, KraftSum, PrefixFree, NoneEmpty, Short, Pow2;
      SplitKraftSum(words, max);
      TailsPrefixFree(words, false);
      TailsPrefixFree(words, true);
      KraftInequality(Tails(words, false), max - 1);
      KraftInequality(Tails(words, true), max - 1);
    }
  }

  /** A bound on all lengths. */
  function {:induction false} MaxLength(words: seq<Bits>): (max: nat)
    ensures Short(words, max)
  {
    if words == [] then 0
    else
      var n := |words| - 1;
      var before := MaxLength(words[..n]);
      assert forall i :: 0 <= i < n ==> words[i] == words[..n][i];
      if |words[n]| > before then |words[n]| else before
  }
}
