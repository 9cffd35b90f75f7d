/** The decoding trie, built from the packed codes of a model. Nodes live in one
    growing table and name their children by index; -1 is the source's nil. */
module HuffmanTrie {
  import opened Words
  import opened PrefixCodes
  import opened PackedCodes
  import opened BitStream

  datatype TrieNode = TrieNode(child0: int, child1: int, symbol: int) {
    function Child(b: bool): int {
      if b then child1 else child0
    }

    function WithChild(b: bool, index: int): TrieNode {
      if b then this.(child1 := index) else this.(child0 := index)
    }
  }

  const EMPTY_NODE := TrieNode(-1, -1, -1)

  /** With a path all shorter ones are there too, and none is there twice. */
  ghost predicate Closed(paths: seq<Bits>) {
    && paths != [] && paths[0] == []
    && (forall i, j :: 0 <= i < |paths| && 0 <= j < |paths| && i != j ==> paths[i] != paths[j])
    && (forall k :: 0 <= k < |paths| && paths[k] != [] ==> paths[k][..|paths[k]| - 1] in paths)
  }

  /** A child extends the path by its bit. */
  ghost predicate Extends(nodes: seq<TrieNode>, paths: seq<Bits>) {
    |paths| == |nodes| &&
    forall k, b :: 0 <= k < |nodes| && nodes[k].Child(b) != -1 ==>
      0 <= nodes[k].Child(b) < |nodes| && paths[nodes[k].Child(b)] == paths[k] + [b]
  }

  /** A child is missing only when no node has that path. */
  ghost predicate Missing(nodes: seq<TrieNode>, paths: seq<Bits>) {
    |paths| == |nodes| &&
    forall k, b :: 0 <= k < |nodes| && nodes[k].Child(b) == -1 ==> paths[k] + [b] !in paths
  }

  /** Each node stands for a path. */
  ghost predicate Shaped(nodes: seq<TrieNode>, paths: seq<Bits>) {
    Closed(paths) && Extends(nodes, paths) && Missing(nodes, paths)
  }

  /** A node has the symbol whose word is its path, among the first `n` words. */
  ghost predicate Labelled(nodes: seq<TrieNode>, paths: seq<Bits>, words: seq<Bits>, n: nat)
    requires |paths| == |nodes| && n <= |words|
  {
    && (forall k :: 0 <= k < |nodes| && nodes[k].symbol >= 0 ==>
          nodes[k].symbol < n && words[nodes[k].symbol] == paths[k])
    && (forall k, s :: 0 <= k < |nodes| && nodes[k].symbol < 0 && 0 <= s < n ==> words[s] != paths[k])
  }

  /** The paths are exactly the prefixes of the first `n` words, and of the first
      `depth` bits of the next. */
  ghost predicate Covers(paths: seq<Bits>, words: seq<Bits>, n: nat, depth: nat)
    requires n <= |words| && (depth > 0 ==> n < |words| && depth <= |words[n]|)
  {
    && (forall s, i :: 0 <= s < n && 0 <= i <= |words[s]| ==> words[s][..i] in paths)
    && (forall i :: 0 < i <= depth ==> words[n][..i] in paths)
    && (forall k :: 0 <= k < |paths| ==> IsPrefixPath(paths[k], words, n, depth))
  }

  ghost predicate IsPrefixPath(path: Bits, words: seq<Bits>, n: nat, depth: nat)
    requires n <= |words| && (depth > 0 ==> n < |words| && depth <= |words[n]|)
  {
    || path == []
    || (exists s :: 0 <= s < n && path <= words[s])
    || (0 < |path| <= depth && path == words[n][..|path|])
  }

  ghost predicate TrieOf(nodes: seq<TrieNode>, paths: seq<Bits>, words: seq<Bits>, n: nat) {
    && n <= |words|
    && Shaped(nodes, paths) && Labelled(nodes, paths, words, n) && Covers(paths, words, n, 0)
  }

  /** Wherever a word goes on, another goes the other way. */
  ghost predicate Complete(words: seq<Bits>) {
    && words != []
    && forall s, i, b :: 0 <= s < |words| && 0 <= i < |words[s]| ==> Continued(words, words[s][..i] + [b])
  }

  ghost predicate Continued(words: seq<Bits>, path: Bits) {
    exists u :: 0 <= u < |words| && path <= words[u]
  }

  datatype ReadResult = Symbol(value: u8) | EndOfStream | InvalidCode

  /** The words of packed codes. */
  function WordsOf(codes: seq<u32>): (words: seq<Bits>)
    ensures |words| == |codes|
  {
    seq(|codes|, s requires 0 <= s < |codes| => CodeBits(codes[s]))
  }

  lemma ExtendOnce(p: Bits, b: bool, q: Bits, c: bool)
    ensures p + [b] == q + [c] <==> p == q && b == c
  {
    if p + [b] == q + [c] {
      assert p == (p + [b])[..|p|] && q == (q + [c])[..|q|];
      assert (p + [b])[|p|] == b && (q + [c])[|q|] == c;
    }
  }

  /** The trie has no node below a missing one. */
  lemma NoDeeper(paths: seq<Bits>, path: Bits, c: bool)
    requires Closed(paths)
    ensures path + [c] in paths ==> path in paths
  {
    if path + [c] in paths {
      var k :| 0 <= k < |paths| && paths[k] == path + [c];
      assert paths[k][..|paths[k]| - 1] == path;
    }
  }

  /** Giving a node without this child a new one. */
  function Grown(nodes: seq<TrieNode>, k: nat, b: bool): seq<TrieNode>
    requires k < |nodes|
  {
    nodes[k := nodes[k].WithChild(b, |nodes|)] + [EMPTY_NODE]
  }

  lemma GrownClosed(paths: seq<Bits>, k: nat, b: bool)
    requires Closed(paths) && k < |paths| && paths[k] + [b] !in paths
    ensures Closed(paths + [paths[k] + [b]])
  {
    var path := paths[k] + [b];
    var longer := paths + [path];
    forall i | 0 <= i < |longer| && longer[i] != []
      ensures longer[i][..|longer[i]| - 1] in longer
    {
      if i == |paths| {
        assert path[..|path| - 1] == paths[k] == longer[k];
      } else {
        assert paths[i][..|paths[i]| - 1] in paths;
      }
    }
  }

  lemma GrownExtends(nodes: seq<TrieNode>, paths: seq<Bits>, k: nat, b: bool)
    requires Extends(nodes, paths) && k < |nodes|
    ensures Extends(Grown(nodes, k, b), paths + [paths[k] + [b]])
  {
    var grown, longer := Grown(nodes, k, b), paths + [paths[k] + [b]];
    forall j, c | 0 <= j < |grown| && grown[j].Child(c) != -1
      ensures 0 <= grown[j].Child(c) < |grown| && longer[grown[j].Child(c)] == longer[j] + [c]
    {
      if j < |nodes| && !(j == k && c == b) {
        assert nodes[j].Child(c) == grown[j].Child(c);
      }
    }
  }

  lemma GrownMissing(nodes: seq<TrieNode>, paths: seq<Bits>, k: nat, b: bool, j: nat, c: bool)
    requires Closed(paths) && Missing(nodes, paths) && k < |nodes| && nodes[k].Child(b) == -1
    requires j <= |nodes| && Grown(nodes, k, b)[j].Child(c) == -1
    ensures (paths + [paths[k] + [b]])[j] + [c] !in paths + [paths[k] + [b]]
  {
    var path := paths[k] + [b];
    assert path !in paths;
    if j == |nodes| {
      NoDeeper(paths, path, c);
      assert |path + [c]| != |path|;
    } else {
      ExtendOnce(paths[j], c, paths[k], b);
      assert nodes[j].Child(c) == -1;
    }
  }

  lemma GrowShape(nodes: seq<TrieNode>, paths: seq<Bits>, k: nat, b: bool)
    requires Shaped(nodes, paths) && k < |nodes| && nodes[k].Child(b) == -1
    ensures Shaped(Grown(nodes, k, b), paths + [paths[k] + [b]])
  {
    assert paths[k] + [b] !in paths;
    GrownClosed(paths, k, b);
    GrownExtends(nodes, paths, k, b);
    hide Closed, Extends;
    var grown, longer := Grown(nodes, k, b), paths + [paths[k] + [b]];
    forall j, c | 0 <= j < |grown| && grown[j].Child(c) == -1
      ensures longer[j] + [c] !in longer
    {
      GrownMissing(nodes, paths, k, b, j, c);
    }
  }

  /** One more bit of word `n` has been walked, and its node was new. */
  lemma CoverNext(paths: seq<Bits>, words: seq<Bits>, n: nat, depth: nat)
    requires n < |words| && depth < |words[n]| && Covers(paths, words, n, depth)
    ensures Covers(paths + [words[n][..depth + 1]], words, n, depth + 1)
  {
    var longer := paths + [words[n][..depth + 1]];
    forall s, i | 0 <= s < n && 0 <= i <= |words[s]|
      ensures words[s][..i] in longer
    {
      assert words[s][..i] in paths;
    }
    forall i | 0 < i <= depth + 1
      ensures words[n][..i] in longer
    {
      assert i <= depth ==> words[n][..i] in paths;
      assert longer[|paths|] == words[n][..depth + 1];
    }
    forall k | 0 <= k < |longer|
      ensures IsPrefixPath(longer[k], words, n, depth + 1)
    {
      if k < |paths| {
        assert IsPrefixPath(paths[k], words, n, depth);
      }
    }
  }

  /** One more bit of word `n` has been walked, over an existing node. */
  lemma CoverKnown(paths: seq<Bits>, words: seq<Bits>, n: nat, depth: nat)
    requires n < |words| && depth < |words[n]| && Covers(paths, words, n, depth)
    requires words[n][..depth + 1] in paths
    ensures Covers(paths, words, n, depth + 1)
  {
    forall k | 0 <= k < |paths|
      ensures IsPrefixPath(paths[k], words, n, depth + 1)
    {
      assert IsPrefixPath(paths[k], words, n, depth);
    }
  }

  /** All bits of word `n` have been walked. */
  lemma CoverWord(paths: seq<Bits>, words: seq<Bits>, n: nat)
    requires n < |words| && Closed(paths) && Covers(paths, words, n, |words[n]|)
    ensures Covers(paths, words, n + 1, 0)
  {
    forall s, i | 0 <= s < n + 1 && 0 <= i <= |words[s]|
      ensures words[s][..i] in paths
    {
      if s == n && i == 0 {
        assert words[n][..0] == paths[0];
      }
    }
    forall k | 0 <= k < |paths|
      ensures IsPrefixPath(paths[k], words, n + 1, 0)
    {
      assert IsPrefixPath(paths[k], words, n, |words[n]|);
      if s :| 0 <= s < n && paths[k] <= words[s] {
      } else if paths[k] != [] {
        assert paths[k] <= words[n];
      }
    }
  }

  class Trie {
    var nodes: seq<TrieNode>
    ghost var paths: seq<Bits>

    constructor (ghost words: seq<Bits>)
      ensures TrieOf(nodes, paths, words, 0)
    {
      nodes, paths := [EMPTY_NODE], [[]];
    }

    /** Moves to the child for one bit, creating it when it is nil. */
    method Step(node: nat, bit: bool, ghost words: seq<Bits>, ghost n: nat, ghost depth: nat) returns (child: nat)
      requires n < |words| && depth < |words[n]| && bit == words[n][depth]
      requires Shaped(nodes, paths) && Labelled(nodes, paths, words, n) && Covers(paths, words, n, depth)
      requires node < |nodes| && paths[node] == words[n][..depth]
      modifies this
      ensures Shaped(nodes, paths) && Labelled(nodes, paths, words, n) && Covers(paths, words, n, depth + 1)
      ensures child < |nodes| && paths[child] == words[n][..depth + 1]
    {
      hide Covers, Shaped, Labelled;
      RootPath(nodes, paths);
      ghost var path := words[n][..depth + 1];
      assert path == words[n][..depth] + [bit];
      if nodes[node].Child(bit) == -1 {
        GrowShape(nodes, paths, node, bit);
        CoverNext(paths, words, n, depth);
        MissingPath(nodes, paths, node, bit);
        WordsAreNotNew(paths, words, n, depth, path);
        GrowLabels(nodes, paths, words, n, node, bit);
        child := |nodes|;
        nodes := Grown(nodes, node, bit);
        paths := paths + [path];
      } else {
        ChildPath(nodes, paths, node, bit);
        child := nodes[node].Child(bit);
        CoverKnown(paths, words, n, depth);
      }
    }

    /** Inserts one word; fails exactly when an earlier word is equal. */
    method Insert(symbol: nat, code: u32, ghost words: seq<Bits>) returns (ok: bool)
      requires symbol < |words| && words[symbol] == CodeBits(code)
      requires TrieOf(nodes, paths, words, symbol)
      modifies this
      ensures ok <==> words[symbol] !in words[..symbol]
      ensures ok ==> TrieOf(nodes, paths, words, symbol + 1)
    {
      hide CodeBit, Covers, Shaped;
      var node: nat := 0;
      var length := CodeLength(code);
      RootPath(nodes, paths);
      for i := 0 to length
        invariant Shaped(nodes, paths) && |paths| == |nodes| && Labelled(nodes, paths, words, symbol)
        invariant Covers(paths, words, symbol, i)
        invariant node < |nodes| && paths[node] == words[symbol][..i]
      {
        node := Step(node, CodeBit(code, i), words, symbol, i);
        RootPath(nodes, paths);
      }
      assert words[symbol][..length] == words[symbol];
      if nodes[node].symbol >= 0 {
        assert words[..symbol][nodes[node].symbol] == words[symbol];
        return false;
      }
      LabelWord(nodes, paths, words, symbol, node);
      nodes := nodes[node := nodes[node].(symbol := symbol)];
      ok := true;
    }

    /** Walks the bits of one code. On bits that no word begins, it runs out of
        data or, only when the words are not complete, into a nil child. */
    method ReadSymbol(reader: BitReader, ghost words: seq<Bits>) returns (r: ReadResult)
      requires reader.Valid() && |words| <= 256 && TrieOf(nodes, paths, words, |words|)
      modifies reader`bits
      ensures reader.Valid()
      ensures r.Symbol? ==> r.value < |words| && words[r.value] <= old(reader.Rest())
                            && reader.Rest() == old(reader.Rest())[|words[r.value]|..]
      ensures r.Symbol? ==> forall u :: 0 <= u < |words| && words[u] <= old(reader.Rest()) ==>
                              |words[r.value]| <= |words[u]|
      ensures !r.Symbol? ==> forall u :: 0 <= u < |words| ==> !(words[u] <= old(reader.Rest()))
      ensures r.InvalidCode? ==> !Complete(words)
    {
      hide Covers, Stream;
      ghost var rest := reader.Rest();
      ghost var depth := 0;
      var node: nat := 0;
      RootPath(nodes, paths);
      while nodes[node].symbol < 0
        invariant reader.Valid() && depth <= |rest| && reader.Rest() == rest[depth..]
        invariant node < |nodes| && paths[node] == rest[..depth]
        invariant forall u :: 0 <= u < |words| && words[u] <= rest ==> |words[u]| >= depth
        decreases |rest| - depth
      {
        NotHere(nodes, paths, words, node, rest, depth);
        var bit := reader.ReadBit();
        if bit == None {
          return EndOfStream;
        }
        var child := nodes[node].Child(bit.value);
        assert rest[..depth + 1] == rest[..depth] + [bit.value];
        if child == -1 {
          NoWordThere(nodes, paths, words, node, rest, depth);
          return InvalidCode;
        }
        depth := depth + 1;
        node := child;
      }
      r := Symbol(nodes[node].symbol);
    }
  }

  /** At a node without a symbol, no word ends. */
  lemma NotHere(nodes: seq<TrieNode>, paths: seq<Bits>, words: seq<Bits>, node: nat, rest: Bits, depth: nat)
    requires TrieOf(nodes, paths, words, |words|)
    requires node < |nodes| && nodes[node].symbol < 0
    requires depth <= |rest| && paths[node] == rest[..depth]
    ensures forall u :: 0 <= u < |words| && words[u] <= rest && |words[u]| >= depth ==> |words[u]| >= depth + 1
  {
    forall u | 0 <= u < |words| && words[u] <= rest && |words[u]| >= depth
      ensures |words[u]| >= depth + 1
    {
      assert words[u] == rest[..|words[u]|];
    }
  }

  /** A word that goes on beyond `depth` has its node there. */
  lemma OnPath(paths: seq<Bits>, words: seq<Bits>, u: nat, rest: Bits, depth: nat)
    requires Covers(paths, words, |words|, 0)
    requires u < |words| && words[u] <= rest && |words[u]| > depth
    ensures rest[..depth + 1] in paths
  {
    assert words[u][..depth + 1] == rest[..depth + 1];
  }

  /** With complete words, a node without a symbol has both children. */
  lemma BothChildren(nodes: seq<TrieNode>, paths: seq<Bits>, words: seq<Bits>, node: nat, b: bool)
    requires TrieOf(nodes, paths, words, |words|) && Complete(words)
    requires node < |nodes| && nodes[node].symbol < 0
    ensures paths[node] + [b] in paths
  {
    var path := paths[node];
    assert IsPrefixPath(path, words, |words|, 0);
    var s: nat;
    if path == [] {
      s := 0;
    } else {
      s :| 0 <= s < |words| && path <= words[s];
    }
    assert words[s] != path && words[s][..|path|] == path;
    assert Continued(words, words[s][..|path|] + [b]);
    var u :| 0 <= u < |words| && path + [b] <= words[u];
    OnPath(paths, words, u, words[u], |path|);
    assert words[u][..|path| + 1] == path + [b];
  }

  /** Where a child is missing, no word goes on, and the words are incomplete. */
  lemma NoWordThere(nodes: seq<TrieNode>, paths: seq<Bits>, words: seq<Bits>, node: nat, rest: Bits, depth: nat)
    requires TrieOf(nodes, paths, words, |words|)
    requires node < |nodes| && nodes[node].symbol < 0
    requires depth < |rest| && paths[node] == rest[..depth] && nodes[node].Child(rest[depth]) == -1
    ensures forall u :: 0 <= u < |words| && words[u] <= rest ==> |words[u]| <= depth
    ensures !Complete(words)
  {
    hide Covers, Complete, Labelled, Closed, Extends, Missing;
    assert rest[..depth + 1] == rest[..depth] + [rest[depth]];
    MissingPath(nodes, paths, node, rest[depth]);
    NoneGoesOn(paths, words, rest, depth);
    if Complete(words) {
      BothChildren(nodes, paths, words, node, rest[depth]);
    }
  }

  lemma MissingPath(nodes: seq<TrieNode>, paths: seq<Bits>, node: nat, b: bool)
    requires Shaped(nodes, paths) && node < |nodes| && nodes[node].Child(b) == -1
    ensures paths[node] + [b] !in paths
  {
  }

  lemma NoneGoesOn(paths: seq<Bits>, words: seq<Bits>, rest: Bits, depth: nat)
    requires Covers(paths, words, |words|, 0)
    requires depth < |rest| && rest[..depth + 1] !in paths
    ensures forall u :: 0 <= u < |words| && words[u] <= rest ==> |words[u]| <= depth
  {
    hide Covers;
    forall u | 0 <= u < |words| && words[u] <= rest
      ensures |words[u]| <= depth
    {
      if |words[u]| > depth {
        OnPath(paths, words, u, rest, depth);
      }
    }
  }

  lemma ChildPath(nodes: seq<TrieNode>, paths: seq<Bits>, node: nat, b: bool)
    requires Shaped(nodes, paths) && node < |nodes| && nodes[node].Child(b) != -1
    ensures 0 <= nodes[node].Child(b) < |nodes| && paths[nodes[node].Child(b)] == paths[node] + [b]
    ensures paths[node] + [b] in paths
  {
  }

  lemma RootPath(nodes: seq<TrieNode>, paths: seq<Bits>)
    requires Shaped(nodes, paths)
    ensures |nodes| == |paths| > 0 && paths[0] == []
  {
  }

  /** A new node has no symbol, and no earlier word. */
  lemma GrowLabels(nodes: seq<TrieNode>, paths: seq<Bits>, words: seq<Bits>, n: nat, k: nat, b: bool)
    requires |paths| == |nodes| && k < |nodes| && n <= |words| && Labelled(nodes, paths, words, n)
    requires forall s :: 0 <= s < n ==> words[s] != paths[k] + [b]
    ensures Labelled(Grown(nodes, k, b), paths + [paths[k] + [b]], words, n)
  {
    var grown := Grown(nodes, k, b);
    assert forall j :: 0 <= j < |nodes| ==> grown[j].symbol == nodes[j].symbol;
  }

  lemma WordsAreNotNew(paths: seq<Bits>, words: seq<Bits>, n: nat, depth: nat, path: Bits)
    requires n < |words| && depth <= |words[n]| && Covers(paths, words, n, depth) && path !in paths
    ensures forall s :: 0 <= s < n ==> words[s] != path
  {
    forall s | 0 <= s < n
      ensures words[s] != path
    {
      assert words[s][..|words[s]|] == words[s];
    }
  }

  lemma LabelWord(nodes: seq<TrieNode>, paths: seq<Bits>, words: seq<Bits>, n: nat, node: nat)
    requires n < |words| && Shaped(nodes, paths) && Labelled(nodes, paths, words, n)
    requires Covers(paths, words, n, |words[n]|)
    requires node < |nodes| && paths[node] == words[n] && nodes[node].symbol < 0
    ensures words[n] !in words[..n]
    ensures TrieOf(nodes[node := nodes[node].(symbol := n)], paths, words, n + 1)
  {
    CoverWord(paths, words, n);
    LabelOne(nodes, paths, words, n, node);
    LabelShape(nodes, paths, node, n);
  }

  lemma LabelOne(nodes: seq<TrieNode>, paths: seq<Bits>, words: seq<Bits>, n: nat, node: nat)
    requires n < |words| && |paths| == |nodes| && Labelled(nodes, paths, words, n) && Closed(paths)
    requires node < |nodes| && paths[node] == words[n] && nodes[node].symbol < 0
    ensures words[n] !in words[..n]
    ensures Labelled(nodes[node := nodes[node].(symbol := n)], paths, words, n + 1)
  {
  }

  /** Labels do not change the shape. */
  lemma LabelShape(nodes: seq<TrieNode>, paths: seq<Bits>, node: nat, symbol: int)
    requires Shaped(nodes, paths) && node < |nodes|
    ensures Shaped(nodes[node := nodes[node].(symbol := symbol)], paths)
  {
    hide Closed;
    var labelled := nodes[node := nodes[node].(symbol := symbol)];
    assert forall k, b :: 0 <= k < |nodes| ==> labelled[k].Child(b) == nodes[k].Child(b);
  }

  /** Builds the decoding trie of one model; fails exactly when two codes are
      equal. */
  method BuildTrie(codes: seq<u32>) returns (trie: Trie, ok: bool)
    requires |codes| == 256
    ensures ok <==> (forall i, j :: 0 <= i < j < 256 ==> WordsOf(codes)[i] != WordsOf(codes)[j])
    ensures ok ==> TrieOf(trie.nodes, trie.paths, WordsOf(codes), 256)
    ensures fresh(trie)
  {
    hide CodeBits, TrieOf;
    ghost var words := WordsOf(codes);
    trie := new Trie(words);
    for symbol := 0 to 256
      invariant fresh(trie) && TrieOf(trie.nodes, trie.paths, words, symbol)
      invariant forall i, j :: 0 <= i < j < symbol ==> words[i] != words[j]
    {
      ok := trie.Insert(symbol, codes[symbol], words);
      if !ok {
        ghost var i :| 0 <= i < symbol && words[..symbol][i] == words[symbol];
        return;
      }
      forall i | 0 <= i < symbol
        ensures words[i] != words[symbol]
      {
        assert words[..symbol][i] == words[i];
      }
    }
    ok := true;
  }
}
