/** The Huffman builder: it merges in place over arrays of counts, links and child
    pairs, and then walks the pairs to assign packed codes. */
module HuffmanCodes {
  import opened Words
  import opened Sums
  import opened PrefixCodes
  import opened PackedCodes
  import opened HuffmanTree
  import opened HuffmanOptimal
  import opened HuffmanForest

  lemma {:induction false} SkipsNothing(counts: seq<nat>, skip: int, n: nat)
    requires n <= |counts| && (skip >= n || skip < 0)
    ensures LeastUpTo(counts, skip, n) == LeastUpTo(counts, -1, n)
  {
    if n > 0 {
      SkipsNothing(counts, skip, n - 1);
    }
  }

  /** Index `r` holds the least positive count apart from `skip`, and every lower
      index holds a greater one; -1 when there is no positive count. */
  ghost predicate IsFirstLeast(counts: seq<nat>, skip: int, r: int) {
    && (r >= 0 ==> r < |counts| && r != skip && counts[r] > 0)
    && forall i :: 0 <= i < |counts| && i != skip && counts[i] > 0 ==>
         0 <= r < |counts| && (if i < r then counts[r] < counts[i] else counts[r] <= counts[i])
  }

  lemma LeastIsFirst(counts: seq<nat>, skip: int)
    ensures IsFirstLeast(counts, skip, LeastUpTo(counts, skip, |counts|))
  {
  }

  /** One stable scan finds the two least counts; ties go to the lower index. */
  method FindTwoLeast(counts: array<u32>) returns (least: int, second: int)
    ensures least == Least(counts[..]) && second == Second(counts[..])
    ensures least >= -1 && second >= -1
    ensures IsFirstLeast(counts[..], -1, least) && IsFirstLeast(counts[..], least, second)
  {
    hide IsFirstLeast;
    ghost var c: seq<nat> := counts[..];
    least, second := -1, -1;
    for symbol := 0 to counts.Length
      invariant least == LeastUpTo(c, -1, symbol)
      invariant second == LeastUpTo(c, least, symbol)
    {
      SkipsNothing(c, symbol, symbol);
      if counts[symbol] != 0 {
        if least < 0 || counts[symbol] < counts[least] {
          second := least;
          least := symbol;
        }
        if symbol != least && (second < 0 || counts[symbol] < counts[second]) {
          second := symbol;
        }
      }
    }
    LeastIsFirst(c, -1);
    LeastIsFirst(c, least);
  }

  function Child(links: seq<u16>, symbol: nat): u16
    requires symbol < |links| == 256
  {
    if links[symbol] == 0 then LEAF_FLAG + symbol else links[symbol]
  }

  /** Until the last merge a zero link means a leaf, any other the pair of a live
      tree. */
  ghost predicate Linked(f: Forest, counts: seq<nat>, links: seq<u16>) {
    Sized(f, counts) && |links| == 256 &&
    forall i :: 0 <= i < 256 && counts[i] > 0 ==> Child(links, i) == f.places[i]
  }

  /** The pairs after a merge: the least tree on the left. */
  function NextPairs(links: seq<u16>, pairs: seq<u16>, node: nat, least: nat, second: nat): seq<u16>
    requires |links| == 256 && |pairs| == 510 && 1 <= node < 510 && least < 256 && second < 256
  {
    pairs[node := Child(links, second)][node - 1 := Child(links, least)]
  }

  method MergeStep(counts: array<u32>, links: array<u16>, pairs: array<u16>, node: nat, least: nat, second: nat)
    requires counts.Length == links.Length == 256 && pairs.Length == 510
    requires least < 256 && second < 256 && least != second && 1 <= node < 510
    requires links != pairs && counts[least] as int + counts[second] as int < 0x1_0000_0000
    modifies counts, links, pairs
    ensures counts[..] == Merged(old(counts[..]), least, second)
    ensures links[..] == old(links[..])[least := node - 1]
    ensures pairs[..] == NextPairs(old(links[..]), old(pairs[..]), node, least, second)
  {
    pairs[node] := Child(links[..], second);
    pairs[node - 1] := Child(links[..], least);
    counts[least] := (counts[least] + counts[second]) % 0x1_0000_0000;
    counts[second] := 0;
    links[least] := node - 1;
  }

  /** Symbol `s` has the code of its leaf in `t`, after the bits that lead to `t`,
      if that code fits the packed word. */
  ghost predicate HasCode(codes: seq<u32>, t: Tree, s: nat, bits: Bits)
    requires s in Leaves(t)
  {
    s < |codes| && (|bits + Code(t, s)| <= MAX_CODE ==> codes[s] == Packed(bits + Code(t, s)))
  }

  ghost predicate Assigned(codes: seq<u32>, t: Tree, bits: Bits) {
    forall s :: s in Leaves(t) ==> HasCode(codes, t, s, bits)
  }

  lemma {:induction false} LeavesAreSymbols(pairs: seq<u16>, low: nat, child: u16, t: Tree)
    requires Represents(pairs, low, child, t)
    ensures forall s :: s in Leaves(t) ==> s < 256
    decreases t
  {
    if t.Node? {
      LeavesAreSymbols(pairs, low, pairs[child], t.left);
      LeavesAreSymbols(pairs, low, pairs[child + 1], t.right);
    }
  }

  /** The codes of both subtrees are those of the node. */
  lemma AssignedNode(codes: seq<u32>, t: Tree, bits: Bits)
    requires t.Node? && Distinct(t)
    requires Assigned(codes, t.left, bits + [false]) && Assigned(codes, t.right, bits + [true])
    ensures Assigned(codes, t, bits)
  {
    hide HasCode;
    forall s | s in Leaves(t)
      ensures HasCode(codes, t, s, bits)
    {
      LeafOfNode(codes, t, s, bits);
    }
  }

  lemma LeafOfNode(codes: seq<u32>, t: Tree, s: nat, bits: Bits)
    requires t.Node? && Distinct(t) && s in Leaves(t)
    requires s in Leaves(t.left) ==> HasCode(codes, t.left, s, bits + [false])
    requires s in Leaves(t.right) ==> HasCode(codes, t.right, s, bits + [true])
    ensures HasCode(codes, t, s, bits)
  {
    hide Packed;
    if s in Leaves(t.left) {
      assert bits + [false] + Code(t.left, s) == bits + Code(t, s);
    } else {
      assert bits + [true] + Code(t.right, s) == bits + Code(t, s);
    }
  }

  /** Other symbols' codes do not matter. */
  lemma AssignedFrame(codes: seq<u32>, later: seq<u32>, t: Tree, bits: Bits)
    requires Assigned(codes, t, bits) && |later| == |codes|
    requires forall s :: s in Leaves(t) && s < |codes| ==> later[s] == codes[s]
    ensures Assigned(later, t, bits)
  {
    hide Packed;
    forall s | s in Leaves(t)
      ensures HasCode(later, t, s, bits)
    {
      assert HasCode(codes, t, s, bits);
    }
  }

  method AssignChild(pairs: seq<u16>, codes: array<u32>, child: u16, code: u32, ghost t: Tree, ghost bits: Bits)
    requires Represents(pairs, 0, child, t) && Distinct(t) && codes.Length == 256
    requires |bits| <= MAX_CODE ==> code == Packed(bits)
    modifies codes
    ensures Assigned(codes[..], t, bits)
    ensures forall s: nat :: s < 256 && s !in Leaves(t) ==> codes[s] == old(codes[s])
    decreases t, 1
  {
    hide Packed;
    if child >= LEAF_FLAG {
      codes[child - LEAF_FLAG] := code;
      assert bits + [] == bits;
      return;
    }
    AssignNode(pairs, codes, child, code, t, bits);
  }

  method AssignNode(pairs: seq<u16>, codes: array<u32>, node: u16, code: u32, ghost t: Tree, ghost bits: Bits)
    requires t.Node? && Represents(pairs, 0, node, t) && Distinct(t) && codes.Length == 256
    requires |bits| <= MAX_CODE ==> code == Packed(bits)
    modifies codes
    ensures Assigned(codes[..], t, bits)
    ensures forall s: nat :: s < 256 && s !in Leaves(t) ==> codes[s] == old(codes[s])
    decreases t, 0
  {
    hide Packed, PackCode, SetBit, CodeLength, HasCode;
    CodeLengthBound(code);
    if |bits| < MAX_CODE {
      PackedAppend(bits);
      PackedLength(bits);
    }
    LeavesAreSymbols(pairs, 0, pairs[node], t.left);
    var length := CodeLength(code) + 1;
    var left := PackCode(code, length);
    AssignChild(pairs, codes, pairs[node], left, t.left, bits + [false]);
    ghost var half := codes[..];
    var right := SetBit(left, 32 - length);
    AssignChild(pairs, codes, pairs[node + 1], right, t.right, bits + [true]);
    AssignedFrame(half, codes[..], t.left, bits + [false]);
    AssignedNode(codes[..], t, bits);
  }

  lemma CodeLengthBound(code: u32)
    ensures CodeLength(code) < 32
  {
  }

  /** The builder's arrays after some merges, and the index of the last merge. */
  ghost predicate Merging(f: Forest, row: seq<nat>, counts: seq<nat>, links: seq<u16>, pairs: seq<u16>,
                          merges: nat, root: nat) {
    && Grown(f, row, counts, pairs, merges)
    && (merges < 255 ==> Linked(f, counts, links))
    && (merges > 0 ==> root < 256 && counts[root] > 0 && f.trees[root].Node? && f.places[root] == 510 - 2 * merges)
  }

  lemma MergeKeepsArrays(f: Forest, row: seq<nat>, counts: seq<nat>, links: seq<u16>, pairs: seq<u16>,
                         merges: nat, root: nat, a: nat, b: nat)
    requires |links| == 256 && |pairs| == 510 && merges < 255 && a < 256 && b < 256 && Sized(f, counts)
    requires Merging(f, row, counts, links, pairs, merges, root) && Picks(counts, a, b)
    ensures a != b && counts[a] + counts[b] <= Sum(row)
    ensures var node := 509 - 2 * merges;
            Merging(Join(f, a, b, node - 1), row, Merged(counts, a, b), links[a := node - 1],
                    NextPairs(links, pairs, node, a, b), merges + 1, a)
  {
    hide Grown, Sum, Merged, Linked, Picks, Join, Child;
    PicksTwo(counts, a, b);
    GrownIsSized(f, row, counts, pairs, merges);
    JoinLinked(f, counts, links, a, b, 508 - 2 * merges);
    JoinGrows(f, row, counts, pairs, merges, a, b);
    MergedSum(counts, a, b);
    JoinedRoot(f, counts, a, b, 508 - 2 * merges);
  }

  lemma PicksTwo(counts: seq<nat>, a: nat, b: nat)
    requires Picks(counts, a, b)
    ensures a < |counts| && b < |counts| && a != b && counts[a] > 0 && counts[b] > 0
  {
    PicksLeast(counts, a, b);
  }

  lemma JoinLinked(f: Forest, counts: seq<nat>, links: seq<u16>, a: nat, b: nat, place: u16)
    requires Linked(f, counts, links) && a < 256 && b < 256 && a != b && counts[a] > 0 && counts[b] > 0
    ensures Child(links, a) == f.places[a] && Child(links, b) == f.places[b]
    ensures place > 0 ==> Linked(Join(f, a, b, place), Merged(counts, a, b), links[a := place])
  {
  }

  lemma JoinedRoot(f: Forest, counts: seq<nat>, a: nat, b: nat, place: u16)
    requires Sized(f, counts) && a < 256 && b < 256 && a != b && counts[a] > 0
    ensures Merged(counts, a, b)[a] > 0
    ensures Join(f, a, b, place).trees[a].Node? && Join(f, a, b, place).places[a] == place
  {
  }

  lemma Stuck(f: Forest, row: seq<nat>, counts: seq<nat>, pairs: seq<u16>, merges: nat)
    requires Grown(f, row, counts, pairs, merges) && merges < 255
    requires Least(counts) < 0 || Second(counts) < 0
    ensures !AllOccur(row)
  {
    FullActive(row);
    if |Active(counts)| >= 2 {
      TwoExist(counts);
    }
  }

  /** The pairs that the root's two children stand in. */
  lemma RootPairs(f: Forest, row: seq<nat>, counts: seq<nat>, links: seq<u16>, pairs: seq<u16>, root: nat)
    requires Merging(f, row, counts, links, pairs, 255, root)
    ensures AllOccur(row) && root < 256 == |f.trees|
    ensures Finished(f.trees[root], row) && f.trees[root].Node?
    ensures |pairs| == 510
    ensures Represents(pairs, 0, pairs[0], f.trees[root].left) && Represents(pairs, 0, pairs[1], f.trees[root].right)
  {
    LastTreeFinished(f, row, counts, pairs, root);
    assert Represents(pairs, 0, f.places[root], f.trees[root]);
  }

  /** The merge loop; it fails exactly when a symbol does not occur. */
  method GrowTree(row: seq<u32>, pairs: array<u16>) returns (ok: bool, ghost t: Tree)
    requires |row| == 256 && Sum(row) < 0x1_0000_0000 && pairs.Length == 510
    modifies pairs
    ensures ok <==> AllOccur(row)
    ensures ok ==> Finished(t, row) && t.Node?
                   && Represents(pairs[..], 0, pairs[0], t.left) && Represents(pairs[..], 0, pairs[1], t.right)
  {
    hide Grown, Merged, Sum, Join, Finished, Represents, Child, AllOccur, Picks, Least, Second, Active;
    t := Leaf(0);
    var counts, links := new u32[256], new u16[256];
    for i := 0 to 256
      invariant forall k :: 0 <= k < i ==> counts[k] == row[k] && links[k] == 0
    {
      counts[i] := row[i];
      links[i] := 0;
    }
    assert counts[..] == row;
    ghost var f := Seedlings();
    ghost var root: nat := 0;
    SeedlingsMerging(row, links[..], pairs[..]);
    var node := 509;
    for merges := 0 to 255
      invariant node == 509 - 2 * merges
      invariant Merging(f, row, counts[..], links[..], pairs[..], merges, root)
    {
      var least, second := FindTwoLeast(counts);
      if least < 0 || second < 0 {
        Stuck(f, row, counts[..], pairs[..], merges);
        return false, t;
      }
      TwoLive(counts[..], least, second);
      GrownIsSized(f, row, counts[..], pairs[..], merges);
      MergeKeepsArrays(f, row, counts[..], links[..], pairs[..], merges, root, least, second);
      MergeStep(counts, links, pairs, node, least, second);
      f := Join(f, least, second, node - 1);
      root := least;
      node := node - 2;
    }
    RootPairs(f, row, counts[..], links[..], pairs[..], root);
    ok, t := true, f.trees[root];
  }

  lemma SeedlingsMerging(row: seq<nat>, links: seq<u16>, pairs: seq<u16>)
    requires |row| == |links| == 256 && |pairs| == 510 && forall i :: 0 <= i < 256 ==> links[i] == 0
    ensures Merging(Seedlings(), row, row, links, pairs, 0, 0)
  {
    SeedlingsGrown(row, pairs);
  }

  /** Fails exactly when a symbol does not occur. Otherwise there is a finished
      tree of all 256 symbols, and every symbol gets the code of its leaf, as far
      as that is not longer than 27 bits. */
  method BuildHuffmanCodes(row: seq<u32>) returns (r: Option<seq<u32>>, ghost t: Tree)
    requires |row| == 256 && Sum(row) < 0x1_0000_0000
    ensures r.Some? <==> AllOccur(row)
    ensures r.Some? ==> |r.value| == 256 && Finished(t, row) && Assigned(r.value, t, [])
  {
    hide Represents, Assigned, Packed, PackCode, AllOccur, Sum, HasCode, Finished;
    var pairs := new u16[510];
    var ok;
    ok, t := GrowTree(row, pairs);
    if !ok {
      return None, t;
    }
    var codes := new u32[256];
    PackedSingles();
    LeavesAreSymbols(pairs[..], 0, pairs[0], t.left);
    FinishedIsDistinct(t, row);
    AssignChild(pairs[..], codes, pairs[0], PackCode(0, 1), t.left, [false]);
    ghost var half := codes[..];
    AssignChild(pairs[..], codes, pairs[1], PackCode(0x8000_0000, 1), t.right, [true]);
    AssignedFrame(half, codes[..], t.left, [false]);
    assert [] + [false] == [false] && [] + [true] == [true];
    AssignedNode(codes[..], t, []);
    r := Some(codes[..]);
  }

  lemma FinishedIsDistinct(t: Tree, row: seq<nat>)
    requires Finished(t, row)
    ensures Distinct(t)
  {
  }

  lemma TwoLive(counts: seq<nat>, a: nat, b: nat)
    requires a == Least(counts) && b == Second(counts)
    ensures Picks(counts, a, b)
  {
    SubsetSize({a, b}, Active(counts));
  }
}
