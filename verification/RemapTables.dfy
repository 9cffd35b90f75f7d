/** Index remapping tables, built by swaps that keep a table and its inverse in
    step. */
module RemapTables {
  import opened Words

  /** A permutation of the byte values that leaves 0 alone, with its inverse. */
  predicate MutuallyInverse(direct: seq<u8>, inverse: seq<u8>) {
    && |direct| == |inverse| == 256
    && direct[0] == 0 && inverse[0] == 0
    && (forall i :: 0 <= i < 256 ==> inverse[direct[i]] == i)
    && (forall i :: 0 <= i < 256 ==> direct[inverse[i]] == i)
  }

  /** Both indices are in the range the swap accepts. */
  predicate Swappable(pos: int, candidate: int) {
    0 < pos <= 255 && 0 < candidate <= 255
  }

  datatype Tables = Tables(direct: seq<u8>, inverse: seq<u8>)

  function IdentityRemap(): (remap: seq<u8>)
    ensures |remap| == 256 && forall i :: 0 <= i < 256 ==> remap[i] == i
  {
    seq(256, i requires 0 <= i < 256 => i)
  }

  /** Afterwards `pos` holds `candidate`, and what it held before is where the
      candidate was. */
  function Swapped(t: Tables, pos: int, candidate: int): Tables
    requires |t.direct| == |t.inverse| == 256
  {
    if !Swappable(pos, candidate) || t.direct[pos] == candidate then t
    else
      var held := t.direct[pos];
      var target := if t.direct[candidate] != candidate then t.inverse[candidate] else candidate;
      Tables(t.direct[pos := candidate][target := held], t.inverse[candidate := pos][held := target])
  }

  method ApplyRemapSwap(direct: array<u8>, inverse: array<u8>, pos: int, candidate: int)
    requires direct != inverse && direct.Length == inverse.Length == 256
    modifies direct, inverse
    ensures Tables(direct[..], inverse[..]) == Swapped(old(Tables(direct[..], inverse[..])), pos, candidate)
  {
    if pos <= 0 || pos > 255 || candidate <= 0 || candidate > 255 {
      return;
    }
    if direct[pos] == candidate {
      return;
    }
    var before := direct[pos];
    var target: u8 := candidate;
    if direct[candidate] != candidate {
      target := inverse[candidate];
    }
    direct[pos] := candidate;
    inverse[candidate] := pos;
    direct[target] := before;
    inverse[before] := target;
  }

  /** One swap keeps the two tables each other's inverse. */
  lemma SwapKeepsInverse(t: Tables, pos: int, candidate: int)
    requires MutuallyInverse(t.direct, t.inverse)
    ensures var s := Swapped(t, pos, candidate);
            && MutuallyInverse(s.direct, s.inverse)
            && (if 1 <= pos <= 255 && 1 <= candidate <= 255 then s.direct[pos] == candidate else s == t)
            && (forall i :: 0 <= i < 256 && i != pos && t.direct[i] != candidate ==> s.direct[i] == t.direct[i])
  {
    if Swappable(pos, candidate) && t.direct[pos] != candidate {
      assert t.inverse[candidate] != 0 && t.direct[pos] != 0 by {
        assert t.direct[t.inverse[candidate]] == candidate && t.inverse[t.direct[pos]] == pos;
      }
    }
  }

  /** The swaps of one list, in order. */
  function ApplyAll(swaps: seq<(int, int)>): (t: Tables)
    ensures |t.direct| == |t.inverse| == 256
  {
    if swaps == [] then Tables(IdentityRemap(), IdentityRemap())
    else
      var n := |swaps| - 1;
      Swapped(ApplyAll(swaps[..n]), swaps[n].0, swaps[n].1)
  }

  lemma {:induction false} AllSwapsKeepInverse(swaps: seq<(int, int)>)
    ensures MutuallyInverse(ApplyAll(swaps).direct, ApplyAll(swaps).inverse)
  {
    if swaps != [] {
      var n := |swaps| - 1;
      AllSwapsKeepInverse(swaps[..n]);
      SwapKeepsInverse(ApplyAll(swaps[..n]), swaps[n].0, swaps[n].1);
    }
  }

  /** Positions increase, and no candidate comes twice. */
  predicate OneEach(swaps: seq<(int, int)>) {
    && (forall i :: 0 <= i < |swaps| ==> Swappable(swaps[i].0, swaps[i].1))
    && (forall i, j :: 0 <= i < j < |swaps| ==> swaps[i].0 < swaps[j].0 && swaps[i].1 != swaps[j].1)
  }

  /** When every precache index is listed at most once, the final table sends each
      of them to its position in the list, whatever later swaps did. */
  lemma {:induction false} FinalPositions(swaps: seq<(int, int)>, k: nat)
    requires OneEach(swaps) && k < |swaps|
    ensures ApplyAll(swaps).direct[swaps[k].0] == swaps[k].1
    ensures ApplyAll(swaps).inverse[swaps[k].1] == swaps[k].0
    decreases |swaps|
  {
    var n := |swaps| - 1;
    AllSwapsKeepInverse(swaps[..n]);
    AllSwapsKeepInverse(swaps);
    SwapKeepsInverse(ApplyAll(swaps[..n]), swaps[n].0, swaps[n].1);
    if k < n {
      FinalPositions(swaps[..n], k);
    }
  }

  /** The table maps the byte values one to one, and 0 to itself. */
  predicate Permutes(remap: seq<u8>) {
    && |remap| == 256 && remap[0] == 0
    && (forall i, j :: 0 <= i < j < 256 ==> remap[i] != remap[j])
    && (forall v: u8 :: v in remap)
  }

  lemma InversePermutes(direct: seq<u8>, inverse: seq<u8>)
    requires MutuallyInverse(direct, inverse)
    ensures Permutes(inverse)
  {
    forall i, j | 0 <= i < j < 256
      ensures inverse[i] != inverse[j]
    {
      assert direct[inverse[i]] == i && direct[inverse[j]] == j;
    }
    forall v: u8
      ensures v in inverse
    {
      assert inverse[direct[v]] == v;
    }
  }

  // ----- The names in the chunks of a list -----------------------------------

  type Name = seq<u8>

  /** Where the first zero is, or the length if there is none. */
  function NameEnd(data: seq<u8>): (end: nat)
    ensures end <= |data| && (end < |data| ==> data[end] == 0)
    ensures forall k :: 0 <= k < end ==> data[k] != 0
  {
    if data == [] || data[0] == 0 then 0 else 1 + NameEnd(data[1..])
  }

  /** A chunk without its opcode and its index. */
  function Contents(chunk: seq<u8>): seq<u8> {
    if |chunk| <= 2 then [] else chunk[2..]
  }

  /** The names from here on: zero-terminated, up to an empty one, and then those of
      the next chunk. An unterminated name ends the list, and so does a chunk that
      has none. */
  function NamesFrom(chunks: seq<seq<u8>>, chunkIndex: nat, data: seq<u8>): seq<Name>
    decreases |chunks| - chunkIndex, |data|
  {
    var end := NameEnd(data);
    if end == 0 || end == |data| then []
    else [data[..end]] + NamesAfter(chunks, chunkIndex, data[end + 1..])
  }

  /** The names after the end of one. */
  function NamesAfter(chunks: seq<seq<u8>>, chunkIndex: nat, data: seq<u8>): seq<Name>
    decreases |chunks| - chunkIndex, |data| + 1
  {
    if data == [] then []
    else if data[0] != 0 then NamesFrom(chunks, chunkIndex, data)
    else if chunkIndex + 1 >= |chunks| then []
    else NamesFrom(chunks, chunkIndex + 1, Contents(chunks[chunkIndex + 1]))
  }

  /** The names that get a position, from 1 to 255. The scan begins with the first
      chunk, whatever the index it counts from. */
  function ListNames(chunks: seq<seq<u8>>, firstChunkIndex: nat): (names: seq<Name>)
    ensures |names| <= 255
  {
    var names := if chunks == [] then [] else NamesFrom(chunks, firstChunkIndex, Contents(chunks[0]));
    if |names| <= 255 then names else names[..255]
  }

  /** Every name that is looked up as an index asks for a swap at its position. */
  function SwapsOf(names: seq<Name>, find: Name -> int): (swaps: seq<(int, int)>)
    ensures forall k :: 0 <= k < |swaps| ==>
              1 <= swaps[k].0 <= |names| && swaps[k].1 == find(names[swaps[k].0 - 1]) != 0
    ensures forall i, k :: 0 <= i < k < |swaps| ==> swaps[i].0 < swaps[k].0
  {
    if names == [] then []
    else
      var n := |names| - 1;
      SwapsOf(names[..n], find) + (if find(names[n]) != 0 then [(n + 1, find(names[n]))] else [])
  }

  lemma {:induction false} SwapAt(names: seq<Name>, find: Name -> int, position: nat) returns (k: nat)
    requires position < |names| && find(names[position]) != 0
    ensures k < |SwapsOf(names, find)| && SwapsOf(names, find)[k] == (position + 1, find(names[position]))
  {
    var n := |names| - 1;
    if position == n {
      k := |SwapsOf(names[..n], find)|;
    } else {
      k := SwapAt(names[..n], find, position);
    }
  }

  /** No precache index is found for two names, and all are in the range of a byte. */
  predicate FoundOnce(names: seq<Name>, find: Name -> int) {
    && (forall i :: 0 <= i < |names| ==> 0 <= find(names[i]) <= 255)
    && (forall i, k :: 0 <= i < k < |names| && find(names[i]) != 0 ==> find(names[i]) != find(names[k]))
  }

  /** Then the table sends the index of every name that is found to its position. */
  lemma NamesAtPositions(names: seq<Name>, find: Name -> int, position: nat)
    requires |names| <= 255 && FoundOnce(names, find) && position < |names| && find(names[position]) != 0
    ensures ApplyAll(SwapsOf(names, find)).inverse[find(names[position])] == position + 1
  {
    var swaps := SwapsOf(names, find);
    assert OneEach(swaps);
    var k := SwapAt(names, find, position);
    FinalPositions(swaps, k);
  }

  /** Zero-terminated names, one after the other. */
  function Terminated(names: seq<Name>): seq<u8> {
    if names == [] then [] else names[0] + [0] + Terminated(names[1..])
  }

  predicate ProperName(name: Name) {
    name != [] && 0 !in name
  }

  /** A chunk that holds these names, and ends with an empty one. */
  predicate Holds(chunk: seq<u8>, names: seq<Name>) {
    && names != [] && (forall i :: 0 <= i < |names| ==> ProperName(names[i]))
    && |chunk| >= 2 && chunk[2..] == Terminated(names) + [0]
  }

  lemma {:induction false} NameEndOf(name: Name, rest: seq<u8>)
    requires 0 !in name
    ensures NameEnd(name + [0] + rest) == |name|
  {
    var data := name + [0] + rest;
    assert data[|name|] == 0;
    assert forall k :: 0 <= k < |name| ==> data[k] == name[k] != 0;
  }

  /** The names of one chunk, and then those of the next. */
  lemma {:induction false} NamesInChunk(chunks: seq<seq<u8>>, chunkIndex: nat, names: seq<Name>)
    requires names != [] && forall i :: 0 <= i < |names| ==> ProperName(names[i])
    ensures NamesFrom(chunks, chunkIndex, Terminated(names) + [0]) == names + NamesAfter(chunks, chunkIndex, [0])
    decreases |names|
  {
    var later := Terminated(names[1..]) + [0];
    Regroup(names[0] + [0], Terminated(names[1..]), [0]);
    assert ProperName(names[0]);
    FirstName(chunks, chunkIndex, names[0], later);
    assert [names[0]] + names[1..] == names;
    if |names| == 1 {
      assert later == [0];
    } else {
      hide NamesFrom;
      NamesInChunk(chunks, chunkIndex, names[1..]);
      assert ProperName(names[1]) && names[1..][0] == names[1];
      StartsProper(names[1..]);
      Regroup([names[0]], names[1..], NamesAfter(chunks, chunkIndex, [0]));
    }
  }

  lemma FirstName(chunks: seq<seq<u8>>, chunkIndex: nat, name: Name, later: seq<u8>)
    requires ProperName(name)
    ensures NamesFrom(chunks, chunkIndex, name + [0] + later) == [name] + NamesAfter(chunks, chunkIndex, later)
  {
    var data := name + [0] + later;
    NameEndOf(name, later);
    assert data[..|name|] == name && data[|name| + 1..] == later;
    hide NameEnd;
  }

  lemma StartsProper(names: seq<Name>)
    requires names != [] && ProperName(names[0])
    ensures Terminated(names) != [] && Terminated(names)[0] != 0
  {
    assert names[0][0] in names[0];
  }

  function Joined(lists: seq<seq<Name>>, from: nat): seq<Name>
    requires from <= |lists|
    decreases |lists| - from
  {
    if from == |lists| then [] else lists[from] + Joined(lists, from + 1)
  }

  predicate AllHold(chunks: seq<seq<u8>>, lists: seq<seq<Name>>) {
    |lists| == |chunks| && forall i :: 0 <= i < |chunks| ==> Holds(chunks[i], lists[i])
  }

  lemma NamesOfChunk(chunks: seq<seq<u8>>, lists: seq<seq<Name>>, chunkIndex: nat, i: nat)
    requires AllHold(chunks, lists) && i < |chunks|
    ensures NamesFrom(chunks, chunkIndex, Contents(chunks[i])) == lists[i] + NamesAfter(chunks, chunkIndex, [0])
  {
    hide NamesFrom, NamesAfter, Terminated;
    assert Holds(chunks[i], lists[i]) && Contents(chunks[i]) == chunks[i][2..];
    NamesInChunk(chunks, chunkIndex, lists[i]);
  }

  lemma NextChunk(chunks: seq<seq<u8>>, chunkIndex: nat)
    ensures NamesAfter(chunks, chunkIndex, [0])
            == if chunkIndex + 1 >= |chunks| then []
               else NamesFrom(chunks, chunkIndex + 1, Contents(chunks[chunkIndex + 1]))
  {
    hide NamesFrom, Contents;
  }

  /** From a chunk on, the names are those of this chunk and of all after it. */
  lemma {:induction false} NamesOfChunks(chunks: seq<seq<u8>>, lists: seq<seq<Name>>, index: nat)
    requires AllHold(chunks, lists) && index < |chunks|
    ensures NamesFrom(chunks, index, Contents(chunks[index])) == Joined(lists, index)
    decreases |chunks| - index
  {
    hide NamesFrom, NamesAfter, Contents, Holds;
    NamesOfChunk(chunks, lists, index, index);
    NextChunk(chunks, index);
    if index + 1 < |chunks| {
      NamesOfChunks(chunks, lists, index + 1);
    }
  }

  /** The scan counts chunks from `firstChunkIndex`, so that it goes from the first
      chunk to the one after that index: the list is whole exactly when it counts
      from zero or has a single chunk. */
  lemma ChunksSkipped(chunks: seq<seq<u8>>, lists: seq<seq<Name>>, firstChunkIndex: nat)
    requires AllHold(chunks, lists) && chunks != []
    ensures var next := if firstChunkIndex + 1 < |chunks| then firstChunkIndex + 1 else |chunks|;
            && NamesFrom(chunks, firstChunkIndex, Contents(chunks[0])) == lists[0] + Joined(lists, next)
            && (lists[0] + Joined(lists, next) == Joined(lists, 0) <==> firstChunkIndex == 0 || |chunks| == 1)
  {
    hide NamesFrom, NamesAfter, Contents;
    NamesOfChunk(chunks, lists, firstChunkIndex, 0);
    NextChunk(chunks, firstChunkIndex);
    var next := if firstChunkIndex + 1 < |chunks| then firstChunkIndex + 1 else |chunks|;
    if next < |chunks| {
      NamesOfChunks(chunks, lists, next);
    }
    forall i | 0 <= i < |lists|
      ensures lists[i] != []
    {
      assert Holds(chunks[i], lists[i]);
    }
    hide Holds;
    JoinedShorter(lists, 1, next);
    assert Joined(lists, 0) == lists[0] + Joined(lists, 1);
    hide Joined;
    SameAfter(lists[0], Joined(lists, next), Joined(lists, 1));
  }

  /** When the scan counts from zero, all names of all chunks get a position, as far as
      there are positions. */
  lemma ListIsJoined(chunks: seq<seq<u8>>, lists: seq<seq<Name>>)
    requires AllHold(chunks, lists) && chunks != []
    ensures var names := Joined(lists, 0);
            ListNames(chunks, 0) == (if |names| < 256 then names else names[..255])
  {
    hide NamesFrom, Contents, Joined;
    NamesOfChunks(chunks, lists, 0);
  }

  lemma SameAfter(before: seq<Name>, one: seq<Name>, other: seq<Name>)
    ensures before + one == before + other <==> one == other
  {
    if before + one == before + other {
      assert one == (before + one)[|before|..] == (before + other)[|before|..] == other;
    }
  }

  lemma {:induction false} JoinedShorter(lists: seq<seq<Name>>, from: nat, to: nat)
    requires from <= to <= |lists|
    ensures |Joined(lists, to)| <= |Joined(lists, from)|
    ensures (forall i :: 0 <= i < |lists| ==> lists[i] != []) && from < to ==>
              |Joined(lists, to)| < |Joined(lists, from)|
    decreases |lists| - from
  {
    if from < to {
      JoinedShorter(lists, from + 1, to);
    }
  }

  /** The names that the scan has still to visit. */
  function Ahead(chunks: seq<seq<u8>>, chunkIndex: nat, chunk: seq<u8>, offset: nat): seq<Name> {
    if offset > |chunk| then [] else NamesFrom(chunks, chunkIndex, chunk[offset..])
  }

  /** One name of the scan. */
  lemma NextName(chunks: seq<seq<u8>>, chunkIndex: nat, chunk: seq<u8>, offset: nat, end: nat)
    requires offset < end < |chunk| && chunk[end] == 0 && forall k :: offset <= k < end ==> chunk[k] != 0
    ensures Ahead(chunks, chunkIndex, chunk, offset)
            == [chunk[offset..end]] + NamesAfter(chunks, chunkIndex, chunk[end + 1..])
  {
    var data := chunk[offset..];
    assert data[end - offset] == 0;
    assert NameEnd(data) == end - offset;
    assert data[..end - offset] == chunk[offset..end] && data[end - offset + 1..] == chunk[end + 1..];
  }

  /** Where the scan stops: at an empty or an unterminated name. */
  lemma NoMoreNames(chunks: seq<seq<u8>>, chunkIndex: nat, chunk: seq<u8>, offset: nat)
    requires offset >= |chunk| || chunk[offset] == 0 || forall k :: offset <= k < |chunk| ==> chunk[k] != 0
    ensures Ahead(chunks, chunkIndex, chunk, offset) == []
  {
    if offset < |chunk| {
      var data := chunk[offset..];
      assert data[0] == chunk[offset];
      if chunk[offset] != 0 {
        assert NameEnd(data) == |data|;
      }
    }
  }

  lemma OneMoreName(names: seq<Name>, name: Name, find: Name -> int)
    ensures SwapsOf(names + [name], find)
            == SwapsOf(names, find) + (if find(name) != 0 then [(|names| + 1, find(name))] else [])
  {
    assert (names + [name])[..|names|] == names;
  }

  method NewIdentity() returns (remap: array<u8>)
    ensures fresh(remap) && remap.Length == 256 && remap[..] == IdentityRemap()
  {
    remap := new u8[256];
    for i := 0 to 256
      invariant forall k :: 0 <= k < i ==> remap[k] == k
    {
      remap[i] := i;
    }
  }

  method FindEnd(chunk: seq<u8>, offset: nat) returns (end: nat)
    requires offset < |chunk|
    ensures offset <= end <= |chunk| && forall k :: offset <= k < end ==> chunk[k] != 0
    ensures end < |chunk| ==> chunk[end] == 0
  {
    end := offset;
    while end < |chunk| && chunk[end] != 0
      invariant offset <= end <= |chunk| && forall k :: offset <= k < end ==> chunk[k] != 0
    {
      end := end + 1;
    }
  }

  /** Looks a name up and swaps what is found to its position. */
  method PlaceName(direct: array<u8>, inverse: array<u8>, position: nat, name: Name, find: Name -> int,
                   ghost names: seq<Name>)
    requires direct != inverse && direct.Length == inverse.Length == 256 && |names| + 1 == position
    requires Tables(direct[..], inverse[..]) == ApplyAll(SwapsOf(names, find))
    modifies direct, inverse
    ensures Tables(direct[..], inverse[..]) == ApplyAll(SwapsOf(names + [name], find))
  {
    hide Swapped, ApplyAll, SwapsOf;
    OneMoreName(names, name, find);
    var candidate := find(name);
    if candidate != 0 {
      ApplyRemapSwap(direct, inverse, position, candidate);
      AppendSwap(SwapsOf(names, find), position, candidate);
    } else {
      assert SwapsOf(names, find) + [] == SwapsOf(names, find);
    }
  }

  /** Walks the zero-terminated names of the list chunks. `find` is any lookup of a
      name among the precached ones; 0 means unknown. The table is the one that the
      swaps of the listed names make. */
  method BuildListRemap(chunks: seq<seq<u8>>, firstChunkIndex: nat, find: Name -> int) returns (remap: seq<u8>)
    ensures var swaps := SwapsOf(ListNames(chunks, firstChunkIndex), find);
            remap == ApplyAll(swaps).inverse && MutuallyInverse(ApplyAll(swaps).direct, remap)
    ensures Permutes(remap)
  {
    hide Swapped, ApplyAll, Permutes, NamesFrom, NamesAfter, NameEnd, SwapsOf, Ahead, MutuallyInverse, IdentityRemap,
         Contents;
    var direct := NewIdentity();
    var inverse := NewIdentity();
    ghost var names: seq<Name>, rest: seq<Name> := [], [];
    NoSwaps(find);
    if |chunks| > 0 {
      var chunkIndex: nat := firstChunkIndex;
      var position := 1;
      var chunk := chunks[0];
      var offset := 2;
      Beginning(chunks, firstChunkIndex);
      rest := Ahead(chunks, chunkIndex, chunk, offset);
      while position <= 255 && offset < |chunk|
        invariant 1 <= position <= 256 && |names| == position - 1
        invariant names + rest == NamesFrom(chunks, firstChunkIndex, Contents(chunks[0]))
        invariant rest == Ahead(chunks, chunkIndex, chunk, offset)
        invariant Tables(direct[..], inverse[..]) == ApplyAll(SwapsOf(names, find))
        decreases 256 - position
      {
        if chunk[offset] == 0 {
          NoMoreNames(chunks, chunkIndex, chunk, offset);
          break;
        }
        var end := FindEnd(chunk, offset);
        if end >= |chunk| {
          NoMoreNames(chunks, chunkIndex, chunk, offset);
          break;
        }
        var name := chunk[offset..end];
        NextName(chunks, chunkIndex, chunk, offset, end);
        PlaceName(direct, inverse, position, name, find, names);
        offset := end + 1;
        rest := NamesAfter(chunks, chunkIndex, chunk[offset..]);
        Regroup(names, [name], rest);
        names := names + [name];
        AfterName(chunks, chunkIndex, chunk, offset);
        if offset >= |chunk| {
          break;
        }
        if chunk[offset] == 0 {
          chunkIndex := chunkIndex + 1;
          if chunkIndex >= |chunks| {
            break;
          }
          chunk := chunks[chunkIndex];
          offset := 2;
        }
        position := position + 1;
      }
      NothingAhead(chunks, chunkIndex, chunk, offset);
    }
    WholeList(chunks, firstChunkIndex, names, rest);
    AllSwapsKeepInverse(SwapsOf(names, find));
    remap := inverse[..];
    InversePermutes(ApplyAll(SwapsOf(names, find)).direct, remap);
  }

  lemma WholeList(chunks: seq<seq<u8>>, firstChunkIndex: nat, names: seq<Name>, rest: seq<Name>)
    requires chunks != [] ==> names + rest == NamesFrom(chunks, firstChunkIndex, Contents(chunks[0]))
    requires chunks == [] ==> names == []
    requires |names| <= 255 && (rest == [] || |names| == 255)
    ensures names == ListNames(chunks, firstChunkIndex)
  {
    hide NamesFrom, Contents;
  }

  lemma NothingAhead(chunks: seq<seq<u8>>, chunkIndex: nat, chunk: seq<u8>, offset: nat)
    ensures offset >= |chunk| ==> Ahead(chunks, chunkIndex, chunk, offset) == []
  {
    if offset == |chunk| {
      NoMoreNames(chunks, chunkIndex, chunk, offset);
    }
  }

  lemma Beginning(chunks: seq<seq<u8>>, chunkIndex: nat)
    requires chunks != []
    ensures Ahead(chunks, chunkIndex, chunks[0], 2) == NamesFrom(chunks, chunkIndex, Contents(chunks[0]))
  {
  }

  lemma AfterName(chunks: seq<seq<u8>>, chunkIndex: nat, chunk: seq<u8>, offset: nat)
    requires offset <= |chunk|
    ensures NamesAfter(chunks, chunkIndex, chunk[offset..])
            == if offset == |chunk| then []
               else if chunk[offset] != 0 then Ahead(chunks, chunkIndex, chunk, offset)
               else if chunkIndex + 1 >= |chunks| then []
               else Ahead(chunks, chunkIndex + 1, chunks[chunkIndex + 1], 2)
  {
    if offset < |chunk| {
      assert chunk[offset..][0] == chunk[offset];
    }
  }

  lemma NoSwaps(find: Name -> int)
    ensures Tables(IdentityRemap(), IdentityRemap()) == ApplyAll(SwapsOf([], find))
  {
  }

  lemma AppendSwap(swaps: seq<(int, int)>, pos: int, candidate: int)
    ensures ApplyAll(swaps + [(pos, candidate)]) == Swapped(ApplyAll(swaps), pos, candidate)
  {
    assert (swaps + [(pos, candidate)])[..|swaps|] == swaps;
  }

  /** The search that the encoder uses to invert a table. */
  method RemapIndex(remap: seq<u8>, value: u8) returns (index: Option<u8>)
    requires |remap| == 256
    ensures index.Some? ==> remap[index.value] == value
    ensures index.None? ==> value !in remap
    ensures forall direct :: MutuallyInverse(direct, remap) ==> index == Some(direct[value])
  {
    for i := 0 to 256
      invariant forall k :: 0 <= k < i ==> remap[k] != value
    {
      if remap[i] == value {
        return Some(i);
      }
    }
    index := None;
  }
}
