/** Any mix of coded symbols and literal bytes survives the link's bit stream. */
module HuffmanRoundTrip {
  import opened Words
  import opened Sums
  import opened PrefixCodes
  import opened PackedCodes
  import opened HuffmanTree
  import opened HuffmanOptimal
  import opened HuffmanForest
  import opened HuffmanCodes
  import opened HuffmanResults
  import opened BitStream
  import opened HuffmanTrie

  /** A frequency row for which the builder is used: every symbol occurs, the total
      fits 32 bits, and no code is longer than the 27 bits of a packed word. */
  predicate UsableRow(row: seq<u32>) {
    |row| == 256 && AllOccur(row) && Sum(row) < 0x1_0000_0000 && HuffmanHeight(row) <= MAX_CODE
  }

  /** Totals below 832040 are always usable. */
  lemma SmallTotalIsUsable(row: seq<u32>)
    requires |row| == 256 && AllOccur(row) && Sum(row) < 832040
    ensures UsableRow(row)
  {
    hide HuffmanHeight, Sum;
    CodesFit(row);
  }

  /** The words of a model are those of its tree. */
  lemma WordsOfTree(t: Tree, row: seq<nat>, codes: seq<u32>)
    requires Finished(t, row) && HuffmanHeight(row) <= MAX_CODE && |codes| == 256 && Assigned(codes, t, [])
    ensures WordsOf(codes) == CodeWords(t)
  {
    CodesFitExactly(t, row);
    forall s | 0 <= s < 256
      ensures WordsOf(codes)[s] == CodeWords(t)[s]
    {
      assert |CodeWords(t)[s]| <= MAX_CODE;
      hide HuffmanHeight, Packed, CodeBits, Sum, Finished;
      assert HasCode(codes, t, s, []);
      assert [] + Code(t, s) == Code(t, s);
      CodeBitsOfPacked(Code(t, s));
    }
  }

  lemma CodeWordsComplete(t: Tree)
    requires AllSymbols(t) && Distinct(t)
    ensures Complete(CodeWords(t))
  {
    var words := CodeWords(t);
    forall s, i, b | 0 <= s < |words| && 0 <= i < |words[s]|
      ensures Continued(words, words[s][..i] + [b])
    {
      var u := CodesAreComplete(t, s, i, b);
      assert words[s][..i] + [b] <= words[u];
    }
  }

  /** The codes of a usable row are prefix-free and complete. */
  lemma WordsAreGood(t: Tree, row: seq<nat>, codes: seq<u32>)
    requires Finished(t, row) && HuffmanHeight(row) <= MAX_CODE && |codes| == 256 && Assigned(codes, t, [])
    ensures PrefixFree(WordsOf(codes)) && Complete(WordsOf(codes))
  {
    WordsOfTree(t, row, codes);
    CodeWordsPrefixFree(t);
    CodeWordsComplete(t);
  }

  /** The packed codes of a usable row: prefix-free and complete, and no prefix code
      of the 256 symbols costs less. */
  method ModelCodes(row: seq<u32>) returns (codes: seq<u32>)
    requires UsableRow(row)
    ensures |codes| == 256 && PrefixFree(WordsOf(codes)) && Complete(WordsOf(codes))
    ensures forall words :: |words| == 256 && PrefixFree(words) ==>
              WordCost(row, WordsOf(codes)) <= WordCost(row, words)
    ensures SiblingOrder(row, WordsOf(codes))
  {
    hide Finished, Assigned, WordsOf, WordCost, PrefixFree, Complete, Sum, HuffmanHeight, AllOccur, SiblingOrder;
    var r, t := BuildHuffmanCodes(row);
    codes := r.value;
    WordsAreGood(t, row, codes);
    WordsOfTree(t, row, codes);
    FinishedHasSymbols(t, row);
    CodesAreOrdered(t, row);
    forall words: seq<Bits> | |words| == 256 && PrefixFree(words)
      ensures WordCost(row, CodeWords(t)) <= WordCost(row, words)
    {
      CodesAreCheapest(t, row, words);
    }
  }

  lemma FinishedHasSymbols(t: Tree, row: seq<nat>)
    requires Finished(t, row)
    ensures AllSymbols(t)
  {
  }

  lemma PrefixFreeIsDistinct(words: seq<Bits>)
    requires PrefixFree(words)
    ensures forall i, j :: 0 <= i < j < |words| ==> words[i] != words[j]
  {
    forall i, j | 0 <= i < j < |words|
      ensures words[i] != words[j]
    {
      assert !(words[i] <= words[j]);
    }
  }

  /** A model as both ends build it from one row: no duplicate code ever comes up. */
  class Model {
    const codes: seq<u32>
    const trie: Trie

    ghost predicate Valid()
      reads this, trie
    {
      && |codes| == 256 && PrefixFree(WordsOf(codes)) && Complete(WordsOf(codes))
      && TrieOf(trie.nodes, trie.paths, WordsOf(codes), 256)
    }

    constructor (row: seq<u32>)
      requires UsableRow(row)
      ensures Valid() && fresh(trie)
    {
      var packed := ModelCodes(row);
      PrefixFreeIsDistinct(WordsOf(packed));
      var built, ok := BuildTrie(packed);
      codes, trie := packed, built;
    }

    function Word(symbol: u8): Bits
      requires |codes| == 256
    {
      CodeBits(codes[symbol])
    }
  }

  /** Reading where a symbol was written returns it and consumes exactly its bits.
      Elsewhere the data ends first: a nil child is never reached. */
  method ReadCoded(m: Model, reader: BitReader) returns (r: ReadResult)
    requires m.Valid() && reader.Valid()
    modifies reader`bits
    ensures reader.Valid() && !r.InvalidCode?
    ensures forall s: u8 :: m.Word(s) <= old(reader.Rest()) ==>
              r == Symbol(s) && reader.Rest() == old(reader.Rest())[|m.Word(s)|..]
    ensures r.EndOfStream? <==> forall s: u8 :: !(m.Word(s) <= old(reader.Rest()))
  {
    hide CodeBits, Stream, Complete, TrieOf;
    ghost var rest, words := reader.Rest(), WordsOf(m.codes);
    r := m.trie.ReadSymbol(reader, words);
    if r.Symbol? {
      OnlyWord(words, r.value, rest);
      assert m.Word(r.value) == words[r.value];
    }
    forall s: u8
      ensures m.Word(s) == words[s]
    {
    }
  }

  lemma OnlyWord(words: seq<Bits>, s: nat, rest: Bits)
    requires PrefixFree(words) && s < |words| && words[s] <= rest
    ensures forall u :: 0 <= u < |words| && words[u] <= rest ==> u == s
  {
    forall u | 0 <= u < |words| && words[u] <= rest
      ensures u == s
    {
      Comparable(words[u], words[s], rest);
    }
  }

  lemma Comparable(a: Bits, b: Bits, rest: Bits)
    requires a <= rest && b <= rest
    ensures a <= b || b <= a
  {
    if |a| <= |b| {
      assert a == rest[..|a|] == b[..|a|];
    } else {
      assert b == rest[..|b|] == a[..|b|];
    }
  }

  datatype Item = Coded(model: nat, symbol: u8) | Literal(value: u8)

  predicate Known(models: seq<Model>, items: seq<Item>) {
    forall i :: 0 <= i < |items| && items[i].Coded? ==> items[i].model < |models|
  }

  ghost predicate AllValid(models: seq<Model>)
    reads models, set m | m in models :: m.trie
  {
    forall i :: 0 <= i < |models| ==> models[i].Valid()
  }

  function ItemBits(models: seq<Model>, item: Item): Bits
    requires item.Coded? ==> item.model < |models| && |models[item.model].codes| == 256
  {
    match item
    case Coded(m, s) => models[m].Word(s)
    case Literal(v) => BitsOf(v, 8)
  }

  /** The concatenation of the items' bits. */
  function AllBits(models: seq<Model>, items: seq<Item>): Bits
    requires Known(models, items) && forall i :: 0 <= i < |models| ==> |models[i].codes| == 256
  {
    if items == [] then [] else ItemBits(models, items[0]) + AllBits(models, items[1..])
  }

  method WriteItem(models: seq<Model>, writer: BitWriter, item: Item)
    requires writer.Valid()
    requires item.Coded? ==> item.model < |models| && |models[item.model].codes| == 256
    modifies writer
    ensures writer.Valid() && writer.written == old(writer.written) + ItemBits(models, item)
  {
    match item {
      case Coded(m, s) => writer.WriteCode(models[m].codes[s]);
      case Literal(v) => writer.WriteByte(v);
    }
  }

  lemma AllBitsSnoc(models: seq<Model>, items: seq<Item>, item: Item)
    requires Known(models, items + [item]) && forall i :: 0 <= i < |models| ==> |models[i].codes| == 256
    ensures Known(models, items) && (item.Coded? ==> item.model < |models|)
    ensures AllBits(models, items + [item]) == AllBits(models, items) + ItemBits(models, item)
  {
    hide ItemBits;
    var longer := items + [item];
    assert longer[|items|] == item;
    assert forall i :: 0 <= i < |items| ==> items[i] == longer[i];
    if items == [] {
      assert items + [item] == [item];
      assert AllBits(models, [item][1..]) == [];
    } else {
      assert (items + [item])[1..] == items[1..] + [item];
      AllBitsSnoc(models, items[1..], item);
    }
  }

  method WriteAll(models: seq<Model>, items: seq<Item>) returns (writer: BitWriter)
    requires Known(models, items) && forall i :: 0 <= i < |models| ==> |models[i].codes| == 256
    ensures fresh(writer) && writer.Valid() && writer.written == AllBits(models, items)
  {
    hide ItemBits;
    writer := new BitWriter();
    assert items[..0] == [];
    for i := 0 to |items|
      invariant fresh(writer) && writer.Valid()
      invariant Known(models, items[..i]) && writer.written == AllBits(models, items[..i])
    {
      assert items[..i + 1] == items[..i] + [items[i]];
      AllBitsSnoc(models, items[..i], items[i]);
      WriteItem(models, writer, items[i]);
    }
    assert items[..|items|] == items;
  }

  /** What the reader asks for next: a symbol of some model, or a byte. */
  datatype Request = WantSymbol(model: nat) | WantByte

  function RequestFor(item: Item): Request {
    match item
    case Coded(m, _) => WantSymbol(m)
    case Literal(_) => WantByte
  }

  method ReadItem(models: seq<Model>, reader: BitReader, request: Request, ghost item: Item) returns (r: Option<Item>)
    requires AllValid(models) && reader.Valid()
    requires request == RequestFor(item) && (item.Coded? ==> item.model < |models|)
    modifies reader`bits
    ensures reader.Valid()
    ensures ItemBits(models, item) <= old(reader.Rest()) ==>
              r == Some(item) && reader.Rest() == old(reader.Rest())[|ItemBits(models, item)|..]
  {
    hide Stream, CodeBits;
    match request {
      case WantSymbol(m) =>
        var symbol := ReadCoded(models[m], reader);
        r := if symbol.Symbol? then Some(Coded(m, symbol.value)) else None;
      case WantByte =>
        LiteralCode(item.value);
        ghost var rest := reader.Rest();
        assert BitsOf(item.value, 8) <= rest ==> rest[..8] == BitsOf(item.value, 8);
        var value := reader.ReadByte();
        r := if value.Some? then Some(Literal(value.value)) else None;
    }
  }

  /** A reader that asks for the same kinds of items gets them back, and has then
      consumed exactly the written bits. */
  method RoundTrip(rows: seq<seq<u32>>, items: seq<Item>)
    returns (decoded: seq<Item>, consumed: nat, ghost written: nat)
    requires forall i :: 0 <= i < |rows| ==> UsableRow(rows[i])
    requires forall i :: 0 <= i < |items| && items[i].Coded? ==> items[i].model < |rows|
    ensures decoded == items && consumed == written
  {
    var models: seq<Model> := [];
    for m := 0 to |rows|
      invariant |models| == m && AllValid(models)
      invariant forall k :: 0 <= k < m ==> fresh(models[k]) && fresh(models[k].trie)
    {
      var model := new Model(rows[m]);
      models := models + [model];
    }
    var writer := WriteAll(models, items);
    StreamOfWritten(writer.data, writer.written);
    written := |writer.written|;
    var reader := new BitReader(writer.data);
    decoded := ReadAll(models, reader, items);
    consumed := reader.bits;
  }

  method ReadAll(models: seq<Model>, reader: BitReader, items: seq<Item>) returns (decoded: seq<Item>)
    requires AllValid(models) && reader.Valid() && Known(models, items)
    requires AllBits(models, items) <= reader.Rest()
    modifies reader`bits
    ensures reader.Valid() && decoded == items && reader.bits == old(reader.bits) + |AllBits(models, items)|
  {
    hide ItemBits, Stream;
    decoded := [];
    for i := 0 to |items|
      invariant reader.Valid() && decoded == items[..i]
      invariant AllBits(models, items[i..]) <= reader.Rest()
      invariant reader.bits + |AllBits(models, items[i..])| == old(reader.bits) + |AllBits(models, items)|
    {
      assert items[i..][1..] == items[i + 1..] && items[i..][0] == items[i];
      ghost var rest := reader.Rest();
      var item := ReadItem(models, reader, RequestFor(items[i]), items[i]);
      decoded := decoded + [item.value];
    }
  }
}
