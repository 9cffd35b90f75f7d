/** Reading and writing the items of a link packet: coded symbols and bytes. A
    reader that asks for what was written gets it back, down to the bits. */
module LinkStreams {
  import opened Words
  import opened PrefixCodes
  import opened PackedCodes
  import opened BitStream
  import opened HuffmanTrie
  import H = HuffmanRoundTrip

  type Items = seq<H.Item>

  /** The decoder's view of the items to come: a value and the items after it, an
      error that the decoder reports, or a step lost by asking for another model
      than the encoder used. */
  datatype Parse<+T> = Parsed(value: T, rest: Items) | Bad | Lost {
    predicate Shorter(items: Items) {
      Parsed? ==> |rest| < |items|
    }

    predicate NotLonger(items: Items) {
      Parsed? ==> |rest| <= |items|
    }
  }

  function TakeSymbol(items: Items, model: nat): (p: Parse<u8>)
    ensures p.Shorter(items) && !p.Bad?
  {
    if items != [] && items[0].Coded? && items[0].model == model then Parsed(items[0].symbol, items[1..]) else Lost
  }

  function TakeByte(items: Items): (p: Parse<u8>)
    ensures p.Shorter(items) && !p.Bad?
  {
    if items != [] && items[0].Literal? then Parsed(items[0].value, items[1..]) else Lost
  }

  /** The next `count` bytes, after those already read. */
  function TakeBytes(items: Items, count: nat, read: seq<u8>): (p: Parse<seq<u8>>)
    ensures p.NotLonger(items) && !p.Bad? && (p.Parsed? ==> |p.value| == |read| + count)
    decreases count
  {
    if count == 0 then Parsed(read, items)
    else
      match TakeByte(items)
      case Lost => Lost
      case Parsed(b, rest) => TakeBytes(rest, count - 1, read + [b])
  }

  function Literals(bytes: seq<u8>): (items: Items)
    ensures |items| == |bytes|
  {
    seq(|bytes|, i requires 0 <= i < |bytes| => H.Literal(bytes[i]))
  }

  lemma {:induction false} BytesRestored(bytes: seq<u8>, read: seq<u8>, rest: Items)
    ensures TakeBytes(Literals(bytes) + rest, |bytes|, read) == Parsed(read + bytes, rest)
  {
    if bytes == [] {
      assert [] + rest == rest && read + [] == read;
    } else {
      assert (Literals(bytes) + rest)[1..] == Literals(bytes[1..]) + rest;
      BytesRestored(bytes[1..], read + [bytes[0]], rest);
      assert read + [bytes[0]] + bytes[1..] == read + bytes;
    }
  }

  lemma SymbolRestored(model: nat, symbol: u8, rest: Items)
    ensures TakeSymbol([H.Coded(model, symbol)] + rest, model) == Parsed(symbol, rest)
  {
    assert ([H.Coded(model, symbol)] + rest)[1..] == rest;
  }

  class LinkWriter {
    const models: seq<H.Model>
    const writer: BitWriter
    ghost var items: Items

    ghost predicate Valid()
      reads this, writer, models, set m | m in models :: m.trie
    {
      && writer.Valid() && H.AllValid(models) && H.Known(models, items)
      && writer.written == H.AllBits(models, items)
    }

    constructor (models: seq<H.Model>)
      requires H.AllValid(models)
      ensures Valid() && items == [] && this.models == models && fresh(writer)
    {
      var bits := new BitWriter();
      this.models, writer, items := models, bits, [];
    }

    method Write(item: H.Item)
      requires Valid() && (item.Coded? ==> item.model < |models|)
      modifies this, writer
      ensures Valid() && items == old(items) + [item]
    {
      hide H.ItemBits;
      H.AllBitsSnoc(models, items, item);
      H.WriteItem(models, writer, item);
      items := items + [item];
    }

    method WriteSymbol(model: nat, symbol: u8)
      requires Valid() && model < |models|
      modifies this, writer
      ensures Valid() && items == old(items) + [H.Coded(model, symbol)]
    {
      Write(H.Coded(model, symbol));
    }

    method WriteByte(value: u8)
      requires Valid()
      modifies this, writer
      ensures Valid() && items == old(items) + [H.Literal(value)]
    {
      Write(H.Literal(value));
    }

    method WriteBytes(values: seq<u8>)
      requires Valid()
      modifies this, writer
      ensures Valid() && items == old(items) + Literals(values)
    {
      hide Valid;
      for i := 0 to |values|
        invariant Valid() && items == old(items) + Literals(values)[..i]
      {
        WriteByte(values[i]);
      }
    }
  }

  /** Distinct codes of at least two symbols are not empty. */
  lemma NoEmptyWord(words: seq<Bits>, s: nat)
    requires PrefixFree(words) && s < |words| && |words| >= 2
    ensures words[s] != []
  {
    var other := if s == 0 then 1 else 0;
    assert !(words[s] <= words[other]) && [] <= words[other];
  }

  class LinkReader {
    const models: seq<H.Model>
    const reader: BitReader
    ghost var pending: Items
    ghost var lost: bool

    ghost predicate Valid()
      reads this, reader, models, set m | m in models :: m.trie
    {
      && reader.Valid() && H.AllValid(models) && |models| > 0
      && (!lost ==> H.Known(models, pending) && H.AllBits(models, pending) <= reader.Rest())
    }

    /** Bits that are left to read. */
    ghost function Left(): nat
      reads this, reader
    {
      if reader.Valid() then |reader.Rest()| else 0
    }

    /** What a method reports when its specification, starting from the pending
        items, ends in `p`. */
    ghost predicate Reached<T>(wasLost: bool, p: Parse<T>, r: Option<T>)
      reads this
    {
      !wasLost ==>
        && (p.Parsed? ==> !lost && r == Some(p.value) && pending == p.rest)
        && (p.Bad? ==> r == None)
    }

    constructor (models: seq<H.Model>, data: seq<u8>, ghost items: Items)
      requires H.AllValid(models) && |models| > 0 && H.Known(models, items)
      ensures Valid() && fresh(reader) && this.models == models
      ensures H.AllBits(models, items) <= Stream(data) ==> !lost && pending == items
    {
      var bits := new BitReader(data);
      this.models, reader, pending, lost := models, bits, items, !(H.AllBits(models, items) <= Stream(data));
    }

    method ReadSymbol(model: nat) returns (r: Option<u8>)
      requires Valid() && model < |models|
      modifies this, reader
      ensures Valid() && Reached(old(lost), TakeSymbol(old(pending), model), r)
      ensures r.Some? ==> Left() < old(Left())
    {
      hide CodeBits, Stream, Complete, TrieOf, H.ItemBits, H.AllBits;
      ghost var rest := reader.Rest();
      var symbol := H.ReadCoded(models[model], reader);
      if !lost && TakeSymbol(pending, model).Parsed? {
        SymbolBits(models, pending, rest);
        pending := pending[1..];
      } else {
        lost := true;
      }
      if symbol.Symbol? {
        ghost var s: u8 :| models[model].Word(s) <= rest;
        WordNotEmpty(models[model], s);
        r := Some(symbol.value);
      } else {
        r := None;
      }
    }

    method ReadByte() returns (r: Option<u8>)
      requires Valid()
      modifies this, reader
      ensures Valid() && Reached(old(lost), TakeByte(old(pending)), r)
      ensures r.Some? ==> Left() < old(Left())
    {
      hide Stream, BitValue, H.ItemBits;
      ghost var rest := reader.Rest();
      r := reader.ReadByte();
      if !lost && TakeByte(pending).Parsed? {
        LiteralBits(models, pending, rest);
        pending := pending[1..];
      } else {
        lost := true;
      }
    }

    method ReadBytes(count: nat) returns (r: Option<seq<u8>>)
      requires Valid()
      modifies this, reader
      ensures Valid() && Reached(old(lost), TakeBytes(old(pending), count, []), r)
      ensures r.Some? ==> |r.value| == count && Left() <= old(Left())
    {
      hide TakeByte;
      ghost var whole := TakeBytes(pending, count, []);
      var values: seq<u8> := [];
      for i := 0 to count
        invariant Valid() && |values| == i && Left() <= old(Left())
        invariant !old(lost) && whole.Parsed? ==> !lost && TakeBytes(pending, count - i, values) == whole
      {
        var value := ReadByte();
        if value.None? {
          return None;
        }
        values := values + [value.value];
      }
      r := Some(values);
    }
  }

  lemma SymbolBits(models: seq<H.Model>, items: Items, rest: Bits)
    requires H.Known(models, items) && (forall i :: 0 <= i < |models| ==> |models[i].codes| == 256)
    requires items != [] && items[0].Coded? && H.AllBits(models, items) <= rest
    ensures var word := models[items[0].model].Word(items[0].symbol);
            word <= rest && H.Known(models, items[1..]) && H.AllBits(models, items[1..]) <= rest[|word|..]
  {
    assert H.AllBits(models, items) == models[items[0].model].Word(items[0].symbol) + H.AllBits(models, items[1..]);
  }

  lemma WordNotEmpty(m: H.Model, s: u8)
    requires m.Valid()
    ensures m.Word(s) != []
  {
    var words := WordsOf(m.codes);
    NoEmptyWord(words, s);
    assert m.Word(s) == words[s];
  }

  /** A literal byte at the front of what is left. */
  lemma LiteralBits(models: seq<H.Model>, items: Items, rest: Bits)
    requires H.Known(models, items) && (forall i :: 0 <= i < |models| ==> |models[i].codes| == 256)
    requires items != [] && items[0].Literal? && H.AllBits(models, items) <= rest
    ensures |rest| >= 8 && BitValue(rest[..8]) == items[0].value
    ensures H.Known(models, items[1..]) && H.AllBits(models, items[1..]) <= rest[8..]
  {
    LiteralCode(items[0].value);
    hide BitValue;
    var bits := BitsOf(items[0].value, 8);
    assert H.AllBits(models, items) == bits + H.AllBits(models, items[1..]);
    assert rest[..8] == bits;
  }
}
