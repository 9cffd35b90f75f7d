/** Sequences of recorded user commands through the range coder. */
module RecordedCommands {
  import opened Words
  import opened LinkStreams
  import opened UserCommands
  import opened RangeTables
  import C = RangeRoundTrip
  import H = HuffmanRoundTrip

  /** The row of an item: the codec itself writes coded symbols only. */
  function RowOf(item: H.Item): nat {
    if item.Coded? then item.model else 0
  }

  function SymbolOf(item: H.Item): u8 {
    if item.Coded? then item.symbol else item.value
  }

  function RowsOf(items: Items): (rows: seq<nat>)
    ensures |rows| == |items|
  {
    seq(|items|, i requires 0 <= i < |items| => RowOf(items[i]))
  }

  function SymbolsOf(items: Items): (symbols: seq<u8>)
    ensures |symbols| == |items|
  {
    seq(|items|, i requires 0 <= i < |items| => SymbolOf(items[i]))
  }

  function StreamOf(models: nat -> C.Model, items: Items, around: Around): seq<C.Item> {
    around.With(ItemsOf(models, RowsOf(items), SymbolsOf(items)))
  }

  /** Items through the bytes of the range coder. */
  method ThroughBytes(models: nat -> C.Model, items: Items, around: Around) returns (r: Option<Items>)
    requires Table(models) && around.Usable()
    ensures r.Some? <==> C.AcceptsAll(StreamOf(models, items, around))
    ensures r.Some? ==> r.value == items
  {
    hide Table, ItemsOf, Around.With, Around.Usable;
    var encoded, received := RangeTables.ThroughBytes(models, RowsOf(items), SymbolsOf(items), around, false);
    if !encoded {
      return None;
    }
    var decoded := seq(|items|, i requires 0 <= i < |items| =>
      if items[i].Coded? then H.Coded(items[i].model, received[i]) else H.Literal(received[i]));
    assert decoded == items;
    r := Some(decoded);
  }

  method EncodeAll(code: AngleCode, payloads: seq<CommandPayload>) returns (r: Option<Items>)
    ensures r.Some? <==> StateAfter(code, START, payloads).Some?
    ensures r.Some? ==> r.value == AllItems(code, START, payloads)
  {
    hide Encodable, EncodedItems, NextState;
    var codec := new Codec();
    var items: Items := [];
    ghost var whole := StateAfter(code, START, payloads);
    for i := 0 to |payloads|
      invariant fresh(codec) && codec.Valid() && StateAfter(code, codec.Current(), payloads[i..]) == whole
      invariant whole.Some? ==>
                items + AllItems(code, codec.Current(), payloads[i..]) == AllItems(code, START, payloads)
    {
      assert payloads[i..][0] == payloads[i] && payloads[i..][1..] == payloads[i + 1..];
      ghost var before, s := items, codec.Current();
      var encoded := codec.Encode(code, payloads[i]);
      if encoded.None? {
        return None;
      }
      items := items + encoded.value;
      if whole.Some? {
        Regroup(before, encoded.value, AllItems(code, codec.Current(), payloads[i + 1..]));
      }
    }
    r := Some(items);
  }

  method DecodeAll(code: AngleCode, items: Items, count: nat) returns (r: Option<seq<CommandPayload>>)
    ensures r.Some? <==> ParseAllEncoded(code, START, items, count, []).Parsed?
    ensures r.Some? ==> r.value == ParseAllEncoded(code, START, items, count, []).value.1
  {
    hide ParseEncoded, PayloadOf;
    var codec := new Codec();
    var rest: Items, decoded: seq<CommandPayload> := items, [];
    for i := 0 to count
      invariant fresh(codec) && codec.Valid()
      invariant ParseAllEncoded(code, START, items, count, [])
                == ParseAllEncoded(code, codec.Current(), rest, count - i, decoded)
    {
      var next := codec.Decode(code, rest);
      if next.None? {
        return None;
      }
      decoded, rest := decoded + [next.value.0], next.value.1;
    }
    r := Some(decoded);
  }

  /** Whenever a sequence of commands can be encoded, decoding its bytes from the
      same start gives the sequence, whatever the stream holds around it. */
  method Replay(code: AngleCode, models: nat -> C.Model, payloads: seq<CommandPayload>, around: Around)
    returns (recorded: bool, decoded: seq<CommandPayload>)
    requires code.Exact() && Table(models) && around.Usable()
    ensures recorded <==>
              && StateAfter(code, START, payloads).Some?
              && C.AcceptsAll(StreamOf(models, AllItems(code, START, payloads), around))
    ensures recorded ==> decoded == payloads
  {
    hide Table, StateAfter, AllItems, ParseAllEncoded, C.AcceptsAll, StreamOf, Around.Usable;
    var items := EncodeAll(code, payloads);
    if items.None? {
      return false, [];
    }
    var received := ThroughBytes(models, items.value, around);
    if received.None? {
      return false, [];
    }
    AllRestored(code, START, payloads, [], []);
    assert items.value + [] == items.value && [] + payloads == payloads;
    var result := DecodeAll(code, received.value, |payloads|);
    return true, result.value;
  }
}
