/** Symbols of keyed tables through the bytes of the range coder, possibly between
    other symbols of the same stream. */
module RangeTables {
  import opened Words
  import C = RangeRoundTrip
  import F = FrequencyTables

  /** For every key a row of 256 symbols, searched from a first step of 256. */
  ghost predicate Table<K(!new)>(models: K -> C.Model) {
    forall key :: models(key).Single? && |models(key).row| == 256 && models(key).step == 256 && models(key).Usable()
  }

  /** The table is built from counts in which every symbol occurs, with totals below
      2^24. */
  ghost predicate Counted<K(!new)>(models: K -> C.Model, counts: K -> seq<u32>) {
    forall key, symbol: u8 :: |counts(key)| == 256 && F.FromCounts(C.Item(models(key), symbol), counts(key))
  }

  function ItemsOf<K>(models: K -> C.Model, keys: seq<K>, symbols: seq<u8>): (items: seq<C.Item>)
    requires |keys| == |symbols|
    ensures |items| == |symbols|
  {
    seq(|symbols|, i requires 0 <= i < |symbols| => C.Item(models(keys[i]), symbols[i]))
  }

  /** What else a stream holds, before and after the symbols. */
  datatype Around = Around(before: seq<C.Item>, after: seq<C.Item>) {
    predicate Usable() {
      C.AllUsable(before) && C.AllUsable(after)
    }

    function With(items: seq<C.Item>): seq<C.Item> {
      before + items + after
    }
  }

  lemma ItemsUsable<K(!new)>(models: K -> C.Model, keys: seq<K>, symbols: seq<u8>, around: Around)
    requires Table(models) && |keys| == |symbols| && around.Usable()
    ensures C.AllUsable(around.With(ItemsOf(models, keys, symbols)))
  {
    var items := ItemsOf(models, keys, symbols);
    forall i | 0 <= i < |symbols|
      ensures items[i].Usable()
    {
      var model := models(keys[i]);
      assert C.D.LastReachable(256, 256) >= 255;
    }
  }

  /** The symbols of the items from `from` up to before `to`, as a decoder of the
      whole stream finds them. */
  method Part(items: seq<C.Item>, from: nat, to: nat, strict: bool) returns (encoded: bool, received: seq<u32>)
    requires C.AllUsable(items) && from <= to <= |items|
    ensures encoded <==> C.AcceptsAll(items)
    ensures encoded ==> |received| <= to - from && forall i :: 0 <= i < |received| ==>
              received[i] == items[from + i].symbol
    ensures encoded && !strict ==> |received| == to - from
    ensures encoded && strict ==> forall j :: from <= j < to ==> (j < from + |received| <==> C.Readable(items, j))
  {
    hide C.AllUsable, C.AcceptsAll, C.Readable, C.EncoderTrace, C.DecoderTrace, C.EncoderAfter;
    var whole;
    ghost var sent, seen;
    encoded, whole, sent, seen := C.RoundTrip(items, strict);
    if !encoded {
      return false, [];
    }
    received := if |whole| <= from then [] else whole[from..if |whole| <= to then |whole| else to];
  }

  lemma Middle<K>(models: K -> C.Model, keys: seq<K>, symbols: seq<u8>, around: Around)
    requires |keys| == |symbols|
    ensures var items, from := around.With(ItemsOf(models, keys, symbols)), |around.before|;
            && from + |symbols| <= |items|
            && forall i :: 0 <= i < |symbols| ==> items[from + i].symbol == symbols[i]
  {
  }

  /** Symbols that are bytes. */
  function BytesOf(values: seq<u32>, ghost symbols: seq<u8>): (bytes: seq<u8>)
    requires |values| <= |symbols| && forall i :: 0 <= i < |values| ==> values[i] == symbols[i]
    ensures bytes == symbols[..|values|]
  {
    seq(|values|, i requires 0 <= i < |values| => values[i])
  }

  /** A lenient decoder gets all symbols back, a strict one those that are readable. */
  method ThroughBytes<K(!new)>(models: K -> C.Model, keys: seq<K>, symbols: seq<u8>, around: Around, strict: bool)
    returns (encoded: bool, received: seq<u8>)
    requires Table(models) && |keys| == |symbols| && around.Usable()
    ensures encoded <==> C.AcceptsAll(around.With(ItemsOf(models, keys, symbols)))
    ensures encoded ==> received <= symbols
    ensures encoded && !strict ==> received == symbols
    ensures encoded && strict ==>
              var items, from := around.With(ItemsOf(models, keys, symbols)), |around.before|;
              forall j :: from <= j < from + |symbols| ==> (j < from + |received| <==> C.Readable(items, j))
  {
    hide Table, Around.Usable, ItemsOf, Around.With, C.AllUsable, C.AcceptsAll, C.Readable;
    var items, from := around.With(ItemsOf(models, keys, symbols)), |around.before|;
    ItemsUsable(models, keys, symbols, around);
    Middle(models, keys, symbols, around);
    var values;
    encoded, values := Part(items, from, from + |symbols|, strict);
    if !encoded {
      return false, [];
    }
    received := BytesOf(values, symbols);
  }

  /** A table built from counts refuses nothing, in any stream of such symbols. */
  lemma CountedIsAccepted<K(!new)>(models: K -> C.Model, counts: K -> seq<u32>, keys: seq<K>, symbols: seq<u8>,
                                   around: Around, before: seq<seq<u32>>, after: seq<seq<u32>>)
    requires Counted(models, counts) && |keys| == |symbols|
    requires F.AllFromCounts(around.before, before) && F.AllFromCounts(around.after, after)
    ensures C.AcceptsAll(around.With(ItemsOf(models, keys, symbols)))
  {
    hide F.FromCounts, C.AcceptsAll;
    var middle := seq(|keys|, i requires 0 <= i < |keys| => counts(keys[i]));
    assert F.AllFromCounts(ItemsOf(models, keys, symbols), middle);
    F.NeverRefused(around.With(ItemsOf(models, keys, symbols)), before + middle + after);
  }
}
