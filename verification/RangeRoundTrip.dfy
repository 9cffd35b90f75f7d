/** What the range encoder and decoder promise together: a finished stream decodes
    to the symbols that were encoded. */
module RangeRoundTrip {
  import opened Words
  import opened RangeInterval
  import opened RangeWords
  import E = RangeEncoder
  import D = RangeDecoder

  /** How a symbol is coded: with one cumulative row and a first search step, or
      with a distribution split over two rows of 256 entries. */
  datatype Model = Single(row: seq<u32>, step: u32) | Paired(row0: seq<u32>, row1: seq<u32>) {
    function Row(): seq<u32> {
      if Single? then row else row0 + row1
    }

    function Step(): u32 {
      if Single? then step else 512
    }

    predicate Usable() {
      && (Single? ==> 0 < |row| < 0x1_0000_0000)
      && (Paired? ==> |row0| == |row1| == 256)
      && Monotone(Row()) && D.IsPowerOfTwo(Step())
    }
  }

  datatype Item = Item(model: Model, symbol: u32) {
    predicate Usable() {
      model.Usable() && symbol <= D.LastReachable(|model.Row()|, model.Step())
    }
  }

  predicate AllUsable(items: seq<Item>) {
    forall i :: 0 <= i < |items| ==> items[i].Usable()
  }

  /** Every symbol in turn has a share of the range that the ones before leave. */
  predicate AcceptsAll(items: seq<Item>)
    decreases items, 0
  {
    items == [] ||
    (var n := |items| - 1;
     AcceptsAll(items[..n]) && Accepts(Run(items[..n]), items[n].model.Row(), items[n].symbol))
  }

  /** The interval after the last symbol, not yet renormalised: the decoder's. */
  function LazyRun(items: seq<Item>): Interval
    requires AcceptsAll(items)
    decreases items, 1
  {
    if items == [] then WHOLE
    else var n := |items| - 1; Chosen(Run(items[..n]), items[n].model.Row(), items[n].symbol)
  }

  /** The interval after the last symbol, renormalised: the encoder's. */
  function Run(items: seq<Item>): (s: Interval)
    requires AcceptsAll(items)
    ensures 0x100_0000 <= s.range < 0x1_0000_0000
    decreases items, 2
  {
    if items == [] then WHOLE
    else
      var n := |items| - 1;
      var before := Run(items[..n]);
      OffsetBound(items[n].model.Row()[items[n].symbol], before.range);
      NormalizeRange(LazyRun(items));
      Normalize(LazyRun(items))
  }

  lemma RunNormalizes(items: seq<Item>)
    requires AcceptsAll(items)
    ensures Run(items) == Normalize(LazyRun(items)) && LazyRun(items).range < 0x1_0000_0000
  {
    if items != [] {
      var n := |items| - 1;
      OffsetBound(items[n].model.Row()[items[n].symbol], Run(items[..n]).range);
    }
  }

  /** A stream inside the final interval is inside every earlier one, and no
      earlier interval has produced more digits. */
  lemma {:induction false} Nested(items: seq<Item>, i: nat, stream: seq<u8>)
    requires AcceptsAll(items) && i <= |items|
    ensures AcceptsAll(items[..i])
    ensures Run(items[..i]).shifts <= Run(items).shifts
    ensures Holds(Run(items), stream) ==>
            Holds(Run(items[..i]), stream) && Holds(LazyRun(items[..i]), stream)
    decreases |items|
  {
    RunNormalizes(items);
    if Holds(Run(items), stream) {
      NormalizeKeepsStream(LazyRun(items), stream);
    }
    if i == |items| {
      assert items[..i] == items;
    } else {
      var n := |items| - 1;
      if Holds(Run(items), stream) {
        ChosenKeepsStream(Run(items[..n]), items[n].model.Row(), items[n].symbol, stream);
      }
      NormalizeRange(LazyRun(items));
      Nested(items[..n], i, stream);
      assert items[..n][..i] == items[..i];
    }
  }

  /** One more symbol. */
  lemma Extend(items: seq<Item>, i: nat)
    requires i < |items| && AcceptsAll(items[..i])
    ensures AcceptsAll(items[..i + 1]) <==> Accepts(Run(items[..i]), items[i].model.Row(), items[i].symbol)
    ensures AcceptsAll(items[..i + 1]) ==>
            && LazyRun(items[..i + 1]) == Chosen(Run(items[..i]), items[i].model.Row(), items[i].symbol)
            && Run(items[..i + 1]) == Normalize(LazyRun(items[..i + 1]))
            && EncoderAfter(items[..i + 1])
               == EncodedWords(EncoderAfter(items[..i]), items[i].model.Row(), items[i].symbol)
  {
    assert items[..i + 1][..i] == items[..i];
    if AcceptsAll(items[..i + 1]) {
      RunNormalizes(items[..i + 1]);
    }
  }

  // ----- The wrapped words of both ends --------------------------------------

  /** The encoder's words after the items. */
  function EncoderAfter(items: seq<Item>): (r: EncoderWords)
    requires AcceptsAll(items)
    ensures -1 <= r.cache <= 0xff
    decreases |items|
  {
    if items == [] then INITIAL
    else var n := |items| - 1; EncodedWords(EncoderAfter(items[..n]), items[n].model.Row(), items[n].symbol)
  }

  /** The words of a decoder that has found the symbols of the items. */
  function DecoderAfter(items: seq<Item>, buf: seq<u8>): D.DecoderWords
    requires AcceptsAll(items) && |buf| >= 4
    decreases |items|
  {
    if items == [] then D.FirstWords(buf)
    else
      var n := |items| - 1;
      D.Selected(D.Refilled(DecoderAfter(items[..n], buf), buf), items[n].model.Row(), items[n].symbol)
  }

  /** The words with which the decoder looks for the next symbol. */
  function DecoderBefore(items: seq<Item>, buf: seq<u8>): D.DecoderWords
    requires AcceptsAll(items) && |buf| >= 4
  {
    D.Refilled(DecoderAfter(items, buf), buf)
  }

  lemma {:induction false} EncoderDenotes(items: seq<Item>) returns (base: nat)
    requires AcceptsAll(items)
    ensures Denotes(EncoderAfter(items), Run(items), base)
    decreases |items|
  {
    hide Denotes, Offset, Shrunk;
    if items == [] {
      base := 0;
      InitialDenotes();
    } else {
      var n := |items| - 1;
      var before, row, sym := Run(items[..n]), items[n].model.Row(), items[n].symbol;
      var earlier := EncoderDenotes(items[..n]);
      WidthIsExact(EncoderAfter(items[..n]), before, earlier);
      NarrowRefines(EncoderAfter(items[..n]), before, earlier, Lower(row, sym), row[sym]);
      base := SettledRefines(Shrunk(EncoderAfter(items[..n]), Offset(Lower(row, sym), before.range),
                                    Offset(row[sym], before.range)),
                             LazyRun(items), earlier);
      RunNormalizes(items);
    }
  }

  lemma InitialDenotes()
    ensures Denotes(INITIAL, WHOLE, 0)
  {
  }

  lemma {:induction false} RefilledFollows(d: D.DecoderWords, buf: seq<u8>, s: Interval)
    requires D.Follows(d, buf, s) && |buf| >= 4
    ensures D.Follows(D.Refilled(d, buf), buf, Normalize(s))
    decreases 0x100_0000 - s.range
  {
    hide D.Follows, D.Refill;
    D.WidthFollows(d, buf, s);
    if s.range < 0x100_0000 {
      D.RefillFollows(d, buf, s);
      D.RefillWidth(d, buf);
      RefilledFollows(D.Refill(d, buf), buf, Shift(s));
    }
  }

  lemma {:induction false} DecoderFollows(items: seq<Item>, buf: seq<u8>)
    requires AcceptsAll(items) && |buf| >= 4
    ensures D.Follows(DecoderAfter(items, buf), buf, LazyRun(items))
    ensures D.Follows(DecoderBefore(items, buf), buf, Run(items))
    decreases |items|
  {
    hide D.Follows, D.Refilled, D.Selected, Normalize;
    if items == [] {
      FirstFollows(buf);
    } else {
      var n := |items| - 1;
      DecoderFollows(items[..n], buf);
      D.SelectedFollows(DecoderBefore(items[..n], buf), buf, Run(items[..n]), items[n].model.Row(), items[n].symbol);
    }
    RunNormalizes(items);
    RefilledFollows(DecoderAfter(items, buf), buf, LazyRun(items));
  }

  lemma FirstFollows(buf: seq<u8>)
    requires |buf| >= 4
    ensures D.Follows(D.FirstWords(buf), buf, WHOLE)
  {
  }

  /** Whatever the stream holds, a decoder that has found the symbols so far has
      the very words of the encoder. */
  lemma Lockstep(items: seq<Item>, buf: seq<u8>)
    requires AcceptsAll(items) && |buf| >= 4
    ensures DecoderBefore(items, buf).low == EncoderAfter(items).low
    ensures DecoderBefore(items, buf).high == EncoderAfter(items).high
  {
    hide DecoderBefore, EncoderAfter;
    var base := EncoderDenotes(items);
    DecoderFollows(items, buf);
  }

  method EncodeItem(e: E.Encoder, item: Item) returns (r: E.EncodeResult)
    requires e.Valid() && item.Usable()
    modifies e
    ensures e.Valid() && e.finished == old(e.finished)
    ensures r.Encoded? <==> !old(e.finished) && Accepts(old(e.exact), item.model.Row(), item.symbol)
    ensures r.Encoded? ==>
              && e.exact == Normalize(Chosen(old(e.exact), item.model.Row(), item.symbol))
              && -1 <= old(e.cache) <= 0xff && e.Words() == EncodedWords(old(e.Words()), item.model.Row(), item.symbol)
  {
    match item.model {
      case Single(row, _) => r := e.EncodeSymbol(row, item.symbol);
      case Paired(row0, row1) => r := e.EncodeSymbol2x256(row0, row1, item.symbol);
    }
  }

  /** The trace keeps the encoder's words before each symbol. */
  ghost predicate EncoderTrace(trace: seq<EncoderWords>, items: seq<Item>)
    requires AcceptsAll(items)
  {
    |trace| == |items| && forall i :: 0 <= i < |items| ==> (Nested(items, i, []); trace[i] == EncoderAfter(items[..i]))
  }

  lemma NothingEncoded(items: seq<Item>)
    ensures AcceptsAll(items[..0]) && Run(items[..0]) == WHOLE && EncoderAfter(items[..0]) == INITIAL
  {
  }

  /** The encoder stands after the first `i` items. */
  ghost predicate EncoderAt(e: E.Encoder, items: seq<Item>, i: nat)
    reads e
  {
    && e.Valid() && !e.finished && i <= |items|
    && AcceptsAll(items[..i]) && e.exact == Run(items[..i]) && e.Words() == EncoderAfter(items[..i])
  }

  method EncodeAt(e: E.Encoder, items: seq<Item>, i: nat) returns (r: E.EncodeResult)
    requires EncoderAt(e, items, i) && i < |items| && items[i].Usable()
    modifies e
    ensures r.Encoded? ==> EncoderAt(e, items, i + 1)
    ensures r.Refused? ==> !AcceptsAll(items)
  {
    hide Accepts, Chosen, Normalize, EncodedWords, AcceptsAll, Run, EncoderAfter, E.Encoder.Valid;
    Extend(items, i);
    r := EncodeItem(e, items[i]);
    if r.Refused? && AcceptsAll(items) {
      Nested(items, i + 1, []);
    }
  }

  /** The part of the trace before item `i`. */
  ghost predicate TraceUpTo(trace: seq<EncoderWords>, items: seq<Item>, i: nat) {
    |trace| == i <= |items| && forall k :: 0 <= k < i ==> AcceptsAll(items[..k]) && trace[k] == EncoderAfter(items[..k])
  }

  lemma WholeTrace(trace: seq<EncoderWords>, items: seq<Item>)
    requires AcceptsAll(items) && TraceUpTo(trace, items, |items|)
    ensures EncoderTrace(trace, items) && |trace| == |items|
  {
    hide EncoderAfter, AcceptsAll;
  }

  method EncodeAll(items: seq<Item>) returns (r: Option<seq<u8>>, ghost trace: seq<EncoderWords>)
    requires AllUsable(items)
    ensures r.Some? <==> AcceptsAll(items)
    ensures r.Some? ==> EncoderTrace(trace, items) && |trace| == |items| && r.value == Finished(EncoderAfter(items))
    ensures r.Some? ==> Holds(Run(items), r.value)
    ensures r.Some? ==> Run(items).shifts <= |r.value| + LostDigits(Run(items))
    ensures r.Some? && Straddles(Run(items)) ==> |r.value| + LostDigits(Run(items)) == Run(items).shifts
  {
    hide Holds, Finished, LostDigits, Straddles, AcceptsAll, Run, EncoderAfter, EncoderTrace, E.Encoder.Valid;
    var e := new E.Encoder();
    NothingEncoded(items);
    trace := [];
    for i := 0 to |items|
      invariant fresh(e) && EncoderAt(e, items, i) && TraceUpTo(trace, items, i)
    {
      trace := trace + [e.Words()];
      var result := EncodeAt(e, items, i);
      if result.Refused? {
        return None, trace;
      }
    }
    assert items[..|items|] == items;
    WholeTrace(trace, items);
    var bytes := e.Finish();
    r := Some(bytes);
  }

  method DecodeItem(d: D.Decoder, model: Model, strict: bool, ghost s: Interval, ghost sym: u32)
    returns (r: D.DecodeResult)
    requires d.Valid() && model.Usable()
    modifies d`low, d`high, d`code, d`pos
    ensures d.Valid()
    ensures r.Failed? <==> strict && |d.buf| < old(d.pos + D.Refills(d.Words().Width()))
    ensures r.Decoded? ==>
              r.symbol < |model.Row()|
                && d.Words() == D.Selected(D.Refilled(old(d.Words()), d.buf), model.Row(), r.symbol)
    ensures r.Decoded? && old(D.Follows(d.Words(), d.buf, s))
            && D.Continues(Normalize(s), model.Row(), sym, |model.Row()|, model.Step(), d.buf) ==>
            r.symbol == sym && D.Follows(d.Words(), d.buf, Chosen(Normalize(s), model.Row(), sym))
  {
    match model {
      case Single(row, step) =>
        assert row + [] == row;
        r := d.DecodeWith(row, [], |row|, step, strict, s, sym);
      case Paired(row0, row1) =>
        r := d.DecodeWith(row0, row1, 512, 512, strict, s, sym);
    }
  }

  /** Digits that the symbols before symbol `i` have produced. */
  function DigitsBefore(items: seq<Item>, i: nat): nat
    requires AcceptsAll(items) && i < |items|
  {
    Nested(items, i, []);
    Run(items[..i]).shifts
  }

  /** Symbol `i` can be read from the finished stream of the items without going
      past its end: what `Finish` leaves out are digits that only later symbols
      have produced. */
  predicate Readable(items: seq<Item>, i: nat)
    requires AcceptsAll(items) && i < |items|
  {
    DigitsBefore(items, i) + LostDigits(Run(items)) <= Run(items).shifts
  }

  /** Digits never become fewer as symbols are added. */
  lemma DigitsGrow(items: seq<Item>, i: nat, j: nat)
    requires AcceptsAll(items) && i <= j < |items|
    ensures DigitsBefore(items, i) <= DigitsBefore(items, j) <= Run(items).shifts
  {
    hide Run, Holds;
    Nested(items, j, []);
    Nested(items[..j], i, []);
    assert items[..j][..i] == items[..i];
  }

  lemma RefillsReadDigits(d: D.DecoderWords, buf: seq<u8>, s: Interval)
    requires D.Follows(d, buf, s)
    ensures s.shifts + D.Refills(d.Width()) == Normalize(s).shifts
  {
    D.WidthFollows(d, buf, s);
    RefillsAreShifts(s);
  }

  lemma {:induction false} RefillsAreShifts(s: Interval)
    ensures s.shifts + D.Refills(s.range) == Normalize(s).shifts
    decreases 0x100_0000 - s.range
  {
    if s.range < 0x100_0000 {
      RefillsAreShifts(Shift(s));
    }
  }

  /** A decoder that has followed the first `i` items sees item `i` next. */
  lemma NextSymbol(items: seq<Item>, i: nat, d: D.DecoderWords, buf: seq<u8>)
    requires AllUsable(items) && AcceptsAll(items) && i < |items| && Holds(Run(items), buf)
    requires AcceptsAll(items[..i]) && D.Follows(d, buf, LazyRun(items[..i]))
    ensures AcceptsAll(items[..i + 1])
    ensures var s, model := Normalize(LazyRun(items[..i])), items[i].model;
            && D.Continues(s, model.Row(), items[i].symbol, |model.Row()|, model.Step(), buf)
            && LazyRun(items[..i + 1]) == Chosen(s, model.Row(), items[i].symbol)
            && (4 + LazyRun(items[..i]).shifts <= |buf| ==>
                (d.pos + D.Refills(d.Width()) <= |buf| <==> DigitsBefore(items, i) + 4 <= |buf|))
            && LazyRun(items[..i + 1]).shifts == DigitsBefore(items, i)
  {
    hide Holds, Prefix, D.Refills, Normalize, AcceptsAll, LazyRun, Run, Accepts;
    assert items[i].Usable();
    Nested(items, i + 1, buf);
    RunNormalizes(items[..i]);
    Extend(items, i);
    RefillsReadDigits(d, buf, LazyRun(items[..i]));
  }

  lemma NextWords(items: seq<Item>, i: nat, buf: seq<u8>)
    requires AcceptsAll(items) && i < |items| && |buf| >= 4
    ensures AcceptsAll(items[..i]) && AcceptsAll(items[..i + 1]) && items[i].symbol < |items[i].model.Row()|
    ensures DecoderAfter(items[..i + 1], buf)
            == D.Selected(DecoderBefore(items[..i], buf), items[i].model.Row(), items[i].symbol)
  {
    Nested(items, i, []);
    Nested(items, i + 1, []);
    assert items[..i + 1][..i] == items[..i];
    hide D.Refilled, D.Selected;
  }

  lemma PaddingHolds(s: Interval, bytes: seq<u8>)
    requires Holds(s, bytes)
    ensures Holds(s, bytes + [0, 0, 0, 0])
  {
    PrefixIgnoresZeros(bytes, [0, 0, 0, 0], 4 + s.shifts);
  }

  lemma NothingYet(items: seq<Item>, buf: seq<u8>)
    requires |buf| >= 4
    ensures AcceptsAll(items[..0]) && LazyRun(items[..0]) == Run(items[..0]) == WHOLE
    ensures DecoderAfter(items[..0], buf) == D.FirstWords(buf)
  {
  }

  /** The trace keeps the decoder's refilled words before each symbol. */
  ghost predicate DecoderTrace(trace: seq<D.DecoderWords>, items: seq<Item>, buf: seq<u8>)
    requires AcceptsAll(items) && |buf| >= 4
  {
    |trace| <= |items| && forall i :: 0 <= i < |trace| ==>
      (Nested(items, i, []); trace[i] == DecoderBefore(items[..i], buf))
  }

  /** Decoding from the zero-padded stream of any items gives back their symbols.
      The strict decoder stops at the first symbol before which more digits were
      produced than the stream holds. */
  method DecodeAll(bytes: seq<u8>, models: seq<Model>, strict: bool, ghost items: seq<Item>)
    returns (symbols: seq<u32>, ghost trace: seq<D.DecoderWords>)
    requires AllUsable(items) && AcceptsAll(items) && Holds(Run(items), bytes)
    requires |models| == |items| && forall i :: 0 <= i < |items| ==> models[i] == items[i].model
    ensures |symbols| <= |items| && forall i :: 0 <= i < |symbols| ==> symbols[i] == items[i].symbol
    ensures !strict ==> |symbols| == |items|
    ensures strict ==> forall i :: 0 <= i < |items| ==> (i < |symbols| <==> DigitsBefore(items, i) <= |bytes|)
    ensures DecoderTrace(trace, items, bytes + [0, 0, 0, 0]) && |trace| == |symbols|
  {
    hide Holds, Prefix, D.Follows, D.Refills, D.Refilled, D.Selected, Normalize, AcceptsAll, LazyRun, Run, Accepts,
         Chosen, DecoderAfter, DigitsBefore;
    var d := new D.Decoder.Padded(bytes);
    ghost var buf := d.buf;
    NothingYet(items, buf);
    symbols, trace := [], [];
    PaddingHolds(Run(items), bytes);
    for i := 0 to |models|
      invariant d.Valid() && fresh(d) && d.buf == buf
      invariant AcceptsAll(items[..i]) && D.Follows(d.Words(), buf, LazyRun(items[..i]))
      invariant d.Words() == DecoderAfter(items[..i], buf)
      invariant |symbols| == i && forall k :: 0 <= k < i ==> symbols[k] == items[k].symbol
      invariant |trace| == i && DecoderTrace(trace, items, buf)
      invariant strict ==> LazyRun(items[..i]).shifts <= |bytes| && forall k :: 0 <= k < i ==>
                DigitsBefore(items, k) <= |bytes|
    {
      NextSymbol(items, i, d.Words(), buf);
      NextWords(items, i, buf);
      ghost var before := D.Refilled(d.Words(), buf);
      var result := DecodeItem(d, models[i], strict, LazyRun(items[..i]), items[i].symbol);
      if result.Failed? {
        forall j | i <= j < |items|
          ensures DigitsBefore(items, j) > |bytes|
        {
          DigitsGrow(items, i, j);
        }
        return;
      }
      symbols, trace := symbols + [result.symbol], trace + [before];
    }
  }

  lemma ReadableByte(items: seq<Item>, i: nat, length: nat)
    requires AcceptsAll(items) && i < |items| && Run(items).shifts <= length + LostDigits(Run(items))
    requires Straddles(Run(items)) ==> length + LostDigits(Run(items)) == Run(items).shifts
    ensures DigitsBefore(items, i) <= length <==> Readable(items, i)
  {
    hide DigitsBefore, TrailingOnes, Straddles, Run, AcceptsAll;
    DigitsGrow(items, i, i);
  }

  /** A stream of the finished length holds the digits before exactly the readable
      symbols. */
  lemma ReadableBytes(items: seq<Item>, length: nat)
    requires AcceptsAll(items) && Run(items).shifts <= length + LostDigits(Run(items))
    requires Straddles(Run(items)) ==> length + LostDigits(Run(items)) == Run(items).shifts
    ensures forall i :: 0 <= i < |items| ==> (DigitsBefore(items, i) <= length <==> Readable(items, i))
  {
    hide DigitsBefore, Readable, LostDigits, Straddles, Run, AcceptsAll;
    forall i | 0 <= i < |items|
      ensures DigitsBefore(items, i) <= length <==> Readable(items, i)
    {
      ReadableByte(items, i, length);
    }
  }

  /** Before each symbol both ends have the same low and high words. */
  lemma TracesAgree(items: seq<Item>, buf: seq<u8>, sent: seq<EncoderWords>, seen: seq<D.DecoderWords>)
    requires AcceptsAll(items) && |buf| >= 4 && EncoderTrace(sent, items) && DecoderTrace(seen, items, buf)
    ensures forall i :: 0 <= i < |seen| ==> seen[i].low == sent[i].low && seen[i].high == sent[i].high
  {
    hide DecoderBefore, EncoderAfter;
    forall i | 0 <= i < |seen|
      ensures seen[i].low == sent[i].low && seen[i].high == sent[i].high
    {
      Nested(items, i, []);
      Lockstep(items[..i], buf);
    }
  }

  /** The round trip. The padded, lenient decoder returns the symbols of every
      sequence that was encoded, the strict one those that are readable, and before
      each symbol both ends have the same words. */
  method RoundTrip(items: seq<Item>, strict: bool)
    returns (encoded: bool, symbols: seq<u32>, ghost sent: seq<EncoderWords>, ghost seen: seq<D.DecoderWords>)
    requires AllUsable(items)
    ensures encoded <==> AcceptsAll(items)
    ensures encoded ==> |symbols| <= |items|
    ensures encoded && !strict ==> |symbols| == |items|
    ensures encoded && strict ==> forall i :: 0 <= i < |items| ==> (i < |symbols| <==> Readable(items, i))
    ensures encoded ==> forall i :: 0 <= i < |symbols| ==> symbols[i] == items[i].symbol
    ensures encoded ==>
              var bytes := Finished(EncoderAfter(items));
              && EncoderTrace(sent, items) && |sent| == |items|
              && DecoderTrace(seen, items, bytes + [0, 0, 0, 0]) && |seen| == |symbols|
    ensures encoded ==> forall i :: 0 <= i < |symbols| ==> seen[i].low == sent[i].low && seen[i].high == sent[i].high
  {
    hide Holds, Straddles, LostDigits, DecoderBefore, EncoderAfter, DigitsBefore, Readable, Run, Finished,
         EncoderTrace, DecoderTrace, AcceptsAll;
    var bytes;
    bytes, sent := EncodeAll(items);
    if bytes.None? {
      return false, [], [], [];
    }
    encoded := true;
    var models := seq(|items|, i requires 0 <= i < |items| => items[i].model);
    symbols, seen := DecodeAll(bytes.value, models, strict, items);
    ReadableBytes(items, |bytes.value|);
    TracesAgree(items, bytes.value + [0, 0, 0, 0], sent, seen);
  }
}
