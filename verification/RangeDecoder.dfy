/** The range decoder: it refills lazily before a symbol, scales the code word by
    one 64-bit division, and finds the symbol by binary search. */
module RangeDecoder {
  import opened Words
  import opened RangeInterval
  import opened Division
  import opened WrapArithmetic

  datatype DecodeError = BufferTooSmall | EmptyTable | EndOfStream

  datatype DecodeResult = Decoded(symbol: u32) | Failed(error: DecodeError)

  datatype DecoderWords = DecoderWords(low: u32, high: u32, code: u32, pos: nat) {
    function Width(): u32 {
      (high - low) % 0x1_0000_0000
    }
  }

  /** How many bytes a refill reads. */
  function Refills(width: nat): nat
    decreases 0x100_0000 - width
  {
    if width < 0x100_0000 then 1 + Refills(width * 0x100 + 0xff) else 0
  }

  function Refill(d: DecoderWords, buf: seq<u8>): DecoderWords {
    var b: u8 := if d.pos < |buf| then buf[d.pos] else 0;
    DecoderWords(d.low * 0x100 % 0x1_0000_0000,
              d.high * 0x100 % 0x1_0000_0000 + 0xff,
              d.code * 0x100 % 0x1_0000_0000 + b,
              if d.pos < |buf| then d.pos + 1 else d.pos)
  }

  /** The decoder's words stand for the exact interval `s` and for the stream
      read up to the digits of `s`. */
  ghost predicate Follows(d: DecoderWords, buf: seq<u8>, s: Interval) {
    && s.range < 0x1_0000_0000
    && d.low == s.low % 0x1_0000_0000
    && d.high == (s.low + s.range) % 0x1_0000_0000
    && d.code == Prefix(buf, 4 + s.shifts) % 0x1_0000_0000
    && d.pos == (if 4 + s.shifts <= |buf| then 4 + s.shifts else |buf|)
  }

  lemma RefillWidth(d: DecoderWords, buf: seq<u8>)
    requires d.Width() < 0x100_0000
    ensures Refill(d, buf).Width() == d.Width() * 0x100 + 0xff
  {
    ShiftedWidth(d.low, d.high);
  }

  /** The words after as many refills as their width asks for. */
  function Refilled(d: DecoderWords, buf: seq<u8>): DecoderWords
    decreases 0x100_0000 - d.Width()
  {
    if d.Width() < 0x100_0000 then RefillWidth(d, buf); Refilled(Refill(d, buf), buf) else d
  }

  lemma RefillFollows(d: DecoderWords, buf: seq<u8>, s: Interval)
    requires Follows(d, buf, s) && s.range < 0x100_0000 && |buf| >= 4
    ensures Follows(Refill(d, buf), buf, Shift(s))
  {
    var p := Prefix(buf, 4 + s.shifts);
    var b: u8 := if 5 + s.shifts <= |buf| then buf[4 + s.shifts] else 0;
    assert Prefix(buf, 5 + s.shifts) == p * 0x100 + b;
    ShiftedWord(p, b);
    ShiftedWord(s.low, 0);
    ShiftedWord(s.low + s.range, 0xff);
  }

  lemma WidthFollows(d: DecoderWords, buf: seq<u8>, s: Interval)
    requires Follows(d, buf, s)
    ensures d.Width() == s.range
  {
    WrappedWidth(s.low, s.range);
  }

  /** The scaled code word, before Go truncates it to 32 bits. */
  function Quotient(offset: nat, rng: nat): nat
    requires rng > 0
  {
    (offset * 0x1_0000_0000 + 0xffff_ffff) / rng
  }

  /** One division answers the comparison with every cumulative frequency. */
  lemma QuotientSides(c: u32, rng: nat, offset: nat)
    requires rng > 0
    ensures Offset(c, rng) <= offset <==> c <= Quotient(offset, rng)
  {
    QuotientAtLeast(c, offset * 0x1_0000_0000 + 0xffff_ffff, rng);
    QuotientAtLeast(offset + 1, c * rng, 0x1_0000_0000);
  }

  /** Inside the current interval the quotient fits 32 bits unless the code word
      is the very last value of the interval, which no symbol ever contains. */
  lemma QuotientFits(offset: nat, rng: nat)
    requires 0 < rng && offset <= rng
    ensures Quotient(offset, rng) < 0x1_0000_0000 <==> offset < rng
  {
    QuotientAtLeast(0x1_0000_0000, offset * 0x1_0000_0000 + 0xffff_ffff, rng);
    if offset < rng {
      assert offset * 0x1_0000_0000 + 0xffff_ffff < rng * 0x1_0000_0000;
    }
  }

  /** The answer of a linear scan limited to symbols 0 through `last`: every entry
      before the symbol is at most `scaled`, the symbol's own entry is not. */
  predicate Located(row: seq<u32>, scaled: u32, last: nat, symbol: nat) {
    && symbol <= last < |row|
    && (forall i :: 0 <= i < symbol ==> row[i] <= scaled)
    && (symbol < last ==> scaled < row[symbol])
  }

  lemma LocatedOnce(row: seq<u32>, scaled: u32, last: nat, a: nat, b: nat)
    requires Located(row, scaled, last, a) && Located(row, scaled, last, b)
    ensures a == b
  {
  }

  /** The scaled code word as the source computes it: the 64-bit quotient, cut to
      32 bits. */
  function Scale(code: u32, low: u32, rng: nat): u32
    requires rng > 0
  {
    Quotient((code - low) % 0x1_0000_0000, rng) % 0x1_0000_0000
  }

  function Scaled(d: DecoderWords): u32
    requires d.Width() > 0
  {
    Scale(d.code, d.low, d.Width())
  }

  predicate IsPowerOfTwo(n: nat)
    decreases n
  {
    n == 1 || (n > 1 && n % 2 == 0 && IsPowerOfTwo(n / 2))
  }

  /** The last symbol a search of the given first step can reach. */
  function LastReachable(symbols: nat, step: nat): nat
    requires symbols > 0 && step > 0
  {
    (if step < symbols then step else symbols) - 1
  }

  /** The words after a symbol's interval has been selected. */
  function Selected(d: DecoderWords, row: seq<u32>, symbol: nat): DecoderWords
    requires symbol < |row|
  {
    d.(high := (d.low + Offset(row[symbol], d.Width()) - 1) % 0x1_0000_0000,
       low := (d.low + Offset(Lower(row, symbol), d.Width())) % 0x1_0000_0000)
  }

  /** The stream continues with symbol `sym` of this row, and a search with this
      first step can reach it. */
  ghost predicate Continues(s: Interval, row: seq<u32>, sym: nat, symbols: nat, step: nat, stream: seq<u8>) {
    && 0 < symbols <= |row| && IsPowerOfTwo(step) && Monotone(row)
    && sym <= LastReachable(symbols, step)
    && Accepts(s, row, sym) && Holds(Chosen(s, row, sym), stream)
  }

  lemma ScaledIsQuotient(d: DecoderWords, buf: seq<u8>, s: Interval)
    requires Follows(d, buf, s) && s.range > 0 && Holds(s, buf)
    ensures d.Width() == s.range
    ensures Scaled(d) == Quotient(Prefix(buf, 4 + s.shifts) - s.low, s.range) % 0x1_0000_0000
  {
    WrappedWidth(s.low, s.range);
    WrappedWidth(s.low, Prefix(buf, 4 + s.shifts) - s.low);
  }

  /** A stream that the encoder has placed inside the interval of `sym` scales to
      a value that only `sym` answers. */
  lemma ScaledSelects(s: Interval, row: seq<u32>, sym: nat, symbols: nat, step: nat, stream: seq<u8>)
    requires s.range > 0 && Continues(s, row, sym, symbols, step, stream)
    ensures Holds(s, stream)
    ensures var q := Quotient(Prefix(stream, 4 + s.shifts) - s.low, s.range);
            q < 0x1_0000_0000 && Located(row, q, LastReachable(symbols, step), sym)
  {
    ChosenKeepsStream(s, row, sym, stream);
    var offset := Prefix(stream, 4 + s.shifts) - s.low;
    QuotientSides(Lower(row, sym), s.range, offset);
    QuotientSides(row[sym], s.range, offset);
  }

  lemma SelectedFollows(d: DecoderWords, buf: seq<u8>, s: Interval, row: seq<u32>, sym: nat)
    requires Follows(d, buf, s) && Accepts(s, row, sym)
    ensures Follows(Selected(d, row, sym), buf, Chosen(s, row, sym))
  {
    var lower, upper := Offset(Lower(row, sym), s.range), Offset(row[sym], s.range);
    WidthFollows(d, buf, s);
    OffsetBound(row[sym], s.range);
    hide Offset, Prefix;
    WrappedSum(s.low, upper - 1);
    WrappedSum(s.low, lower);
    assert s.low + lower + (upper - 1 - lower) == s.low + (upper - 1);
  }

  lemma RefilledRange(d: DecoderWords, buf: seq<u8>, s: Interval)
    requires Follows(d, buf, Normalize(s)) && d.Width() >= 0x100_0000
    ensures Normalize(s).range > 0
  {
    WidthFollows(d, buf, Normalize(s));
  }

  /** Reading a stream that the encoder has placed inside the interval of `sym`,
      a search can only answer `sym`, and the words then follow the encoder's. */
  lemma SelectsEncoded(d: DecoderWords, buf: seq<u8>, s: Interval, row: seq<u32>, sym: nat,
                       symbols: nat, step: nat, found: nat)
    requires Follows(d, buf, s) && s.range > 0 && d.Width() > 0
    requires Continues(s, row, sym, symbols, step, buf)
    requires Located(row, Scaled(d), LastReachable(symbols, step), found)
    ensures found == sym
    ensures Follows(Selected(d, row, sym), buf, Chosen(s, row, sym))
  {
    hide Follows, Chosen, Accepts, Holds, Quotient, Prefix, Selected;
    ScaledSelects(s, row, sym, symbols, step, buf);
    ScaledIsQuotient(d, buf, s);
    LocatedOnce(row, Scaled(d), LastReachable(symbols, step), sym, found);
    SelectedFollows(d, buf, s, row, sym);
  }

  function BigEndian(bytes: seq<u8>): (word: u32)
    requires |bytes| >= 4
    ensures word == Prefix(bytes, 4)
  {
    var b0: int, b1: int, b2: int, b3: int := bytes[0], bytes[1], bytes[2], bytes[3];
    assert Prefix(bytes, 1) == b0;
    assert Prefix(bytes, 2) == b0 * 0x100 + b1;
    assert Prefix(bytes, 3) == b0 * 0x1_0000 + b1 * 0x100 + b2;
    b0 * 0x100_0000 + b1 * 0x1_0000 + b2 * 0x100 + b3
  }

  /** The words before anything is decoded. */
  function FirstWords(buf: seq<u8>): DecoderWords
    requires |buf| >= 4
  {
    DecoderWords(0, MAX_U32, BigEndian(buf), 4)
  }

  class Decoder {
    var low: u32
    var high: u32
    var code: u32
    var buf: seq<u8>
    var pos: nat

    function Words(): DecoderWords
      reads this
    {
      DecoderWords(low, high, code, pos)
    }

    predicate Valid()
      reads this
    {
      |buf| >= 4 && pos <= |buf|
    }

    /** The first four bytes are the initial code word. */
    constructor (bytes: seq<u8>)
      requires |bytes| >= 4
      ensures Valid() && buf == bytes && Words() == FirstWords(buf) && Follows(Words(), bytes, WHOLE)
    {
      low, high, code, buf, pos := 0, MAX_U32, BigEndian(bytes), bytes, 4;
    }

    /** Pads short streams, so that the initial code word can always be read. */
    constructor Padded(bytes: seq<u8>)
      ensures Valid() && buf == bytes + [0, 0, 0, 0] && Words() == FirstWords(buf) && Follows(Words(), buf, WHOLE)
    {
      var padded: seq<u8> := bytes + [0, 0, 0, 0];
      low, high, code, buf, pos := 0, MAX_U32, BigEndian(padded), padded, 4;
    }

    /** Strict refilling fails exactly when the buffer has too few bytes left. */
    method Renormalize(strict: bool, ghost s: Interval) returns (ok: bool)
      requires Valid()
      modifies this`low, this`high, this`code, this`pos
      ensures Valid()
      ensures ok <==> !strict || old(pos + Refills(Words().Width())) <= |buf|
      ensures ok ==> Words().Width() >= 0x100_0000 && Words() == Refilled(old(Words()), buf)
      ensures ok && old(Follows(Words(), buf, s)) ==> Follows(Words(), buf, Normalize(s))
    {
      hide Follows, Prefix;
      ghost var t := s;
      ghost var follows := Follows(Words(), buf, s);
      if follows {
        WidthFollows(Words(), buf, s);
      }
      while (high - low) % 0x1_0000_0000 <= 0xff_ffff
        invariant Valid()
        invariant follows ==> Follows(Words(), buf, t) && Words().Width() == t.range
        invariant Normalize(t) == Normalize(s) || !follows
        invariant Refilled(Words(), buf) == Refilled(old(Words()), buf)
        invariant strict ==> pos + Refills(Words().Width()) == old(pos + Refills(Words().Width()))
        decreases 0x100_0000 - Words().Width()
      {
        if strict && pos >= |buf| {
          return false;
        }
        RefillWidth(Words(), buf);
        if follows {
          RefillFollows(Words(), buf, t);
          t := Shift(t);
        }
        ghost var next := Refill(Words(), buf);
        high := high * 0x100 % 0x1_0000_0000 + 0xff;
        low := low * 0x100 % 0x1_0000_0000;
        var b: u8 := 0;
        if pos < |buf| {
          b := buf[pos];
          pos := pos + 1;
        }
        code := code * 0x100 % 0x1_0000_0000 + b;
        assert Words() == next;
      }
      ok := true;
    }

    static function CumulativeAt(cumulative0: seq<u32>, cumulative1: seq<u32>, index: nat): (c: u32)
      requires index < |cumulative0| + |cumulative1|
      ensures c == (cumulative0 + cumulative1)[index]
    {
      if index < |cumulative0| then cumulative0[index] else cumulative1[index - |cumulative0|]
    }

    /** The binary search over a monotone row answers like a linear scan, when its
        first step is a power of two. */
    static method Search(cumulative0: seq<u32>, cumulative1: seq<u32>, symbols: u32, firstStep: u32, scaled: u32)
      returns (symbol: u32)
      requires 0 < symbols <= |cumulative0| + |cumulative1|
      ensures symbol < symbols
      ensures Monotone(cumulative0 + cumulative1) && IsPowerOfTwo(firstStep) ==>
              Located(cumulative0 + cumulative1, scaled, LastReachable(symbols, firstStep), symbol)
    {
      ghost var row := cumulative0 + cumulative1;
      symbol := 0;
      var step := firstStep / 2;
      ghost var span: nat := firstStep;  // the step before it was halved
      while step != 0
        invariant step == span / 2 && symbol <= symbols && symbol + span <= 0xffff_ffff
        invariant IsPowerOfTwo(firstStep) ==> IsPowerOfTwo(span)
        invariant symbol + span <= firstStep
        invariant symbol > 0 ==> row[symbol - 1] <= scaled
        invariant IsPowerOfTwo(firstStep) ==>
                  symbol + span == firstStep || symbol + span > symbols || scaled < row[symbol + span - 1]
        decreases step
      {
        var candidate := symbol + step;
        if candidate != 0 && candidate <= symbols &&
           CumulativeAt(cumulative0, cumulative1, candidate - 1) <= scaled {
          symbol := candidate;
        }
        span := step;
        step := step / 2;
      }
      if symbol >= symbols {
        symbol := symbols - 1;
      }
    }

    /** Moves to the share of `symbol` in the range `rng`. */
    method Select(cumulative0: seq<u32>, cumulative1: seq<u32>, symbol: u32, rng: u32)
      requires symbol < |cumulative0| + |cumulative1| && rng == Words().Width()
      modifies this`low, this`high
      ensures Words() == Selected(old(Words()), cumulative0 + cumulative1, symbol)
    {
      hide Offset;
      var upper := CumulativeAt(cumulative0, cumulative1, symbol);
      ghost var row := cumulative0 + cumulative1;
      OffsetBound(0, rng);
      high := (low + Offset(upper, rng) - 1) % 0x1_0000_0000;
      if symbol != 0 {
        var lower := CumulativeAt(cumulative0, cumulative1, symbol - 1);
        low := (low + Offset(lower, rng)) % 0x1_0000_0000;
      }
    }

    /** For every interval `s` the decoder may be following and every symbol
        `sym` the stream may continue with: that symbol is what it returns. */
    method DecodeWith(cumulative0: seq<u32>, cumulative1: seq<u32>, symbols: u32, step: u32, strict: bool,
                      ghost s: Interval, ghost sym: nat)
      returns (r: DecodeResult)
      requires Valid() && symbols <= |cumulative0| + |cumulative1|
      modifies this`low, this`high, this`code, this`pos
      ensures Valid()
      ensures r.Failed? <==> symbols == 0 || (strict && |buf| < old(pos + Refills(Words().Width())))
      ensures r.Failed? ==> r.error == (if symbols == 0 then EmptyTable else EndOfStream)
      ensures r.Decoded? ==>
                r.symbol < symbols
                && Words() == Selected(Refilled(old(Words()), buf), cumulative0 + cumulative1, r.symbol)
      ensures r.Decoded? && old(Follows(Words(), buf, s))
              && Continues(Normalize(s), cumulative0 + cumulative1, sym, symbols, step, buf) ==>
              r.symbol == sym && Follows(Words(), buf, Chosen(Normalize(s), cumulative0 + cumulative1, sym))
    {
      hide Refills, Refilled, Follows, Normalize, Chosen, Accepts, Holds, Scale, Selected, IsPowerOfTwo;
      if symbols == 0 {
        return Failed(EmptyTable);
      }
      ghost var follows := Follows(Words(), buf, s);
      var ok := Renormalize(strict, s);
      if !ok {
        return Failed(EndOfStream);
      }
      ghost var row, d := cumulative0 + cumulative1, Words();
      var rng := (high - low) % 0x1_0000_0000;
      // The source's check for a zero range cannot fail here: a refilled range is
      // at least 2^24.
      assert rng != 0;
      var scaled := Scale(code, low, rng);
      var symbol := Search(cumulative0, cumulative1, symbols, step, scaled);
      Select(cumulative0, cumulative1, symbol, rng);
      r := Decoded(symbol);
      if follows && Continues(Normalize(s), row, sym, symbols, step, buf) {
        RefilledRange(d, buf, s);
        SelectsEncoded(d, buf, Normalize(s), row, sym, symbols, step, symbol);
      }
    }
  }
}
