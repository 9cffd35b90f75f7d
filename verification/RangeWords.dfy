/** The wrapped 32-bit words of the range encoder, and what they denote in exact
    arithmetic. A byte whose value a later carry may still change waits in
    `cache`, followed by `pending` bytes of 0xff. */
module RangeWords {
  import opened Words
  import opened RangeInterval
  import opened WrapArithmetic

  /** `count` copies of one byte. */
  function Repeat(b: u8, count: nat): (bytes: seq<u8>)
    ensures |bytes| == count
    ensures forall k :: 0 <= k < count ==> bytes[k] == b
  {
    seq(count, _ => b)
  }

  /** The digits an encoder has produced so far: what it emitted, the cached
      byte, and the deferred 0xff bytes. */
  function Digits(out: seq<u8>, cache: int, pending: nat): seq<u8>
    requires -1 <= cache <= 0xff
  {
    out + (if cache >= 0 then [cache] else []) + Repeat(0xff, pending)
  }

  /** The same digits after a carry has run through the deferred bytes. */
  function Carried(out: seq<u8>, cache: int, pending: nat): seq<u8>
    requires 0 <= cache < 0xff
  {
    out + [cache + 1] + Repeat(0, pending)
  }

  lemma {:induction false} CarryAddsOne(out: seq<u8>, cache: int, pending: nat)
    requires 0 <= cache < 0xff
    ensures Value(Carried(out, cache, pending)) == Value(Digits(out, cache, pending)) + 1
  {
    var plain, carried := Digits(out, cache, pending), Carried(out, cache, pending);
    var n := |plain| - 1;
    if pending == 0 {
      assert plain[..n] == out == carried[..n];
    } else {
      CarryAddsOne(out, cache, pending - 1);
      assert plain[..n] == Digits(out, cache, pending - 1);
      assert carried[..n] == Carried(out, cache, pending - 1);
    }
  }

  lemma AppendDigit(digits: seq<u8>, b: u8)
    ensures Value(digits + [b]) == Value(digits) * 0x100 + b
  {
    assert (digits + [b])[..|digits|] == digits;
  }

  datatype EncoderWords = EncoderWords(
    low: u32, high: u32, previousLow: u32, cache: int, pending: nat, out: seq<u8>)
  {
    function Width(): u32 {
      (high - low) % 0x1_0000_0000
    }
  }

  const INITIAL := EncoderWords(0, MAX_U32, 0, -1, 0, [])

  /** What the wrapped words denote, at every point between two statements of
      the renormalisation loop. `base` is the exact low end as the last
      renormalisation left it. The last line is the carry argument: a carry can
      only come while the cached byte can absorb it. */
  ghost predicate Denotes(r: EncoderWords, exact: Interval, base: nat) {
    && exact.range < 0x1_0000_0000
    && r.low == exact.low % 0x1_0000_0000
    && r.high == (exact.low + exact.range) % 0x1_0000_0000
    && r.previousLow == base % 0x1_0000_0000
    && base <= exact.low && exact.low + exact.range < base + 0x1_0000_0000
    && -1 <= r.cache <= 0xff
    && (r.cache == -1 ==> r.out == [] && r.pending == 0)
    && Value(Digits(r.out, r.cache, r.pending)) == base / 0x1_0000_0000
    && |Digits(r.out, r.cache, r.pending)| == exact.shifts
    && ((exact.low + exact.range) / 0x1_0000_0000 == base / 0x1_0000_0000 + 1 ==> 0 <= r.cache < 0xff)
  }

  /** The words after narrowing to the offsets from `from` up to before `to`. */
  function Shrunk(r: EncoderWords, from: nat, to: nat): EncoderWords {
    r.(high := (r.low + to - 1) % 0x1_0000_0000, low := (r.low + from) % 0x1_0000_0000)
  }

  /** Flushing the cache and the pending bytes, with or without a carry. */
  function Flushed(r: EncoderWords, carry: bool): seq<u8>
    requires -1 <= r.cache <= 0xff
  {
    r.out
    + (if r.cache < 0 then [] else if carry then [(r.cache + 1) % 0x100] else [r.cache])
    + Repeat(if carry then 0 else 0xff, r.pending)
  }

  function Renormalized(r: EncoderWords): EncoderWords
    requires -1 <= r.cache <= 0xff
  {
    var next := if r.low <= r.high
                then r.(out := Flushed(r, r.low < r.previousLow), pending := 0, cache := r.low / 0x100_0000)
                else r.(pending := r.pending + 1);
    next.(high := r.high * 0x100 % 0x1_0000_0000 + 0xff,
          low := r.low * 0x100 % 0x1_0000_0000,
          previousLow := r.low * 0x100 % 0x1_0000_0000)
  }

  function Finished(r: EncoderWords): seq<u8>
    requires -1 <= r.cache <= 0xff
  {
    if r.low <= r.high
    then Flushed(r, r.low < r.previousLow) + (if r.low != 0 then [r.high / 0x100_0000] else [])
    else r.out + [(r.cache + 1) % 0x100]
  }

  lemma RenormalizedWidth(r: EncoderWords)
    requires -1 <= r.cache <= 0xff && r.Width() < 0x100_0000
    ensures Renormalized(r).Width() == r.Width() * 0x100 + 0xff
  {
    ShiftedWidth(r.low, r.high);
  }

  /** The words after as many renormalisations as their width asks for. */
  function Settled(r: EncoderWords): (s: EncoderWords)
    requires -1 <= r.cache <= 0xff
    ensures -1 <= s.cache <= 0xff
    decreases 0x100_0000 - r.Width()
  {
    if r.Width() < 0x100_0000 then RenormalizedWidth(r); Settled(Renormalized(r)) else r
  }

  /** The words after narrowing to a frequency interval. */
  function NarrowedWords(r: EncoderWords, lower: u32, upper: u32): (s: EncoderWords)
    requires -1 <= r.cache <= 0xff
    ensures -1 <= s.cache <= 0xff
  {
    Settled(Shrunk(r, Offset(lower, r.Width()), Offset(upper, r.Width())))
  }

  /** The words after a symbol has been encoded. */
  function EncodedWords(r: EncoderWords, row: seq<u32>, sym: nat): (s: EncoderWords)
    requires -1 <= r.cache <= 0xff && sym < |row|
    ensures -1 <= s.cache <= 0xff
  {
    NarrowedWords(r, Lower(row, sym), row[sym])
  }

  /** One more byte after the digits, and then zeros, is the top byte of the
      code word that follows them. */
  lemma TopByteOf(digits: seq<u8>, top: u8, shifts: nat)
    requires |digits| == shifts
    ensures Prefix(digits + [top], 4 + shifts) == Value(digits) * 0x1_0000_0000 + top * 0x100_0000
  {
    PrefixOfWhole(digits, [top]);
    var s := digits + [top];
    assert Prefix(s, shifts + 1) == Prefix(s, shifts) * 0x100 + top;
    assert Prefix(s, shifts + 2) == Prefix(s, shifts + 1) * 0x100;
    assert Prefix(s, shifts + 3) == Prefix(s, shifts + 2) * 0x100;
  }

  lemma WidthIsExact(r: EncoderWords, exact: Interval, base: nat)
    requires Denotes(r, exact, base)
    ensures r.Width() == exact.range
  {
    WrappedWidth(exact.low, exact.range);
  }

  /** Comparing the low word with its value after the last renormalisation
      detects a carry exactly, and a carry always meets a cached byte that can
      take it. */
  lemma CarryIsDetected(r: EncoderWords, exact: Interval, base: nat)
    requires Denotes(r, exact, base) && r.low <= r.high
    ensures r.low < r.previousLow ==> 0 <= r.cache < 0xff
    ensures Value(Flushed(r, r.low < r.previousLow)) == exact.low / 0x1_0000_0000
    ensures |Flushed(r, r.low < r.previousLow)| == exact.shifts
  {
    CarryShows(base, exact.low);
    SameWord(exact.low, exact.range);
    if r.low < r.previousLow {
      CarryAddsOne(r.out, r.cache, r.pending);
      assert Flushed(r, true) == Carried(r.out, r.cache, r.pending);
    } else {
      assert Flushed(r, false) == Digits(r.out, r.cache, r.pending);
    }
  }

  /** An interval that straddles a multiple of 2^32 has not carried, and the
      cached byte can absorb the carry that may come; when it is narrow enough
      to be renormalised its top byte is 0xff. */
  lemma StraddlesWithoutCarry(r: EncoderWords, exact: Interval, base: nat)
    requires Denotes(r, exact, base) && r.high < r.low
    ensures exact.range < 0x100_0000 ==> r.low / 0x100_0000 == 0xff && r.high / 0x100_0000 == 0
    ensures r.low >= r.previousLow && 0 <= r.cache < 0xff
    ensures Value(Digits(r.out, r.cache, r.pending)) == exact.low / 0x1_0000_0000
    ensures Value(Carried(r.out, r.cache, r.pending)) == (exact.low + exact.range) / 0x1_0000_0000
  {
    if exact.range < 0x100_0000 {
      NarrowEnds(exact.low, exact.range);
    }
    SameWord(exact.low, exact.range);
    CarryShows(base, exact.low);
    CarryShows(base, exact.low + exact.range);
    CarryAddsOne(r.out, r.cache, r.pending);
  }

  /** Narrowing in wrapped words is narrowing in exact arithmetic. */
  lemma NarrowRefines(r: EncoderWords, exact: Interval, base: nat, lower: u32, upper: u32)
    requires Denotes(r, exact, base) && Offset(lower, exact.range) < Offset(upper, exact.range)
    ensures Denotes(Shrunk(r, Offset(lower, exact.range), Offset(upper, exact.range)),
                    Narrow(exact, lower, upper), base)
  {
    hide Offset, Shrunk;
    OffsetBound(upper, exact.range);
    ShrinkRefines(r, exact, base, Offset(lower, exact.range), Offset(upper, exact.range));
  }

  lemma ShrinkRefines(r: EncoderWords, exact: Interval, base: nat, from: nat, to: nat)
    requires Denotes(r, exact, base) && from < to <= exact.range
    ensures Denotes(Shrunk(r, from, to), Interval(exact.low + from, to - 1 - from, exact.shifts), base)
  {
    WrappedSum(exact.low, to - 1);
    WrappedSum(exact.low, from);
    SameTop(base, exact.low + exact.range, exact.low + to - 1);
  }

  /** The digits a renormalisation leaves are those of the shifted low end. */
  lemma ShiftedDigits(r: EncoderWords, exact: Interval, base: nat)
    requires Denotes(r, exact, base) && exact.range < 0x100_0000
    ensures var s := Renormalized(r);
            && 0 <= s.cache <= 0xff
            && Value(Digits(s.out, s.cache, s.pending)) == exact.low * 0x100 / 0x1_0000_0000
            && |Digits(s.out, s.cache, s.pending)| == exact.shifts + 1
  {
    var s := Renormalized(r);
    ShiftedWord(exact.low, 0);
    if r.low <= r.high {
      CarryIsDetected(r, exact, base);
      assert Digits(s.out, s.cache, s.pending) == s.out + [s.cache];
      AppendDigit(s.out, s.cache);
    } else {
      StraddlesWithoutCarry(r, exact, base);
      assert Digits(s.out, s.cache, s.pending) == Digits(r.out, r.cache, r.pending) + [0xff];
      AppendDigit(Digits(r.out, r.cache, r.pending), 0xff);
    }
  }

  /** After a renormalisation a carry is possible only over a byte below 0xff. */
  lemma ShiftedCarry(r: EncoderWords, exact: Interval, base: nat)
    requires Denotes(r, exact, base) && exact.range < 0x100_0000
    ensures var top := (exact.low + exact.range) * 0x100 + 0xff;
            top / 0x1_0000_0000 == exact.low * 0x100 / 0x1_0000_0000 + 1 ==> Renormalized(r).cache < 0xff
  {
    NarrowEnds(exact.low, exact.range);
    ShiftedWord(exact.low, 0);
    ShiftedWord(exact.low + exact.range, 0xff);
    if r.low > r.high {
      StraddlesWithoutCarry(r, exact, base);
    }
  }

  /** Renormalising the wrapped words is shifting the exact interval. */
  lemma RenormalizeRefines(r: EncoderWords, exact: Interval, base: nat)
    requires Denotes(r, exact, base) && exact.range < 0x100_0000
    ensures Denotes(Renormalized(r), Shift(exact), exact.low * 0x100)
  {
    ShiftedDigits(r, exact, base);
    ShiftedCarry(r, exact, base);
    ShiftedWord(exact.low, 0);
    ShiftedWord(exact.low + exact.range, 0xff);
  }

  /** Both ends still share all but the code word's digits: one more byte is
      enough. */
  lemma FinishInOneWord(r: EncoderWords, exact: Interval, base: nat)
    requires Denotes(r, exact, base) && exact.range >= 0x100_0000 && r.low <= r.high
    ensures Holds(exact, Finished(r)) && exact.shifts <= |Finished(r)|
  {
    CarryIsDetected(r, exact, base);
    var digits := Flushed(r, r.low < r.previousLow);
    var top := if r.low != 0 then r.high / 0x100_0000 else 0;
    TopByteInside(exact.low, exact.range, top);
    hide Denotes, Flushed, Prefix, Value;
    TopByteOf(digits, top, exact.shifts);
    if r.low == 0 {
      PrefixIgnoresZeros(digits, [0], 4 + exact.shifts);
      assert Finished(r) == digits;
    }
  }

  /** The pending bytes that a wrapped interval leaves out are zeros after the
      carry. */
  lemma FinishAcrossWords(r: EncoderWords, exact: Interval, base: nat)
    requires Denotes(r, exact, base) && r.low > r.high
    ensures Holds(exact, Finished(r)) && |Finished(r)| + r.pending == exact.shifts
  {
    StraddlesWithoutCarry(r, exact, base);
    var short, zeros := Finished(r), Repeat(0, r.pending);
    assert short + zeros == Carried(r.out, r.cache, r.pending);
    PrefixIgnoresZeros(short, zeros, 4 + exact.shifts);
    TopByteOf(short + zeros, 0, exact.shifts);
    PrefixIgnoresZeros(short + zeros, [0], 4 + exact.shifts);
    SameWord(exact.low, exact.range);
  }

  /** The finished stream, continued with zeros, lies in the final interval. */
  lemma FinishHolds(r: EncoderWords, exact: Interval, base: nat)
    requires Denotes(r, exact, base) && exact.range >= 0x100_0000
    ensures Holds(exact, Finished(r))
    ensures r.low <= r.high ==> exact.shifts <= |Finished(r)|
    ensures r.low > r.high ==> |Finished(r)| + r.pending == exact.shifts
  {
    if r.low <= r.high {
      FinishInOneWord(r, exact, base);
    } else {
      FinishAcrossWords(r, exact, base);
    }
  }

  /** Settling the wrapped words is normalising the exact interval. */
  lemma {:induction false} SettledRefines(r: EncoderWords, exact: Interval, base: nat) returns (last: nat)
    requires Denotes(r, exact, base)
    ensures Denotes(Settled(r), Normalize(exact), last)
    decreases 0x100_0000 - exact.range
  {
    hide Denotes, Renormalized;
    WidthIsExact(r, exact, base);
    last := base;
    if exact.range < 0x100_0000 {
      RenormalizeRefines(r, exact, base);
      CacheIsByte(r, exact, base);
      RenormalizedWidth(r);
      last := SettledRefines(Renormalized(r), Shift(exact), exact.low * 0x100);
    }
  }

  lemma CacheIsByte(r: EncoderWords, exact: Interval, base: nat)
    requires Denotes(r, exact, base)
    ensures -1 <= r.cache <= 0xff && exact.range < 0x1_0000_0000
  {
  }

  lemma {:induction false} TrailingPending(out: seq<u8>, cache: int, pending: nat)
    requires 0 <= cache < 0xff
    ensures TrailingOnes(Value(Digits(out, cache, pending))) == pending
  {
    var digits := Digits(out, cache, pending);
    if pending == 0 {
      assert digits[|digits| - 1] == cache;
    } else {
      TrailingPending(out, cache, pending - 1);
      assert digits == Digits(out, cache, pending - 1) + [0xff];
      AppendDigit(Digits(out, cache, pending - 1), 0xff);
    }
  }

  /** How long the finished stream is: the digits that are lost are the pending
      ones of a straddling interval. */
  lemma FinishedLength(r: EncoderWords, exact: Interval, base: nat)
    requires Denotes(r, exact, base) && exact.range >= 0x100_0000
    ensures exact.shifts <= |Finished(r)| + LostDigits(exact)
    ensures Straddles(exact) ==> |Finished(r)| + LostDigits(exact) == exact.shifts
  {
    FinishHolds(r, exact, base);
    if Straddles(exact) {
      StraddlesWithoutCarry(r, exact, base);
      TrailingPending(r.out, r.cache, r.pending);
    }
  }
}
