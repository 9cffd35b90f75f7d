/** The carry-propagating range encoder. */
module RangeEncoder {
  import opened Words
  import opened RangeInterval
  import opened RangeWords

  datatype EncodeError = AlreadyFinished | OutsideTable | EmptyFrequency | EmptyRange

  datatype EncodeResult = Encoded | Refused(error: EncodeError)

  class Encoder {
    var low: u32
    var high: u32
    var previousLow: u32
    var cache: int
    var pending: nat
    var out: seq<u8>
    var finished: bool

    ghost var exact: Interval  // the unbounded interval that low and high stand for
    ghost var base: nat        // exact.low as the last renormalisation left it

    function Words(): EncoderWords
      reads this
    {
      EncoderWords(low, high, previousLow, cache, pending, out)
    }

    ghost predicate Valid()
      reads this
    {
      !finished ==> Denotes(Words(), exact, base) && exact.range >= 0x100_0000
    }

    constructor ()
      ensures Valid() && !finished && exact == WHOLE && Words() == INITIAL
    {
      low, high, previousLow := 0, MAX_U32, 0;
      cache, pending, out, finished := -1, 0, [], false;
      exact, base := WHOLE, 0;
    }

    /** Succeeds exactly when the symbol has a share of the exact range, and then
        moves to that share. */
    method EncodeSymbol(cumulative: seq<u32>, sym: u32) returns (r: EncodeResult)
      requires Valid()
      modifies this
      ensures Valid() && finished == old(finished)
      ensures r.Encoded? <==> !old(finished) && Accepts(old(exact), cumulative, sym)
      ensures r.Encoded? ==> exact == Normalize(Chosen(old(exact), cumulative, sym))
      ensures r.Encoded? ==> -1 <= old(cache) <= 0xff && Words() == EncodedWords(old(Words()), cumulative, sym)
      ensures r.Refused? ==> exact == old(exact) && Words() == old(Words())
    {
      if sym >= |cumulative| {
        return Refused(OutsideTable);
      }
      var lower: u32 := 0;
      if sym != 0 {
        lower := cumulative[sym - 1];
      }
      r := EncodeInterval(sym, lower, cumulative[sym]);
    }

    /** The two rows are consecutive halves of one cumulative distribution. */
    method EncodeSymbol2x256(cumulative0: seq<u32>, cumulative1: seq<u32>, sym: u32) returns (r: EncodeResult)
      requires Valid() && |cumulative0| == |cumulative1| == 256
      modifies this
      ensures Valid() && finished == old(finished)
      ensures r.Encoded? <==> !old(finished) && Accepts(old(exact), cumulative0 + cumulative1, sym)
      ensures r.Encoded? ==> exact == Normalize(Chosen(old(exact), cumulative0 + cumulative1, sym))
      ensures r.Encoded? ==> -1 <= old(cache) <= 0xff
                             && Words() == EncodedWords(old(Words()), cumulative0 + cumulative1, sym)
      ensures r.Refused? ==> exact == old(exact) && Words() == old(Words())
    {
      if sym >= 512 {
        return Refused(OutsideTable);
      }
      var lower: u32 := 0;
      if sym != 0 {
        lower := PairedCumulative(cumulative0, cumulative1, sym - 1);
      }
      var upper := PairedCumulative(cumulative0, cumulative1, sym);
      r := EncodeInterval(sym, lower, upper);
    }

    static function PairedCumulative(cumulative0: seq<u32>, cumulative1: seq<u32>, index: u32): (c: u32)
      requires |cumulative0| == |cumulative1| == 256 && index < 512
      ensures c == (cumulative0 + cumulative1)[index]
    {
      if index < 256 then cumulative0[index] else cumulative1[index - 256]
    }

    method EncodeInterval(sym: u32, lower: u32, upper: u32) returns (r: EncodeResult)
      requires Valid() && (sym == 0 ==> lower == 0)
      modifies this
      ensures Valid() && finished == old(finished)
      ensures r.Encoded? <==>
              !old(finished) && lower < upper && Offset(lower, old(exact).range) < Offset(upper, old(exact).range)
      ensures r.Encoded? ==> exact == Normalize(Narrow(old(exact), lower, upper))
      ensures r.Encoded? ==> -1 <= old(cache) <= 0xff && Words() == NarrowedWords(old(Words()), lower, upper)
      ensures r.Refused? ==> exact == old(exact) && Words() == old(Words())
    {
      hide Offset, Normalize, Denotes, Shrunk;
      if finished {
        return Refused(AlreadyFinished);
      }
      if upper <= lower {
        return Refused(EmptyFrequency);
      }
      var rng := Words().Width();
      WidthIsExact(Words(), exact, base);
      CacheIsByte(Words(), exact, base);
      var upperOffset := Offset(upper, rng);
      var lowerOffset := Offset(lower, rng);
      if upperOffset <= lowerOffset {
        return Refused(EmptyRange);
      }
      OffsetBound(lower, rng);
      NarrowRefines(Words(), exact, base, lower, upper);
      Shrink(sym, lowerOffset, upperOffset);
      exact := Narrow(exact, lower, upper);
      Settle();
      r := Encoded;
    }

    method Shrink(sym: u32, lowerOffset: nat, upperOffset: nat)
      requires sym == 0 ==> lowerOffset == 0
      modifies this`low, this`high
      ensures Words() == Shrunk(old(Words()), lowerOffset, upperOffset)
    {
      high := (low + upperOffset - 1) % 0x1_0000_0000;
      if sym != 0 {
        low := (low + lowerOffset) % 0x1_0000_0000;
      }
    }

    /** The loop that restores a range above the threshold. */
    method Settle()
      requires !finished && Denotes(Words(), exact, base)
      modifies this`low, this`high, this`previousLow, this`cache, this`pending, this`out, this`exact, this`base
      ensures Valid() && exact == Normalize(old(exact)) && Words() == Settled(old(Words()))
    {
      hide Renormalized;
      WidthIsExact(Words(), exact, base);
      while (high - low) % 0x1_0000_0000 <= 0xff_ffff
        invariant Denotes(Words(), exact, base) && Words().Width() == exact.range
        invariant Normalize(exact) == Normalize(old(exact)) && Settled(Words()) == Settled(old(Words()))
        decreases 0x100_0000 - exact.range
      {
        RenormalizeRefines(Words(), exact, base);
        Renormalize();
        base := exact.low * 0x100;
        exact := Shift(exact);
        WidthIsExact(Words(), exact, base);
      }
    }

    method Renormalize()
      requires -1 <= cache <= 0xff
      modifies this`low, this`high, this`previousLow, this`cache, this`pending, this`out
      ensures Words() == Renormalized(old(Words()))
    {
      if low <= high {
        var carry := low < previousLow;
        FlushCacheAndPending(carry);
        cache := low / 0x100_0000;
      } else {
        pending := pending + 1;
      }
      high := high * 0x100 % 0x1_0000_0000 + 0xff;
      low := low * 0x100 % 0x1_0000_0000;
      previousLow := low;
    }

    method FlushCacheAndPending(carry: bool)
      requires -1 <= cache <= 0xff
      modifies this`out, this`pending
      ensures out == Flushed(old(Words()), carry) && pending == 0
    {
      if cache >= 0 {
        var b: u8 := cache;
        if carry {
          b := (b + 1) % 0x100;
        }
        out := out + [b];
      }
      ghost var flushed, count := out, pending;
      var pendingByte: u8 := 0xff;
      if carry {
        pendingByte := 0;
      }
      while pending != 0
        invariant pending <= count
        invariant out == flushed + Repeat(pendingByte, count - pending)
      {
        out := out + [pendingByte];
        pending := pending - 1;
      }
    }

    /** The finished stream, continued with zeros, lies in the final interval; a
        second call returns the same bytes. */
    method Finish() returns (bytes: seq<u8>)
      requires Valid()
      modifies this
      ensures Valid() && finished && bytes == out && exact == old(exact)
      ensures old(finished) ==> bytes == old(out)
      ensures !old(finished) ==> bytes == Finished(old(Words())) && Holds(exact, bytes)
      ensures !old(finished) ==> exact.shifts <= |bytes| + LostDigits(exact)
      ensures !old(finished) && Straddles(exact) ==> |bytes| + LostDigits(exact) == exact.shifts
    {
      if finished {
        return out;
      }
      FinishHolds(Words(), exact, base);
      FinishedLength(Words(), exact, base);
      StraddleOnlyOverCache();
      finished := true;
      if low <= high {
        var carry := low < previousLow;
        FlushCacheAndPending(carry);
        if low != 0 {
          out := out + [high / 0x100_0000];
        }
      } else {
        out := out + [(cache + 1) % 0x100];
      }
      bytes := out;
    }

    lemma StraddleOnlyOverCache()
      requires Denotes(Words(), exact, base)
      ensures low > high ==> 0 <= cache < 0xff
    {
      if low > high {
        StraddlesWithoutCarry(Words(), exact, base);
      }
    }
  }
}
