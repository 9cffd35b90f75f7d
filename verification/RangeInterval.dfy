/** The interval arithmetic that the range encoder and decoder share, without
    any wrap-around: `low` is the exact sum of all lower offsets, scaled by 256
    at every renormalisation, and is never reduced modulo 2^32. */
module RangeInterval {
  import opened Words

  datatype Interval = Interval(low: nat, range: nat, shifts: nat)

  const WHOLE := Interval(0, MAX_U32, 0)

  /** Where the cumulative frequency `cumulative` falls inside `range`. */
  function Offset(cumulative: u32, range: nat): nat {
    cumulative * range / 0x1_0000_0000
  }

  function Narrow(s: Interval, lower: u32, upper: u32): Interval
    requires Offset(lower, s.range) < Offset(upper, s.range)
  {
    Interval(s.low + Offset(lower, s.range),
             Offset(upper, s.range) - 1 - Offset(lower, s.range),
             s.shifts)
  }

  function Shift(s: Interval): Interval {
    Interval(s.low * 0x100, s.range * 0x100 + 0xff, s.shifts + 1)
  }

  /** Shifts until the range exceeds the threshold of 2^24 - 1. */
  function Normalize(s: Interval): Interval
    decreases 0x100_0000 - s.range
  {
    if s.range < 0x100_0000 then Normalize(Shift(s)) else s
  }

  lemma {:induction false} NormalizeRange(s: Interval)
    requires s.range < 0x1_0000_0000
    ensures 0x100_0000 <= Normalize(s).range < 0x1_0000_0000
    ensures s.shifts <= Normalize(s).shifts <= s.shifts + 4
    ensures Normalize(s).shifts == s.shifts + 4 ==> s.range == 0
  {
    if s.range < 0x100_0000 {
      var a := Shift(s);
      if a.range < 0x100_0000 {
        var b := Shift(a);
        if b.range < 0x100_0000 {
          var c := Shift(b);
          if c.range < 0x100_0000 {
            var d := Shift(c);
            assert d.range >= 0x100_0000;
            assert Normalize(d) == d;
            assert Normalize(c) == d;
          }
          assert Normalize(b) == Normalize(c);
        }
        assert Normalize(a) == Normalize(b);
      }
      assert Normalize(s) == Normalize(a);
    }
  }

  /** An offset never exceeds the range, so narrowing stays inside. */
  lemma OffsetBound(cumulative: u32, range: nat)
    ensures Offset(cumulative, range) <= range
    ensures cumulative == 0 ==> Offset(cumulative, range) == 0
    ensures range > 0 ==> Offset(cumulative, range) < range
  {
    if range > 0 {
      assert cumulative * range < 0x1_0000_0000 * range;
    }
  }

  /** The frequency interval of symbol `sym` in a cumulative row. */
  function Lower(row: seq<u32>, sym: nat): u32
    requires sym < |row|
  {
    if sym == 0 then 0 else row[sym - 1]
  }

  /** The symbol's share of the current range is not empty. */
  predicate Accepts(s: Interval, row: seq<u32>, sym: nat) {
    sym < |row| && Lower(row, sym) < row[sym] && Offset(Lower(row, sym), s.range) < Offset(row[sym], s.range)
  }

  function Chosen(s: Interval, row: seq<u32>, sym: nat): Interval
    requires Accepts(s, row, sym)
  {
    Narrow(s, Lower(row, sym), row[sym])
  }

  predicate Monotone(row: seq<u32>) {
    forall i, j :: 0 <= i < j < |row| ==> row[i] <= row[j]
  }

  /** The stream, read up to the digits this interval has produced plus the four
      of a code word, lies inside the interval. */
  predicate Holds(s: Interval, stream: seq<u8>) {
    s.low <= Prefix(stream, 4 + s.shifts) <= s.low + s.range
  }

  /** The two ends lie in different words: `Finish` takes its second branch. */
  predicate Straddles(s: Interval) {
    (s.low + s.range) % 0x1_0000_0000 < s.low % 0x1_0000_0000
  }

  /** How many of the last digits of a number are 0xff. */
  function TrailingOnes(digits: nat): nat {
    if digits % 0x100 == 0xff then 1 + TrailingOnes(digits / 0x100) else 0
  }

  /** The digits that `Finish` leaves out when the ends straddle: those a carry
      would run through. */
  function LostDigits(s: Interval): nat {
    if Straddles(s) then TrailingOnes(s.low / 0x1_0000_0000) else 0
  }

  lemma ShiftKeepsStream(s: Interval, stream: seq<u8>)
    requires Holds(Shift(s), stream)
    ensures Holds(s, stream)
  {
    var p := Prefix(stream, 4 + s.shifts);
    assert Prefix(stream, 4 + Shift(s).shifts)
        == p * 0x100 + (if 5 + s.shifts <= |stream| then stream[4 + s.shifts] else 0);
  }

  lemma {:induction false} NormalizeKeepsStream(s: Interval, stream: seq<u8>)
    requires Holds(Normalize(s), stream)
    ensures Holds(s, stream)
    decreases 0x100_0000 - s.range
  {
    if s.range < 0x100_0000 {
      NormalizeKeepsStream(Shift(s), stream);
      ShiftKeepsStream(s, stream);
    }
  }

  lemma ChosenKeepsStream(s: Interval, row: seq<u32>, sym: nat, stream: seq<u8>)
    requires Accepts(s, row, sym) && Holds(Chosen(s, row, sym), stream)
    ensures Holds(s, stream)
  {
    OffsetBound(row[sym], s.range);
  }
}
