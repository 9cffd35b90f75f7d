/** Facts about reducing sums modulo 2^32 and about the bytes of a 32-bit word. */
module WrapArithmetic {
  /** Reducing both ends of an interval modulo 2^32 loses nothing about its
      width. */
  lemma WrappedWidth(low: nat, range: nat)
    requires range < 0x1_0000_0000
    ensures ((low + range) % 0x1_0000_0000 - low % 0x1_0000_0000) % 0x1_0000_0000 == range
  {
    var l, q := low % 0x1_0000_0000, low / 0x1_0000_0000;
    assert low + range == q * 0x1_0000_0000 + (l + range);
  }

  lemma WrappedSum(low: nat, offset: nat)
    ensures (low % 0x1_0000_0000 + offset) % 0x1_0000_0000 == (low + offset) % 0x1_0000_0000
  {
    assert low + offset == low / 0x1_0000_0000 * 0x1_0000_0000 + (low % 0x1_0000_0000 + offset);
  }

  /** Shifting a word left by eight bits moves its top byte into the digits. */
  lemma ShiftedWord(low: nat, fill: nat)
    requires fill < 0x100
    ensures (low * 0x100 + fill) % 0x1_0000_0000 == (low % 0x1_0000_0000 * 0x100) % 0x1_0000_0000 + fill
    ensures (low * 0x100 + fill) / 0x1_0000_0000
         == low / 0x1_0000_0000 * 0x100 + low % 0x1_0000_0000 / 0x100_0000
  {
    var l, q := low % 0x1_0000_0000, low / 0x1_0000_0000;
    var t, r := l / 0x100_0000, l % 0x100_0000;
    ShiftedParts(q, t, r, fill);
    ShiftedParts(0, t, r, 0);
    assert low == q * 0x1_0000_0000 + t * 0x100_0000 + r && l == t * 0x100_0000 + r;
  }

  lemma ShiftedParts(word: nat, top: nat, rest: nat, fill: nat)
    requires top < 0x100 && rest < 0x100_0000 && fill < 0x100
    ensures var shifted := (word * 0x1_0000_0000 + top * 0x100_0000 + rest) * 0x100 + fill;
            && shifted % 0x1_0000_0000 == rest * 0x100 + fill
            && shifted / 0x1_0000_0000 == word * 0x100 + top
  {
  }

  /** Shifting both ends of a narrow interval shifts its width. */
  lemma ShiftedWidth(low: nat, high: nat)
    requires low < 0x1_0000_0000 && high < 0x1_0000_0000 && (high - low) % 0x1_0000_0000 < 0x100_0000
    ensures (high * 0x100 % 0x1_0000_0000 + 0xff - low * 0x100 % 0x1_0000_0000) % 0x1_0000_0000
            == (high - low) % 0x1_0000_0000 * 0x100 + 0xff
  {
    var w := (high - low) % 0x1_0000_0000;
    assert (low + w) % 0x1_0000_0000 == high;
    ShiftedWord(low, 0);
    ShiftedWord(low + w, 0xff);
    WrappedWidth(low * 0x100, w * 0x100 + 0xff);
  }

  /** How far apart the two ends of a narrow interval can be, in whole words and
      in top bytes. */
  lemma NarrowEnds(low: nat, range: nat)
    requires range < 0x100_0000
    ensures var l, h := low % 0x1_0000_0000, (low + range) % 0x1_0000_0000;
            if l <= h then
              && (low + range) / 0x1_0000_0000 == low / 0x1_0000_0000
              && l / 0x100_0000 <= h / 0x100_0000 <= l / 0x100_0000 + 1
            else
              && (low + range) / 0x1_0000_0000 == low / 0x1_0000_0000 + 1
              && l / 0x100_0000 == 0xff && h / 0x100_0000 == 0
  {
    var l, q := low % 0x1_0000_0000, low / 0x1_0000_0000;
    assert low + range == q * 0x1_0000_0000 + (l + range);
  }

  lemma SameTop(base: nat, top: nat, narrower: nat)
    requires narrower <= top < base + 0x1_0000_0000
    ensures narrower / 0x1_0000_0000 == base / 0x1_0000_0000 + 1 ==>
            top / 0x1_0000_0000 == base / 0x1_0000_0000 + 1
  {
    CarryShows(base, if base <= top then top else base);
  }

  /** A carry out of the low word is visible as a decrease of that word. */
  lemma CarryShows(base: nat, low: nat)
    requires base <= low < base + 0x1_0000_0000
    ensures low / 0x1_0000_0000
         == base / 0x1_0000_0000 + (if low % 0x1_0000_0000 < base % 0x1_0000_0000 then 1 else 0)
  {
  }

  lemma SameWord(low: nat, range: nat)
    requires range < 0x1_0000_0000
    ensures if low % 0x1_0000_0000 <= (low + range) % 0x1_0000_0000
            then (low + range) / 0x1_0000_0000 == low / 0x1_0000_0000
            else (low + range) / 0x1_0000_0000 == low / 0x1_0000_0000 + 1
  {
  }

  /** A wide interval inside one word contains the top byte of its high end,
      followed by zeros; one that starts a word contains that start. */
  lemma TopByteInside(low: nat, range: nat, top: nat)
    requires 0x100_0000 <= range < 0x1_0000_0000
    requires low % 0x1_0000_0000 <= (low + range) % 0x1_0000_0000
    requires if low % 0x1_0000_0000 == 0 then top == 0
             else top == (low + range) % 0x1_0000_0000 / 0x100_0000
    ensures low <= low / 0x1_0000_0000 * 0x1_0000_0000 + top * 0x100_0000 <= low + range
  {
    var h := (low + range) % 0x1_0000_0000;
    SameWord(low, range);
    assert h / 0x100_0000 * 0x100_0000 <= h < h / 0x100_0000 * 0x100_0000 + 0x100_0000;
  }
}
