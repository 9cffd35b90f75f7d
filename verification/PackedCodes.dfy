/** A code packed into a 32-bit word: its length in the low five bits, its bits
    from the top down. Up to 27 bits the two never meet. */
module PackedCodes {
  import opened Words
  import opened Sums
  import opened PrefixCodes
  import opened Division

  const MAX_CODE: nat := 27

  function CodeLength(code: u32): nat {
    code % 32
  }

  function CodeBit(code: u32, index: nat): bool
    requires index < 32
  {
    code / Pow2(31 - index) % 2 == 1
  }

  lemma {:induction false} Pow2Add(a: nat, b: nat)
    ensures Pow2(a + b) == Pow2(a) * Pow2(b)
  {
    if a > 0 {
      Pow2Add(a - 1, b);
      assert Pow2(a) == 2 * Pow2(a - 1) && Pow2(a + b) == 2 * Pow2(a - 1 + b);
      hide Pow2;
      ProductAssociates(2, Pow2(a - 1), Pow2(b));
    }
  }

  lemma Pow2Of32()
    ensures Pow2(5) == 32 && Pow2(31) == 0x8000_0000 && Pow2(32) == 0x1_0000_0000
  {
    assert Pow2(5) == 32;
    Pow2Add(5, 5);
    Pow2Add(10, 10);
    Pow2Add(20, 10);
    assert Pow2(31) == 2 * Pow2(30);
  }

  lemma SetBitFits(word: u32, k: nat)
    requires k < 32 && word / Pow2(k) % 2 == 0
    ensures word + Pow2(k) < 0x1_0000_0000
  {
    Pow2Of32();
    Pow2Add(31 - k, k);
    assert 2 * (Pow2(31 - k) * Pow2(k)) == 0x1_0000_0000;
    hide Pow2;
    ProductAssociates(2, Pow2(31 - k), Pow2(k));
    EvenQuotientRoom(word, Pow2(k), Pow2(31 - k));
  }

  /** Go's OR with a single bit. */
  function SetBit(word: u32, k: nat): u32
    requires k < 32
  {
    if word / Pow2(k) % 2 == 1 then word else SetBitFits(word, k); word + Pow2(k)
  }

  /** Go's `bits &^ mask | length`; a length of 32 falls outside the mask. */
  function PackCode(bits: u32, length: nat): u32
    requires length <= 32
  {
    if length < 32 then bits - bits % 32 + length else SetBit(bits - bits % 32, 5)
  }

  function BitValue(bits: Bits): nat {
    if bits == [] then 0
    else BitValue(bits[..|bits| - 1]) * 2 + (if bits[|bits| - 1] then 1 else 0)
  }

  lemma {:induction false} BitValueBound(bits: Bits)
    ensures BitValue(bits) < Pow2(|bits|)
  {
    if bits != [] {
      BitValueBound(bits[..|bits| - 1]);
    }
  }

  lemma {:induction false} BitValueSplit(bits: Bits, k: nat)
    requires k <= |bits|
    ensures BitValue(bits) == BitValue(bits[..k]) * Pow2(|bits| - k) + BitValue(bits[k..])
  {
    if k == |bits| {
      assert bits[..k] == bits;
    } else {
      var n := |bits| - 1;
      BitValueSplit(bits[..n], k);
      assert bits[..n][..k] == bits[..k] && bits[..n][k..] == bits[k..][..n - k];
      assert Pow2(|bits| - k) == 2 * Pow2(n - k);
      assert BitValue(bits[..k]) * (2 * Pow2(n - k)) == 2 * (BitValue(bits[..k]) * Pow2(n - k));
    }
  }

  /** The bits of a code, moved to the top of a word of `width` bits. */
  function Scaled(bits: Bits, width: nat): nat
    requires |bits| <= width
  {
    BitValue(bits) * Pow2(width - |bits|)
  }

  lemma ScaledNext(bits: Bits, b: bool, width: nat)
    requires |bits| < width
    ensures Scaled(bits + [b], width) == Scaled(bits, width) + (if b then Pow2(width - |bits| - 1) else 0)
  {
    var p := Pow2(width - |bits| - 1);
    assert (bits + [b])[..|bits|] == bits;
    assert Pow2(width - |bits|) == 2 * p;
    DoubledPlus(BitValue(bits), if b then 1 else 0, p);
  }

  lemma DoubledPlus(v: nat, extra: nat, p: nat)
    ensures (v * 2 + extra) * p == v * (2 * p) + extra * p
  {
    ProductAssociates(v, 2, p);
    ProductOfSum(v * 2, extra, p);
  }

  /** The word for a code. */
  function Packed(bits: Bits): u32
    requires |bits| <= MAX_CODE
  {
    PackedFits(bits);
    Scaled(bits, 32) + |bits|
  }

  lemma PackedFits(bits: Bits)
    requires |bits| <= MAX_CODE
    ensures Scaled(bits, 32) + |bits| < 0x1_0000_0000
    ensures Pow2(32 - |bits|) == Pow2(27 - |bits|) * 32 >= 32
  {
    var n := |bits|;
    BitValueBound(bits);
    Pow2Of32();
    Pow2Add(n, 32 - n);
    Pow2Add(27 - n, 5);
    hide Pow2, BitValue;
    ProductGrows(BitValue(bits) + 1, Pow2(n), Pow2(32 - n));
    ProductOfSum(BitValue(bits), 1, Pow2(32 - n));
  }

  /** Length and bits can be read back. */
  lemma PackedLength(bits: Bits)
    requires |bits| <= MAX_CODE
    ensures CodeLength(Packed(bits)) == |bits|
    ensures Packed(bits) - CodeLength(Packed(bits)) == Scaled(bits, 32)
  {
    hide Pow2, BitValue;
    PackedFits(bits);
    ProductAssociates(BitValue(bits), Pow2(27 - |bits|), 32);
    LowBits(BitValue(bits) * Pow2(27 - |bits|), |bits|);
  }

  lemma LowBits(m: nat, n: nat)
    requires n < 32
    ensures (m * 32 + n) % 32 == n
  {
  }

  lemma PackedBit(bits: Bits, i: nat)
    requires |bits| <= MAX_CODE && i < |bits|
    ensures CodeBit(Packed(bits), i) == bits[i]
  {
    var n := |bits|;
    var head, tail := BitValue(bits[..i + 1]), BitValue(bits[i + 1..]);
    assert head % 2 == 1 <==> bits[i] by {
      assert bits[..i + 1][..i] == bits[..i];
    }
    BitValueSplit(bits, i + 1);
    BitValueBound(bits[i + 1..]);
    PackedFits(bits);
    Pow2Add(n - i - 1, 32 - n);
    hide Pow2, BitValue;
    LeadingPart(head, tail, n, Pow2(n - i - 1), Pow2(32 - n));
  }

  /** One more bit, the way a node extends its code for its children. */
  lemma PackedAppend(bits: Bits)
    requires |bits| < MAX_CODE
    ensures PackCode(Packed(bits), CodeLength(Packed(bits)) + 1) == Packed(bits + [false])
    ensures SetBit(Packed(bits + [false]), 31 - |bits|) == Packed(bits + [true])
  {
    hide Pow2, BitValue, Scaled;
    PackedLength(bits);
    PackedBit(bits + [false], |bits|);
    ScaledNext(bits, false, 32);
    ScaledNext(bits, true, 32);
  }

  lemma PackedSingles()
    ensures PackCode(0, 1) == Packed([false]) && PackCode(0x8000_0000, 1) == Packed([true])
  {
    Pow2Of32();
    assert [false][..0] == [] && [true][..0] == [];
    assert BitValue([false]) == 0 && BitValue([true]) == 1;
  }
}
