/** Byte masks as flags, and 16-bit differences split into two bytes. */
module PackedWords {
  import opened Words

  /** The flags of a mask; flag `i` has the weight 2^i. */
  type Flags = seq<bool>

  type Mask = f: Flags | |f| == 8 witness [false, false, false, false, false, false, false, false]

  function NoFlags(count: nat): (f: Flags)
    ensures |f| == count && forall i :: 0 <= i < count ==> !f[i]
  {
    seq(count, _ => false)
  }

  function FlagsOf(value: nat, count: nat): (f: Flags)
    ensures |f| == count
  {
    if count == 0 then [] else [value % 2 == 1] + FlagsOf(value / 2, count - 1)
  }

  function ValueOf(f: Flags): nat {
    if f == [] then 0 else (if f[0] then 1 else 0) + 2 * ValueOf(f[1..])
  }

  function MaskOf(value: u8): Mask {
    FlagsOf(value, 8)
  }

  function ByteOf(mask: Mask): u8 {
    ValueBound(mask);
    ValueOf(mask)
  }

  function Weight(count: nat): nat {
    if count == 0 then 1 else 2 * Weight(count - 1)
  }

  lemma {:induction false} ValueBound(f: Flags)
    ensures ValueOf(f) < Weight(|f|)
    ensures |f| == 8 ==> ValueOf(f) < 0x100
  {
    if f != [] {
      ValueBound(f[1..]);
    }
    assert Weight(8) == 0x100;
  }

  lemma {:induction false} FlagsOfValue(f: Flags)
    ensures FlagsOf(ValueOf(f), |f|) == f
  {
    if f != [] {
      FlagsOfValue(f[1..]);
    }
  }

  lemma {:induction false} ValueOfFlags(value: nat, count: nat)
    requires value < Weight(count)
    ensures ValueOf(FlagsOf(value, count)) == value
  {
    if count > 0 {
      ValueOfFlags(value / 2, count - 1);
      assert FlagsOf(value, count)[1..] == FlagsOf(value / 2, count - 1);
    }
  }

  lemma {:induction false} NoFlagsAreZero(f: Flags)
    ensures ValueOf(f) == 0 <==> f == NoFlags(|f|)
  {
    if f != [] {
      NoFlagsAreZero(f[1..]);
      assert NoFlags(|f|)[1..] == NoFlags(|f| - 1);
      assert f == [f[0]] + f[1..];
    }
  }

  /** Exclusive or of two masks. */
  function Xor(a: Flags, b: Flags): (f: Flags)
    requires |a| == |b|
    ensures |f| == |a| && forall i :: 0 <= i < |f| ==> f[i] == (a[i] != b[i])
  {
    seq(|a|, i requires 0 <= i < |a| => a[i] != b[i])
  }

  function XorByte(a: u8, b: u8): u8 {
    ByteOf(Xor(MaskOf(a), MaskOf(b)))
  }

  /** A mask survives as a byte. */
  lemma MaskRoundTrip(mask: Mask)
    ensures MaskOf(ByteOf(mask)) == mask
  {
    FlagsOfValue(mask);
  }

  lemma XorRestores(a: Mask, b: Mask)
    ensures Xor(a, MaskOf(ByteOf(Xor(b, a)))) == b
    ensures ByteOf(Xor(b, a)) == 0 <==> b == a
  {
    hide MaskOf, ByteOf;
    MaskRoundTrip(Xor(b, a));
    XorIsZero(b, a);
  }

  lemma XorIsZero(b: Mask, a: Mask)
    ensures ByteOf(Xor(b, a)) == 0 <==> b == a
  {
    NoFlagsAreZero(Xor(b, a));
  }

  lemma XorByteRestores(a: u8, b: u8)
    ensures XorByte(a, XorByte(b, a)) == b
  {
    hide ByteOf, FlagsOf;
    XorRestores(MaskOf(a), MaskOf(b));
    ByteOfMask(b);
  }

  lemma ByteOfMask(b: u8)
    ensures ByteOf(MaskOf(b)) == b
  {
    assert Weight(8) == 0x100;
    ValueOfFlags(b, 8);
  }

  /** A byte read as a signed number. */
  function Signed(b: u8): int {
    if b < 0x80 then b else b - 0x100
  }

  datatype WordDelta = WordDelta(low: u8, high: u8)

  /** The low byte is sign-extended when it is read back, which the high byte has
      to make up for. */
  function SplitDelta16(delta: u16): WordDelta {
    var low: u8 := delta % 0x100;
    WordDelta(low, (delta - Signed(low)) % 0x1_0000 / 0x100)
  }

  function Plus8(a: u8, b: u8): u8 {
    (a + b) % 0x100
  }

  function Minus8(a: u8, b: u8): u8 {
    (a - b) % 0x100
  }

  lemma ByteDifferenceAdds(target: u8, base: u8)
    ensures Plus8(base, Minus8(target, base)) == target
  {
  }

  function Plus16(a: u16, b: u16): u16 {
    (a + b) % 0x1_0000
  }

  function Minus16(a: u16, b: u16): u16 {
    (a - b) % 0x1_0000
  }

  lemma WordDifferenceAdds(target: u16, base: u16)
    ensures Plus16(base, Minus16(target, base)) == target
  {
  }

  function SplitWordDelta(target: u16, current: u16): WordDelta {
    SplitDelta16(Minus16(target, current))
  }

  /** Adding the two bytes of a difference to a 16-bit word. */
  function AddDelta(word: u16, low: u8, high: u8): u16 {
    (word + Signed(low) + high * 0x100) % 0x1_0000
  }

  /** What the two bytes of a difference add up to. */
  lemma SplitParts(delta: u16)
    ensures var d := SplitDelta16(delta);
            Signed(d.low) + d.high * 0x100 == delta || Signed(d.low) + d.high * 0x100 == delta - 0x1_0000
  {
    var q: int, low: u8 := delta / 0x100, delta % 0x100;
    assert delta == q * 0x100 + low && 0 <= q < 0x100;
    var carried := if low < 0x80 then q else q + 1;
    assert delta - Signed(low) == carried * 0x100;
    assert carried * 0x100 % 0x1_0000 / 0x100 == (if carried == 0x100 then 0 else carried);
  }

  lemma SameRemainder(x: int, y: u16)
    requires x == y || x == y + 0x1_0000 || x == y - 0x1_0000
    ensures x % 0x1_0000 == y
  {
  }

  /** Splitting a difference and adding its bytes reaches the target; and every
      pair of bytes is the split of what it adds. */
  lemma SplitRestores(target: u16, current: u16)
    ensures var d := SplitWordDelta(target, current);
            AddDelta(current, d.low, d.high) == target
  {
    hide SplitDelta16;
    var delta := Minus16(target, current);
    assert delta == target - current || delta == target - current + 0x1_0000;
    SplitParts(delta);
    var d := SplitDelta16(delta);
    SameRemainder(current + Signed(d.low) + d.high * 0x100, target);
  }

  /** Only one pair of bytes adds up to a difference. */
  lemma SplitIsUnique(low: u8, high: u8)
    ensures SplitDelta16((Signed(low) + high * 0x100) % 0x1_0000) == WordDelta(low, high)
  {
    var sum := Signed(low) + high * 0x100;
    var delta: u16 := sum % 0x1_0000;
    assert delta == sum || delta == sum + 0x1_0000;
    assert delta == (delta / 0x100) * 0x100 + delta % 0x100;
    assert delta % 0x100 == low;
    assert (high * 0x100) % 0x1_0000 == high * 0x100;
    SameRemainder(delta - Signed(low), high * 0x100);
  }
}
