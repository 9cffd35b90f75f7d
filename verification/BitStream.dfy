/** Writing and reading bits, most significant first, in a growing byte string. */
module BitStream {
  import opened Words
  import opened Sums
  import opened PrefixCodes
  import opened PackedCodes
  import opened Division

  /** A byte whose top bits are `bits` and whose other bits are zero. */
  function ByteOf(bits: Bits): u8
    requires |bits| <= 8
  {
    ByteFits(bits);
    Scaled(bits, 8)
  }

  lemma ByteFits(bits: Bits)
    requires |bits| <= 8
    ensures Scaled(bits, 8) < 0x100
  {
    BitValueBound(bits);
    Pow2Add(|bits|, 8 - |bits|);
    assert Pow2(8) == 0x100;
    hide Pow2, BitValue;
    ProductGrows(BitValue(bits) + 1, Pow2(|bits|), Pow2(8 - |bits|));
    ProductOfSum(BitValue(bits), 1, Pow2(8 - |bits|));
  }

  function ByteBit(b: u8, k: nat): bool
    requires k < 8
  {
    b / Pow2(7 - k) % 2 == 1
  }

  lemma ByteOfBit(bits: Bits, k: nat)
    requires |bits| <= 8 && k < |bits|
    ensures ByteBit(ByteOf(bits), k) == bits[k]
  {
    var n := |bits|;
    var head, tail := BitValue(bits[..k + 1]), BitValue(bits[k + 1..]);
    assert head % 2 == 1 <==> bits[k] by {
      assert bits[..k + 1][..k] == bits[..k];
    }
    BitValueSplit(bits, k + 1);
    BitValueBound(bits[k + 1..]);
    Pow2Add(n - k - 1, 8 - n);
    hide Pow2, BitValue;
    LeadingPart(head, tail, 0, Pow2(n - k - 1), Pow2(8 - n));
  }

  /** Setting the next lower bit of such a byte. */
  lemma ByteOfNext(bits: Bits, b: bool)
    requires |bits| < 8
    ensures ByteOf(bits + [b]) == ByteOf(bits) + (if b then Pow2(7 - |bits|) else 0)
  {
    hide Scaled, Pow2, BitValue;
    ScaledNext(bits, b, 8);
  }

  /** The bits of a packed code. */
  function CodeBits(code: u32): (bits: Bits)
    ensures |bits| == CodeLength(code)
  {
    seq(CodeLength(code), i requires 0 <= i < CodeLength(code) => CodeBit(code, i))
  }

  lemma CodeBitsOfPacked(bits: Bits)
    requires |bits| <= MAX_CODE
    ensures CodeBits(Packed(bits)) == bits
  {
    hide CodeBit, Packed;
    PackedLength(bits);
    forall i | 0 <= i < |bits|
      ensures CodeBit(Packed(bits), i) == bits[i]
    {
      PackedBit(bits, i);
    }
  }

  /** The eight bits of a byte. */
  function BitsOf(value: nat, count: nat): (bits: Bits)
    ensures |bits| == count
  {
    if count == 0 then [] else BitsOf(value / 2, count - 1) + [value % 2 == 1]
  }

  lemma {:induction false} BitsOfValue(value: nat, count: nat)
    requires value < Pow2(count)
    ensures BitValue(BitsOf(value, count)) == value
  {
    if count > 0 {
      BitsOfValue(value / 2, count - 1);
      assert BitsOf(value, count)[..count - 1] == BitsOf(value / 2, count - 1);
    }
  }

  /** A literal byte is written as a code of eight bits. */
  lemma LiteralCode(value: u8)
    ensures BitValue(BitsOf(value, 8)) == value
    ensures PackCode(value * 0x100_0000, 8) == Packed(BitsOf(value, 8))
  {
    assert Pow2(8) == 0x100;
    Pow2Add(8, 8);
    Pow2Add(16, 8);
    BitsOfValue(value, 8);
  }

  /** All bits of a byte string. */
  function Stream(data: seq<u8>): (bits: Bits)
    ensures |bits| == 8 * |data|
  {
    seq(8 * |data|, i requires 0 <= i < 8 * |data| => ByteBit(data[i / 8], i % 8))
  }

  /** The bytes hold exactly these bits, and zeros up to the end of the last byte. */
  ghost predicate HoldsBits(data: seq<u8>, written: Bits) {
    && |written| <= 8 * |data| < |written| + 8
    && forall k :: 0 <= k < |data| ==> data[k] == ByteOf(Slice(written, k))
  }

  /** The bits that fall into byte `k`. */
  function Slice(written: Bits, k: nat): (slice: Bits)
    requires 8 * k <= |written|
    ensures |slice| <= 8
  {
    if 8 * k + 8 <= |written| then written[8 * k..8 * k + 8] else written[8 * k..]
  }

  lemma StreamOfWritten(data: seq<u8>, written: Bits)
    requires HoldsBits(data, written)
    ensures written <= Stream(data)
  {
    hide ByteBit, ByteOf;
    forall i | 0 <= i < |written|
      ensures Stream(data)[i] == written[i]
    {
      ByteOfBit(Slice(written, i / 8), i % 8);
    }
  }

  /** The data after one more bit. */
  function PutBit(data: seq<u8>, bits: nat, bit: bool): seq<nat>
    requires bits % 8 != 0 ==> data != []
  {
    var longer: seq<nat> := if bits % 8 == 0 then data + [0] else data;
    var last := |longer| - 1;
    longer[last := longer[last] + (if bit then Pow2(7 - bits % 8) else 0)]
  }

  lemma PutBitHolds(data: seq<u8>, written: Bits, bit: bool)
    requires HoldsBits(data, written)
    ensures |written| % 8 != 0 ==> data != []
    ensures var put := PutBit(data, |written|, bit);
            put[|put| - 1] < 0x100 && HoldsBits(put, written + [bit])
  {
    hide ByteOf, Pow2, Slice;
    var put, last := PutBit(data, |written|, bit), |written| / 8;
    assert |put| == last + 1;
    LastByte(data, written, bit);
    forall k | 0 <= k < last
      ensures put[k] == ByteOf(Slice(written + [bit], k))
    {
      FullByte(written, bit, k);
    }
  }

  lemma FullByte(written: Bits, bit: bool, k: nat)
    requires k < |written| / 8
    ensures Slice(written + [bit], k) == Slice(written, k)
  {
  }

  lemma LastByte(data: seq<u8>, written: Bits, bit: bool)
    requires HoldsBits(data, written)
    requires |written| % 8 != 0 ==> data != []
    ensures var put, last := PutBit(data, |written|, bit), |written| / 8;
            |put| == last + 1 && put[last] == ByteOf(Slice(written + [bit], last))
  {
    hide ByteOf, Pow2;
    var last := |written| / 8;
    var tail := written[8 * last..];
    ZeroByte();
    if |written| % 8 != 0 {
      assert Slice(written, last) == tail;
    }
    assert Slice(written + [bit], last) == tail + [bit];
    ByteOfNext(tail, bit);
  }

  class BitWriter {
    var data: seq<u8>
    var bits: nat
    ghost var written: Bits

    ghost predicate Valid()
      reads this
    {
      bits == |written| && HoldsBits(data, written)
    }

    constructor ()
      ensures Valid() && written == [] && data == []
    {
      data, bits, written := [], 0, [];
    }

    /** One turn of the bit loop. */
    method WriteBit(bit: bool)
      requires Valid()
      modifies this
      ensures Valid() && written == old(written) + [bit]
    {
      hide HoldsBits;
      PutBitHolds(data, written, bit);
      if bits % 8 == 0 {
        data := data + [0];
      }
      var last := |data| - 1;
      // No bit of the byte from this place down has been set, so OR is addition.
      data := data[last := data[last] + (if bit then Pow2(7 - bits % 8) else 0)];
      bits := bits + 1;
      written := written + [bit];
    }

    method WriteCode(code: u32)
      requires Valid()
      modifies this
      ensures Valid() && written == old(written) + CodeBits(code)
    {
      hide CodeBit;
      var length := CodeLength(code);
      assert CodeBits(code)[..0] == [];
      for i := 0 to length
        invariant Valid() && written == old(written) + CodeBits(code)[..i]
      {
        WriteBit(CodeBit(code, i));
      }
    }

    method WriteByte(value: u8)
      requires Valid()
      modifies this
      ensures Valid() && written == old(written) + BitsOf(value, 8)
    {
      hide Packed, CodeBits, PackCode;
      LiteralCode(value);
      CodeBitsOfPacked(BitsOf(value, 8));
      WriteCode(PackCode(value * 0x100_0000, 8));
    }
  }

  lemma ZeroByte()
    ensures ByteOf([]) == 0
  {
  }

  class BitReader {
    var data: seq<u8>
    var bits: nat

    predicate Valid()
      reads this
    {
      bits <= 8 * |data|
    }

    /** What is left to read. */
    function Rest(): Bits
      reads this
      requires Valid()
    {
      Stream(data)[bits..]
    }

    constructor (data: seq<u8>)
      ensures Valid() && bits == 0 && Rest() == Stream(data)
    {
      this.data, bits := data, 0;
    }

    /** Fails exactly at the end of the data. */
    method ReadBit() returns (bit: Option<bool>)
      requires Valid()
      modifies this`bits
      ensures Valid()
      ensures if old(Rest()) == [] then bit == None && Rest() == []
              else bit == Some(old(Rest())[0]) && Rest() == old(Rest())[1..]
    {
      if bits >= 8 * |data| {
        return None;
      }
      bit := Some(ByteBit(data[bits / 8], bits % 8));
      bits := bits + 1;
    }

    /** Fails exactly when fewer than eight bits are left. */
    method ReadByte() returns (value: Option<u8>)
      requires Valid()
      modifies this`bits
      ensures Valid()
      ensures value.Some? <==> |old(Rest())| >= 8
      ensures value.Some? ==> value.value == BitValue(old(Rest())[..8]) && Rest() == old(Rest())[8..]
    {
      ghost var rest := Rest();
      var v: nat := 0;
      for i := 0 to 8
        invariant Valid() && i <= |rest| && Rest() == rest[i..]
        invariant v == BitValue(rest[..i])
      {
        var bit := ReadBit();
        if bit == None {
          return None;
        }
        assert rest[..i + 1][..i] == rest[..i];
        v := v * 2 + (if bit.value then 1 else 0);
      }
      BitValueBound(rest[..8]);
      assert Pow2(8) == 0x100;
      value := Some(v);
    }
  }
}
