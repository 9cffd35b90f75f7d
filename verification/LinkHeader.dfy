/** The four-byte header of compressed link packets, with sequence numbers cut to
    fourteen bits. */
module LinkHeader {
  import opened Words

  datatype Header = Header(sequence: u32, ack: u32, clcDelta: bool)

  /** What a sequence number leaves out on the wire: its upper 17 bits. */
  function Block(sequence: u32): nat {
    Masked(sequence) / 0x4000
  }

  /** The low fourteen bits and the reliable bit. */
  function PackSequence(sequence: u32): u16 {
    sequence % 0x4000 + (if IsReliable(sequence) then 0x8000 else 0)
  }

  /** The two wire words; bit 14 is the clc_delta flag of the first and the mark
      of compression in the second. */
  function EncodeHeader(h: Header): (wire: (u16, u16))
  {
    (PackSequence(h.sequence) + (if h.clcDelta then 0x4000 else 0), PackSequence(h.ack) + 0x4000)
  }

  function ExpandSequence(previous: u32, wire: u16, initialized: bool): u32 {
    var reliable := if wire >= 0x8000 then RELIABLE_BIT else 0;
    var low: int := wire % 0x4000;
    if !initialized then reliable + low
    else
      var p := Masked(previous);
      var candidate := p - p % 0x4000 + low;
      reliable + (if candidate + 0x2000 < p then (candidate + 0x4000) % 0x8000_0000 else candidate)
  }

  /** Bit 14 of a wire word. */
  function Marked(wire: u16): bool {
    wire / 0x4000 % 2 == 1
  }

  /** A compressed packet: not the all-ones number of a connectionless one. */
  function IsCompressed(wire: (u16, u16)): bool {
    !(wire.0 == 0xffff && wire.1 == 0xffff) && Marked(wire.1)
  }

  class LinkSequences {
    var sequence: u32
    var ack: u32
    var initialized: bool

    constructor ()
      ensures !initialized
    {
      sequence, ack, initialized := 0, 0, false;
    }

    method Observe(sequence: u32, ack: u32)
      modifies this
      ensures this.sequence == sequence && this.ack == ack && initialized
    {
      this.sequence, this.ack, initialized := sequence, ack, true;
    }

    method DecodeHeader(wire: (u16, u16)) returns (r: Option<Header>)
      modifies this
      ensures r.Some? <==> IsCompressed(wire)
      ensures r.Some? ==>
                r.value == Header(ExpandSequence(old(sequence), wire.0, old(initialized)),
                                  ExpandSequence(old(ack), wire.1, old(initialized)), Marked(wire.0))
      ensures r.Some? ==> sequence == r.value.sequence && ack == r.value.ack && initialized
      ensures r.None? ==> sequence == old(sequence) && ack == old(ack) && initialized == old(initialized)
    {
      if !IsCompressed(wire) {
        return None;
      }
      var header := Header(ExpandSequence(sequence, wire.0, initialized), ExpandSequence(ack, wire.1, initialized),
                           Marked(wire.0));
      Observe(header.sequence, header.ack);
      r := Some(header);
    }
  }

  /** The numbers that can be told apart by fourteen bits after `previous`: those of
      its own block that are not more than 8192 behind, and those of the next block
      that are less than 8192 ahead. */
  predicate Expandable(previous: u32, sequence: u32) {
    var p, s := Masked(previous), Masked(sequence);
    || (Block(sequence) == Block(previous) && p <= s + 0x2000)
    || (Block(sequence) == (Block(previous) + 1) % 0x2_0000 && (s - p) % 0x8000_0000 < 0x2000)
  }

  /** Splits a sequence number at the block boundary. */
  lemma Parts(sequence: u32)
    ensures Masked(sequence) == Block(sequence) * 0x4000 + sequence % 0x4000
    ensures Block(sequence) < 0x2_0000
    ensures sequence == Masked(sequence) + (if IsReliable(sequence) then RELIABLE_BIT else 0)
  {
    var s := Masked(sequence);
    assert s % 0x4000 == sequence % 0x4000 by {
      assert sequence == s || sequence == s + 0x8000_0000;
    }
  }

  lemma PackedParts(sequence: u32, mark: bool)
    ensures var wire := PackSequence(sequence) + (if mark then 0x4000 else 0);
            && wire < 0x1_0000 && (wire >= 0x8000 <==> IsReliable(sequence)) && wire % 0x4000 == sequence % 0x4000
            && Marked(wire) == mark
  {
  }

  /** The next block begins again at zero after the last. */
  lemma NextBlock(block: nat, low: nat)
    requires block < 0x2_0000 && low < 0x4000
    ensures (block * 0x4000 + low + 0x4000) % 0x8000_0000 == (block + 1) % 0x2_0000 * 0x4000 + low
  {
  }

  /** Distance to a number of the next block. */
  lemma NextBlockDistance(p: nat, s: nat, block: nat)
    requires block < 0x2_0000 && block * 0x4000 <= p < block * 0x4000 + 0x4000
    requires (block + 1) % 0x2_0000 * 0x4000 <= s < (block + 1) % 0x2_0000 * 0x4000 + 0x4000
    ensures (s - p) % 0x8000_0000 == 0x4000 + (s - (block + 1) % 0x2_0000 * 0x4000) - (p - block * 0x4000)
  {
  }

  /** The block that expansion chooses. */
  lemma ExpandedBlock(previous: u32, sequence: u32, mark: bool)
    ensures var low, block := sequence % 0x4000, Block(previous);
            var chosen := if low + 0x2000 < previous % 0x4000 then (block + 1) % 0x2_0000 else block;
            ExpandSequence(previous, PackSequence(sequence) + (if mark then 0x4000 else 0), true)
            == (if IsReliable(sequence) then RELIABLE_BIT else 0) + (chosen * 0x4000 + low)
  {
    var p, b, low := Masked(previous), Block(previous), sequence % 0x4000;
    Parts(previous);
    PackedParts(sequence, mark);
    NextBlock(b, low);
    hide PackSequence, Block, IsReliable;
    assert p % 0x4000 == previous % 0x4000 == p - b * 0x4000;
  }

  /** In terms of blocks and places in them: the chosen block is the right one
      exactly in the window. */
  lemma ChosenBlock(b: nat, place: nat, c: nat, low: nat)
    requires b < 0x2_0000 && c < 0x2_0000 && place < 0x4000 && low < 0x4000
    ensures var p, s, next := b * 0x4000 + place, c * 0x4000 + low, (b + 1) % 0x2_0000;
            (if low + 0x2000 < place then next else b) == c <==>
              (c == b && p <= s + 0x2000) || (c == next && (s - p) % 0x8000_0000 < 0x2000)
  {
    var p, s, next := b * 0x4000 + place, c * 0x4000 + low, (b + 1) % 0x2_0000;
    assert next != b;
    if c == next {
      NextBlockDistance(p, s, b);
    }
  }

  /** Fourteen bits are enough exactly for the expandable numbers, at any place in
      the 31-bit range, whatever the mark. */
  lemma ExpandRestores(previous: u32, sequence: u32, mark: bool)
    ensures ExpandSequence(previous, PackSequence(sequence) + (if mark then 0x4000 else 0), true) == sequence
            <==> Expandable(previous, sequence)
  {
    var b, c, place, low := Block(previous), Block(sequence), previous % 0x4000, sequence % 0x4000;
    Parts(previous);
    Parts(sequence);
    ExpandedBlock(previous, sequence, mark);
    ChosenBlock(b, place, c, low);
    SameBlocks(if low + 0x2000 < place then (b + 1) % 0x2_0000 else b, c, low);
    hide PackSequence, Block, IsReliable, ExpandSequence;
  }

  lemma SameBlocks(a: nat, b: nat, low: nat)
    ensures a * 0x4000 + low == b * 0x4000 + low <==> a == b
  {
  }

  /** Every number less than 8192 ahead is expandable, also across the wrap of the
      31-bit range. */
  lemma AheadIsExpandable(previous: u32, sequence: u32)
    requires (Masked(sequence) - Masked(previous)) % 0x8000_0000 < 0x2000
    ensures Expandable(previous, sequence)
  {
    var p, s := Masked(previous), Masked(sequence);
    Parts(previous);
    Parts(sequence);
    var b, c := Block(previous), Block(sequence);
    hide Block;
    if s >= p {
      assert c == b || c == b + 1;
    } else {
      assert s + 0x8000_0000 - p < 0x2000;
      assert b == 0x1_ffff && c == 0;
    }
  }

  /** All bits of both words are set. */
  predicate AllOnes(h: Header) {
    && IsReliable(h.sequence) && h.sequence % 0x4000 == 0x3fff && h.clcDelta
    && IsReliable(h.ack) && h.ack % 0x4000 == 0x3fff
  }

  /** An encoded header is taken for a compressed one unless all its bits are set,
      which is the mark of a connectionless packet. */
  lemma HeaderIsCompressed(h: Header)
    ensures IsCompressed(EncodeHeader(h)) <==> !AllOnes(h)
  {
    PackedParts(h.sequence, h.clcDelta);
    PackedParts(h.ack, true);
  }

  /** The decoder can restore the number: it is in the window of the number before,
      or nothing has come before and fourteen bits are all there is. */
  predicate Restorable(previous: u32, sequence: u32, initialized: bool) {
    if initialized then Expandable(previous, sequence) else Block(sequence) == 0
  }

  lemma RestorableIsRestored(previous: u32, sequence: u32, mark: bool, initialized: bool)
    ensures ExpandSequence(previous, PackSequence(sequence) + (if mark then 0x4000 else 0), initialized) == sequence
            <==> Restorable(previous, sequence, initialized)
  {
    if initialized {
      ExpandRestores(previous, sequence, mark);
    } else {
      Parts(sequence);
      PackedParts(sequence, mark);
    }
  }

  /** The decoder reads back the whole header exactly when it is not all ones and
      both numbers can be restored. */
  method HeaderRoundTrip(h: Header, sequences: LinkSequences) returns (r: Option<Header>)
    modifies sequences
    ensures r == Some(h) <==>
            && !AllOnes(h)
            && Restorable(old(sequences.sequence), h.sequence, old(sequences.initialized))
            && Restorable(old(sequences.ack), h.ack, old(sequences.initialized))
  {
    hide AllOnes, IsCompressed, Restorable, ExpandSequence, PackSequence, Marked;
    var wire := EncodeHeader(h);
    HeaderIsCompressed(h);
    PackedParts(h.sequence, h.clcDelta);
    PackedParts(h.ack, true);
    RestorableIsRestored(sequences.sequence, h.sequence, h.clcDelta, sequences.initialized);
    RestorableIsRestored(sequences.ack, h.ack, true, sequences.initialized);
    r := sequences.DecodeHeader(wire);
  }

  /** A header of all ones, as any reliable packet numbered 0x3fff that acknowledges
      a reliable 0x3fff has with a leading clc_delta, is lost at any decoder. */
  lemma AllOnesIsLost()
    ensures var h := Header(RELIABLE_BIT + 0x3fff, RELIABLE_BIT + 0x3fff, true);
            EncodeHeader(h) == (0xffff, 0xffff) && !IsCompressed(EncodeHeader(h))
  {
  }
}
