/** Headers of client packets, raw and compressed, as bytes. */
module ClientHeaders {
  import opened Words
  import opened LinkHeader
  import C = ClientCommands

  datatype RawHeader = RawHeader(sequence: u32, ack: u32, qport: u16)

  const CONNECTIONLESS: u32 := 0xffff_ffff

  function Word(bytes: seq<u8>, at: nat): u16
    requires at + 2 <= |bytes|
  {
    var low: int, high: int := bytes[at], bytes[at + 1];
    low + high * 0x100
  }

  function Long(bytes: seq<u8>, at: nat): u32
    requires at + 4 <= |bytes|
  {
    var low: int, high: int := Word(bytes, at), Word(bytes, at + 2);
    low + high * 0x1_0000
  }

  function LongBytes(l: u32): (bytes: seq<u8>)
    ensures |bytes| == 4
  {
    C.WordBytes(l % 0x1_0000) + C.WordBytes(l / 0x1_0000)
  }

  /** The header of a raw client packet; none for short and for connectionless
      packets. */
  function ReadRawHeader(packet: seq<u8>): Option<RawHeader> {
    if |packet| < 10 || Long(packet, 0) == CONNECTIONLESS then None
    else Some(RawHeader(Long(packet, 0), Long(packet, 4), Word(packet, 8)))
  }

  function RawHeaderBytes(h: RawHeader): (bytes: seq<u8>)
    ensures |bytes| == 10
  {
    LongBytes(h.sequence) + LongBytes(h.ack) + C.WordBytes(h.qport)
  }

  function CompressedHeaderBytes(h: RawHeader, clcDelta: bool): (bytes: seq<u8>)
    ensures |bytes| == 6
  {
    var wire := EncodeHeader(Header(h.sequence, h.ack, clcDelta));
    C.WordBytes(wire.0) + C.WordBytes(wire.1) + C.WordBytes(h.qport)
  }

  /** The two words that a packet starts with. */
  function WireWords(packet: seq<u8>): (u16, u16)
    requires |packet| >= 4
  {
    (Word(packet, 0), Word(packet, 2))
  }

  predicate IsCompressedPacket(packet: seq<u8>) {
    |packet| >= 4 && IsCompressed(WireWords(packet))
  }

  lemma WordOfBytes(w: u16)
    ensures Word(C.WordBytes(w), 0) == w
  {
  }

  lemma LongOfBytes(l: u32)
    ensures Long(LongBytes(l), 0) == l
  {
    WordOfBytes(l % 0x1_0000);
    WordOfBytes(l / 0x1_0000);
    var bytes := LongBytes(l);
    assert Word(bytes, 0) == Word(C.WordBytes(l % 0x1_0000), 0);
    assert Word(bytes, 2) == Word(C.WordBytes(l / 0x1_0000), 0);
  }

  lemma BytesOfWord(bytes: seq<u8>)
    requires |bytes| == 2
    ensures C.WordBytes(Word(bytes, 0)) == bytes
  {
    var low: int, high: int := bytes[0], bytes[1];
    assert (low + high * 0x100) % 0x100 == low && (low + high * 0x100) / 0x100 == high;
  }

  /** A raw packet is its header's bytes and the rest. */
  lemma RawHeaderOfPacket(packet: seq<u8>)
    requires ReadRawHeader(packet).Some?
    ensures packet == RawHeaderBytes(ReadRawHeader(packet).value) + packet[10..]
  {
    LongBytesOf(packet[..4]);
    LongBytesOf(packet[4..8]);
    BytesOfWord(packet[8..10]);
    assert Long(packet, 0) == Long(packet[..4], 0) && Long(packet, 4) == Long(packet[4..8], 0);
    assert Word(packet, 8) == Word(packet[8..10], 0);
    assert packet == packet[..4] + packet[4..8] + packet[8..10] + packet[10..];
  }

  lemma LongBytesOf(bytes: seq<u8>)
    requires |bytes| == 4
    ensures LongBytes(Long(bytes, 0)) == bytes
  {
    BytesOfWord(bytes[..2]);
    BytesOfWord(bytes[2..]);
    var low, high := Word(bytes, 0), Word(bytes, 2);
    assert low == Word(bytes[..2], 0) && high == Word(bytes[2..], 0);
    assert Long(bytes, 0) % 0x1_0000 == low && Long(bytes, 0) / 0x1_0000 == high;
  }

  /** Every header but a connectionless one is read back from its bytes, and nothing is
      read from less than ten of them. */
  lemma RawHeaderRead(h: RawHeader, body: seq<u8>)
    ensures ReadRawHeader(RawHeaderBytes(h) + body) == (if h.sequence == CONNECTIONLESS then None else Some(h))
    ensures forall packet: seq<u8> :: |packet| < 10 ==> ReadRawHeader(packet).None?
  {
    var packet := RawHeaderBytes(h) + body;
    LongOfBytes(h.sequence);
    LongOfBytes(h.ack);
    WordOfBytes(h.qport);
    hide LongBytes, C.WordBytes;
    assert packet[..4] == LongBytes(h.sequence) && packet[4..8] == LongBytes(h.ack);
    assert packet[8..10] == C.WordBytes(h.qport);
    assert Long(packet, 0) == Long(packet[..4], 0) && Long(packet, 4) == Long(packet[4..8], 0);
    assert Word(packet, 8) == Word(packet[8..10], 0);
  }

  /** A packet is taken for a compressed one exactly when it has four bytes, bit 30 of
      its first long is set, and they are not all ones. */
  lemma CompressedByBit(packet: seq<u8>)
    ensures |packet| < 4 ==> !IsCompressedPacket(packet)
    ensures |packet| >= 4 ==>
              (IsCompressedPacket(packet) <==>
                 Long(packet, 0) / 0x4000_0000 % 2 == 1 && Long(packet, 0) != CONNECTIONLESS)
  {
    if |packet| >= 4 {
      var low: int, high: int := Word(packet, 0), Word(packet, 2);
      assert Long(packet, 0) == low + high * 0x1_0000;
      assert (low + high * 0x1_0000) / 0x4000_0000 == high / 0x4000;
    }
  }

  /** A raw packet is mistaken for a compressed one exactly when bit 30 of its number is
      set. */
  lemma RawIsNotCompressed(packet: seq<u8>)
    requires ReadRawHeader(packet).Some?
    ensures IsCompressedPacket(packet) <==> ReadRawHeader(packet).value.sequence / 0x4000_0000 % 2 == 1
  {
    CompressedByBit(packet);
  }

  /** The start of a compressed packet, as its decoder sees it. */
  lemma CompressedStart(h: RawHeader, clcDelta: bool, body: seq<u8>)
    ensures var packet := CompressedHeaderBytes(h, clcDelta) + body;
            && WireWords(packet) == EncodeHeader(Header(h.sequence, h.ack, clcDelta))
            && packet[4..6] == C.WordBytes(h.qport) && packet[6..] == body
            && (IsCompressedPacket(packet) <==> !AllOnes(Header(h.sequence, h.ack, clcDelta)))
  {
    var wire := EncodeHeader(Header(h.sequence, h.ack, clcDelta));
    var packet := CompressedHeaderBytes(h, clcDelta) + body;
    hide EncodeHeader, IsCompressed, AllOnes;
    WordOfBytes(wire.0);
    WordOfBytes(wire.1);
    assert Word(packet, 0) == Word(C.WordBytes(wire.0), 0);
    assert Word(packet, 2) == Word(C.WordBytes(wire.1), 0);
    HeaderIsCompressed(Header(h.sequence, h.ack, clcDelta));
    assert packet[4..6] == C.WordBytes(h.qport) && packet[6..] == body;
  }
}
