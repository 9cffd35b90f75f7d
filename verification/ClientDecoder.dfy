/** The decoding end of the client link. */
module ClientDecoder {
  import opened Words
  import opened PackedWords
  import opened LinkStreams
  import opened LinkHeader
  import opened ClientMoves
  import opened ClientStrings
  import opened ClientOperations
  import opened ClientPackets
  import opened ClientHeaders
  import opened ClientPlans
  import B = BitStream
  import H = HuffmanRoundTrip

  class Decoder {
    const models: seq<H.Model>
    const sequences: LinkSequences
    var dictionary: Dictionary
    var moves: History
    var resyncRequested: bool

    ghost predicate Valid()
      reads this, models, set m | m in models :: m.trie
    {
      H.AllValid(models) && |models| == MODELS && dictionary.WellFormed()
    }

    constructor (models: seq<H.Model>, dictionary: Dictionary)
      requires H.AllValid(models) && |models| == MODELS && dictionary.WellFormed()
      ensures Valid() && this.models == models && this.dictionary == dictionary && fresh(sequences)
      ensures moves == EmptyHistory() && !sequences.initialized && !resyncRequested
    {
      var tracker := new LinkSequences();
      this.models, this.dictionary, sequences := models, dictionary, tracker;
      moves, resyncRequested := EmptyHistory(), false;
    }

    function SettingFor(sequence: u32, delta: u8): Setting
      reads this
    {
      Setting(dictionary, moves, sequence, delta)
    }

    method ReadOptional(reader: LinkReader, present: bool, model: nat) returns (r: Option<u8>)
      requires reader.Valid() && model < |reader.models|
      modifies reader, reader.reader
      ensures reader.Valid() && reader.Reached(old(reader.lost), TakeOptional(old(reader.pending), present, model), r)
      ensures r.Some? ==> reader.Left() <= old(reader.Left())
    {
      if !present {
        return Some(0);
      }
      r := reader.ReadSymbol(model);
    }

    method ReadMask(reader: LinkReader, previous: WordMask) returns (r: Option<WordMask>)
      requires reader.Valid() && |reader.models| == MODELS
      modifies reader, reader.reader
      ensures reader.Valid() && reader.Reached(old(reader.lost), ParseMask(old(reader.pending), previous), r)
      ensures r.Some? ==> reader.Left() <= old(reader.Left())
    {
      hide LinkReader.Valid, MaskOf;
      var low := reader.ReadSymbol(MASK_LOW);
      if low.None? {
        return None;
      }
      var high := reader.ReadSymbol(MASK_HIGH);
      if high.None? {
        return None;
      }
      var mask: WordMask := Xor(MaskOf(low.value) + MaskOf(high.value), previous);
      r := if mask[INVALID_BIT] then None else Some(mask);
    }

    method ReadWords(reader: LinkReader, mask: WordMask) returns (r: Option<seq<u16>>)
      requires reader.Valid() && |reader.models| == MODELS
      modifies reader, reader.reader
      ensures reader.Valid() && reader.Reached(old(reader.lost), ParseWords(old(reader.pending), mask, []), r)
      ensures r.Some? ==> |r.value| == 6 && reader.Left() <= old(reader.Left())
    {
      hide LinkReader.Valid, TakeOptional, AddDelta;
      var words: seq<u16> := [];
      ghost var whole := ParseWords(reader.pending, mask, []);
      for i := 0 to 6
        invariant reader.Valid() && |words| == i && reader.Left() <= old(reader.Left())
        invariant !old(reader.lost) && whole.Parsed? ==>
                    !reader.lost && ParseWords(reader.pending, mask, words) == whole
      {
        var low := ReadOptional(reader, mask[2 * i], LowModel(i));
        if low.None? {
          return None;
        }
        var high := ReadOptional(reader, mask[2 * i + 1], HighModel(i));
        if high.None? {
          return None;
        }
        words := words + [AddDelta(0, low.value, high.value)];
      }
      r := Some(words);
    }

    method DecodeClientCommand(reader: LinkReader, predictor: MovePredictor, previous: WordMask)
      returns (r: Option<(ClientCommand, WordMask)>)
      requires reader.Valid() && |reader.models| == MODELS
      modifies reader, reader.reader
      ensures reader.Valid()
                && reader.Reached(old(reader.lost), ParseCommand(old(reader.pending), predictor, previous), r)
      ensures r.Some? ==> reader.Left() <= old(reader.Left())
    {
      hide LinkReader.Valid, ParseMask, ParseWords, TakeOptional, Unpredicted;
      var mask := ReadMask(reader, previous);
      if mask.None? {
        return None;
      }
      var words := ReadWords(reader, mask.value);
      if words.None? {
        return None;
      }
      var buttons := ReadOptional(reader, mask.value[BUTTONS_BIT], BUTTONS);
      if buttons.None? {
        return None;
      }
      var msec := ReadOptional(reader, mask.value[MSEC_BIT], MSEC);
      if msec.None? {
        return None;
      }
      var impulse := ReadOptional(reader, mask.value[IMPULSE_BIT], IMPULSE);
      if impulse.None? {
        return None;
      }
      r := Some((Unpredicted(predictor, words.value, buttons.value, impulse.value, msec.value), mask.value));
    }

    method DecodeCommands(reader: LinkReader, start: MovePredictor, count: nat, recorded: seq<ClientCommand>)
      returns (r: Option<seq<ClientCommand>>)
      requires reader.Valid() && |reader.models| == MODELS
      modifies reader, reader.reader
      ensures reader.Valid()
      ensures reader.Reached(old(reader.lost), ParseCommands(old(reader.pending), start, NO_MASK, count, recorded), r)
      ensures r.Some? ==> |r.value| == |recorded| + count && reader.Left() <= old(reader.Left())
    {
      hide LinkReader.Valid, ParseCommand, Advance, Remembered, NoFlags;
      var commands: seq<ClientCommand>, predictor, previous := recorded, start, NO_MASK;
      ghost var whole := ParseCommands(reader.pending, start, NO_MASK, count, recorded);
      for i := 0 to count
        invariant reader.Valid() && |commands| == |recorded| + i && reader.Left() <= old(reader.Left())
        invariant !old(reader.lost) && !whole.Lost? ==>
                    !reader.lost && ParseCommands(reader.pending, predictor, previous, count - i, commands) == whole
      {
        var command := DecodeClientCommand(reader, predictor, previous);
        if command.None? {
          return None;
        }
        commands := commands + [command.value.0];
        predictor, previous := Advance(predictor, command.value.0), Remembered(command.value.1);
      }
      r := Some(commands);
    }

    /** The commands that are not sent, from the history. */
    method RecordedCommands(sequence: u32, count: nat) returns (r: Option<seq<ClientCommand>>)
      requires count <= 3
      ensures r == Recorded(moves, sequence, count)
    {
      hide RecordAt;
      var commands: seq<ClientCommand> := [];
      for i := 0 to count
        invariant Recorded(moves, sequence, i) == Some(commands)
      {
        var entry := RecordAt(moves, CommandSequence(sequence, i));
        if entry.None? {
          MissingRecord(moves, sequence, i, count);
          return None;
        }
        commands := commands + [entry.value.command];
      }
      r := Some(commands);
    }

    static lemma {:induction false} MissingRecord(h: History, sequence: u32, i: nat, count: nat)
      requires i < count <= 3 && RecordAt(h, CommandSequence(sequence, i)).None?
      ensures Recorded(h, sequence, count).None?
      decreases count
    {
      if i < count - 1 {
        MissingRecord(h, sequence, i, count - 1);
      }
    }

    method DecodeClientMove(reader: LinkReader, sequence: u32, delta: u8) returns (r: Option<ClientMove>)
      requires reader.Valid() && |reader.models| == MODELS
      modifies reader, reader.reader
      ensures reader.Valid()
                && reader.Reached(old(reader.lost), ParseMove(moves, old(reader.pending), sequence, delta), r)
      ensures r.Some? ==> reader.Left() <= old(reader.Left())
    {
      hide LinkReader.Valid, RecordAt, Recorded, ParseCommands, NewPredictor, NoFlags;
      var previous := RecordAt(moves, Before(sequence, delta + 1));
      if previous.None? {
        return None;
      }
      var base := RecordAt(moves, Before(sequence, delta));
      if base.None? {
        return None;
      }
      var checksum := reader.ReadSymbol(CHECKSUM);
      if checksum.None? {
        return None;
      }
      var lossageDelta := reader.ReadSymbol(LOSSAGE);
      if lossageDelta.None? {
        return None;
      }
      var recorded := RecordedCommands(sequence, First(delta));
      if recorded.None? {
        return None;
      }
      RecordedCount(moves, sequence, First(delta));
      var predictor := NewPredictor(previous.value.command, base.value.command, delta - TransmittedCount(delta));
      var commands := DecodeCommands(reader, predictor, TransmittedCount(delta), recorded.value);
      if commands.None? {
        return None;
      }
      r := Some(Move(checksum.value, Plus8(base.value.lossage, lossageDelta.value), commands.value));
    }

    method DecodeClientLiteralString(reader: LinkReader) returns (r: Option<seq<u8>>)
      requires reader.Valid() && |reader.models| == MODELS
      modifies reader, reader.reader
      ensures reader.Valid() && reader.Reached(old(reader.lost), ParseLiteral(old(reader.pending), []), r)
      ensures r.Some? ==> reader.Left() <= old(reader.Left())
    {
      hide LinkReader.Valid;
      var decoded: seq<u8> := [];
      ghost var whole := ParseLiteral(reader.pending, []);
      while true
        invariant reader.Valid() && reader.Left() <= old(reader.Left())
        invariant !old(reader.lost) && whole.Parsed? ==> !reader.lost && ParseLiteral(reader.pending, decoded) == whole
        decreases reader.Left()
      {
        var value := reader.ReadSymbol(STRING_BYTE);
        if value.None? {
          return None;
        }
        decoded := decoded + [value.value];
        if value.value == 0 {
          return Some(decoded);
        }
      }
    }

    method DecodeClientString(reader: LinkReader) returns (r: Option<seq<u8>>)
      requires reader.Valid() && |reader.models| == MODELS && dictionary.WellFormed()
      modifies reader, reader.reader
      ensures reader.Valid() && reader.Reached(old(reader.lost), ParseString(dictionary, old(reader.pending), []), r)
      ensures r.Some? ==> reader.Left() <= old(reader.Left())
    {
      hide LinkReader.Valid, TokenText;
      var decoded: seq<u8> := [];
      ghost var whole := ParseString(dictionary, reader.pending, []);
      while true
        invariant reader.Valid() && reader.Left() <= old(reader.Left())
        invariant !old(reader.lost) && !whole.Lost? ==>
                    !reader.lost && ParseString(dictionary, reader.pending, decoded) == whole
        decreases reader.Left()
      {
        var value := reader.ReadSymbol(STRING_BYTE);
        if value.None? {
          return None;
        }
        if value.value == ESCAPE {
          var token := reader.ReadSymbol(STRING_TOKEN);
          if token.None? {
            return None;
          }
          var text := TokenText(dictionary, token.value);
          if text.None? {
            return None;
          }
          decoded := decoded + text.value;
        } else {
          decoded := decoded + [value.value];
          if value.value == 0 {
            return Some(decoded);
          }
        }
      }
    }

    method DecodeUpload(reader: LinkReader) returns (r: Option<seq<u8>>)
      requires reader.Valid() && |reader.models| == MODELS
      modifies reader, reader.reader
      ensures reader.Valid() && reader.Reached(old(reader.lost), ParseUploadPayload(old(reader.pending)), r)
      ensures r.Some? ==> reader.Left() <= old(reader.Left())
    {
      hide LinkReader.Valid, TakeBytes, Plus8;
      var header := reader.ReadBytes(3);
      if header.None? {
        return None;
      }
      var size := UploadSize(header.value);
      if size.None? {
        return None;
      }
      var payload: seq<u8>, previous: u8 := header.value, 0;
      ghost var from, intact := reader.pending, !reader.lost;
      ghost var whole := ParseUpload(from, size.value, payload, 0);
      for i := 0 to size.value
        invariant reader.Valid() && reader.Left() <= old(reader.Left())
        invariant intact && whole.Parsed? ==>
                    !reader.lost && ParseUpload(reader.pending, size.value - i, payload, previous) == whole
      {
        var difference := reader.ReadSymbol(UPLOAD_DELTA);
        if difference.None? {
          return None;
        }
        previous := Plus8(previous, difference.value);
        payload := payload + [previous];
      }
      r := Some(payload);
    }

    method DecodePayload(reader: LinkReader, opcode: u8, ghost s: Setting) returns (r: Option<seq<u8>>)
      requires reader.Valid() && |reader.models| == MODELS && dictionary.WellFormed() && s.dictionary == dictionary
      modifies reader, reader.reader
      ensures reader.Valid() && reader.Reached(old(reader.lost), ParsePayload(s, opcode, old(reader.pending)), r)
      ensures r.Some? ==> reader.Left() <= old(reader.Left())
    {
      hide LinkReader.Valid, ParseString, ParseLiteral, ParseUploadPayload, TakeBytes;
      if opcode == CLC_STRING {
        r := DecodeClientString(reader);
      } else if opcode == CLC_VOICE_START || opcode == CLC_VOICE_STOP {
        r := DecodeClientLiteralString(reader);
      } else if opcode == CLC_UPLOAD {
        r := DecodeUpload(reader);
      } else if Compressed(opcode) && FixedSize(opcode).Some? {
        r := reader.ReadBytes(FixedSize(opcode).value);
      } else {
        r := None;
      }
    }

    method DecodeBody(reader: LinkReader, opcode: u8, sequence: u32, delta: u8) returns (r: Option<Operation>)
      requires Valid() && reader.Valid() && |reader.models| == MODELS
      modifies reader, reader.reader
      ensures reader.Valid()
      ensures reader.Reached(old(reader.lost), ParseBody(SettingFor(sequence, delta), opcode, old(reader.pending)), r)
      ensures r.Some? ==> reader.Left() <= old(reader.Left())
    {
      hide LinkReader.Valid, ParsePayload, ParseMove;
      if opcode == CLC_MOVE {
        var move := DecodeClientMove(reader, sequence, delta);
        r := if move.Some? then Some(MoveOperation(move.value)) else None;
      } else {
        var payload := DecodePayload(reader, opcode, SettingFor(sequence, delta));
        r := if payload.Some? then Some(Plain(opcode, payload.value)) else None;
      }
    }

    method DecodeClientOperations(reader: LinkReader, sequence: u32, delta: u8) returns (r: Option<seq<Operation>>)
      requires Valid() && reader.Valid() && |reader.models| == MODELS
      modifies reader, reader.reader
      ensures reader.Valid()
      ensures reader.Reached(old(reader.lost), ParseOperations(SettingFor(sequence, delta), old(reader.pending), []), r)
    {
      hide LinkReader.Valid, ParseBody;
      var operations: seq<Operation> := [];
      ghost var s := SettingFor(sequence, delta);
      ghost var whole := ParseOperations(s, reader.pending, []);
      while true
        invariant reader.Valid()
        invariant !old(reader.lost) && !whole.Lost? ==>
                  !reader.lost && ParseOperations(s, reader.pending, operations) == whole
        decreases reader.Left()
      {
        var opcode := reader.ReadSymbol(OPCODE);
        if opcode.None? {
          return None;
        }
        if opcode.value == CLC_BAD {
          return Some(operations);
        }
        var operation := DecodeBody(reader, opcode.value, sequence, delta);
        if operation.None? {
          return None;
        }
        operations := operations + [operation.value];
      }
    }

    /** Observes a packet that is passed on as it is. */
    method ObserveRawPacket(packet: seq<u8>)
      requires Valid()
      modifies this, sequences
      ensures Valid() && dictionary == old(dictionary)
      ensures ReadRawHeader(packet).None? ==>
                moves == old(moves) && sequences.sequence == old(sequences.sequence)
                && sequences.ack == old(sequences.ack) && sequences.initialized == old(sequences.initialized)
      ensures ReadRawHeader(packet).Some? ==>
                var h := ReadRawHeader(packet).value;
                && moves == Commit(old(moves), Operations(packet), Masked(h.sequence), 0)
                && sequences.sequence == h.sequence && sequences.ack == h.ack && sequences.initialized
    {
      hide ParseAll, Commit;
      var header := ReadRawHeader(packet);
      if header.None? {
        return;
      }
      sequences.Observe(header.value.sequence, header.value.ack);
      var parsing := ParseClientOperations(packet[10..]);
      moves := Commit(moves, parsing.operations, Masked(header.value.sequence), 0);
      if parsing.complete {
        ObserveResyncRequest(parsing.operations);
      }
    }

    method ObserveResyncRequest(operations: seq<Operation>)
      modifies `resyncRequested
      ensures resyncRequested <==>
              old(resyncRequested) || exists i :: 0 <= i < |operations| && operations[i].opcode == CLC_RESYNC
    {
      for i := 0 to |operations|
        invariant resyncRequested <==>
                  old(resyncRequested) || exists k :: 0 <= k < i && operations[k].opcode == CLC_RESYNC
      {
        if operations[i].opcode == CLC_RESYNC {
          resyncRequested := true;
        }
      }
    }

    /** The header that the current numbers expand a packet's words to. */
    function ExpandedHeader(packet: seq<u8>): Header
      reads sequences
      requires |packet| >= 4
    {
      var wire := WireWords(packet);
      Header(ExpandSequence(sequences.sequence, wire.0, sequences.initialized),
             ExpandSequence(sequences.ack, wire.1, sequences.initialized), Marked(wire.0))
    }

    /** Reads the body of a compressed packet; a folded clc_delta comes last. */
    method Unpack(data: seq<u8>, h: Header, ghost items: Items) returns (r: Option<(u8, seq<Operation>)>)
      requires Valid() && H.Known(models, items)
      ensures H.AllBits(models, items) <= B.Stream(data) ==>
                var p := ParsePacket(dictionary, moves, h.sequence, h.ack, h.clcDelta, items);
                (p.Bad? ==> r == None) && (p.Parsed? ==> r == Some(p.value))
    {
      hide LinkReader.Valid, ParseOperations, H.AllBits, B.Stream;
      var reader := new LinkReader(models, data, items);
      var delta := reader.ReadSymbol(SEQUENCE_DELTA);
      if delta.None? {
        return None;
      }
      if delta.value == 0 || delta.value > MAX_DELTA {
        return None;
      }
      var decoded := DecodeClientOperations(reader, Masked(h.sequence), delta.value);
      if decoded.None? {
        return None;
      }
      r := Some((delta.value, decoded.value + (if h.clcDelta then [Plain(CLC_DELTA, [h.ack % 0x100])] else [])));
    }

    /** Decodes a compressed packet whose bits start with those of `items`. */
    method DecodeCompressedPacket(packet: seq<u8>, ghost items: Items) returns (r: Option<seq<u8>>)
      requires Valid() && IsCompressedPacket(packet) && H.Known(models, items)
      modifies this, sequences
      ensures Valid() && dictionary == old(dictionary)
      ensures r.Some? ==>
                var header := old(ExpandedHeader(packet));
                && |packet| >= 6
                && LongBytes(header.sequence) + LongBytes(header.ack) + packet[4..6] <= r.value
      ensures |packet| >= 6 && H.AllBits(models, items) <= B.Stream(packet[6..]) ==>
                var header := old(ExpandedHeader(packet));
                var p := ParsePacket(old(dictionary), old(moves), header.sequence, header.ack, header.clcDelta, items);
                && sequences.sequence == header.sequence && sequences.ack == header.ack && sequences.initialized
                && (p.Bad? ==> r == None)
                && (p.Parsed? ==>
                      && moves == Commit(old(moves), p.value.1, Masked(header.sequence), First(p.value.0))
                      && r == Some(LongBytes(header.sequence) + LongBytes(header.ack) + packet[4..6]
                         + AllBytes(p.value.1)))
    {
      hide ParsePacket, Commit, H.AllBits, B.Stream, LongBytes, ExpandSequence, IsCompressed;
      if |packet| < 6 {
        return None;
      }
      var header := sequences.DecodeHeader(WireWords(packet));
      var h := header.value;
      var unpacked := Unpack(packet[6..], h, items);
      if unpacked.None? {
        return None;
      }
      var (delta, operations) := unpacked.value;
      r := Some(LongBytes(h.sequence) + LongBytes(h.ack) + packet[4..6] + AllBytes(operations));
      moves := Commit(moves, operations, Masked(h.sequence), First(delta));
      ObserveResyncRequest(operations);
    }

    method Decode(packet: seq<u8>, ghost items: Items) returns (r: Option<seq<u8>>)
      requires Valid() && H.Known(models, items)
      modifies this, sequences
      ensures Valid() && dictionary == old(dictionary)
      ensures !IsCompressedPacket(packet) ==> r == Some(packet)
      ensures !IsCompressedPacket(packet) && ReadRawHeader(packet).None? ==>
                moves == old(moves) && sequences.sequence == old(sequences.sequence)
                && sequences.ack == old(sequences.ack) && sequences.initialized == old(sequences.initialized)
      ensures !IsCompressedPacket(packet) && ReadRawHeader(packet).Some? ==>
                var h := ReadRawHeader(packet).value;
                && moves == Commit(old(moves), Operations(packet), Masked(h.sequence), 0)
                && sequences.sequence == h.sequence && sequences.ack == h.ack && sequences.initialized
      ensures IsCompressedPacket(packet) && r.Some? ==>
                var header := old(ExpandedHeader(packet));
                && |packet| >= 6
                && LongBytes(header.sequence) + LongBytes(header.ack) + packet[4..6] <= r.value
      ensures IsCompressedPacket(packet) && |packet| >= 6 && H.AllBits(models, items) <= B.Stream(packet[6..]) ==>
                var header := old(ExpandedHeader(packet));
                var p := ParsePacket(old(dictionary), old(moves), header.sequence, header.ack, header.clcDelta, items);
                && sequences.sequence == header.sequence && sequences.ack == header.ack && sequences.initialized
                && (p.Bad? ==> r == None)
                && (p.Parsed? ==>
                      && moves == Commit(old(moves), p.value.1, Masked(header.sequence), First(p.value.0))
                      && r == Some(LongBytes(header.sequence) + LongBytes(header.ack) + packet[4..6]
                         + AllBytes(p.value.1)))
    {
      hide ParsePacket, Commit, H.AllBits, B.Stream, LongBytes, IsCompressedPacket, ReadRawHeader, Operations;
      if !IsCompressedPacket(packet) {
        ObserveRawPacket(packet);
        return Some(packet);
      }
      r := DecodeCompressedPacket(packet, items);
    }
  }
}
