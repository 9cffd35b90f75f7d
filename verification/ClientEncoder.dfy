/** The encoding end of the client link. */
module ClientEncoder {
  import opened Words
  import opened PackedWords
  import opened LinkStreams
  import opened ClientMoves
  import opened ClientStrings
  import opened ClientOperations
  import opened ClientPackets
  import opened ClientHeaders
  import opened ClientPlans
  import opened ClientChoice
  import B = BitStream

  import H = HuffmanRoundTrip

  /** The predictor that the encoder updates in place. */
  class PredictorState {
    var angles: seq<u16>
    var angleDeltas: seq<u16>
    var moves: seq<u16>
    var buttons: u8
    var msec: u8

    predicate Valid()
      reads this
    {
      |angles| == |angleDeltas| == |moves| == 3
    }

    function State(): MovePredictor
      reads this
      requires Valid()
    {
      Predictor(angles, angleDeltas, moves, buttons, msec)
    }

    constructor (previous: ClientCommand, base: ClientCommand, skipped: nat)
      ensures Valid() && State() == NewPredictor(previous, base, skipped)
    {
      var p := NewPredictor(previous, base, skipped);
      angles, angleDeltas, moves, buttons, msec := p.angles, p.angleDeltas, p.moves, p.buttons, p.msec;
    }

    /** Plans the three angles, in the order of the link. */
    method PlanAngles(command: ClientCommand) returns (words: seq<u16>)
      requires Valid()
      modifies `angles, `angleDeltas
      ensures Valid() && angles == command.angles && angleDeltas == Advance(old(State()), command).angleDeltas
      ensures words == PlannedDelta(old(State()), command).words[..3]
    {
      ghost var before := State();
      PlannedAngles(before, command);
      hide PlannedDelta, Advance, Plus16, Minus16;
      words := [];
      for word := 0 to 3
        invariant Valid() && |words| == word
        invariant forall w :: 0 <= w < word ==> words[w] == PlannedDelta(before, command).words[w]
        invariant forall w :: 0 <= w < 3 ==>
                    angles[AngleAt(w)] == (if w < word then command.angles else before.angles)[AngleAt(w)]
                    && angleDeltas[AngleAt(w)]
                       == (if w < word then Advance(before, command).angleDeltas else before.angleDeltas)[AngleAt(w)]
      {
        var a := AngleAt(word);
        var predicted := Plus16(angles[a], angleDeltas[a]);
        var difference := Minus16(command.angles[a], predicted);
        words := words + [difference];
        TurnAdds(command.angles[a], angles[a], angleDeltas[a]);
        angleDeltas := angleDeltas[a := Plus16(angleDeltas[a], difference)];
        angles := angles[a := command.angles[a]];
      }
      SameInAnyOrder(angles, command.angles);
      SameInAnyOrder(angleDeltas, Advance(before, command).angleDeltas);
    }

    method PlanMoves(command: ClientCommand) returns (words: seq<u16>)
      requires Valid()
      modifies `moves
      ensures Valid() && moves == command.moves
      ensures |words| == 3 && forall i :: 0 <= i < 3 ==> words[i] == Minus16(command.moves[i], old(moves)[i])
    {
      hide Minus16;
      words := [];
      for i := 0 to 3
        invariant Valid() && |words| == i
        invariant forall w :: 0 <= w < 3 ==> moves[w] == if w < i then command.moves[w] else old(moves)[w]
        invariant forall w :: 0 <= w < i ==> words[w] == Minus16(command.moves[w], old(moves)[w])
      {
        words := words + [Minus16(command.moves[i], moves[i])];
        moves := moves[i := command.moves[i]];
      }
    }

    /** Plans one command and moves on to it. */
    method Plan(command: ClientCommand) returns (delta: CommandDelta)
      requires Valid()
      modifies this
      ensures Valid() && State() == Advance(old(State()), command)
      ensures delta == PlannedDelta(old(State()), command)
    {
      ghost var before := State();
      PlannedMoves(before, command);
      hide XorByte, Plus16, Minus16, Minus8;
      var turns := PlanAngles(command);
      var steps := PlanMoves(command);
      delta := Delta(turns + steps, XorByte(command.buttons, buttons), command.impulse, Minus8(command.msec, msec));
      assert delta.words == PlannedDelta(before, command).words;
      buttons, msec := command.buttons, command.msec;
    }
  }

  lemma PlannedAngles(p: MovePredictor, c: ClientCommand)
    ensures forall w :: 0 <= w < 3 ==>
              && PlannedDelta(p, c).words[w]
                 == Minus16(c.angles[AngleAt(w)], Plus16(p.angles[AngleAt(w)], p.angleDeltas[AngleAt(w)]))
              && Advance(p, c).angleDeltas[AngleAt(w)] == Minus16(c.angles[AngleAt(w)], p.angles[AngleAt(w)])
  {
    hide Plus16, Minus16;
  }

  lemma PlannedMoves(p: MovePredictor, c: ClientCommand)
    ensures forall i :: 3 <= i < 6 ==> PlannedDelta(p, c).words[i] == Minus16(c.moves[i - 3], p.moves[i - 3])
  {
    hide Plus16, Minus16;
  }

  /** The link's order visits all three angles. */
  lemma SameInAnyOrder(a: seq<u16>, b: seq<u16>)
    requires |a| == |b| == 3 && forall w :: 0 <= w < 3 ==> a[AngleAt(w)] == b[AngleAt(w)]
    ensures a == b
  {
    assert a[AngleAt(0)] == b[AngleAt(0)] && a[AngleAt(1)] == b[AngleAt(1)] && a[AngleAt(2)] == b[AngleAt(2)];
  }

  /** The new turn is the difference of the angles themselves. */
  lemma TurnAdds(target: u16, angle: u16, turn: u16)
    ensures Plus16(turn, Minus16(target, Plus16(angle, turn))) == Minus16(target, angle)
  {
  }

  /** Writing an optional symbol. */
  method WriteOptional(writer: LinkWriter, present: bool, model: nat, symbol: u8)
    requires writer.Valid() && model < |writer.models|
    modifies writer, writer.writer
    ensures writer.Valid() && writer.items == old(writer.items) + Optional(present, model, symbol)
  {
    if present {
      writer.WriteSymbol(model, symbol);
    }
  }

  method EncodeWord(writer: LinkWriter, delta: CommandDelta, mask: WordMask, word: nat)
    requires writer.Valid() && |writer.models| == MODELS && word < 6 && mask == MaskOfDelta(delta)
    modifies writer, writer.writer
    ensures writer.Valid() && writer.items == old(writer.items) + WordItems(delta, word)
  {
    hide LinkWriter.Valid, SplitDelta16, MaskOfDelta, Optional;
    var split := SplitDelta16(delta.words[word]);
    WriteOptional(writer, mask[2 * word], LowModel(word), split.low);
    WriteOptional(writer, mask[2 * word + 1], HighModel(word), split.high);
    Regroup(old(writer.items), Optional(mask[2 * word], LowModel(word), split.low),
            Optional(mask[2 * word + 1], HighModel(word), split.high));
  }

  method EncodeClientCommandDelta(writer: LinkWriter, delta: CommandDelta, previous: WordMask)
    requires writer.Valid() && |writer.models| == MODELS
    modifies writer, writer.writer
    ensures writer.Valid() && writer.items == old(writer.items) + DeltaItems(delta, previous)
  {
    hide LinkWriter.Valid, MaskOfDelta, WordItems, Optional, ByteOf;
    var mask := MaskOfDelta(delta);
    var change := Xor(mask, previous);
    writer.WriteSymbol(MASK_LOW, ByteOf(change[..8]));
    writer.WriteSymbol(MASK_HIGH, ByteOf(change[8..]));
    ghost var start := writer.items;
    assert start == old(writer.items) + MaskItems(mask, previous);
    for word := 0 to 6
      invariant writer.Valid()
      invariant writer.items + AllWordItems(delta, word) == start + AllWordItems(delta, 0)
    {
      Regroup(writer.items, WordItems(delta, word), AllWordItems(delta, word + 1));
      EncodeWord(writer, delta, mask, word);
    }
    ghost var words := writer.items;
    WriteOptional(writer, delta.buttons != 0, BUTTONS, delta.buttons);
    WriteOptional(writer, delta.msec != 0, MSEC, delta.msec);
    WriteOptional(writer, delta.impulse != 0, IMPULSE, delta.impulse);
    TailGroups(old(writer.items), MaskItems(mask, previous), AllWordItems(delta, 0),
               Optional(delta.buttons != 0, BUTTONS, delta.buttons), Optional(delta.msec != 0, MSEC, delta.msec),
               Optional(delta.impulse != 0, IMPULSE, delta.impulse));
  }

  lemma TailGroups(start: Items, mask: Items, words: Items, buttons: Items, msec: Items, impulse: Items)
    ensures start + mask + words + buttons + msec + impulse == start + (mask + (words + (buttons + (msec + impulse))))
  {
  }

  method EncodeCommands(writer: LinkWriter, predictor: PredictorState, commands: seq<ClientCommand>)
    requires writer.Valid() && |writer.models| == MODELS && predictor.Valid()
    modifies writer, writer.writer, predictor
    ensures writer.Valid()
              && writer.items == old(writer.items) + CommandItems(old(predictor.State()), commands, NO_MASK)
  {
    hide LinkWriter.Valid, PlannedDelta, MaskOfDelta, DeltaItems, Remembered, Advance, NoFlags;
    var previous := NO_MASK;
    for i := 0 to |commands|
      invariant writer.Valid() && predictor.Valid()
      invariant writer.items + CommandItems(predictor.State(), commands[i..], previous)
                == old(writer.items) + CommandItems(old(predictor.State()), commands, NO_MASK)
    {
      assert commands[i..][0] == commands[i] && commands[i..][1..] == commands[i + 1..];
      ghost var p := predictor.State();
      ghost var d := PlannedDelta(p, commands[i]);
      Regroup(writer.items, DeltaItems(d, previous),
              CommandItems(Advance(p, commands[i]), commands[i + 1..], Remembered(MaskOfDelta(d))));
      var delta := predictor.Plan(commands[i]);
      EncodeClientCommandDelta(writer, delta, previous);
      previous := Remembered(MaskOfDelta(delta));
    }
  }

  /** The written bytes start with the bits of the written items. */
  lemma WrittenBits(writer: LinkWriter)
    requires writer.Valid()
    ensures H.Known(writer.models, writer.items)
    ensures H.AllBits(writer.models, writer.items) <= B.Stream(writer.writer.data)
  {
    B.StreamOfWritten(writer.writer.data, writer.writer.written);
  }

  class Encoder {
    const models: seq<H.Model>
    var dictionary: Dictionary
    var enabled: bool
    var last: u32
    var started: bool
    var moves: History

    ghost predicate Valid()
      reads this, models, set m | m in models :: m.trie
    {
      H.AllValid(models) && |models| == MODELS && dictionary.WellFormed()
    }

    constructor (models: seq<H.Model>, dictionary: Dictionary)
      requires H.AllValid(models) && |models| == MODELS && dictionary.WellFormed()
      ensures Valid() && this.models == models && this.dictionary == dictionary
      ensures State() == EncoderState(dictionary, false, false, 0, EmptyHistory())
    {
      this.models, this.dictionary := models, dictionary;
      enabled, last, started, moves := false, 0, false, EmptyHistory();
    }

    method EncodeClientMove(writer: LinkWriter, move: ClientMove, sequence: u32, delta: u8) returns (ok: bool)
      requires writer.Valid() && |writer.models| == MODELS
      modifies writer, writer.writer
      ensures writer.Valid()
      ensures ok <==> MoveItems(moves, move, sequence, delta).Some?
      ensures ok ==> writer.items == old(writer.items) + MoveItems(moves, move, sequence, delta).value
    {
      hide LinkWriter.Valid, CommandItems, NewPredictor, RecordAt, Minus8;
      var previous := RecordAt(moves, Before(sequence, delta + 1));
      if previous.None? {
        return false;
      }
      var base := RecordAt(moves, Before(sequence, delta));
      if base.None? {
        return false;
      }
      writer.WriteSymbol(CHECKSUM, move.checksum);
      writer.WriteSymbol(LOSSAGE, Minus8(move.lossage, base.value.lossage));
      var predictor := new PredictorState(previous.value.command, base.value.command, delta - TransmittedCount(delta));
      EncodeCommands(writer, predictor, move.commands[First(delta)..]);
      ok := true;
    }

    method EncodeClientString(writer: LinkWriter, data: seq<u8>) returns (ok: bool)
      requires writer.Valid() && |writer.models| == MODELS && dictionary.WellFormed()
      modifies writer, writer.writer
      ensures writer.Valid()
      ensures ok <==> StringItems(dictionary, data).Some?
      ensures ok ==> writer.items == old(writer.items) + StringItems(dictionary, data).value
    {
      hide LinkWriter.Valid, MatchOf;
      var left: seq<u8> := data;
      ghost var whole := StringItems(dictionary, data);
      while |left| != 0
        invariant writer.Valid()
        invariant whole.Some? <==> StringItems(dictionary, left).Some?
        invariant whole.Some? ==>
                    writer.items + StringItems(dictionary, left).value == old(writer.items) + whole.value
        decreases |left|
      {
        ghost var before, rest := writer.items, left;
        var m := MatchClientString(dictionary, left);
        if m.Some? {
          MatchFits(dictionary, left);
          writer.WriteSymbol(STRING_BYTE, ESCAPE);
          writer.WriteSymbol(STRING_TOKEN, m.value.token);
          left := left[|m.value.text|..];
        } else {
          if left[0] == ESCAPE {
            return false;
          }
          writer.WriteSymbol(STRING_BYTE, left[0]);
          left := left[1..];
        }
      }
      ok := true;
    }

    method EncodeClientLiteralString(writer: LinkWriter, data: seq<u8>)
      requires writer.Valid() && |writer.models| == MODELS
      modifies writer, writer.writer
      ensures writer.Valid() && writer.items == old(writer.items) + LiteralItems(data)
    {
      hide LinkWriter.Valid;
      for i := 0 to |data|
        invariant writer.Valid() && writer.items == old(writer.items) + LiteralItems(data)[..i]
      {
        writer.WriteSymbol(STRING_BYTE, data[i]);
      }
    }

    method EncodeUpload(writer: LinkWriter, payload: seq<u8>)
      requires writer.Valid() && |writer.models| == MODELS && |payload| >= 3
      modifies writer, writer.writer
      ensures writer.Valid()
      ensures writer.items == old(writer.items) + (Literals(payload[..3]) + UploadItems(payload[3..], 0))
    {
      hide LinkWriter.Valid, Minus8;
      writer.WriteBytes(payload[..3]);
      var data: seq<u8>, previous: u8 := payload[3..], 0;
      ghost var start := writer.items;
      for i := 0 to |data|
        invariant writer.Valid()
        invariant writer.items + UploadItems(data[i..], previous) == start + UploadItems(data, 0)
      {
        assert data[i..][0] == data[i] && data[i..][1..] == data[i + 1..];
        Regroup(writer.items, [H.Coded(UPLOAD_DELTA, Minus8(data[i], previous))], UploadItems(data[i + 1..], data[i]));
        writer.WriteSymbol(UPLOAD_DELTA, Minus8(data[i], previous));
        previous := data[i];
      }
      Regroup(old(writer.items), Literals(payload[..3]), UploadItems(data, 0));
    }

    function SettingFor(sequence: u32, delta: u8): Setting
      reads this
    {
      Setting(dictionary, moves, sequence, delta)
    }

    method EncodeClientOperation(writer: LinkWriter, op: Operation, sequence: u32, delta: u8) returns (ok: bool)
      requires Valid() && writer.Valid() && writer.models == models && WellFormed(op) && Compressed(op.opcode)
      modifies writer, writer.writer
      ensures writer.Valid()
      ensures ok <==> OperationItems(SettingFor(sequence, delta), op).Some?
      ensures ok ==> writer.items == old(writer.items) + OperationItems(SettingFor(sequence, delta), op).value
    {
      hide LinkWriter.Valid, MoveItems, StringItems, LiteralItems, UploadItems;
      writer.WriteSymbol(OPCODE, op.opcode);
      ok := true;
      if op.opcode == CLC_MOVE {
        ok := EncodeClientMove(writer, op.move.value, sequence, delta);
      } else if op.opcode == CLC_STRING {
        ok := EncodeClientString(writer, op.payload);
      } else if op.opcode == CLC_VOICE_START || op.opcode == CLC_VOICE_STOP {
        EncodeClientLiteralString(writer, op.payload);
      } else if op.opcode == CLC_UPLOAD {
        EncodeUpload(writer, op.payload);
      } else {
        writer.WriteBytes(op.payload);
      }
    }

    /** Writes the body of a compressed packet; tells whether a clc_delta went to
        the header. */
    method EncodeBody(writer: LinkWriter, operations: seq<Operation>, ack: u32, sequence: u32, delta: u8)
      returns (ok: bool, clcDelta: bool)
      requires Valid() && writer.Valid() && writer.models == models && AllWellFormed(operations)
      modifies writer, writer.writer
      ensures writer.Valid()
      ensures ok <==> ItemsFrom(SettingFor(sequence, delta), operations, ack, 0).Some?
      ensures ok ==>
                writer.items == old(writer.items) + ItemsFrom(SettingFor(sequence, delta), operations, ack, 0).value
      ensures ok ==> (clcDelta <==> AnyFolded(operations, ack))
    {
      hide LinkWriter.Valid, OperationItems, WellFormed;
      ghost var s := SettingFor(sequence, delta);
      ghost var whole := ItemsFrom(s, operations, ack, 0);
      clcDelta := false;
      for i := 0 to |operations|
        invariant writer.Valid()
        invariant clcDelta <==> AnyFolded(operations[..i], ack)
        invariant whole.Some? <==> ItemsFrom(s, operations, ack, i).Some?
        invariant whole.Some? ==>
                  writer.items + ItemsFrom(s, operations, ack, i).value == old(writer.items) + whole.value
      {
        FoldedNext(operations, ack, i);
        if operations[i].opcode == CLC_DELTA && operations[i].payload == [ack % 0x100] {
          clcDelta := true;
        } else {
          ghost var before := writer.items;
          ok := EncodeClientOperation(writer, operations[i], sequence, delta);
          if !ok {
            return false, clcDelta;
          }
          if whole.Some? {
            Regroup(before, OperationItems(s, operations[i]).value, ItemsFrom(s, operations, ack, i + 1).value);
          }
        }
      }
      assert operations[..|operations|] == operations;
      writer.WriteSymbol(OPCODE, CLC_BAD);
      ok := true;
    }

    function State(): EncoderState
      reads this
    {
      EncoderState(dictionary, enabled, started, last, moves)
    }

    method Enable()
      modifies `enabled
      ensures enabled
    {
      enabled := true;
    }

    method Observe(sequence: u32)
      modifies `last, `started
      ensures started && last == Tracked(old(started), old(last), sequence)
    {
      if !started {
        last, started := sequence, true;
      } else if Newer(last, sequence) {
        last := sequence;
      }
    }

    /** Commits a raw packet. */
    method CommitRaw(operations: seq<Operation>, sequence: u32)
      modifies this
      ensures State() == old(State()).(moves := Commit(old(moves), operations, sequence, 0), started := true,
                                       last := Tracked(old(started), old(last), sequence))
    {
      moves := Commit(moves, operations, sequence, 0);
      Observe(sequence);
    }

    /** The compressed form of a packet, unless one of its operations has none. */
    method Compress(h: RawHeader, operations: seq<Operation>, sequence: u32, delta: u8) returns (wire: Option<seq<u8>>)
      requires Valid() && AllWellFormed(operations)
      ensures wire.Some? <==> ItemsFrom(SettingFor(sequence, delta), operations, h.ack, 0).Some?
      ensures wire.Some? ==>
                var items := [H.Coded(SEQUENCE_DELTA, delta)]
                             + ItemsFrom(SettingFor(sequence, delta), operations, h.ack, 0).value;
                && |wire.value| >= 6 && wire.value[..6] == CompressedHeaderBytes(h, AnyFolded(operations, h.ack))
                && H.Known(models, items) && H.AllBits(models, items) <= B.Stream(wire.value[6..])
    {
      hide LinkWriter.Valid, ItemsFrom, AnyFolded, AllWellFormed, B.Stream, CompressedHeaderBytes, H.AllBits;
      var writer := new LinkWriter(models);
      writer.WriteSymbol(SEQUENCE_DELTA, delta);
      var ok, clcDelta := EncodeBody(writer, operations, h.ack, sequence, delta);
      if !ok {
        return None;
      }
      WrittenBits(writer);
      assert writer.items
             == [H.Coded(SEQUENCE_DELTA, delta)] + ItemsFrom(SettingFor(sequence, delta), operations, h.ack, 0).value;
      wire := Some(CompressedHeaderBytes(h, clcDelta) + writer.writer.data);
      assert wire.value[6..] == writer.writer.data;
    }

    /** Compresses exactly the compressible packets, into what the plan says, and passes
        all others. */
    method Encode(packet: seq<u8>) returns (wire: seq<u8>)
      requires Valid()
      modifies this
      ensures Valid() && State() == After(old(State()), packet)
      ensures !old(enabled) ==> wire == packet
      ensures !Compressible(old(State()), packet) ==> wire == packet
      ensures PlanOf(old(State()), packet).Some? <==> Compressible(old(State()), packet)
      ensures PlanOf(old(State()), packet).None? ==> wire == packet
      ensures PlanOf(old(State()), packet).Some? ==>
                var plan := PlanOf(old(State()), packet).value;
                && ReadRawHeader(packet).Some? && |wire| >= 6
                && wire[..6] == CompressedHeaderBytes(ReadRawHeader(packet).value, plan.clcDelta)
                && H.Known(models, plan.items) && H.AllBits(models, plan.items) <= B.Stream(wire[6..])
    {
      hide RecordAt, ItemsFrom, ParseAll, Commit, AnyFolded, WellFormed, AllWellFormed, B.Stream, Tracked,
           CompressedHeaderBytes, H.AllBits, Before, Newer, First, Compressible;
      CompressedExactly(State(), packet);
      var header := ReadRawHeader(packet);
      if header.None? {
        return packet;
      }
      var h := header.value;
      var sequence := Masked(h.sequence);
      var parsing := ParseClientOperations(packet[10..]);
      ParsedAllWellFormed(packet[10..], [], true);
      var difference := (sequence - last) % 0x8000_0000;
      if !enabled || !started || !parsing.complete || !parsing.compressible || difference == 0 || difference > 28 {
        CommitRaw(parsing.operations, sequence);
        return packet;
      }
      var delta: u8 := difference;
      if RecordAt(moves, Before(sequence, delta)).None? {
        CommitRaw(parsing.operations, sequence);
        return packet;
      }
      var compressed := Compress(h, parsing.operations, sequence, delta);
      if compressed.None? {
        CommitRaw(parsing.operations, sequence);
        return packet;
      }
      moves := Commit(moves, parsing.operations, sequence, First(delta));
      Observe(sequence);
      wire := compressed.value;
    }

    lemma FoldedNext(operations: seq<Operation>, ack: u32, i: nat)
      requires i < |operations|
      ensures AnyFolded(operations[..i + 1], ack) <==> AnyFolded(operations[..i], ack) || Folded(operations[i], ack)
    {
      assert forall k :: 0 <= k < i ==> operations[..i + 1][k] == operations[..i][k];
      if AnyFolded(operations[..i], ack) {
        var k :| 0 <= k < i && Folded(operations[..i][k], ack);
        assert Folded(operations[..i + 1][k], ack);
      }
      if Folded(operations[i], ack) {
        assert Folded(operations[..i + 1][i], ack);
      }
    }
  }
}
