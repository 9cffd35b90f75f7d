/** User commands of the client link: a predictor that extrapolates angles, and
    masks that are themselves predicted. */
module ClientMoves {
  import opened Words
  import opened PackedWords
  import opened LinkStreams
  import H = HuffmanRoundTrip

  // Frequency models of the client link, by what they code.
  const SEQUENCE_DELTA: nat := 0
  const OPCODE: nat := 1
  const UPLOAD_DELTA: nat := 2
  const STRING_BYTE: nat := 3
  const STRING_TOKEN: nat := 4
  const CHECKSUM: nat := 5
  const LOSSAGE: nat := 6
  const MASK_LOW: nat := 7
  const MASK_HIGH: nat := 8
  const BUTTONS: nat := 9
  const MSEC: nat := 10
  const IMPULSE: nat := 11
  const WORDS: nat := 12      // low and high bytes of the six words
  const MODELS: nat := 24

  // Bits of a command mask above those of the words.
  const BUTTONS_BIT: nat := 12
  const MSEC_BIT: nat := 13
  const IMPULSE_BIT: nat := 14
  const INVALID_BIT: nat := 15

  /** Angles are pitch, yaw and roll; moves are forward, side and up. */
  datatype CommandRecord = Command(angles: seq<u16>, moves: seq<u16>, buttons: u8, impulse: u8, msec: u8) {
    predicate WellFormed() {
      |angles| == |moves| == 3
    }
  }

  type ClientCommand = c: CommandRecord | c.WellFormed() witness Command([0, 0, 0], [0, 0, 0], 0, 0, 0)

  datatype PredictorRecord = Predictor(angles: seq<u16>, angleDeltas: seq<u16>, moves: seq<u16>, buttons: u8,
                                       msec: u8) {
    predicate WellFormed() {
      |angles| == |angleDeltas| == |moves| == 3
    }
  }

  type MovePredictor = p: PredictorRecord | p.WellFormed() witness Predictor([0, 0, 0], [0, 0, 0], [0, 0, 0], 0, 0)

  /** The link sends yaw before pitch. */
  function AngleAt(word: nat): (angle: nat)
    requires word < 3
    ensures angle < 3
  {
    if word == 0 then 1 else if word == 1 then 0 else 2
  }

  function Component(c: ClientCommand, word: nat): u16
    requires word < 6
  {
    if word < 3 then c.angles[AngleAt(word)] else c.moves[word - 3]
  }

  /** Angles go on turning as fast as before; moves stay. */
  function Predicted(p: MovePredictor, word: nat): u16
    requires word < 6
  {
    if word < 3 then Plus16(p.angles[AngleAt(word)], p.angleDeltas[AngleAt(word)]) else p.moves[word - 3]
  }

  /** The predictor after a command. */
  function Advance(p: MovePredictor, c: ClientCommand): MovePredictor {
    Predictor(c.angles, seq(3, i requires 0 <= i < 3 => Minus16(c.angles[i], p.angles[i])), c.moves, c.buttons, c.msec)
  }

  type WordMask = f: Flags | |f| == 16
    witness [false, false, false, false, false, false, false, false,
             false, false, false, false, false, false, false, false]

  /** What is sent of a command: six differences in the order of the link. */
  datatype DeltaRecord = Delta(words: seq<u16>, buttons: u8, impulse: u8, msec: u8) {
    predicate WellFormed() {
      |words| == 6
    }
  }

  type CommandDelta = d: DeltaRecord | d.WellFormed() witness Delta([0, 0, 0, 0, 0, 0], 0, 0, 0)

  function PlannedDelta(p: MovePredictor, c: ClientCommand): CommandDelta {
    Delta(seq(6, w requires 0 <= w < 6 => Minus16(Component(c, w), Predicted(p, w))),
          XorByte(c.buttons, p.buttons), c.impulse, Minus8(c.msec, p.msec))
  }

  /** The low byte of a difference does not give the word by itself. */
  function NeedsHigh(delta: u16): bool {
    delta != Signed(delta % 0x100) % 0x1_0000
  }

  function MaskOfDelta(d: CommandDelta): WordMask {
    seq(16, i requires 0 <= i < 16 =>
      if i < 12 then if i % 2 == 0 then d.words[i / 2] % 0x100 != 0 else NeedsHigh(d.words[i / 2])
      else if i == BUTTONS_BIT then d.buttons != 0
      else if i == MSEC_BIT then d.msec != 0
      else i == IMPULSE_BIT && d.impulse != 0)
  }

  /** The part of a mask that predicts the next one. */
  function Remembered(mask: WordMask): WordMask {
    seq(16, i requires 0 <= i < 16 => mask[i] && (i < 6 || i == MSEC_BIT))
  }

  function LowModel(word: nat): nat {
    WORDS + 2 * word
  }

  function HighModel(word: nat): nat {
    WORDS + 2 * word + 1
  }

  function Optional(present: bool, model: nat, symbol: u8): Items {
    if present then [H.Coded(model, symbol)] else []
  }

  function WordItems(d: CommandDelta, word: nat): Items
    requires word < 6
  {
    var split := SplitDelta16(d.words[word]);
    Optional(MaskOfDelta(d)[2 * word], LowModel(word), split.low)
    + Optional(MaskOfDelta(d)[2 * word + 1], HighModel(word), split.high)
  }

  function AllWordItems(d: CommandDelta, word: nat): Items
    requires word <= 6
    decreases 6 - word
  {
    if word == 6 then [] else WordItems(d, word) + AllWordItems(d, word + 1)
  }

  function MaskItems(mask: WordMask, previous: WordMask): Items {
    var change := Xor(mask, previous);
    [H.Coded(MASK_LOW, ByteOf(change[..8])), H.Coded(MASK_HIGH, ByteOf(change[8..]))]
  }

  function TailItems(d: CommandDelta): Items {
    Optional(d.buttons != 0, BUTTONS, d.buttons)
    + (Optional(d.msec != 0, MSEC, d.msec)
    + Optional(d.impulse != 0, IMPULSE, d.impulse))
  }

  function DeltaItems(d: CommandDelta, previous: WordMask): Items {
    MaskItems(MaskOfDelta(d), previous) + (AllWordItems(d, 0) + TailItems(d))
  }

  function TakeOptional(items: Items, present: bool, model: nat): (p: Parse<u8>)
    ensures p.NotLonger(items) && !p.Bad?
  {
    if present then TakeSymbol(items, model) else Parsed(0, items)
  }

  function ParseMask(items: Items, previous: WordMask): (p: Parse<WordMask>)
    ensures p.Shorter(items)
  {
    match TakeSymbol(items, MASK_LOW)
    case Lost => Lost
    case Parsed(low, rest) =>
      match TakeSymbol(rest, MASK_HIGH)
      case Lost => Lost
      case Parsed(high, rest) =>
        var mask: WordMask := Xor(MaskOf(low) + MaskOf(high), previous);
        if mask[INVALID_BIT] then Bad else Parsed(mask, rest)
  }

  /** The words from the next one on, after those already read. */
  function ParseWords(items: Items, mask: WordMask, words: seq<u16>): (p: Parse<seq<u16>>)
    requires |words| <= 6
    ensures p.NotLonger(items) && !p.Bad? && (p.Parsed? ==> |p.value| == 6)
    decreases 6 - |words|
  {
    var word := |words|;
    if word == 6 then Parsed(words, items)
    else
      match TakeOptional(items, mask[2 * word], LowModel(word))
      case Lost => Lost
      case Parsed(low, rest) =>
        match TakeOptional(rest, mask[2 * word + 1], HighModel(word))
        case Lost => Lost
        case Parsed(high, rest) => ParseWords(rest, mask, words + [AddDelta(0, low, high)])
  }

  function Unpredicted(p: MovePredictor, words: seq<u16>, buttons: u8, impulse: u8, msec: u8): ClientCommand
    requires |words| == 6
  {
    Command(seq(3, i requires 0 <= i < 3 => Plus16(Plus16(p.angles[i], p.angleDeltas[i]), words[AngleAt(i)])),
            seq(3, i requires 0 <= i < 3 => Plus16(p.moves[i], words[3 + i])),
            XorByte(p.buttons, buttons), impulse, Plus8(p.msec, msec))
  }

  function ParseCommand(items: Items, p: MovePredictor, previous: WordMask): (parse: Parse<(ClientCommand, WordMask)>)
    ensures parse.Shorter(items)
  {
    match ParseMask(items, previous)
    case Bad => Bad
    case Lost => Lost
    case Parsed(mask, rest) =>
      match ParseWords(rest, mask, [])
      case Lost => Lost
      case Parsed(words, rest) =>
        match TakeOptional(rest, mask[BUTTONS_BIT], BUTTONS)
        case Lost => Lost
        case Parsed(buttons, rest) =>
          match TakeOptional(rest, mask[MSEC_BIT], MSEC)
          case Lost => Lost
          case Parsed(msec, rest) =>
            match TakeOptional(rest, mask[IMPULSE_BIT], IMPULSE)
            case Lost => Lost
            case Parsed(impulse, rest) => Parsed((Unpredicted(p, words, buttons, impulse, msec), mask), rest)
  }

  lemma OptionalRestored(present: bool, model: nat, symbol: u8, rest: Items)
    requires !present ==> symbol == 0
    ensures TakeOptional(Optional(present, model, symbol) + rest, present, model) == Parsed(symbol, rest)
  {
    if present {
      SymbolRestored(model, symbol, rest);
    } else {
      assert [] + rest == rest;
    }
  }

  lemma MaskRestored(mask: WordMask, previous: WordMask, rest: Items)
    requires !mask[INVALID_BIT]
    ensures ParseMask(MaskItems(mask, previous) + rest, previous) == Parsed(mask, rest)
  {
    var change := Xor(mask, previous);
    MaskRoundTrip(change[..8]);
    MaskRoundTrip(change[8..]);
    assert change[..8] + change[8..] == change;
    assert Xor(change, previous) == mask;
    hide MaskOf, ByteOf;
    var items := MaskItems(mask, previous) + rest;
    assert items[1..][1..] == rest;
  }

  /** The sent bytes are those that are not zero, and they give the word back. */
  lemma WordSplit(delta: u16)
    ensures delta % 0x100 == 0 <==> SplitDelta16(delta).low == 0
    ensures !NeedsHigh(delta) <==> SplitDelta16(delta).high == 0
    ensures AddDelta(0, SplitDelta16(delta).low, SplitDelta16(delta).high) == delta
  {
    SplitParts(delta);
    SplitRestores(delta, 0);
    assert Minus16(delta, 0) == delta;
  }

  /** Reading one word. */
  lemma WordRestored(d: CommandDelta, words: seq<u16>, later: Items)
    requires words < d.words
    ensures ParseWords(WordItems(d, |words|) + later, MaskOfDelta(d), words)
            == ParseWords(later, MaskOfDelta(d), words + [d.words[|words|]])
  {
    var word := |words|;
    var split := SplitDelta16(d.words[word]);
    WordSplit(d.words[word]);
    var low, high := MaskOfDelta(d)[2 * word], MaskOfDelta(d)[2 * word + 1];
    assert (!low ==> split.low == 0) && (!high ==> split.high == 0);
    hide SplitDelta16, NeedsHigh, AddDelta, TakeOptional, Optional, MaskOfDelta;
    OptionalRestored(low, LowModel(word), split.low, Optional(high, HighModel(word), split.high) + later);
    OptionalRestored(high, HighModel(word), split.high, later);
    hide LowModel, HighModel;
    Regroup(Optional(low, LowModel(word), split.low), Optional(high, HighModel(word), split.high), later);
  }

  lemma {:induction false} WordsRestored(d: CommandDelta, words: seq<u16>, rest: Items)
    requires words <= d.words
    ensures ParseWords(AllWordItems(d, |words|) + rest, MaskOfDelta(d), words) == Parsed(d.words, rest)
    decreases 6 - |words|
  {
    hide MaskOfDelta, WordItems, TakeOptional;
    var word := |words|;
    if word == 6 {
      assert [] + rest == rest && words == d.words;
    } else {
      var later := AllWordItems(d, word + 1) + rest;
      assert AllWordItems(d, word) + rest == WordItems(d, word) + later;
      WordRestored(d, words, later);
      hide ParseWords;
      assert words + [d.words[word]] <= d.words;
      WordsRestored(d, words + [d.words[word]], rest);
    }
  }

  lemma UnpredictedAngle(p: MovePredictor, c: ClientCommand, i: nat)
    requires i < 3
    ensures Plus16(Plus16(p.angles[i], p.angleDeltas[i]), PlannedDelta(p, c).words[AngleAt(i)]) == c.angles[i]
  {
    assert AngleAt(AngleAt(i)) == i && AngleAt(i) < 3;
    hide Plus16, Minus16, XorByte, Minus8;
    assert PlannedDelta(p, c).words[AngleAt(i)] == Minus16(c.angles[i], Plus16(p.angles[i], p.angleDeltas[i]));
    WordDifferenceAdds(c.angles[i], Plus16(p.angles[i], p.angleDeltas[i]));
  }

  lemma UnpredictedMove(p: MovePredictor, c: ClientCommand, i: nat)
    requires i < 3
    ensures Plus16(p.moves[i], PlannedDelta(p, c).words[3 + i]) == c.moves[i]
  {
    hide Plus16, Minus16, XorByte, Minus8;
    assert PlannedDelta(p, c).words[3 + i] == Minus16(c.moves[i], p.moves[i]);
    WordDifferenceAdds(c.moves[i], p.moves[i]);
  }

  lemma UnpredictedIsCommand(p: MovePredictor, c: ClientCommand)
    ensures var d := PlannedDelta(p, c);
            Unpredicted(p, d.words, d.buttons, d.impulse, d.msec) == c
  {
    var d := PlannedDelta(p, c);
    XorByteRestores(p.buttons, c.buttons);
    assert d.buttons == XorByte(c.buttons, p.buttons) && d.impulse == c.impulse && Plus8(p.msec, d.msec) == c.msec;
    hide XorByte, Plus16, Plus8, PlannedDelta, AngleAt;
    var u := Unpredicted(p, d.words, d.buttons, d.impulse, d.msec);
    forall i | 0 <= i < 3
      ensures u.angles[i] == c.angles[i] && u.moves[i] == c.moves[i]
    {
      UnpredictedAngle(p, c, i);
      UnpredictedMove(p, c, i);
    }
    assert u.angles == c.angles && u.moves == c.moves;
  }

  /** Decoding the planned difference of any command, from any prediction and any
      remembered mask, gives the command and the mask that both ends remember. */
  lemma CommandRestored(p: MovePredictor, c: ClientCommand, previous: WordMask, rest: Items)
    ensures var d := PlannedDelta(p, c);
            ParseCommand(DeltaItems(d, previous) + rest, p, previous) == Parsed((c, MaskOfDelta(d)), rest)
  {
    hide PlannedDelta, Unpredicted, ParseMask, ParseWords, MaskItems, AllWordItems, TakeOptional, Optional;
    var d := PlannedDelta(p, c);
    var mask := MaskOfDelta(d);
    var impulse := Optional(d.impulse != 0, IMPULSE, d.impulse) + rest;
    var msec := Optional(d.msec != 0, MSEC, d.msec) + impulse;
    var buttons := Optional(d.buttons != 0, BUTTONS, d.buttons) + msec;
    assert TailItems(d) + rest == buttons;
    assert DeltaItems(d, previous) + rest == MaskItems(mask, previous) + (AllWordItems(d, 0) + buttons);
    MaskRestored(mask, previous, AllWordItems(d, 0) + buttons);
    WordsRestored(d, [], buttons);
    OptionalRestored(d.buttons != 0, BUTTONS, d.buttons, msec);
    OptionalRestored(d.msec != 0, MSEC, d.msec, impulse);
    OptionalRestored(d.impulse != 0, IMPULSE, d.impulse, rest);
    UnpredictedIsCommand(p, c);
  }

  // Histories and whole moves.

  datatype MoveRecord = Move(checksum: u8, lossage: u8, commands: seq<ClientCommand>) {
    predicate WellFormed() {
      |commands| == 3
    }
  }

  const ZERO_COMMAND: ClientCommand := Command([0, 0, 0], [0, 0, 0], 0, 0, 0)

  type ClientMove = m: MoveRecord | m.WellFormed() witness Move(0, 0, [ZERO_COMMAND, ZERO_COMMAND, ZERO_COMMAND])

  datatype Entry = Entry(sequence: u32, command: ClientCommand, lossage: u8)

  /** The ring of the last commands, by the low five bits of their sequence. */
  type History = h: seq<Option<Entry>> | |h| == 32 witness EmptyHistory()

  function EmptyHistory(): (h: seq<Option<Entry>>)
    ensures |h| == 32
  {
    seq(32, _ => None)
  }

  function RecordAt(h: History, sequence: u32): Option<Entry> {
    var entry := h[sequence % 32];
    if entry.Some? && entry.value.sequence == sequence then entry else None
  }

  /** Sequence numbers have 31 bits. */
  function Before(sequence: u32, distance: nat): u32 {
    (sequence - distance) % 0x8000_0000
  }

  /** The sequence of the command at `index` of the three in a packet. */
  function CommandSequence(packet: u32, index: nat): u32
    requires index < 3
  {
    Before(packet, 2 - index)
  }

  /** A packet sends the commands added since the one it refers to. */
  function TransmittedCount(delta: u8): (count: nat)
    ensures count <= 3 && count <= delta
  {
    if delta < 3 then delta else 3
  }

  function First(delta: u8): (first: nat)
    ensures first <= 3
  {
    3 - TransmittedCount(delta)
  }

  /** Extrapolates over the commands between the base and the first one sent. */
  function NewPredictor(previous: ClientCommand, base: ClientCommand, skipped: nat): MovePredictor {
    var turn := seq(3, i requires 0 <= i < 3 => Minus16(base.angles[i], previous.angles[i]));
    Predictor(seq(3, i requires 0 <= i < 3 => Skipped(base.angles[i], turn[i], skipped)),
              turn, base.moves, base.buttons, base.msec)
  }

  function Skipped(angle: u16, turn: u16, skipped: nat): u16 {
    (angle + turn * skipped) % 0x1_0000
  }

  function CommandItems(p: MovePredictor, commands: seq<ClientCommand>, previous: WordMask): Items
    decreases |commands|
  {
    if commands == [] then []
    else
      var d := PlannedDelta(p, commands[0]);
      DeltaItems(d, previous) + CommandItems(Advance(p, commands[0]), commands[1..], Remembered(MaskOfDelta(d)))
  }

  function ParseCommands(items: Items, p: MovePredictor, previous: WordMask, count: nat, done: seq<ClientCommand>)
    : (parse: Parse<seq<ClientCommand>>)
    ensures parse.NotLonger(items) && (parse.Parsed? ==> |parse.value| == |done| + count)
    decreases count
  {
    if count == 0 then Parsed(done, items)
    else
      match ParseCommand(items, p, previous)
      case Bad => Bad
      case Lost => Lost
      case Parsed((c, mask), rest) => ParseCommands(rest, Advance(p, c), Remembered(mask), count - 1, done + [c])
  }

  lemma {:induction false} CommandsRestored(p: MovePredictor, commands: seq<ClientCommand>, previous: WordMask,
                                            done: seq<ClientCommand>, rest: Items)
    ensures ParseCommands(CommandItems(p, commands, previous) + rest, p, previous, |commands|, done)
            == Parsed(done + commands, rest)
    decreases |commands|
  {
    hide PlannedDelta, DeltaItems, ParseCommand, MaskOfDelta, Remembered, Advance;
    if commands == [] {
      assert [] + rest == rest && done + [] == done;
    } else {
      var c := commands[0];
      var d := PlannedDelta(p, c);
      var later := CommandItems(Advance(p, c), commands[1..], Remembered(MaskOfDelta(d)));
      assert CommandItems(p, commands, previous) + rest == DeltaItems(d, previous) + (later + rest);
      CommandRestored(p, c, previous, later + rest);
      CommandsRestored(Advance(p, c), commands[1..], Remembered(MaskOfDelta(d)), done + [c], rest);
      assert done + [c] + commands[1..] == done + commands;
    }
  }

  const NO_MASK: WordMask := NoFlags(16)

  /** The two commands that a packet is predicted from, when both are on record. */
  function Basis(h: History, sequence: u32, delta: u8): Option<(Entry, Entry)> {
    var previous, base := RecordAt(h, Before(sequence, delta + 1)), RecordAt(h, Before(sequence, delta));
    if previous.None? || base.None? then None else Some((previous.value, base.value))
  }

  function StartOf(basis: (Entry, Entry), delta: u8): MovePredictor {
    NewPredictor(basis.0.command, basis.1.command, delta - TransmittedCount(delta))
  }

  function MoveItems(h: History, move: ClientMove, sequence: u32, delta: u8): Option<Items> {
    match Basis(h, sequence, delta)
    case None => None
    case Some(basis) =>
      Some([H.Coded(CHECKSUM, move.checksum), H.Coded(LOSSAGE, Minus8(move.lossage, basis.1.lossage))]
           + CommandItems(StartOf(basis, delta), move.commands[First(delta)..], NO_MASK))
  }

  /** The commands that are not sent, as they are on record. */
  function Recorded(h: History, sequence: u32, count: nat): Option<seq<ClientCommand>>
    requires count <= 3
  {
    if count == 0 then Some([])
    else
      var entry := RecordAt(h, CommandSequence(sequence, count - 1));
      match Recorded(h, sequence, count - 1)
      case None => None
      case Some(earlier) => if entry.None? then None else Some(earlier + [entry.value.command])
  }

  function ParseMove(h: History, items: Items, sequence: u32, delta: u8): (p: Parse<ClientMove>)
    ensures p.NotLonger(items)
  {
    match Basis(h, sequence, delta)
    case None => Bad
    case Some(basis) =>
      match TakeSymbol(items, CHECKSUM)
      case Lost => Lost
      case Parsed(checksum, rest) =>
        match TakeSymbol(rest, LOSSAGE)
        case Lost => Lost
        case Parsed(lossageDelta, rest) =>
          match Recorded(h, sequence, First(delta))
          case None => Bad
          case Some(earlier) =>
            RecordedCount(h, sequence, First(delta));
            match ParseCommands(rest, StartOf(basis, delta), NO_MASK, TransmittedCount(delta), earlier)
            case Bad => Bad
            case Lost => Lost
            case Parsed(commands, rest) =>
              Parsed(Move(checksum, Plus8(basis.1.lossage, lossageDelta), commands), rest)
  }

  lemma {:induction false} RecordedCount(h: History, sequence: u32, count: nat)
    requires count <= 3
    ensures Recorded(h, sequence, count).Some? ==> |Recorded(h, sequence, count).value| == count
  {
    if count > 0 {
      RecordedCount(h, sequence, count - 1);
    }
  }

  /** Commands that are not sent are the base and the one before it: whoever can
      encode a move can also fill in the rest of it. */
  lemma AlwaysRecorded(h: History, sequence: u32, delta: u8)
    requires 1 <= delta && Basis(h, sequence, delta).Some?
    ensures Recorded(h, sequence, First(delta)).Some? && |Recorded(h, sequence, First(delta)).value| == First(delta)
  {
    RecordedCount(h, sequence, First(delta));
    var basis := Basis(h, sequence, delta).value;
    if delta == 1 {
      assert Recorded(h, sequence, 0) == Some([]);
      assert Recorded(h, sequence, 1) == Some([] + [basis.0.command]);
      assert Recorded(h, sequence, 2) == Some([] + [basis.0.command] + [basis.1.command]);
    } else if delta == 2 {
      assert Recorded(h, sequence, 0) == Some([]);
      assert Recorded(h, sequence, 1) == Some([] + [basis.1.command]);
    }
  }

  /** What arrives of a move: its own new commands after the recorded ones. */
  function Received(h: History, move: ClientMove, sequence: u32, delta: u8): ClientMove
    requires 1 <= delta && Basis(h, sequence, delta).Some?
  {
    AlwaysRecorded(h, sequence, delta);
    move.(commands := Recorded(h, sequence, First(delta)).value + move.commands[First(delta)..])
  }

  /** A move is decoded with the recorded commands in place of those not sent. */
  lemma MoveRestored(h: History, move: ClientMove, sequence: u32, delta: u8, rest: Items)
    requires 1 <= delta && MoveItems(h, move, sequence, delta).Some?
    ensures Basis(h, sequence, delta).Some?
    ensures ParseMove(h, MoveItems(h, move, sequence, delta).value + rest, sequence, delta)
            == Parsed(Received(h, move, sequence, delta), rest)
  {
    hide CommandItems, ParseCommands, NewPredictor, Basis, Recorded, Plus8, Minus8, NoFlags;
    var basis := Basis(h, sequence, delta).value;
    var lossageDelta := Minus8(move.lossage, basis.1.lossage);
    var sent := move.commands[First(delta)..];
    var items := CommandItems(StartOf(basis, delta), sent, NO_MASK) + rest;
    assert MoveItems(h, move, sequence, delta).value + rest
           == [H.Coded(CHECKSUM, move.checksum)] + ([H.Coded(LOSSAGE, lossageDelta)] + items);
    SymbolRestored(CHECKSUM, move.checksum, [H.Coded(LOSSAGE, lossageDelta)] + items);
    SymbolRestored(LOSSAGE, lossageDelta, items);
    AlwaysRecorded(h, sequence, delta);
    CommandsRestored(StartOf(basis, delta), sent, NO_MASK, Recorded(h, sequence, First(delta)).value, rest);
    ByteDifferenceAdds(move.lossage, basis.1.lossage);
  }

  // What the prediction means.

  /** The command that is predicted: angles go on turning, all else stays. */
  function Expected(p: MovePredictor): ClientCommand {
    Command(seq(3, i requires 0 <= i < 3 => Plus16(p.angles[i], p.angleDeltas[i])), p.moves, p.buttons, 0, p.msec)
  }

  /** The predictor after so many commands that were exactly as predicted. */
  function Coasted(p: MovePredictor, count: nat): MovePredictor {
    if count == 0 then p else var before := Coasted(p, count - 1); Advance(before, Expected(before))
  }

  lemma SkippedNext(angle: u16, turn: u16, skipped: nat)
    ensures Plus16(Skipped(angle, turn, skipped), turn) == Skipped(angle, turn, skipped + 1)
  {
    assert turn * (skipped + 1) == turn * skipped + turn;
    WrapOnce(angle + turn * skipped, turn);
  }

  lemma WrapOnce(x: nat, y: nat)
    ensures (x % 0x1_0000 + y) % 0x1_0000 == (x + y) % 0x1_0000
  {
    assert x == x / 0x1_0000 * 0x1_0000 + x % 0x1_0000;
  }

  /** The one multiplication that skips commands is the same as predicting them one
      by one. */
  lemma {:induction false} SkippingIsCoasting(previous: ClientCommand, base: ClientCommand, skipped: nat)
    ensures NewPredictor(previous, base, skipped) == Coasted(NewPredictor(previous, base, 0), skipped)
  {
    hide Minus16, Plus16, Skipped;
    if skipped > 0 {
      SkippingIsCoasting(previous, base, skipped - 1);
      var before, p := NewPredictor(previous, base, skipped - 1), NewPredictor(previous, base, skipped);
      forall i | 0 <= i < 3
        ensures p.angles[i] == Expected(before).angles[i]
        ensures p.angleDeltas[i] == Minus16(Expected(before).angles[i], before.angles[i])
      {
        SkippedNext(base.angles[i], before.angleDeltas[i], skipped - 1);
        SumMinus(before.angles[i], before.angleDeltas[i]);
      }
      assert p.angles == Advance(before, Expected(before)).angles;
      assert p.angleDeltas == Advance(before, Expected(before)).angleDeltas;
    }
  }

  lemma SumMinus(a: u16, b: u16)
    ensures Minus16(Plus16(a, b), a) == b
  {
  }

  /** Nothing but an empty mask is sent of a command that is as predicted. */
  lemma ExpectedIsFree(p: MovePredictor)
    ensures MaskOfDelta(PlannedDelta(p, Expected(p))) == NO_MASK
  {
    XorIsZero(MaskOf(p.buttons), MaskOf(p.buttons));
    var d := PlannedDelta(p, Expected(p));
    assert d.buttons == 0 && d.msec == 0 && d.impulse == 0;
    hide XorByte, Plus16;
    forall w | 0 <= w < 6
      ensures d.words[w] == 0
    {
    }
    assert !NeedsHigh(0);
  }

  /** A committed number is found under it, with its command. */
  lemma FoundAfterUpdate(h: History, entry: Entry, sequence: u32)
    requires entry.sequence < 0x8000_0000 && sequence < 0x8000_0000
    ensures RecordAt(h[entry.sequence % 32 := Some(entry)], sequence)
            == (if sequence == entry.sequence then Some(entry)
                else if sequence % 32 == entry.sequence % 32 then None
                else RecordAt(h, sequence))
  {
  }
}
