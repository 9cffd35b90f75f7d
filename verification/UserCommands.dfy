/** User commands in recorded demos: differences against a state that the encoder
    and the decoder both keep. */
module UserCommands {
  import opened Words
  import opened PackedWords
  import opened LinkStreams
  import opened ClientMoves

  datatype StateRecord = State(mask: WordMask, angles: seq<u16>, angleDeltas: seq<u16>, movement: seq<u16>,
                               buttons: u8, impulse: u8, msec: u8)
  {
    predicate WellFormed() {
      |angles| == |angleDeltas| == |movement| == 3
    }
  }

  const START: StateRecord := State(NoFlags(16), [0, 0, 0], [0, 0, 0], [0, 0, 0], 0, 8, 0)

  type CommandState = s: StateRecord | s.WellFormed()
    witness State([false, false, false, false, false, false, false, false, false, false, false, false, false, false,
                   false, false],
                  [0, 0, 0], [0, 0, 0], [0, 0, 0], 0, 8, 0)

  /** The recorded command: angles are the bits of single-precision numbers, and
      come twice. */
  datatype PayloadRecord = Payload(msec: u8, padding: seq<u8>, angles: seq<u32>, movement: seq<u16>,
                                   buttons: u8, impulse: u8, copies: seq<u32>)
  {
    predicate WellFormed() {
      |padding| == |angles| == |movement| == |copies| == 3
    }
  }

  type CommandPayload = p: PayloadRecord | p.WellFormed()
    witness Payload(0, [0, 0, 0], [0, 0, 0], [0, 0, 0], 0, 0, [0, 0, 0])

  /** Angles as 16-bit units: any way of unpacking them, and a way of packing that
      finds a unit only when it unpacks to exactly these bits. */
  datatype AngleCode = AngleCode(unpack: u16 -> u32, pack: u32 -> Option<u16>) {
    ghost predicate Exact() {
      forall bits: u32 :: pack(bits).Some? ==> unpack(pack(bits).value) == bits
    }

    /** No unit is overlooked. */
    ghost predicate Complete() {
      forall unit: u16 :: pack(unpack(unit)).Some?
    }
  }

  function PackedAngles(code: AngleCode, angles: seq<u32>): Option<seq<u16>>
    requires |angles| == 3
  {
    if code.pack(angles[0]).None? || code.pack(angles[1]).None? || code.pack(angles[2]).None? then None
    else Some([code.pack(angles[0]).value, code.pack(angles[1]).value, code.pack(angles[2]).value])
  }

  /** What the encoder accepts: canonical payloads, and no return to a zero impulse. */
  predicate Encodable(code: AngleCode, s: CommandState, p: CommandPayload) {
    && p.padding == [0, 0, 0] && p.angles == p.copies && PackedAngles(code, p.angles).Some?
    && (p.impulse == 0 ==> s.impulse == 0)
  }

  /** Changes of the turns and of the movement, word by word. */
  function Changes(s: CommandState, angles: seq<u16>, p: CommandPayload): CommandDelta
    requires |angles| == 3
  {
    Delta(seq(6, w requires 0 <= w < 6 =>
            if w < 3 then Minus16(Minus16(angles[w], s.angles[w]), s.angleDeltas[w])
            else Minus16(p.movement[w - 3], s.movement[w - 3])),
          XorByte(p.buttons, s.buttons), p.impulse, Minus8(p.msec, s.msec))
  }

  function NextState(s: CommandState, angles: seq<u16>, p: CommandPayload): CommandState
    requires |angles| == 3
  {
    State(MaskOfDelta(Changes(s, angles, p)), angles, seq(3, i requires 0 <= i < 3 => Minus16(angles[i], s.angles[i])),
          p.movement, p.buttons, p.impulse, p.msec)
  }

  /** The items have the shape of the link's, with rows of their own. */
  function EncodedItems(code: AngleCode, s: CommandState, p: CommandPayload): Items
    requires Encodable(code, s, p)
  {
    DeltaItems(Changes(s, PackedAngles(code, p.angles).value, p), Remembered(s.mask))
  }

  /** Any mask is accepted here. */
  function ParseAnyMask(items: Items, previous: WordMask): (p: Parse<WordMask>)
    ensures p.Shorter(items) && !p.Bad?
  {
    var low := TakeSymbol(items, MASK_LOW);
    if !low.Parsed? then Lost
    else
      var high := TakeSymbol(low.rest, MASK_HIGH);
      if !high.Parsed? then Lost else Parsed(Xor(MaskOf(low.value) + MaskOf(high.value), previous), high.rest)
  }

  /** The state and the payload that the parts of a command lead to. An impulse that
      is not sent is kept. */
  function Decoded(s: CommandState, mask: WordMask, words: seq<u16>, buttons: u8, msec: u8, impulse: u8): CommandState
    requires |words| == 6
  {
    var turns := seq(3, i requires 0 <= i < 3 => Plus16(s.angleDeltas[i], words[i]));
    State(mask, seq(3, i requires 0 <= i < 3 => Plus16(s.angles[i], turns[i])), turns,
          seq(3, i requires 0 <= i < 3 => Plus16(s.movement[i], words[3 + i])),
          XorByte(s.buttons, buttons), if mask[IMPULSE_BIT] then impulse else s.impulse, Plus8(s.msec, msec))
  }

  function PayloadOf(code: AngleCode, s: CommandState): CommandPayload {
    var angles: seq<u32> := [code.unpack(s.angles[0]), code.unpack(s.angles[1]), code.unpack(s.angles[2])];
    Payload(s.msec, [0, 0, 0], angles, s.movement, s.buttons, s.impulse, angles)
  }

  function ParseEncoded(s: CommandState, items: Items): (p: Parse<CommandState>)
    ensures p.NotLonger(items) && !p.Bad?
  {
    match ParseAnyMask(items, Remembered(s.mask))
    case Lost => Lost
    case Parsed(mask, rest) =>
      match ParseWords(rest, mask, [])
      case Lost => Lost
      case Parsed(words, rest) =>
        match TakeOptional(rest, mask[BUTTONS_BIT], BUTTONS)
        case Lost => Lost
        case Parsed(buttons, rest) =>
          match TakeOptional(rest, mask[MSEC_BIT], MSEC)
          case Lost => Lost
          case Parsed(msec, rest) =>
            match TakeOptional(rest, mask[IMPULSE_BIT], IMPULSE)
            case Lost => Lost
            case Parsed(impulse, rest) => Parsed(Decoded(s, mask, words, buttons, msec, impulse), rest)
  }

  lemma CommandMaskRestored(mask: WordMask, previous: WordMask, rest: Items)
    requires !mask[INVALID_BIT]
    ensures ParseAnyMask(MaskItems(mask, previous) + rest, previous) == Parsed(mask, rest)
  {
    hide MaskItems, MaskOf, Xor;
    MaskRestored(mask, previous, rest);
  }

  lemma TurnRestored(angle: u16, earlier: u16, turn: u16)
    ensures var word := Minus16(Minus16(angle, earlier), turn);
            && Plus16(turn, word) == Minus16(angle, earlier)
            && Plus16(earlier, Plus16(turn, word)) == angle
  {
    WordDifferenceAdds(Minus16(angle, earlier), turn);
    WordDifferenceAdds(angle, earlier);
  }

  /** What is decoded from the changes is the encoder's next state, provided that a
      zero impulse does not have to be sent. */
  lemma ChangesDecoded(s: CommandState, angles: seq<u16>, p: CommandPayload)
    requires |angles| == 3
    ensures var d := Changes(s, angles, p);
            Decoded(s, MaskOfDelta(d), d.words, d.buttons, d.msec, d.impulse) == NextState(s, angles, p)
            <==> (p.impulse == 0 ==> s.impulse == 0)
  {
    XorByteRestores(s.buttons, p.buttons);
    ByteDifferenceAdds(p.msec, s.msec);
    var d := Changes(s, angles, p);
    assert d.buttons == XorByte(p.buttons, s.buttons) && d.msec == Minus8(p.msec, s.msec) && d.impulse == p.impulse;
    assert MaskOfDelta(d)[IMPULSE_BIT] == (p.impulse != 0);
    hide XorByte, Plus16, Minus16, Plus8, Minus8, MaskOfDelta;
    var decoded, next := Decoded(s, MaskOfDelta(d), d.words, d.buttons, d.msec, d.impulse), NextState(s, angles, p);
    forall i | 0 <= i < 3
      ensures decoded.angles[i] == next.angles[i] && decoded.angleDeltas[i] == next.angleDeltas[i]
      ensures decoded.movement[i] == next.movement[i]
    {
      TurnRestored(angles[i], s.angles[i], s.angleDeltas[i]);
      assert d.words[i] == Minus16(Minus16(angles[i], s.angles[i]), s.angleDeltas[i]);
      WordDifferenceAdds(p.movement[i], s.movement[i]);
      assert d.words[3 + i] == Minus16(p.movement[i], s.movement[i]);
    }
    assert decoded.angles == next.angles && decoded.angleDeltas == next.angleDeltas
           && decoded.movement == next.movement;
  }

  lemma {:induction false} PartsRestored(d: CommandDelta, previous: WordMask, s: CommandState, rest: Items)
    requires previous == Remembered(s.mask)
    ensures ParseEncoded(s, DeltaItems(d, previous) + rest)
            == Parsed(Decoded(s, MaskOfDelta(d), d.words, d.buttons, d.msec, d.impulse), rest)
  {
    hide Decoded, ParseAnyMask, ParseWords, MaskItems, AllWordItems, TakeOptional, Optional;
    var mask := MaskOfDelta(d);
    var impulse := Optional(d.impulse != 0, IMPULSE, d.impulse) + rest;
    var msec := Optional(d.msec != 0, MSEC, d.msec) + impulse;
    var buttons := Optional(d.buttons != 0, BUTTONS, d.buttons) + msec;
    assert TailItems(d) + rest == buttons;
    assert DeltaItems(d, previous) + rest == MaskItems(mask, previous) + (AllWordItems(d, 0) + buttons);
    CommandMaskRestored(mask, previous, AllWordItems(d, 0) + buttons);
    WordsRestored(d, [], buttons);
    OptionalRestored(d.buttons != 0, BUTTONS, d.buttons, msec);
    OptionalRestored(d.msec != 0, MSEC, d.msec, impulse);
    OptionalRestored(d.impulse != 0, IMPULSE, d.impulse, rest);
  }

  lemma PayloadRestored(code: AngleCode, s: CommandState, p: CommandPayload)
    requires code.Exact() && Encodable(code, s, p)
    ensures PayloadOf(code, NextState(s, PackedAngles(code, p.angles).value, p)) == p
  {
    hide MaskOfDelta, Changes;
    var q := PayloadOf(code, NextState(s, PackedAngles(code, p.angles).value, p));
    assert q.angles == p.angles;
  }

  /** Whenever a command can be encoded, a decoder with an equal state returns the
      same payload and ends in the same next state. */
  lemma EncodedRestored(code: AngleCode, s: CommandState, p: CommandPayload, rest: Items)
    requires code.Exact() && Encodable(code, s, p)
    ensures var next := NextState(s, PackedAngles(code, p.angles).value, p);
            ParseEncoded(s, EncodedItems(code, s, p) + rest) == Parsed(next, rest) && PayloadOf(code, next) == p
  {
    hide Changes, Decoded, ParseEncoded, DeltaItems, NextState, PayloadOf;
    var angles := PackedAngles(code, p.angles).value;
    PartsRestored(Changes(s, angles, p), Remembered(s.mask), s, rest);
    ChangesDecoded(s, angles, p);
    PayloadRestored(code, s, p);
  }

  /** Some parts of a command lead to this payload, none of them a zero impulse. */
  ghost predicate Decodable(code: AngleCode, s: CommandState, p: CommandPayload) {
    exists mask: WordMask, words: seq<u16>, buttons: u8, msec: u8, impulse: u8 ::
      |words| == 6 && (mask[IMPULSE_BIT] ==> impulse != 0)
      && PayloadOf(code, Decoded(s, mask, words, buttons, msec, impulse)) == p
  }

  lemma EncodableIsDecodable(code: AngleCode, s: CommandState, p: CommandPayload)
    requires code.Exact() && Encodable(code, s, p)
    ensures Decodable(code, s, p)
  {
    var angles := PackedAngles(code, p.angles).value;
    var d := Changes(s, angles, p);
    assert MaskOfDelta(d)[IMPULSE_BIT] == (d.impulse != 0);
    hide Changes, NextState, Decoded, MaskOfDelta, PayloadOf;
    ChangesDecoded(s, angles, p);
    PayloadRestored(code, s, p);
    assert PayloadOf(code, Decoded(s, MaskOfDelta(d), d.words, d.buttons, d.msec, d.impulse)) == p;
  }

  lemma DecodedIsEncodable(code: AngleCode, s: CommandState, mask: WordMask, words: seq<u16>, buttons: u8, msec: u8,
                           impulse: u8)
    requires code.Complete() && |words| == 6 && (mask[IMPULSE_BIT] ==> impulse != 0)
    ensures Encodable(code, s, PayloadOf(code, Decoded(s, mask, words, buttons, msec, impulse)))
  {
    hide XorByte, Plus16, Plus8;
    var next := Decoded(s, mask, words, buttons, msec, impulse);
    assert next.impulse == 0 ==> s.impulse == 0;
    assert PayloadOf(code, next).angles
           == [code.unpack(next.angles[0]), code.unpack(next.angles[1]), code.unpack(next.angles[2])];
  }

  /** The encoder accepts exactly what a decoder could return without being sent a zero
      impulse: it is not stricter than its own decoder. */
  lemma EncodableExactly(code: AngleCode, s: CommandState, p: CommandPayload)
    requires code.Exact() && code.Complete()
    ensures Encodable(code, s, p) <==> Decodable(code, s, p)
  {
    hide Decoded, PayloadOf, Encodable;
    if Encodable(code, s, p) {
      EncodableIsDecodable(code, s, p);
    }
    if Decodable(code, s, p) {
      var mask: WordMask, words: seq<u16>, buttons: u8, msec: u8, impulse: u8 :|
        |words| == 6 && (mask[IMPULSE_BIT] ==> impulse != 0)
        && PayloadOf(code, Decoded(s, mask, words, buttons, msec, impulse)) == p;
      DecodedIsEncodable(code, s, mask, words, buttons, msec, impulse);
    }
  }

  /** A command that goes on as before costs an empty mask: angles that turn as they did
      last time, and all else the same. */
  lemma SteadyIsFree(s: CommandState, angles: seq<u16>, p: CommandPayload)
    requires |angles| == 3 && forall i :: 0 <= i < 3 ==> angles[i] == Plus16(s.angles[i], s.angleDeltas[i])
    requires p.movement == s.movement && p.buttons == s.buttons && p.msec == s.msec && p.impulse == 0
    ensures MaskOfDelta(Changes(s, angles, p)) == NO_MASK
  {
    hide MaskOf;
    XorIsZero(MaskOf(p.buttons), MaskOf(s.buttons));
    var d := Changes(s, angles, p);
    assert d.buttons == 0 && d.msec == 0 && d.impulse == 0;
    hide XorByte;
    forall w | 0 <= w < 6
      ensures d.words[w] == 0
    {
      if w < 3 {
        assert d.words[w] == Minus16(Minus16(angles[w], s.angles[w]), s.angleDeltas[w]);
        SteadyTurn(s.angles[w], s.angleDeltas[w]);
      } else {
        assert d.words[w] == Minus16(p.movement[w - 3], s.movement[w - 3]);
      }
    }
    assert !NeedsHigh(0);
  }

  lemma SteadyTurn(angle: u16, turn: u16)
    ensures Minus16(Minus16(Plus16(angle, turn), angle), turn) == 0
  {
    SumMinus(angle, turn);
  }

  /** The state after a whole sequence of encodable commands. */
  function StateAfter(code: AngleCode, s: CommandState, payloads: seq<CommandPayload>): Option<CommandState>
    decreases |payloads|
  {
    if payloads == [] then Some(s)
    else if !Encodable(code, s, payloads[0]) then None
    else StateAfter(code, NextState(s, PackedAngles(code, payloads[0].angles).value, payloads[0]), payloads[1..])
  }

  predicate Canonical(code: AngleCode, p: CommandPayload) {
    p.padding == [0, 0, 0] && p.angles == p.copies && PackedAngles(code, p.angles).Some?
  }

  /** A sequence can be encoded exactly when every command is canonical and a zero impulse
      only ever follows a zero impulse. */
  lemma {:induction false} SequenceEncodable(code: AngleCode, s: CommandState, payloads: seq<CommandPayload>)
    ensures StateAfter(code, s, payloads).Some? <==>
            forall i :: 0 <= i < |payloads| ==>
              && Canonical(code, payloads[i])
              && (payloads[i].impulse == 0 ==> ([s.impulse] + Impulses(payloads))[i] == 0)
    decreases |payloads|
  {
    hide Changes;
    if payloads != [] {
      var p, later := payloads[0], payloads[1..];
      var before := [s.impulse] + Impulses(payloads);
      assert Impulses(payloads) == [p.impulse] + Impulses(later);
      assert forall i :: 0 <= i < |later| ==> later[i] == payloads[i + 1];
      assert forall i :: 0 <= i < |later| ==> ([p.impulse] + Impulses(later))[i] == before[i + 1];
      assert before[0] == s.impulse;
      if Encodable(code, s, p) {
        var next := NextState(s, PackedAngles(code, p.angles).value, p);
        SequenceEncodable(code, next, later);
        hide Canonical, NextState;
        forall i | 0 < i < |payloads|
          ensures payloads[i] == later[i - 1] && before[i] == ([p.impulse] + Impulses(later))[i - 1]
        {
        }
      } else {
        assert !(Canonical(code, payloads[0]) && (payloads[0].impulse == 0 ==> before[0] == 0));
      }
    }
  }

  function Impulses(payloads: seq<CommandPayload>): (impulses: seq<u8>)
    ensures |impulses| == |payloads|
  {
    seq(|payloads|, i requires 0 <= i < |payloads| => payloads[i].impulse)
  }

  function AllItems(code: AngleCode, s: CommandState, payloads: seq<CommandPayload>): Items
    requires StateAfter(code, s, payloads).Some?
    decreases |payloads|
  {
    if payloads == [] then []
    else
      EncodedItems(code, s, payloads[0])
      + AllItems(code, NextState(s, PackedAngles(code, payloads[0].angles).value, payloads[0]), payloads[1..])
  }

  function ParseAllEncoded(code: AngleCode, s: CommandState, items: Items, count: nat, done: seq<CommandPayload>)
    : Parse<(CommandState, seq<CommandPayload>)>
    decreases count
  {
    if count == 0 then Parsed((s, done), items)
    else
      match ParseEncoded(s, items)
      case Lost => Lost
      case Parsed(next, rest) => ParseAllEncoded(code, next, rest, count - 1, done + [PayloadOf(code, next)])
  }

  lemma EncodableAngles(code: AngleCode, s: CommandState, p: CommandPayload)
    requires Encodable(code, s, p)
    ensures PackedAngles(code, p.angles).Some?
  {
  }

  /** Both sides agree over every sequence of commands. */
  lemma {:induction false} AllRestored(code: AngleCode, s: CommandState, payloads: seq<CommandPayload>,
                                            done: seq<CommandPayload>, rest: Items)
    requires code.Exact() && StateAfter(code, s, payloads).Some?
    ensures ParseAllEncoded(code, s, AllItems(code, s, payloads) + rest, |payloads|, done)
            == Parsed((StateAfter(code, s, payloads).value, done + payloads), rest)
    decreases |payloads|
  {
    hide Encodable, NextState, PayloadOf, ParseEncoded, EncodedItems;
    if payloads == [] {
      assert [] + rest == rest && done + [] == done;
    } else {
      var p := payloads[0];
      EncodableAngles(code, s, p);
      var next := NextState(s, PackedAngles(code, p.angles).value, p);
      var later := AllItems(code, next, payloads[1..]) + rest;
      assert AllItems(code, s, payloads) + rest == EncodedItems(code, s, p) + later;
      EncodedRestored(code, s, p, later);
      AllRestored(code, next, payloads[1..], done + [p], rest);
      assert done + [p] + payloads[1..] == done + payloads;
    }
  }

  /** The state of one side, overwritten field by field. */
  class Codec {
    var mask: WordMask
    var angles: seq<u16>
    var angleDeltas: seq<u16>
    var movement: seq<u16>
    var buttons: u8
    var impulse: u8
    var msec: u8

    predicate Valid()
      reads this
    {
      |angles| == |angleDeltas| == |movement| == 3
    }

    function Current(): CommandState
      reads this
      requires Valid()
    {
      State(mask, angles, angleDeltas, movement, buttons, impulse, msec)
    }

    constructor ()
      ensures Valid() && Current() == START
    {
      mask, angles, angleDeltas, movement := NoFlags(16), [0, 0, 0], [0, 0, 0], [0, 0, 0];
      buttons, impulse, msec := 0, 8, 0;
    }

    method WordItemsOf(delta: CommandDelta) returns (items: Items)
      ensures items == AllWordItems(delta, 0)
    {
      hide WordItems;
      items := [];
      for word := 0 to 6
        invariant items + AllWordItems(delta, word) == AllWordItems(delta, 0)
      {
        Regroup(items, WordItems(delta, word), AllWordItems(delta, word + 1));
        items := items + WordItems(delta, word);
      }
      assert items + [] == items;
    }

    /** Encodes a command and moves on to it; a refused command changes nothing. */
    method Encode(code: AngleCode, p: CommandPayload) returns (r: Option<Items>)
      requires Valid()
      modifies this
      ensures Valid() && (r.Some? <==> Encodable(code, old(Current()), p))
      ensures r.Some? ==>
                && r.value == EncodedItems(code, old(Current()), p)
                && Current() == NextState(old(Current()), PackedAngles(code, p.angles).value, p)
      ensures r.None? ==> Current() == old(Current())
    {
      hide AllWordItems, MaskItems, MaskOfDelta, Optional;
      ghost var s := Current();
      if p.padding != [0, 0, 0] || p.angles != p.copies {
        return None;
      }
      var packed := PackedAngles(code, p.angles);
      if packed.None? {
        return None;
      }
      if p.impulse == 0 && impulse != 0 {
        return None;
      }
      var delta := Changes(Current(), packed.value, p);
      var words := WordItemsOf(delta);
      r := Some(MaskItems(MaskOfDelta(delta), Remembered(mask)) + (words + TailItems(delta)));
      angleDeltas := NextState(Current(), packed.value, p).angleDeltas;
      mask, angles, movement := MaskOfDelta(delta), packed.value, p.movement;
      buttons, impulse, msec := p.buttons, p.impulse, p.msec;
    }

    /** Decodes the next command; nothing is promised of the state once the items
        are not those of a command. */
    method Decode(code: AngleCode, items: Items) returns (r: Option<(CommandPayload, Items)>)
      requires Valid()
      modifies this
      ensures Valid()
      ensures r.Some? <==> ParseEncoded(old(Current()), items).Parsed?
      ensures r.Some? ==>
                && ParseEncoded(old(Current()), items) == Parsed(Current(), r.value.1)
                && r.value.0 == PayloadOf(code, Current())
    {
      hide ParseAnyMask, ParseWords, TakeOptional, Plus16, Plus8, XorByte;
      ghost var s := Current();
      var parsedMask := ParseAnyMask(items, Remembered(mask));
      if !parsedMask.Parsed? {
        return None;
      }
      var commandMask := parsedMask.value;
      var words := ParseWords(parsedMask.rest, commandMask, []);
      if !words.Parsed? {
        return None;
      }
      var turns, turned, moved: seq<u16> := angleDeltas, angles, movement;
      for i := 0 to 3
        invariant |turns| == |turned| == |moved| == 3 && Valid() && Current() == s
        invariant forall k :: 0 <= k < i ==> turns[k] == Plus16(s.angleDeltas[k], words.value[k])
        invariant forall k :: 0 <= k < i ==> turned[k] == Plus16(s.angles[k], turns[k])
        invariant forall k :: 0 <= k < i ==> moved[k] == Plus16(s.movement[k], words.value[3 + k])
        invariant turns[i..] == s.angleDeltas[i..] && turned[i..] == s.angles[i..] && moved[i..] == s.movement[i..]
      {
        assert turns[i] == s.angleDeltas[i..][0] && turned[i] == s.angles[i..][0] && moved[i] == s.movement[i..][0];
        turns := turns[i := Plus16(turns[i], words.value[i])];
        turned := turned[i := Plus16(turned[i], turns[i])];
        moved := moved[i := Plus16(moved[i], words.value[3 + i])];
      }
      var xor := TakeOptional(words.rest, commandMask[BUTTONS_BIT], BUTTONS);
      if !xor.Parsed? {
        return None;
      }
      buttons := XorByte(buttons, xor.value);
      var difference := TakeOptional(xor.rest, commandMask[MSEC_BIT], MSEC);
      if !difference.Parsed? {
        return None;
      }
      msec := Plus8(msec, difference.value);
      var chosen := TakeOptional(difference.rest, commandMask[IMPULSE_BIT], IMPULSE);
      if !chosen.Parsed? {
        return None;
      }
      if commandMask[IMPULSE_BIT] {
        impulse := chosen.value;
      }
      mask, angles, angleDeltas, movement := commandMask, turned, turns, moved;
      ghost var next := Decoded(s, commandMask, words.value, xor.value, difference.value, chosen.value);
      assert angleDeltas == next.angleDeltas;
      assert angles == next.angles && movement == next.movement;
      r := Some((PayloadOf(code, Current()), chosen.rest));
    }
  }
}
