/** The raw form of moves in client packets: three user commands, each as a
    difference from the one before. */
module ClientCommands {
  import opened Words
  import opened PackedWords
  import opened ClientMoves

  function WordBytes(w: u16): (bytes: seq<u8>)
    ensures |bytes| == 2
  {
    [w % 0x100, w / 0x100]
  }

  /** Flags of a command in the order of their bits: pitch, roll, forward, side,
      up, buttons, impulse, yaw. */
  function ChangeFlags(base: ClientCommand, c: ClientCommand): Mask {
    [c.angles[0] != base.angles[0], c.angles[2] != base.angles[2],
     c.moves[0] != base.moves[0], c.moves[1] != base.moves[1], c.moves[2] != base.moves[2],
     c.buttons != base.buttons, c.impulse != base.impulse, c.angles[1] != base.angles[1]]
  }

  function OptionalWord(present: bool, w: u16): seq<u8> {
    if present then WordBytes(w) else []
  }

  function OptionalByte(present: bool, b: u8): seq<u8> {
    if present then [b] else []
  }

  /** The bytes after the flags; yaw is the second angle. */
  function CommandBody(f: Mask, c: ClientCommand): seq<u8> {
    OptionalWord(f[0], c.angles[0]) + (OptionalWord(f[7], c.angles[1]) + (OptionalWord(f[1], c.angles[2])
    + (OptionalWord(f[2], c.moves[0]) + (OptionalWord(f[3], c.moves[1]) + (OptionalWord(f[4], c.moves[2])
    + (OptionalByte(f[5], c.buttons) + (OptionalByte(f[6], c.impulse) + [c.msec])))))))
  }

  function DeltaBytes(base: ClientCommand, c: ClientCommand): seq<u8> {
    var f := ChangeFlags(base, c);
    [ByteOf(f)] + CommandBody(f, c)
  }

  datatype Read<+T> = Read(value: T, rest: seq<u8>) | Short

  function ReadWord(data: seq<u8>, present: bool, kept: u16): (r: Read<u16>)
    ensures r.Read? ==> |r.rest| <= |data|
  {
    if !present then Read(kept, data)
    else if |data| < 2 then Short
    else
      var low: int, high: int := data[0], data[1];
      Read(low + high * 0x100, data[2..])
  }

  function ReadByte(data: seq<u8>, present: bool, kept: u8): (r: Read<u8>)
    ensures r.Read? ==> |r.rest| <= |data| && (present ==> |r.rest| < |data|)
  {
    if !present then Read(kept, data) else if data == [] then Short else Read(data[0], data[1..])
  }

  /** The rest of a command after the angles. */
  function ParseMoves(data: seq<u8>, f: Mask, base: ClientCommand, angles: seq<u16>): (r: Read<ClientCommand>)
    requires |angles| == 3
    ensures r.Read? ==> |r.rest| < |data|
  {
    match ReadWord(data, f[2], base.moves[0])
    case Short => Short
    case Read(forward, data) =>
      match ReadWord(data, f[3], base.moves[1])
      case Short => Short
      case Read(side, data) =>
        match ReadWord(data, f[4], base.moves[2])
        case Short => Short
        case Read(up, data) =>
          match ReadByte(data, f[5], base.buttons)
          case Short => Short
          case Read(buttons, data) =>
            match ReadByte(data, f[6], base.impulse)
            case Short => Short
            case Read(impulse, data) =>
              match ReadByte(data, true, 0)
              case Short => Short
              case Read(msec, rest) => Read(Command(angles, [forward, side, up], buttons, impulse, msec), rest)
  }

  function ParseDelta(data: seq<u8>, base: ClientCommand): (r: Read<ClientCommand>)
    ensures r.Read? ==> |r.rest| < |data|
  {
    if data == [] then Short
    else
      var f := MaskOf(data[0]);
      match ReadWord(data[1..], f[0], base.angles[0])
      case Short => Short
      case Read(pitch, data) =>
        match ReadWord(data, f[7], base.angles[1])
        case Short => Short
        case Read(yaw, data) =>
          match ReadWord(data, f[1], base.angles[2])
          case Short => Short
          case Read(roll, data) => ParseMoves(data, f, base, [pitch, yaw, roll])
  }

  lemma WordRead(present: bool, w: u16, kept: u16, rest: seq<u8>)
    requires !present ==> w == kept
    ensures ReadWord(OptionalWord(present, w) + rest, present, kept) == Read(w, rest)
  {
    if present {
      assert (WordBytes(w) + rest)[2..] == rest;
    } else {
      assert [] + rest == rest;
    }
  }

  lemma ByteRead(present: bool, b: u8, kept: u8, rest: seq<u8>)
    requires !present ==> b == kept
    ensures ReadByte(OptionalByte(present, b) + rest, present, kept) == Read(b, rest)
  {
    if present {
      assert ([b] + rest)[1..] == rest;
    } else {
      assert [] + rest == rest;
    }
  }

  lemma MovesRead(base: ClientCommand, c: ClientCommand, rest: seq<u8>)
    ensures var f := ChangeFlags(base, c);
            ParseMoves(OptionalWord(f[2], c.moves[0])
                       + (OptionalWord(f[3], c.moves[1])
                       + (OptionalWord(f[4], c.moves[2])
                       + (OptionalByte(f[5], c.buttons)
                       + (OptionalByte(f[6], c.impulse) + ([c.msec] + rest))))),
                       f, base, c.angles)
            == Read(c, rest)
  {
    var f := ChangeFlags(base, c);
    hide OptionalWord, OptionalByte, ReadWord, ReadByte;
    var impulse := OptionalByte(f[6], c.impulse) + ([c.msec] + rest);
    var buttons := OptionalByte(f[5], c.buttons) + impulse;
    var up := OptionalWord(f[4], c.moves[2]) + buttons;
    var side := OptionalWord(f[3], c.moves[1]) + up;
    WordRead(f[2], c.moves[0], base.moves[0], side);
    WordRead(f[3], c.moves[1], base.moves[1], up);
    WordRead(f[4], c.moves[2], base.moves[2], buttons);
    ByteRead(f[5], c.buttons, base.buttons, impulse);
    ByteRead(f[6], c.impulse, base.impulse, [c.msec] + rest);
    LastByteRead(c.msec, rest);
    assert [c.moves[0], c.moves[1], c.moves[2]] == c.moves;
  }

  lemma LastByteRead(b: u8, rest: seq<u8>)
    ensures ReadByte([b] + rest, true, 0) == Read(b, rest)
  {
    ByteRead(true, b, 0, rest);
  }

  /** A command written against a base is read back against the same base. */
  lemma DeltaRead(base: ClientCommand, c: ClientCommand, rest: seq<u8>)
    ensures ParseDelta(DeltaBytes(base, c) + rest, base) == Read(c, rest)
  {
    var f := ChangeFlags(base, c);
    hide OptionalWord, OptionalByte, ReadWord, ReadByte, ChangeFlags, ParseMoves, MaskOf, ByteOf;
    MaskRoundTrip(f);
    var moves := OptionalWord(f[2], c.moves[0]) + (OptionalWord(f[3], c.moves[1]) + (OptionalWord(f[4], c.moves[2])
                 + (OptionalByte(f[5], c.buttons) + (OptionalByte(f[6], c.impulse) + ([c.msec] + rest)))));
    var roll := OptionalWord(f[1], c.angles[2]) + moves;
    var yaw := OptionalWord(f[7], c.angles[1]) + roll;
    var bytes := DeltaBytes(base, c) + rest;
    BodyParts(f, c, rest);
    assert bytes[1..] == CommandBody(f, c) + rest;
    AnglesChange(base, c);
    WordRead(f[0], c.angles[0], base.angles[0], yaw);
    WordRead(f[7], c.angles[1], base.angles[1], roll);
    WordRead(f[1], c.angles[2], base.angles[2], moves);
    MovesRead(base, c, rest);
    assert [c.angles[0], c.angles[1], c.angles[2]] == c.angles;
  }

  lemma AnglesChange(base: ClientCommand, c: ClientCommand)
    ensures var f := ChangeFlags(base, c);
            && (!f[0] ==> c.angles[0] == base.angles[0]) && (!f[7] ==> c.angles[1] == base.angles[1])
            && (!f[1] ==> c.angles[2] == base.angles[2])
  {
  }

  lemma BodyParts(f: Mask, c: ClientCommand, rest: seq<u8>)
    ensures CommandBody(f, c) + rest ==
            OptionalWord(f[0], c.angles[0]) + (OptionalWord(f[7], c.angles[1]) + (OptionalWord(f[1], c.angles[2])
            + (OptionalWord(f[2], c.moves[0]) + (OptionalWord(f[3], c.moves[1]) + (OptionalWord(f[4], c.moves[2])
            + (OptionalByte(f[5], c.buttons) + (OptionalByte(f[6], c.impulse) + ([c.msec] + rest))))))))
  {
    hide OptionalWord, OptionalByte;
  }

  /** Three commands in a row; the first is relative to an all-zero one. */
  function CommandsBytes(base: ClientCommand, commands: seq<ClientCommand>): seq<u8>
    decreases |commands|
  {
    if commands == [] then [] else DeltaBytes(base, commands[0]) + CommandsBytes(commands[0], commands[1..])
  }

  function ParseDeltas(data: seq<u8>, base: ClientCommand, count: nat,
                       done: seq<ClientCommand>): (r: Read<seq<ClientCommand>>)
    ensures r.Read? ==> |r.value| == |done| + count && |r.rest| <= |data|
    decreases count
  {
    if count == 0 then Read(done, data)
    else
      match ParseDelta(data, base)
      case Short => Short
      case Read(c, rest) => ParseDeltas(rest, c, count - 1, done + [c])
  }

  lemma {:induction false} DeltasRead(base: ClientCommand, commands: seq<ClientCommand>, done: seq<ClientCommand>,
                                      rest: seq<u8>)
    ensures ParseDeltas(CommandsBytes(base, commands) + rest, base, |commands|, done) == Read(done + commands, rest)
    decreases |commands|
  {
    hide DeltaBytes, ParseDelta;
    if commands == [] {
      assert [] + rest == rest && done + [] == done;
    } else {
      var later := CommandsBytes(commands[0], commands[1..]) + rest;
      assert CommandsBytes(base, commands) + rest == DeltaBytes(base, commands[0]) + later;
      DeltaRead(base, commands[0], later);
      DeltasRead(commands[0], commands[1..], done + [commands[0]], rest);
      assert done + [commands[0]] + commands[1..] == done + commands;
    }
  }

  function MoveBytes(m: ClientMove): seq<u8> {
    [m.checksum, m.lossage] + CommandsBytes(ZERO_COMMAND, m.commands)
  }

  function ParseMoveBytes(data: seq<u8>): (r: Read<ClientMove>)
    ensures r.Read? ==> |r.rest| < |data|
  {
    if |data| < 2 then Short
    else
      match ParseDeltas(data[2..], ZERO_COMMAND, 3, [])
      case Short => Short
      case Read(commands, rest) => Read(Move(data[0], data[1], commands), rest)
  }

  /** Every move survives its raw form. */
  lemma MoveRead(m: ClientMove, rest: seq<u8>)
    ensures ParseMoveBytes(MoveBytes(m) + rest) == Read(m, rest)
  {
    hide CommandsBytes, ParseDeltas;
    var bytes := MoveBytes(m) + rest;
    assert bytes[2..] == CommandsBytes(ZERO_COMMAND, m.commands) + rest;
    DeltasRead(ZERO_COMMAND, m.commands, [], rest);
    assert [] + m.commands == m.commands;
  }
}
