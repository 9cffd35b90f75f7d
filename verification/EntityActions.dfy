/** The three actions of a packet-entity edit script, as tokens. */
module EntityActions {
  import opened Words
  import opened PackedWords
  import opened EntityDeltas

  datatype Action = NewEntity(target: Entity)
                  | RemoveEntity(run: nat, base: Entity)
                  | ChangeEntity(run: nat, base: Entity, target: Entity)

  const MAX_CHANGE_RUN: nat := 287

  /** Origin carries after a change from `base` to `target`. */
  function NewOriginCarries(base: Entity, target: Entity): (carries: seq<u16>)
    ensures |carries| == 3
  {
    seq(3, i requires 0 <= i < 3 => Minus16(target.origin[i], base.origin[i]))
  }

  function CarryDeltas(base: Entity, target: Entity): (deltas: seq<WordDelta>)
    ensures |deltas| == 3
  {
    WordDeltas(base.originCarry, NewOriginCarries(base, target))
  }

  /** The record that the encoder keeps for a changed entity. */
  function Changed(base: Entity, target: Entity): Entity {
    base.(fields := target.fields, angleCarry := NewAngleCarries(base, target),
          fieldMask := DeltaFieldMask(base, target),
          origin := target.origin, originCarry := NewOriginCarries(base, target),
          originMask := OriginMaskOf(CarryDeltas(base, target)))
  }

  /** The origin mask with the flag that announces a new field mask. */
  function HighMask(originMask: Flags, fieldMaskFollows: bool): Mask
    requires |originMask| == 6
  {
    originMask + [fieldMaskFollows, false]
  }

  function HighXor(base: Entity, target: Entity): u8 {
    ByteOf(Xor(HighMask(OriginMaskOf(CarryDeltas(base, target)), DeltaFieldMask(base, target) != base.fieldMask),
               HighMask(base.originMask, false)))
  }

  function ChangeBody(ctx: Context, base: Entity, target: Entity): seq<Token>
    requires Usable(ctx)
  {
    var mask := DeltaFieldMask(base, target);
    (if HighXor(base, target) != 0 then [Token(OriginMask, HighXor(base, target))] else [])
    + ((if mask != base.fieldMask then [Token(FieldMask, ByteOf(Xor(mask, base.fieldMask)))] else [])
    + (DeltaFieldTokens(ctx, base, target, mask, 0)
    + OriginTokens(CarryDeltas(base, target), 0)))
  }

  function Moved(e: Entity, carries: seq<u16>): Entity
    requires |carries| == 3
  {
    e.(originCarry := carries,
       origin := seq(3, i requires 0 <= i < 3 => Plus16(e.origin[i], carries[i])))
  }

  /** Decodes a change of `record`; the flag says whether a mask byte follows. */
  function ParseChange(ctx: Context, tokens: seq<Token>, record: Entity, highFollows: bool): (p: Reading<Entity>)
    requires Usable(ctx)
    ensures p.Parsed? ==> |p.rest| <= |tokens|
  {
    match TakeIf(tokens, highFollows, OriginMask)
    case Stopped(error) => Stopped(error)
    case Parsed(highXor, afterHigh) =>
      var high := Xor(HighMask(record.originMask, false), MaskOf(highXor));
      match TakeIf(afterHigh, high[6], FieldMask)
      case Stopped(error) => Stopped(error)
      case Parsed(lowXor, afterLow) =>
        var mask := Xor(record.fieldMask, MaskOf(lowXor));
        match ParseDeltaFields(ctx, afterLow, record, mask, 0)
        case Stopped(error) => Stopped(error)
        case Parsed(e, afterFields) =>
          match ParseOrigin(afterFields, e.originCarry, high[..6], 0)
          case Stopped(error) => Stopped(error)
          case Parsed(carries, rest) =>
            Parsed(Moved(e, carries).(fieldMask := mask, originMask := high[..6]), rest)
  }

  lemma MovedToTarget(e: Entity, base: Entity, target: Entity)
    requires e.origin == base.origin
    ensures var carries := NewOriginCarries(base, target);
            Moved(e, carries) == e.(originCarry := carries, origin := target.origin)
  {
    var carries := NewOriginCarries(base, target);
    forall i | 0 <= i < 3
      ensures Plus16(base.origin[i], carries[i]) == target.origin[i]
    {
    }
    assert Moved(e, carries).origin == target.origin;
  }

  /** The masks that the decoder recovers from their differences. */
  lemma ChangeMasks(base: Entity, target: Entity)
    ensures var mask := DeltaFieldMask(base, target);
            && Xor(HighMask(base.originMask, false), MaskOf(HighXor(base, target)))
               == HighMask(OriginMaskOf(CarryDeltas(base, target)), mask != base.fieldMask)
            && Xor(base.fieldMask, MaskOf(ByteOf(Xor(mask, base.fieldMask)))) == mask
            && (mask == base.fieldMask ==> ByteOf(Xor(mask, base.fieldMask)) == 0)
  {
    hide MaskOf, ByteOf, OriginMaskOf, DeltaFieldMask;
    var mask := DeltaFieldMask(base, target);
    XorRestores(base.fieldMask, mask);
    XorRestores(HighMask(base.originMask, false),
                HighMask(OriginMaskOf(CarryDeltas(base, target)), mask != base.fieldMask));
  }

  /** Decoding a change gives the encoder's record: the target's visible state
      with the history that the next change builds on. */
  lemma ChangeRestored(ctx: Context, base: Entity, target: Entity, rest: seq<Token>)
    requires Usable(ctx) && base.number == target.number
    ensures ParseChange(ctx, ChangeBody(ctx, base, target) + rest, base, HighXor(base, target) != 0)
            == Parsed(Changed(base, target), rest)
    ensures WireEqual(Changed(base, target), target)
  {
    hide MaskOf, ByteOf, Usable, Xor, DeltaFieldMask, OriginMaskOf, HighXor, ParseDeltaFields, ParseOrigin,
         DeltaFieldTokens, OriginTokens, NewOriginCarries, NewAngleCarries, Moved, TakeIf, WordDeltas;
    var mask, deltas := DeltaFieldMask(base, target), CarryDeltas(base, target);
    var highXor, lowXor := HighXor(base, target), ByteOf(Xor(mask, base.fieldMask));
    var fields, origins := DeltaFieldTokens(ctx, base, target, mask, 0), OriginTokens(deltas, 0);
    var tail := origins + rest;
    var middle := (if mask != base.fieldMask then [Token(FieldMask, lowXor)] else []) + (fields + tail);
    assert ChangeBody(ctx, base, target) + rest == (if highXor != 0 then [Token(OriginMask, highXor)] else []) + middle;
    ChangeMasks(base, target);
    TakePresent(highXor != 0, OriginMask, highXor, middle);
    TakePresent(mask != base.fieldMask, FieldMask, lowXor, fields + tail);
    assert Advanced(base, target, 0) == base && Advanced(base, target, 8) ==
           base.(fields := target.fields, angleCarry := NewAngleCarries(base, target)) by {
      WholeAdvanced(base, target);
    }
    DeltaFieldsRestored(ctx, base, target, 0, tail);
    OriginRestored(base.originCarry, NewOriginCarries(base, target), base.originCarry, 0, rest);
    MovedToTarget(Advanced(base, target, 8), base, target);
  }

  lemma WholeAdvanced(base: Entity, target: Entity)
    ensures Advanced(base, target, 0) == base
    ensures Advanced(base, target, 8) == base.(fields := target.fields, angleCarry := NewAngleCarries(base, target))
  {
    assert target.fields[..0] + base.fields[0..] == base.fields;
    assert NewAngleCarries(base, target)[..0] + base.angleCarry[0..] == base.angleCarry;
    assert target.fields[..8] + base.fields[8..] == target.fields;
    assert NewAngleCarries(base, target)[..3] + base.angleCarry[3..] == NewAngleCarries(base, target);
  }

  /** Exactly the fields that differ from the baseline. */
  function NewFieldMask(base: Entity, target: Entity): Mask {
    seq(8, i requires 0 <= i < 8 => target.fields[i] != base.fields[i])
  }

  function NewHighMask(base: Entity, target: Entity): Mask {
    HighMask(OriginMaskOf(WordDeltas(base.origin, target.origin)), NewFieldMask(base, target) != NoFlags(8))
  }

  function NewBody(ctx: Context, target: Entity): seq<Token>
    requires Usable(ctx)
  {
    var base := Baseline(ctx, target.number);
    var mask, high := NewFieldMask(base, target), ByteOf(NewHighMask(base, target));
    if high == 0 then []
    else
      [Token(OriginMask, high)]
      + ((if mask != NoFlags(8) then [Token(FieldMask, ByteOf(mask))] else [])
      + (NewFieldTokens(ctx, base, target, mask, 0)
      + OriginTokens(WordDeltas(base.origin, target.origin), 0)))
  }

  function ParseNew(ctx: Context, tokens: seq<Token>, number: u16, payload: bool): (p: Reading<Entity>)
    requires Usable(ctx)
    ensures p.Parsed? ==> |p.rest| <= |tokens|
  {
    var e := Fresh(Baseline(ctx, number).(number := number));
    if !payload then Parsed(e, tokens)
    else
      match Take(tokens, OriginMask)
      case Stopped(error) => Stopped(error)
      case Parsed(high, afterHigh) =>
        match TakeIf(afterHigh, MaskOf(high)[6], FieldMask)
        case Stopped(error) => Stopped(error)
        case Parsed(mask, afterMask) =>
          match ParseNewFields(ctx, afterMask, e, MaskOf(mask), 0)
          case Stopped(error) => Stopped(error)
          case Parsed(e, afterFields) =>
            match ParseOrigin(afterFields, e.origin, MaskOf(high)[..6], 0)
            case Stopped(error) => Stopped(error)
            case Parsed(origin, rest) => Parsed(e.(origin := origin), rest)
  }

  lemma NoDelta(current: u16, target: u16)
    requires SplitWordDelta(target, current) == WordDelta(0, 0)
    ensures target == current
  {
    SplitRestores(target, current);
    hide SplitWordDelta;
    assert AddDelta(current, 0, 0) == current;
  }

  /** Coordinates whose differences have no bytes are the same. */
  lemma NoDeltas(current: seq<u16>, target: seq<u16>)
    requires |current| == |target| == 3
    requires OriginMaskOf(WordDeltas(current, target)) == NoFlags(6)
    ensures target == current
  {
    hide SplitWordDelta;
    var deltas := WordDeltas(current, target);
    var mask := OriginMaskOf(deltas);
    forall i | 0 <= i < 3
      ensures target[i] == current[i]
    {
      assert !mask[2 * i] && !mask[2 * i + 1];
      assert deltas[i] == WordDelta(0, 0);
      NoDelta(current[i], target[i]);
    }
  }

  lemma NewCovers(base: Entity, target: Entity)
    ensures Covers(NewFieldMask(base, target), base, target)
    ensures ByteOf(NewHighMask(base, target)) == 0 ==>
            target.fields == base.fields && target.origin == base.origin
  {
    hide ByteOf, OriginMaskOf, WordDeltas;
    var high, none := NewHighMask(base, target), NoFlags(8);
    if ByteOf(high) == 0 {
      NoMaskByte(high);
      assert high[6] == none[6];
      forall i | 0 <= i < 8
        ensures target.fields[i] == base.fields[i]
      {
        assert !NewFieldMask(base, target)[i];
      }
      assert OriginMaskOf(WordDeltas(base.origin, target.origin)) == high[..6] == NoFlags(6);
      NoDeltas(base.origin, target.origin);
    }
  }

  lemma NoMaskByte(mask: Mask)
    requires ByteOf(mask) == 0
    ensures mask == NoFlags(8)
  {
    NoFlagsAreZero(mask);
  }

  /** A new entity is decoded to what the target shows, without history. */
  lemma NewRestored(ctx: Context, target: Entity, rest: seq<Token>)
    requires Usable(ctx)
    ensures var payload := ByteOf(NewHighMask(Baseline(ctx, target.number), target)) != 0;
            ParseNew(ctx, NewBody(ctx, target) + rest, target.number, payload) == Parsed(Fresh(target), rest)
  {
    hide MaskOf, ByteOf, Usable, NewFieldMask, OriginMaskOf, ParseNewFields, ParseOrigin, NewFieldTokens, OriginTokens,
         TakeIf, WordDeltas, NewHighMask, Baseline, Covers;
    var base := Baseline(ctx, target.number);
    var e := Fresh(base.(number := target.number));
    var mask, deltas, high := NewFieldMask(base, target), WordDeltas(base.origin, target.origin),
      NewHighMask(base, target);
    NewCovers(base, target);
    if ByteOf(high) == 0 {
      assert [] + rest == rest;
    } else {
      var origins, fields := OriginTokens(deltas, 0), NewFieldTokens(ctx, base, target, mask, 0);
      var tail := origins + rest;
      var middle := (if mask != NoFlags(8) then [Token(FieldMask, ByteOf(mask))] else []) + (fields + tail);
      assert NewBody(ctx, target) + rest == [Token(OriginMask, ByteOf(high))] + middle;
      MaskRoundTrip(high);
      MaskRoundTrip(mask);
      HighMaskParts(base, target);
      EmptyMaskByte();
      TakePresent(mask != NoFlags(8), FieldMask, ByteOf(mask), fields + tail);
      assert e.fields == target.fields[..0] + base.fields[0..];
      NewFieldsRestored(ctx, base, target, e, mask, 0, tail);
      OriginRestored(base.origin, target.origin, base.origin, 0, rest);
    }
  }

  lemma HighMaskParts(base: Entity, target: Entity)
    ensures NewHighMask(base, target)[6] == (NewFieldMask(base, target) != NoFlags(8))
    ensures NewHighMask(base, target)[..6] == OriginMaskOf(WordDeltas(base.origin, target.origin))
  {
  }

  lemma EmptyMaskByte()
    ensures ByteOf(NoFlags(8)) == 0
  {
    NoFlagsAreZero(NoFlags(8));
  }
}
