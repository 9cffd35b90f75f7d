/** One packet entity, coded against an earlier record of it or against its
    baseline. */
module EntityDeltas {
  import opened Words
  import opened PackedWords
  import R = RemapTables

  /** The fields are model, frame, colour map, skin, effects and three angles. The
      carries remember the last change of the origin and of the angles. A record
      keeps fourteen mask bits: eight for the fields, six for the origin. */
  datatype Record = Record(number: u16, fieldMask: Flags, originMask: Flags, fields: seq<u8>,
                           origin: seq<u16>, originCarry: seq<u16>, angleCarry: seq<u8>)
  {
    predicate WellFormed() {
      && |fieldMask| == |fields| == 8 && |originMask| == 6
      && |origin| == |originCarry| == |angleCarry| == 3
    }
  }

  function Blank(number: u16): (r: Record)
    ensures r.WellFormed()
  {
    Record(number, NoFlags(8), NoFlags(6), [0, 0, 0, 0, 0, 0, 0, 0], [0, 0, 0], [0, 0, 0], [0, 0, 0])
  }

  type Entity = r: Record | r.WellFormed() witness Blank(0)

  /** What a client sees of the two entities is the same. */
  predicate WireEqual(a: Entity, b: Entity) {
    a.number == b.number && a.fields == b.fields && a.origin == b.origin
  }

  /** The entity without any history. */
  function Fresh(e: Entity): Entity {
    e.(fieldMask := NoFlags(8), originMask := NoFlags(6), originCarry := [0, 0, 0], angleCarry := [0, 0, 0])
  }

  /** Frequency rows, by what they code. */
  datatype Row = EntitySymbol | NumberExtension | OriginMask | FieldMask
               | Field(field: nat) | OriginLow(axis: nat) | OriginHigh(axis: nat)

  datatype Token = Token(row: Row, symbol: u8)

  /** Why a decoder cannot read on: no token is left, or it asks for a row other
      than the one that coded the next token. */
  datatype ReadError = NothingLeft | OtherRow

  /** A decoder's view of the tokens to come: a value and the tokens after it. */
  datatype Reading<+T> = Parsed(value: T, rest: seq<Token>) | Stopped(error: ReadError)

  function Take(tokens: seq<Token>, row: Row): (p: Reading<u8>)
    ensures p.Parsed? ==> |p.rest| < |tokens| && tokens[0] == Token(row, p.value)
    ensures p.Stopped? ==> (p.error == NothingLeft <==> tokens == [])
  {
    if tokens == [] then Stopped(NothingLeft)
    else if tokens[0].row != row then Stopped(OtherRow)
    else Parsed(tokens[0].symbol, tokens[1..])
  }

  /** What both ends know: the model remap with its inverse, and the baselines. */
  datatype Context = Context(direct: seq<u8>, inverse: seq<u8>, baselines: map<u16, Entity>)

  predicate Usable(ctx: Context) {
    R.MutuallyInverse(ctx.direct, ctx.inverse)
  }

  function Baseline(ctx: Context, number: u16): Entity {
    if number in ctx.baselines then ctx.baselines[number] else Blank(number)
  }

  predicate WithoutHistory(e: Entity) {
    && (forall i :: 0 <= i < 8 ==> !e.fieldMask[i])
    && (forall i :: 0 <= i < 6 ==> !e.originMask[i])
    && (forall i :: 0 <= i < 3 ==> e.originCarry[i] == 0 && e.angleCarry[i] == 0)
  }

  /** What a field of an entity with this number shows before anything is sent. */
  function ShownField(ctx: Context, number: u16, field: nat): u8
    requires field < 8
  {
    if number in ctx.baselines then ctx.baselines[number].fields[field] else 0
  }

  function ShownAxis(ctx: Context, number: u16, axis: nat): u16
    requires axis < 3
  {
    if number in ctx.baselines then ctx.baselines[number].origin[axis] else 0
  }

  /** The entity looks like the baseline of its number, and like nothing when there is
      none. */
  predicate ShowsBaseline(ctx: Context, e: Entity) {
    && (forall i :: 0 <= i < 8 ==> e.fields[i] == ShownField(ctx, e.number, i))
    && (forall i :: 0 <= i < 3 ==> e.origin[i] == ShownAxis(ctx, e.number, i))
  }

  /** The coded value of one field of `target`: a remapped model, flipped effects
      bits, or a difference. */
  function FieldSymbol(ctx: Context, field: nat, base: u8, target: u8): u8
    requires Usable(ctx) && field < 8
  {
    if field == 0 then ctx.direct[target]
    else if field == 4 then XorByte(target, base)
    else Minus8(target, base)
  }

  function PatchedField(ctx: Context, field: nat, base: u8, symbol: u8): u8
    requires Usable(ctx) && field < 8
  {
    if field == 0 then ctx.inverse[symbol]
    else if field == 4 then XorByte(base, symbol)
    else Plus8(base, symbol)
  }

  lemma PatchRestores(ctx: Context, field: nat, base: u8, target: u8)
    requires Usable(ctx) && field < 8
    ensures PatchedField(ctx, field, base, FieldSymbol(ctx, field, base, target)) == target
  {
    if field == 4 {
      hide XorByte;
      XorByteRestores(base, target);
    }
  }

  function NewFieldToken(ctx: Context, base: Entity, target: Entity, mask: Mask, field: nat): seq<Token>
    requires Usable(ctx) && field < 8
  {
    if mask[field] then [Token(Field(field), FieldSymbol(ctx, field, base.fields[field], target.fields[field]))] else []
  }

  /** Fields of a new entity, from `field` on; the masked ones are coded. */
  function NewFieldTokens(ctx: Context, base: Entity, target: Entity, mask: Mask, field: nat): seq<Token>
    requires Usable(ctx) && field <= 8
    decreases 8 - field
  {
    if field == 8 then []
    else NewFieldToken(ctx, base, target, mask, field) + NewFieldTokens(ctx, base, target, mask, field + 1)
  }

  function ParseNewFields(ctx: Context, tokens: seq<Token>, e: Entity, mask: Mask, field: nat): (p: Reading<Entity>)
    requires Usable(ctx) && field <= 8
    ensures p.Parsed? ==> |p.rest| <= |tokens|
    decreases 8 - field
  {
    if field == 8 then Parsed(e, tokens)
    else if !mask[field] then ParseNewFields(ctx, tokens, e, mask, field + 1)
    else
      match Take(tokens, Field(field))
      case Stopped(error) => Stopped(error)
      case Parsed(symbol, rest) =>
        var patched := PatchedField(ctx, field, e.fields[field], symbol);
        ParseNewFields(ctx, rest, e.(fields := e.fields[field := patched]), mask, field + 1)
  }

  /** The mask names at least the fields that differ. */
  predicate Covers(mask: Mask, base: Entity, target: Entity) {
    forall i :: 0 <= i < 8 && base.fields[i] != target.fields[i] ==> mask[i]
  }

  lemma NewFieldStep(ctx: Context, base: Entity, target: Entity, e: Entity, mask: Mask, field: nat, later: seq<Token>)
    requires Usable(ctx) && field < 8 && e.fields[field] == base.fields[field]
    requires !mask[field] ==> base.fields[field] == target.fields[field]
    ensures ParseNewFields(ctx, NewFieldToken(ctx, base, target, mask, field) + later, e, mask, field)
            == ParseNewFields(ctx, later, e.(fields := e.fields[field := target.fields[field]]), mask, field + 1)
  {
    hide Usable, PatchedField, FieldSymbol;
    if mask[field] {
      PatchRestores(ctx, field, base.fields[field], target.fields[field]);
      assert (NewFieldToken(ctx, base, target, mask, field) + later)[1..] == later;
    } else {
      assert [] + later == later;
      assert e.fields[field := target.fields[field]] == e.fields;
    }
  }

  lemma {:induction false} NewFieldsRestored(ctx: Context, base: Entity, target: Entity, e: Entity, mask: Mask,
                                             field: nat, rest: seq<Token>)
    requires Usable(ctx) && field <= 8 && Covers(mask, base, target)
    requires e.fields == target.fields[..field] + base.fields[field..]
    ensures ParseNewFields(ctx, NewFieldTokens(ctx, base, target, mask, field) + rest, e, mask, field)
            == Parsed(e.(fields := target.fields), rest)
    decreases 8 - field
  {
    hide Usable, NewFieldToken;
    if field == 8 {
      assert [] + rest == rest && e.fields == target.fields;
    } else {
      var later := NewFieldTokens(ctx, base, target, mask, field + 1) + rest;
      assert NewFieldTokens(ctx, base, target, mask, field) + rest
             == NewFieldToken(ctx, base, target, mask, field) + later;
      NewFieldStep(ctx, base, target, e, mask, field, later);
      var next := e.(fields := e.fields[field := target.fields[field]]);
      assert next.fields == target.fields[..field + 1] + base.fields[field + 1..];
      hide ParseNewFields;
      NewFieldsRestored(ctx, base, target, next, mask, field + 1, rest);
    }
  }

  /** Change of an angle since `base`, as it becomes the new carry. */
  function NewAngleCarry(base: Entity, target: Entity, axis: nat): u8
    requires axis < 3
  {
    Minus8(target.fields[5 + axis], base.fields[5 + axis])
  }

  function DeltaFieldToken(ctx: Context, base: Entity, target: Entity, mask: Mask, field: nat): seq<Token>
    requires Usable(ctx) && field < 8
  {
    if !mask[field] then []
    else if field >= 5 then
      [Token(Field(field), Minus8(NewAngleCarry(base, target, field - 5), base.angleCarry[field - 5]))]
    else [Token(Field(field), FieldSymbol(ctx, field, base.fields[field], target.fields[field]))]
  }

  /** Angles are coded by how their change changed. */
  function DeltaFieldTokens(ctx: Context, base: Entity, target: Entity, mask: Mask, field: nat): seq<Token>
    requires Usable(ctx) && field <= 8
    decreases 8 - field
  {
    if field == 8 then []
    else DeltaFieldToken(ctx, base, target, mask, field) + DeltaFieldTokens(ctx, base, target, mask, field + 1)
  }

  /** Every angle moves by its carry, whether or not the carry itself changed. */
  function Turned(e: Entity, axis: nat, change: u8): Entity
    requires axis < 3
  {
    var carry := Plus8(e.angleCarry[axis], change);
    e.(angleCarry := e.angleCarry[axis := carry],
       fields := e.fields[5 + axis := Plus8(e.fields[5 + axis], carry)])
  }

  function ParseDeltaFields(ctx: Context, tokens: seq<Token>, e: Entity, mask: Mask, field: nat): (p: Reading<Entity>)
    requires Usable(ctx) && field <= 8
    ensures p.Parsed? ==> |p.rest| <= |tokens|
    decreases 8 - field
  {
    if field == 8 then Parsed(e, tokens)
    else if !mask[field] then
      ParseDeltaFields(ctx, tokens, if field >= 5 then Turned(e, field - 5, 0) else e, mask, field + 1)
    else
      match Take(tokens, Field(field))
      case Stopped(error) => Stopped(error)
      case Parsed(symbol, rest) =>
        var patched :=
          if field >= 5 then Turned(e, field - 5, symbol)
          else e.(fields := e.fields[field := PatchedField(ctx, field, e.fields[field], symbol)]);
        ParseDeltaFields(ctx, rest, patched, mask, field + 1)
  }

  /** The angle carries of the record that both ends keep. */
  function NewAngleCarries(base: Entity, target: Entity): (carries: seq<u8>)
    ensures |carries| == 3
  {
    seq(3, i requires 0 <= i < 3 => NewAngleCarry(base, target, i))
  }

  /** Exactly the plain fields that differ and the angles whose carry changes. */
  function DeltaFieldMask(base: Entity, target: Entity): Mask {
    seq(8, i requires 0 <= i < 8 =>
      if i < 5 then target.fields[i] != base.fields[i]
      else NewAngleCarry(base, target, i - 5) != base.angleCarry[i - 5])
  }

  /** `base` with the fields before `field` and their carries brought up to date. */
  function Advanced(base: Entity, target: Entity, field: nat): Entity
    requires field <= 8
  {
    var axis := if field <= 5 then 0 else field - 5;
    base.(fields := target.fields[..field] + base.fields[field..],
          angleCarry := NewAngleCarries(base, target)[..axis] + base.angleCarry[axis..])
  }

  lemma AdvancedPlain(base: Entity, target: Entity, field: nat)
    requires field < 5
    ensures var e, next := Advanced(base, target, field), Advanced(base, target, field + 1);
            && e.fields[field] == base.fields[field]
            && e.(fields := e.fields[field := target.fields[field]]) == next
            && (base.fields[field] == target.fields[field] ==> e == next)
  {
    var e, next := Advanced(base, target, field), Advanced(base, target, field + 1);
    assert e.fields[field := target.fields[field]] == next.fields;
    assert base.fields[field] == target.fields[field] ==> e.fields == next.fields;
  }

  lemma CarryRestored(angle: u8, target: u8, carry: u8)
    ensures var next := Minus8(target, angle);
            Plus8(carry, Minus8(next, carry)) == next && Plus8(angle, next) == target
  {
  }

  lemma AdvancedAngle(base: Entity, target: Entity, axis: nat, change: u8)
    requires axis < 3
    requires change == Minus8(NewAngleCarry(base, target, axis), base.angleCarry[axis])
    ensures Turned(Advanced(base, target, 5 + axis), axis, change) == Advanced(base, target, 6 + axis)
  {
    hide Plus8, Minus8;
    var e, next := Advanced(base, target, 5 + axis), Advanced(base, target, 6 + axis);
    var carry := NewAngleCarry(base, target, axis);
    CarryRestored(base.fields[5 + axis], target.fields[5 + axis], base.angleCarry[axis]);
    hide NewAngleCarry;
    assert NewAngleCarries(base, target)[axis] == carry;
    OneMoreTaken(target.fields, base.fields, 5 + axis);
    OneMoreTaken(NewAngleCarries(base, target), base.angleCarry, axis);
    hide NewAngleCarries;
  }

  /** Taking one more element from the front of another sequence. */
  lemma OneMoreTaken(taken: seq<u8>, left: seq<u8>, i: nat)
    requires i < |taken| == |left|
    ensures (taken[..i] + left[i..])[i] == left[i]
    ensures (taken[..i] + left[i..])[i := taken[i]] == taken[..i + 1] + left[i + 1..]
  {
  }

  /** A masked field is brought up to date by its symbol. */
  lemma AdvancedField(ctx: Context, base: Entity, target: Entity, field: nat)
    requires Usable(ctx) && field < 8
    ensures var e, next := Advanced(base, target, field), Advanced(base, target, field + 1);
            var b, t := base.fields[field], target.fields[field];
            && (field >= 5 ==>
                  Turned(e, field - 5, Minus8(NewAngleCarry(base, target, field - 5), base.angleCarry[field - 5]))
                  == next)
            && (field < 5 ==>
                  e.(fields := e.fields[field := PatchedField(ctx, field, e.fields[field],
                                                              FieldSymbol(ctx, field, b, t))]) == next)
  {
    hide PatchedField, FieldSymbol, Usable, Turned, Advanced;
    if field < 5 {
      PatchRestores(ctx, field, base.fields[field], target.fields[field]);
      AdvancedPlain(base, target, field);
    } else {
      AdvancedAngle(base, target, field - 5,
                    Minus8(NewAngleCarry(base, target, field - 5), base.angleCarry[field - 5]));
    }
  }

  /** An unmasked one is up to date already, once the angle has moved. */
  lemma AdvancedSkips(base: Entity, target: Entity, field: nat)
    requires field < 8 && !DeltaFieldMask(base, target)[field]
    ensures var e, next := Advanced(base, target, field), Advanced(base, target, field + 1);
            if field >= 5 then Turned(e, field - 5, 0) == next else e == next
  {
    hide Turned, Advanced;
    if field < 5 {
      AdvancedPlain(base, target, field);
    } else {
      AdvancedAngle(base, target, field - 5, 0);
    }
  }

  lemma DeltaFieldStep(ctx: Context, base: Entity, target: Entity, field: nat, later: seq<Token>)
    requires Usable(ctx) && field < 8
    ensures var mask := DeltaFieldMask(base, target);
            ParseDeltaFields(ctx, DeltaFieldToken(ctx, base, target, mask, field) + later,
                             Advanced(base, target, field), mask, field)
            == ParseDeltaFields(ctx, later, Advanced(base, target, field + 1), mask, field + 1)
  {
    hide Advanced, Turned, DeltaFieldMask, PatchedField, FieldSymbol, Usable, NewAngleCarry, Minus8;
    var mask := DeltaFieldMask(base, target);
    if !mask[field] {
      AdvancedSkips(base, target, field);
      assert [] + later == later;
    } else {
      AdvancedField(ctx, base, target, field);
      assert (DeltaFieldToken(ctx, base, target, mask, field) + later)[1..] == later;
    }
  }

  lemma {:induction false} DeltaFieldsRestored(ctx: Context, base: Entity, target: Entity, field: nat, rest: seq<Token>)
    requires Usable(ctx) && field <= 8
    ensures var mask := DeltaFieldMask(base, target);
            ParseDeltaFields(ctx, DeltaFieldTokens(ctx, base, target, mask, field) + rest,
                             Advanced(base, target, field), mask, field)
            == Parsed(Advanced(base, target, 8), rest)
    decreases 8 - field
  {
    hide Advanced, DeltaFieldMask, Usable, DeltaFieldToken;
    var mask := DeltaFieldMask(base, target);
    if field == 8 {
      assert [] + rest == rest;
    } else {
      var later := DeltaFieldTokens(ctx, base, target, mask, field + 1) + rest;
      assert DeltaFieldTokens(ctx, base, target, mask, field) + rest
             == DeltaFieldToken(ctx, base, target, mask, field) + later;
      hide ParseDeltaFields;
      DeltaFieldStep(ctx, base, target, field, later);
      DeltaFieldsRestored(ctx, base, target, field + 1, rest);
    }
  }

  function AxisTokens(delta: WordDelta, axis: nat): seq<Token> {
    (if delta.low != 0 then [Token(OriginLow(axis), delta.low)] else [])
    + (if delta.high != 0 then [Token(OriginHigh(axis), delta.high)] else [])
  }

  /** Differences of the three coordinates; a zero byte is not sent. */
  function OriginTokens(deltas: seq<WordDelta>, axis: nat): seq<Token>
    requires |deltas| == 3 && axis <= 3
    decreases 3 - axis
  {
    if axis == 3 then [] else AxisTokens(deltas[axis], axis) + OriginTokens(deltas, axis + 1)
  }

  function OriginMaskOf(deltas: seq<WordDelta>): (mask: Flags)
    requires |deltas| == 3
    ensures |mask| == 6
  {
    seq(6, i requires 0 <= i < 6 => if i % 2 == 0 then deltas[i / 2].low != 0 else deltas[i / 2].high != 0)
  }

  function TakeIf(tokens: seq<Token>, present: bool, row: Row): (p: Reading<u8>)
    ensures p.Parsed? ==> |p.rest| <= |tokens|
  {
    if present then Take(tokens, row) else Parsed(0, tokens)
  }

  function ParseOrigin(tokens: seq<Token>, words: seq<u16>, mask: Flags, axis: nat): (p: Reading<seq<u16>>)
    requires |words| == 3 && |mask| == 6 && axis <= 3
    ensures p.Parsed? ==> |p.value| == 3 && |p.rest| <= |tokens|
    decreases 3 - axis
  {
    if axis == 3 then Parsed(words, tokens)
    else
      match TakeIf(tokens, mask[2 * axis], OriginLow(axis))
      case Stopped(error) => Stopped(error)
      case Parsed(low, afterLow) =>
        match TakeIf(afterLow, mask[2 * axis + 1], OriginHigh(axis))
        case Stopped(error) => Stopped(error)
        case Parsed(high, rest) =>
          ParseOrigin(rest, words[axis := AddDelta(words[axis], low, high)], mask, axis + 1)
  }

  function WordDeltas(current: seq<u16>, target: seq<u16>): (deltas: seq<WordDelta>)
    requires |current| == |target| == 3
    ensures |deltas| == 3
  {
    seq(3, i requires 0 <= i < 3 => SplitWordDelta(target[i], current[i]))
  }

  lemma TakePresent(present: bool, row: Row, symbol: u8, rest: seq<Token>)
    requires !present ==> symbol == 0
    ensures TakeIf((if present then [Token(row, symbol)] else []) + rest, present, row) == Parsed(symbol, rest)
  {
    assert [] + rest == rest;
  }

  lemma OriginAxisTokens(deltas: seq<WordDelta>, axis: nat, rest: seq<Token>)
    requires |deltas| == 3 && axis < 3
    ensures var mask, tokens := OriginMaskOf(deltas), OriginTokens(deltas, axis) + rest;
            var afterLow := TakeIf(tokens, mask[2 * axis], OriginLow(axis));
            && afterLow.Parsed? && afterLow.value == deltas[axis].low
            && TakeIf(afterLow.rest, mask[2 * axis + 1], OriginHigh(axis))
               == Parsed(deltas[axis].high, OriginTokens(deltas, axis + 1) + rest)
  {
    var delta, tail := deltas[axis], OriginTokens(deltas, axis + 1) + rest;
    var low := if delta.low != 0 then [Token(OriginLow(axis), delta.low)] else [];
    var high := if delta.high != 0 then [Token(OriginHigh(axis), delta.high)] else [];
    assert OriginMaskOf(deltas)[2 * axis] == (delta.low != 0)
           && OriginMaskOf(deltas)[2 * axis + 1] == (delta.high != 0);
    Regroup(AxisTokens(delta, axis), OriginTokens(deltas, axis + 1), rest);
    Regroup(low, high, tail);
    hide TakeIf, OriginMaskOf, OriginTokens;
    TakePresent(delta.low != 0, OriginLow(axis), delta.low, high + tail);
    TakePresent(delta.high != 0, OriginHigh(axis), delta.high, tail);
  }

  lemma {:induction false} OriginRestored(current: seq<u16>, target: seq<u16>, words: seq<u16>, axis: nat,
                                          rest: seq<Token>)
    requires |current| == |target| == 3 && axis <= 3
    requires words == target[..axis] + current[axis..]
    ensures var deltas := WordDeltas(current, target);
            ParseOrigin(OriginTokens(deltas, axis) + rest, words, OriginMaskOf(deltas), axis) == Parsed(target, rest)
    decreases 3 - axis
  {
    hide SplitWordDelta, AddDelta, OriginMaskOf;
    var deltas := WordDeltas(current, target);
    if axis == 3 {
      assert OriginTokens(deltas, axis) + rest == rest && words == target;
    } else {
      OriginAxisTokens(deltas, axis, rest);
      SplitRestores(target[axis], current[axis]);
      assert words[axis := target[axis]] == target[..axis + 1] + current[axis + 1..];
      OriginRestored(current, target, words[axis := target[axis]], axis + 1, rest);
    }
  }
}
