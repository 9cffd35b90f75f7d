/** Writes an edit script as tokens. */
module EntityEncoder {
  import opened Words
  import opened PackedWords
  import opened EntityDeltas
  import opened EntityActions
  import opened EntityScripts
  import opened EntityPayloads
  import R = RemapTables

  lemma WholeChange(ctx: Context, st: Stream, run: nat, base: Entity, target: Entity)
    requires Usable(ctx) && 1 <= run <= MAX_CHANGE_RUN
    ensures ActionTokens(ctx, ChangeEntity(run, base, target), st)
            == [Token(EntitySymbol, ChangeSymbol(run, HighXor(base, target) != 0))] + RunTokens(run)
               + ChangeBody(ctx, base, target)
  {
    hide Usable, ChangeBody, HighXor, ChangeSymbol, RunTokens;
  }

  class Encoder {
    const ctx: Context
    var tokens: seq<Token>
    var current: u16

    constructor (ctx: Context)
      ensures this.ctx == ctx && tokens == [] && current == 32
    {
      this.ctx, tokens, current := ctx, [], 32;
    }

    method Put(row: Row, symbol: u8)
      modifies `tokens
      ensures tokens == old(tokens) + [Token(row, symbol)]
    {
      tokens := tokens + [Token(row, symbol)];
    }

    method FieldValue(field: nat, base: u8, target: u8) returns (symbol: u8)
      requires Usable(ctx) && field < 8
      ensures symbol == FieldSymbol(ctx, field, base, target)
    {
      if field == 0 {
        // The source's error for an unmapped model cannot happen.
        var index := R.RemapIndex(ctx.inverse, target);
        symbol := index.value;
      } else if field == 4 {
        symbol := XorByte(target, base);
      } else {
        symbol := Minus8(target, base);
      }
    }

    method EncodeWordDelta(delta: WordDelta, axis: nat)
      modifies `tokens
      ensures tokens == old(tokens) + AxisTokens(delta, axis)
    {
      if delta.low != 0 {
        Put(OriginLow(axis), delta.low);
      }
      if delta.high != 0 {
        Put(OriginHigh(axis), delta.high);
      }
    }

    method EncodeOrigin(deltas: seq<WordDelta>)
      requires |deltas| == 3
      modifies `tokens
      ensures tokens == old(tokens) + OriginTokens(deltas, 0)
    {
      hide AxisTokens;
      for axis := 0 to 3
        invariant tokens + OriginTokens(deltas, axis) == old(tokens) + OriginTokens(deltas, 0)
      {
        Regroup(tokens, AxisTokens(deltas[axis], axis), OriginTokens(deltas, axis + 1));
        EncodeWordDelta(deltas[axis], axis);
      }
    }

    method EncodeNewField(base: Entity, target: Entity, mask: Mask, field: nat)
      requires Usable(ctx) && field < 8
      modifies `tokens
      ensures tokens == old(tokens) + NewFieldToken(ctx, base, target, mask, field)
    {
      hide Usable, FieldSymbol;
      if mask[field] {
        var value := FieldValue(field, base.fields[field], target.fields[field]);
        Put(Field(field), value);
      }
    }

    method EncodeNewFields(base: Entity, target: Entity, mask: Mask)
      requires Usable(ctx)
      modifies `tokens
      ensures tokens == old(tokens) + NewFieldTokens(ctx, base, target, mask, 0)
    {
      hide Usable, NewFieldToken;
      for field := 0 to 8
        invariant tokens + NewFieldTokens(ctx, base, target, mask, field)
                  == old(tokens) + NewFieldTokens(ctx, base, target, mask, 0)
      {
        Regroup(tokens, NewFieldToken(ctx, base, target, mask, field),
                NewFieldTokens(ctx, base, target, mask, field + 1));
        EncodeNewField(base, target, mask, field);
      }
    }

    method EncodeDeltaField(base: Entity, target: Entity, mask: Mask, field: nat)
      requires Usable(ctx) && field < 8
      modifies `tokens
      ensures tokens == old(tokens) + DeltaFieldToken(ctx, base, target, mask, field)
    {
      hide Usable, FieldSymbol, Minus8;
      if mask[field] {
        if field >= 5 {
          Put(Field(field), Minus8(NewAngleCarry(base, target, field - 5), base.angleCarry[field - 5]));
        } else {
          var value := FieldValue(field, base.fields[field], target.fields[field]);
          Put(Field(field), value);
        }
      }
    }

    method EncodeDeltaFields(base: Entity, target: Entity, mask: Mask)
      requires Usable(ctx)
      modifies `tokens
      ensures tokens == old(tokens) + DeltaFieldTokens(ctx, base, target, mask, 0)
    {
      hide Usable, DeltaFieldToken;
      for field := 0 to 8
        invariant tokens + DeltaFieldTokens(ctx, base, target, mask, field)
                  == old(tokens) + DeltaFieldTokens(ctx, base, target, mask, 0)
      {
        Regroup(tokens, DeltaFieldToken(ctx, base, target, mask, field),
                DeltaFieldTokens(ctx, base, target, mask, field + 1));
        EncodeDeltaField(base, target, mask, field);
      }
    }

    method EncodeChunks(extension: nat)
      modifies `tokens
      ensures tokens == old(tokens) + Chunks(extension)
    {
      var remaining := extension;
      while remaining >= 255
        invariant tokens + Chunks(remaining) == old(tokens) + Chunks(extension)
      {
        ghost var before := tokens;
        Put(NumberExtension, 255);
        assert tokens + Chunks(remaining - 255) == before + Chunks(remaining);
        remaining := remaining - 255;
      }
      Put(NumberExtension, remaining);
    }

    function State(): Stream
      reads this
    {
      Stream(0, current, [])
    }

    /** The masks and the differences from the baseline. */
    method EncodeNewBody(record: Entity)
      requires Usable(ctx)
      modifies `tokens
      ensures tokens == old(tokens) + NewBody(ctx, record)
    {
      hide Usable, FieldSymbol, NewFieldMask, WordDeltas, OriginMaskOf, ByteOf, OriginTokens, NewFieldTokens, Baseline;
      var base := Baseline(ctx, record.number);
      var mask, deltas := NewFieldMask(base, record), WordDeltas(base.origin, record.origin);
      var high := ByteOf(HighMask(OriginMaskOf(deltas), mask != NoFlags(8)));
      if high == 0 {
        return;
      }
      Put(OriginMask, high);
      if mask != NoFlags(8) {
        Put(FieldMask, ByteOf(mask));
      }
      EncodeNewFields(base, record, mask);
      EncodeOrigin(deltas);
    }

    method EncodeNewPacketEntity(record: Entity) returns (ok: bool)
      requires Usable(ctx)
      modifies `tokens, `current
      ensures ok <==> Encodable(old(State()), NewEntity(record))
      ensures ok ==> current == record.number
                     && tokens == old(tokens) + ActionTokens(ctx, NewEntity(record), old(State()))
      ensures !ok ==> current == old(current) && tokens == old(tokens)
      ensures ok ==> (OnlyNumber(tokens[|old(tokens)|..]) <==> ShowsBaseline(ctx, record))
    {
      hide Usable, NewHighMask, ByteOf, NewBody, Chunks, Baseline, ShowsBaseline, OnlyNumber;
      if record.number <= current {
        return false;
      }
      ghost var before, whole := tokens, ActionTokens(ctx, NewEntity(record), State());
      BaselineIsFree(ctx, record, State());
      var payload := ByteOf(NewHighMask(Baseline(ctx, record.number), record)) != 0;
      var difference: nat := record.number - current;
      Put(EntitySymbol, 128 + (if payload then 64 else 0) + (if difference < 64 then difference else 0));
      if difference >= 64 {
        EncodeChunks(difference - 64);
      }
      current := record.number;
      EncodeNewBody(record);
      assert tokens == before + whole && tokens[|before|..] == whole;
      ok := true;
    }

    method EncodeDeltaPacketEntity(run: nat, base: Entity, target: Entity) returns (ok: bool)
      requires Usable(ctx) && run >= 1
      modifies `tokens
      ensures ok <==> run <= MAX_CHANGE_RUN
      ensures ok ==> tokens == old(tokens) + ActionTokens(ctx, ChangeEntity(run, base, target), State())
      ensures !ok ==> tokens == old(tokens)
    {
      hide Usable, ChangeBody, HighXor, ChangeSymbol, ActionTokens;
      if run > MAX_CHANGE_RUN {
        return false;
      }
      var symbol := ChangeSymbol(run, HighXor(base, target) != 0);
      Put(EntitySymbol, symbol);
      if run >= 32 {
        Put(EntitySymbol, run - 32);
      }
      assert tokens == old(tokens) + ([Token(EntitySymbol, symbol)] + RunTokens(run));
      EncodeChangeBody(base, target);
      WholeChange(ctx, State(), run, base, target);
      ok := true;
    }

    method EncodeChangeBody(base: Entity, target: Entity)
      requires Usable(ctx)
      modifies `tokens
      ensures tokens == old(tokens) + ChangeBody(ctx, base, target)
    {
      hide Usable, DeltaFieldMask, HighXor, CarryDeltas, ByteOf, OriginTokens, DeltaFieldTokens;
      var highXor, mask := HighXor(base, target), DeltaFieldMask(base, target);
      ghost var before, high, low: seq<Token>, fields := tokens, [], [], DeltaFieldTokens(ctx, base, target, mask, 0);
      if highXor != 0 {
        Put(OriginMask, highXor);
        high := [Token(OriginMask, highXor)];
      }
      if mask != base.fieldMask {
        Put(FieldMask, ByteOf(Xor(mask, base.fieldMask)));
        low := [Token(FieldMask, ByteOf(Xor(mask, base.fieldMask)))];
      }
      EncodeDeltaFields(base, target, mask);
      EncodeOrigin(CarryDeltas(base, target));
      ghost var origins := OriginTokens(CarryDeltas(base, target), 0);
      assert before + high + low + fields + origins == before + (high + (low + (fields + origins)));
    }

    method EncodeAction(a: Action) returns (ok: bool)
      requires Usable(ctx) && (a.ChangeEntity? ==> a.run >= 1)
      modifies `tokens, `current
      ensures ok <==> Encodable(old(State()), a)
      ensures ok ==> tokens == old(tokens) + ActionTokens(ctx, a, old(State()))
      ensures ok ==> current == (if a.NewEntity? then a.target else a.base).number
    {
      hide Usable, NewBody, ChangeBody, HighXor, NewHighMask, Chunks;
      match a {
        case NewEntity(target) =>
          ok := EncodeNewPacketEntity(target);
        case RemoveEntity(run, base) =>
          Put(EntitySymbol, run % 0x100);
          current := base.number;
          ok := true;
        case ChangeEntity(run, base, target) =>
          ok := EncodeDeltaPacketEntity(run, base, target);
          current := base.number;
      }
    }
  }
}
