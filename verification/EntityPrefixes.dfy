/** What a decoder makes of the first part of a token stream. */
module EntityPrefixes {
  import opened Words
  import opened PackedWords
  import opened EntityDeltas
  import opened EntityActions
  import opened EntityScripts
  import opened EntityPlans

  /** Tokens that come later change neither a value that was read nor the request
      for another row. */
  predicate Extends<T(==)>(short: Reading<T>, long: Reading<T>, more: seq<Token>) {
    match short
    case Parsed(value, rest) => long == Parsed(value, rest + more)
    case Stopped(error) => error.OtherRow? ==> long == short
  }

  lemma TakeExtends(tokens: seq<Token>, more: seq<Token>, row: Row)
    ensures Extends(Take(tokens, row), Take(tokens + more, row), more)
  {
    if tokens != [] {
      assert (tokens + more)[1..] == tokens[1..] + more;
    }
  }

  lemma TakeIfExtends(tokens: seq<Token>, more: seq<Token>, present: bool, row: Row)
    ensures Extends(TakeIf(tokens, present, row), TakeIf(tokens + more, present, row), more)
  {
    TakeExtends(tokens, more, row);
  }

  lemma {:induction false} NewFieldsExtend(ctx: Context, tokens: seq<Token>, more: seq<Token>, e: Entity, mask: Mask,
                                           field: nat)
    requires Usable(ctx) && field <= 8
    ensures Extends(ParseNewFields(ctx, tokens, e, mask, field), ParseNewFields(ctx, tokens + more, e, mask, field),
              more)
    decreases 8 - field
  {
    hide Usable, Take, PatchedField;
    if field < 8 {
      if !mask[field] {
        NewFieldsExtend(ctx, tokens, more, e, mask, field + 1);
      } else {
        TakeExtends(tokens, more, Field(field));
        var p := Take(tokens, Field(field));
        if p.Parsed? {
          var patched := PatchedField(ctx, field, e.fields[field], p.value);
          NewFieldsExtend(ctx, p.rest, more, e.(fields := e.fields[field := patched]), mask, field + 1);
        }
      }
    }
  }

  lemma {:induction false} DeltaFieldsExtend(ctx: Context, tokens: seq<Token>, more: seq<Token>, e: Entity, mask: Mask,
                                             field: nat)
    requires Usable(ctx) && field <= 8
    ensures Extends(ParseDeltaFields(ctx, tokens, e, mask, field),
              ParseDeltaFields(ctx, tokens + more, e, mask, field), more)
    decreases 8 - field
  {
    hide Usable, Take, PatchedField, Turned;
    if field < 8 {
      if !mask[field] {
        DeltaFieldsExtend(ctx, tokens, more, if field >= 5 then Turned(e, field - 5, 0) else e, mask, field + 1);
      } else {
        TakeExtends(tokens, more, Field(field));
        var p := Take(tokens, Field(field));
        if p.Parsed? {
          var patched :=
            if field >= 5 then Turned(e, field - 5, p.value)
            else e.(fields := e.fields[field := PatchedField(ctx, field, e.fields[field], p.value)]);
          DeltaFieldsExtend(ctx, p.rest, more, patched, mask, field + 1);
        }
      }
    }
  }

  lemma {:induction false} OriginExtends(tokens: seq<Token>, more: seq<Token>, words: seq<u16>, mask: Flags, axis: nat)
    requires |words| == 3 && |mask| == 6 && axis <= 3
    ensures Extends(ParseOrigin(tokens, words, mask, axis), ParseOrigin(tokens + more, words, mask, axis), more)
    decreases 3 - axis
  {
    hide TakeIf, AddDelta;
    if axis < 3 {
      TakeIfExtends(tokens, more, mask[2 * axis], OriginLow(axis));
      var low := TakeIf(tokens, mask[2 * axis], OriginLow(axis));
      if low.Parsed? {
        TakeIfExtends(low.rest, more, mask[2 * axis + 1], OriginHigh(axis));
        var high := TakeIf(low.rest, mask[2 * axis + 1], OriginHigh(axis));
        if high.Parsed? {
          OriginExtends(high.rest, more, words[axis := AddDelta(words[axis], low.value, high.value)], mask, axis + 1);
        }
      }
    }
  }

  lemma NewExtends(ctx: Context, tokens: seq<Token>, more: seq<Token>, number: u16, payload: bool)
    requires Usable(ctx)
    ensures Extends(ParseNew(ctx, tokens, number, payload), ParseNew(ctx, tokens + more, number, payload), more)
  {
    hide Usable, Take, TakeIf, MaskOf, Baseline, ParseNewFields, ParseOrigin;
    var e := Fresh(Baseline(ctx, number).(number := number));
    TakeExtends(tokens, more, OriginMask);
    var high := Take(tokens, OriginMask);
    if payload && high.Parsed? {
      TakeIfExtends(high.rest, more, MaskOf(high.value)[6], FieldMask);
      var mask := TakeIf(high.rest, MaskOf(high.value)[6], FieldMask);
      if mask.Parsed? {
        NewFieldsExtend(ctx, mask.rest, more, e, MaskOf(mask.value), 0);
        var fields := ParseNewFields(ctx, mask.rest, e, MaskOf(mask.value), 0);
        if fields.Parsed? {
          OriginExtends(fields.rest, more, fields.value.origin, MaskOf(high.value)[..6], 0);
        }
      }
    }
  }

  lemma {:induction false} ChunksExtend(tokens: seq<Token>, more: seq<Token>, number: u16)
    ensures Extends(ParseChunks(tokens, number), ParseChunks(tokens + more, number), more)
    decreases |tokens|
  {
    hide Take;
    TakeExtends(tokens, more, NumberExtension);
    var value := Take(tokens, NumberExtension);
    if value.Parsed? && value.value == 255 {
      ChunksExtend(value.rest, more, Plus16(number, 255));
    }
  }

  lemma NewRoundExtends(ctx: Context, base: seq<Entity>, st: Stream, symbol: u8, tokens: seq<Token>, more: seq<Token>)
    requires Usable(ctx) && st.baseIndex <= |base|
    ensures Extends(ParseNewRound(ctx, base, st, symbol, tokens), ParseNewRound(ctx, base, st, symbol, tokens + more),
              more)
  {
    hide Usable, ParseChunks, ParseNew, SkipBelow;
    ChunksExtend(tokens, more, Plus16(st.number, 64));
    var number := ParseNumber(tokens, st.number, symbol % 64);
    if number.Parsed? {
      NewExtends(ctx, number.rest, more, number.value, symbol / 64 % 2 == 1);
    }
  }

  lemma ChangeExtends(ctx: Context, tokens: seq<Token>, more: seq<Token>, record: Entity, highFollows: bool)
    requires Usable(ctx)
    ensures Extends(ParseChange(ctx, tokens, record, highFollows),
              ParseChange(ctx, tokens + more, record, highFollows), more)
  {
    hide Usable, TakeIf, MaskOf, Xor, ParseDeltaFields, ParseOrigin, Moved;
    TakeIfExtends(tokens, more, highFollows, OriginMask);
    var highXor := TakeIf(tokens, highFollows, OriginMask);
    if highXor.Parsed? {
      var high := Xor(HighMask(record.originMask, false), MaskOf(highXor.value));
      TakeIfExtends(highXor.rest, more, high[6], FieldMask);
      var lowXor := TakeIf(highXor.rest, high[6], FieldMask);
      if lowXor.Parsed? {
        var mask := Xor(record.fieldMask, MaskOf(lowXor.value));
        DeltaFieldsExtend(ctx, lowXor.rest, more, record, mask, 0);
        var fields := ParseDeltaFields(ctx, lowXor.rest, record, mask, 0);
        if fields.Parsed? {
          OriginExtends(fields.rest, more, fields.value.originCarry, high[..6], 0);
        }
      }
    }
  }

  lemma RunExtends(tokens: seq<Token>, more: seq<Token>, symbol: u8)
    requires 0 < symbol < 128
    ensures Extends(ParseRun(tokens, symbol), ParseRun(tokens + more, symbol), more)
  {
    TakeExtends(tokens, more, EntitySymbol);
  }

  lemma BaseRoundExtends(ctx: Context, base: seq<Entity>, st: Stream, symbol: u8, tokens: seq<Token>, more: seq<Token>)
    requires Usable(ctx) && st.baseIndex <= |base| && 0 < symbol < 128
    ensures Extends(ParseBaseRound(ctx, base, st, symbol, tokens),
              ParseBaseRound(ctx, base, st, symbol, tokens + more), more)
  {
    hide Usable, ParseRun, ParseChange, MaskFollows;
    RunExtends(tokens, more, symbol);
    var run := ParseRun(tokens, symbol);
    if run.Parsed? && run.value <= |base| - st.baseIndex {
      ChangeExtends(ctx, run.rest, more, base[st.baseIndex + run.value - 1], MaskFollows(symbol));
    }
  }

  lemma RoundExtends(ctx: Context, base: seq<Entity>, st: Stream, tokens: seq<Token>, more: seq<Token>)
    requires Usable(ctx) && st.baseIndex <= |base|
    ensures Extends(ParseRound(ctx, base, st, tokens), ParseRound(ctx, base, st, tokens + more), more)
  {
    hide Usable, Take, ParseNewRound, ParseBaseRound;
    TakeExtends(tokens, more, EntitySymbol);
    var symbol := Take(tokens, EntitySymbol);
    if symbol.Parsed? && symbol.value >= 128 {
      NewRoundExtends(ctx, base, st, symbol.value, symbol.rest, more);
    } else if symbol.Parsed? && symbol.value > 0 {
      BaseRoundExtends(ctx, base, st, symbol.value, symbol.rest, more);
    }
  }

  lemma {:induction false} ScriptExtends(ctx: Context, base: seq<Entity>, st: Stream, tokens: seq<Token>,
                                         more: seq<Token>)
    requires Usable(ctx) && st.baseIndex <= |base|
    ensures Extends(ParseScript(ctx, base, st, tokens), ParseScript(ctx, base, st, tokens + more), more)
    decreases |tokens|
  {
    hide Usable, ParseRound, Outcome;
    RoundExtends(ctx, base, st, tokens, more);
    var round := ParseRound(ctx, base, st, tokens);
    if round.Parsed? && round.value.More? {
      ScriptExtends(ctx, base, round.value.next, round.rest, more);
    }
  }

  /** A script that is cut short anywhere runs out of tokens; it is never taken for
      another list. */
  lemma CutScript(ctx: Context, base: seq<Entity>, tokens: seq<Token>, count: nat)
    requires Usable(ctx) && count < |tokens|
    requires ParseScript(ctx, base, START, tokens).Parsed? && ParseScript(ctx, base, START, tokens).rest == []
    ensures ParseScript(ctx, base, START, tokens[..count]) == Stopped(NothingLeft)
  {
    hide Usable, ParseScript;
    ScriptExtends(ctx, base, START, tokens[..count], tokens[count..]);
    assert tokens[..count] + tokens[count..] == tokens;
  }
}
