/** Which bytes a packet entity costs, and what an entity shows for which nothing is
    sent. */
module EntityPayloads {
  import opened Words
  import opened PackedWords
  import opened EntityDeltas
  import opened EntityActions
  import opened EntityScripts

  /** A new entity without payload shows its baseline; none has a history. */
  lemma NewShowsBaseline(ctx: Context, tokens: seq<Token>, number: u16)
    requires Usable(ctx)
    ensures var p := ParseNew(ctx, tokens, number, false);
            p.Parsed? && p.rest == tokens && p.value.number == number
            && ShowsBaseline(ctx, p.value) && WithoutHistory(p.value)
  {
  }

  lemma {:induction false} PatchKeeps(ctx: Context, tokens: seq<Token>, e: Entity, mask: Mask, field: nat)
    requires Usable(ctx) && field <= 8
    ensures var p := ParseNewFields(ctx, tokens, e, mask, field);
            p.Parsed? ==>
              && p.value.(fields := e.fields) == e
              && forall i :: 0 <= i < 8 && (i < field || !mask[i]) ==> p.value.fields[i] == e.fields[i]
    decreases 8 - field
  {
    hide PatchedField, Usable;
    if field < 8 {
      if !mask[field] {
        PatchKeeps(ctx, tokens, e, mask, field + 1);
      } else if Take(tokens, Field(field)).Parsed? {
        var symbol := Take(tokens, Field(field)).value;
        var patched := PatchedField(ctx, field, e.fields[field], symbol);
        PatchKeeps(ctx, tokens[1..], e.(fields := e.fields[field := patched]), mask, field + 1);
      }
    }
  }

  /** With a payload, what the masks do not name is still as in the baseline. */
  lemma NewKeepsBaseline(ctx: Context, tokens: seq<Token>, number: u16)
    requires Usable(ctx) && ParseNew(ctx, tokens, number, true).Parsed?
    ensures var e := ParseNew(ctx, tokens, number, true).value;
            && e.number == number && WithoutHistory(e) && tokens != []
            && (!MaskOf(tokens[0].symbol)[6] ==>
                  forall i :: 0 <= i < 8 ==> e.fields[i] == ShownField(ctx, number, i))
            && (MaskOf(tokens[0].symbol)[6] ==>
                  |tokens| >= 2 && forall i :: 0 <= i < 8 && !MaskOf(tokens[1].symbol)[i] ==>
                                     e.fields[i] == ShownField(ctx, number, i))
  {
    hide MaskOf, ParseOrigin, Usable, ParseNewFields;
    var e := Fresh(Baseline(ctx, number).(number := number));
    var named := MaskOf(tokens[0].symbol)[6];
    assert named ==> |tokens| >= 2 && tokens[1..][1..] == tokens[2..];
    var afterMask := if named then tokens[2..] else tokens[1..];
    var mask := if named then MaskOf(tokens[1].symbol) else MaskOf(0);
    PatchKeeps(ctx, afterMask, e, mask, 0);
    if !named {
      MaskOfZero();
    }
  }

  lemma MaskOfZero()
    ensures forall i :: 0 <= i < 8 ==> !MaskOf(0)[i]
  {
  }

  predicate Mentions(tokens: seq<Token>, row: Row) {
    exists i :: 0 <= i < |tokens| && tokens[i].row == row
  }

  lemma MentionsEither(a: seq<Token>, b: seq<Token>, row: Row)
    ensures Mentions(a + b, row) <==> Mentions(a, row) || Mentions(b, row)
  {
    if Mentions(a, row) {
      var i :| 0 <= i < |a| && a[i].row == row;
      assert (a + b)[i].row == row;
    }
    if Mentions(b, row) {
      var i :| 0 <= i < |b| && b[i].row == row;
      assert (a + b)[|a| + i].row == row;
    }
  }

  lemma MentionsNothing(row: Row)
    ensures !Mentions([], row)
  {
  }

  lemma MentionsOne(token: Token, row: Row)
    ensures Mentions([token], row) <==> token.row == row
  {
    assert [token][0] == token;
  }

  lemma {:induction false} NewFieldsMention(ctx: Context, base: Entity, target: Entity, mask: Mask, field: nat,
                                            row: Row)
    requires Usable(ctx) && field <= 8
    ensures Mentions(NewFieldTokens(ctx, base, target, mask, field), row) <==>
            row.Field? && field <= row.field < 8 && mask[row.field]
    decreases 8 - field
  {
    hide Usable, Mentions, FieldSymbol;
    if field == 8 {
      MentionsNothing(row);
    } else {
      var own := NewFieldToken(ctx, base, target, mask, field);
      NewFieldsMention(ctx, base, target, mask, field + 1, row);
      MentionsEither(own, NewFieldTokens(ctx, base, target, mask, field + 1), row);
      if own == [] {
        MentionsNothing(row);
      } else {
        MentionsOne(own[0], row);
      }
    }
  }

  lemma {:induction false} DeltaFieldsMention(ctx: Context, base: Entity, target: Entity, mask: Mask, field: nat,
                                              row: Row)
    requires Usable(ctx) && field <= 8
    ensures Mentions(DeltaFieldTokens(ctx, base, target, mask, field), row) <==>
            row.Field? && field <= row.field < 8 && mask[row.field]
    decreases 8 - field
  {
    hide Usable, Mentions, FieldSymbol, Minus8;
    if field == 8 {
      MentionsNothing(row);
    } else {
      var own := DeltaFieldToken(ctx, base, target, mask, field);
      DeltaFieldsMention(ctx, base, target, mask, field + 1, row);
      MentionsEither(own, DeltaFieldTokens(ctx, base, target, mask, field + 1), row);
      if own == [] {
        MentionsNothing(row);
      } else {
        MentionsOne(own[0], row);
      }
    }
  }

  lemma AxisMentions(delta: WordDelta, axis: nat, row: Row)
    ensures Mentions(AxisTokens(delta, axis), row) <==>
            (row == OriginLow(axis) && delta.low != 0) || (row == OriginHigh(axis) && delta.high != 0)
  {
    hide Mentions;
    var low := if delta.low != 0 then [Token(OriginLow(axis), delta.low)] else [];
    var high := if delta.high != 0 then [Token(OriginHigh(axis), delta.high)] else [];
    MentionsEither(low, high, row);
    MentionsNothing(row);
    MentionsOne(Token(OriginLow(axis), delta.low), row);
    MentionsOne(Token(OriginHigh(axis), delta.high), row);
  }

  lemma {:induction false} OriginMentions(deltas: seq<WordDelta>, axis: nat, row: Row)
    requires |deltas| == 3 && axis <= 3
    ensures Mentions(OriginTokens(deltas, axis), row) <==>
            (row.OriginLow? && axis <= row.axis < 3 && deltas[row.axis].low != 0)
            || (row.OriginHigh? && axis <= row.axis < 3 && deltas[row.axis].high != 0)
    decreases 3 - axis
  {
    hide Mentions, AxisTokens;
    if axis == 3 {
      MentionsNothing(row);
    } else {
      AxisMentions(deltas[axis], axis, row);
      OriginMentions(deltas, axis + 1, row);
      MentionsEither(AxisTokens(deltas[axis], axis), OriginTokens(deltas, axis + 1), row);
    }
  }

  /** A coordinate is coded, by one byte or two. */
  predicate Moves(tokens: seq<Token>, axis: nat) {
    Mentions(tokens, OriginLow(axis)) || Mentions(tokens, OriginHigh(axis))
  }

  /** A difference has a byte exactly when there is one. */
  lemma DifferenceHasByte(current: u16, target: u16)
    ensures var delta := SplitWordDelta(target, current);
            delta.low != 0 || delta.high != 0 <==> target != current
  {
    if target != current {
      if SplitWordDelta(target, current) == WordDelta(0, 0) {
        NoDelta(current, target);
      }
    }
  }

  /** A new entity costs a payload exactly when it does not look like its baseline, and
      the payload codes exactly what differs from that. */
  lemma NewSendsDifferences(ctx: Context, target: Entity)
    requires Usable(ctx)
    ensures NewBody(ctx, target) == [] <==> ShowsBaseline(ctx, target)
    ensures forall i :: 0 <= i < 8 ==>
              (Mentions(NewBody(ctx, target), Field(i)) <==> target.fields[i] != ShownField(ctx, target.number, i))
    ensures forall axis :: 0 <= axis < 3 ==>
              (Moves(NewBody(ctx, target), axis) <==> target.origin[axis] != ShownAxis(ctx, target.number, axis))
  {
    hide Usable, Mentions, NewFieldTokens, OriginTokens, SplitWordDelta, ByteOf, OriginMaskOf;
    var base := Baseline(ctx, target.number);
    var mask, deltas := NewFieldMask(base, target), WordDeltas(base.origin, target.origin);
    NewBodyIsNeeded(ctx, target);
    forall i | 0 <= i < 8
      ensures Mentions(NewBody(ctx, target), Field(i)) <==> target.fields[i] != base.fields[i]
    {
      BodyMentions(ctx, target, Field(i));
    }
    forall axis | 0 <= axis < 3
      ensures Moves(NewBody(ctx, target), axis) <==> target.origin[axis] != base.origin[axis]
    {
      BodyMentions(ctx, target, OriginLow(axis));
      BodyMentions(ctx, target, OriginHigh(axis));
      DifferenceHasByte(base.origin[axis], target.origin[axis]);
    }
  }

  lemma NewBodyIsNeeded(ctx: Context, target: Entity)
    requires Usable(ctx)
    ensures NewBody(ctx, target) == [] <==> ShowsBaseline(ctx, target)
  {
    hide Usable, NewFieldTokens, OriginTokens, SplitWordDelta, ByteOf, OriginMaskOf, NewHighMask;
    var base := Baseline(ctx, target.number);
    NewCovers(base, target);
    if ShowsBaseline(ctx, target) {
      assert target.fields == base.fields && target.origin == base.origin;
      SameIsUnmasked(base, target);
    }
  }

  lemma SameIsUnmasked(base: Entity, target: Entity)
    requires target.fields == base.fields && target.origin == base.origin
    ensures ByteOf(NewHighMask(base, target)) == 0
  {
    hide ByteOf, SplitWordDelta;
    forall i | 0 <= i < 3
      ensures WordDeltas(base.origin, target.origin)[i] == WordDelta(0, 0)
    {
      NoDifference(base.origin[i]);
    }
    assert NewFieldMask(base, target) == NoFlags(8);
    assert NewHighMask(base, target) == NoFlags(8);
    EmptyMaskByte();
  }

  lemma NoDifference(word: u16)
    ensures SplitWordDelta(word, word) == WordDelta(0, 0)
  {
  }

  /** The rows of a payload, apart from its masks. */
  lemma BodyMentions(ctx: Context, target: Entity, row: Row)
    requires Usable(ctx) && row != OriginMask && row != FieldMask
    ensures var base := Baseline(ctx, target.number);
            var deltas := WordDeltas(base.origin, target.origin);
            Mentions(NewBody(ctx, target), row) <==>
            || (row.Field? && row.field < 8 && target.fields[row.field] != base.fields[row.field])
            || (row.OriginLow? && row.axis < 3 && deltas[row.axis].low != 0)
            || (row.OriginHigh? && row.axis < 3 && deltas[row.axis].high != 0)
  {
    hide Usable, Mentions, NewFieldTokens, OriginTokens, WordDeltas, ByteOf, OriginMaskOf, NewHighMask, Baseline;
    var base := Baseline(ctx, target.number);
    var mask, deltas, high := NewFieldMask(base, target), WordDeltas(base.origin, target.origin),
      ByteOf(NewHighMask(base, target));
    if high == 0 {
      MentionsNothing(row);
      UnmaskedHasNothing(base, target);
    } else {
      var fields, origins := NewFieldTokens(ctx, base, target, mask, 0), OriginTokens(deltas, 0);
      var low := if mask != NoFlags(8) then [Token(FieldMask, ByteOf(mask))] else [];
      MentionsOne(Token(OriginMask, high), row);
      MentionsOne(Token(FieldMask, ByteOf(mask)), row);
      MentionsNothing(row);
      MentionsEither([Token(OriginMask, high)], low + (fields + origins), row);
      MentionsEither(low, fields + origins, row);
      MentionsEither(fields, origins, row);
      NewFieldsMention(ctx, base, target, mask, 0, row);
      OriginMentions(deltas, 0, row);
    }
  }

  lemma UnmaskedHasNothing(base: Entity, target: Entity)
    requires ByteOf(NewHighMask(base, target)) == 0
    ensures target.fields == base.fields
    ensures forall i :: 0 <= i < 3 ==> WordDeltas(base.origin, target.origin)[i] == WordDelta(0, 0)
  {
    hide ByteOf, SplitWordDelta, NewHighMask;
    NewCovers(base, target);
    forall i | 0 <= i < 3
      ensures WordDeltas(base.origin, target.origin)[i] == WordDelta(0, 0)
    {
      NoDifference(base.origin[i]);
    }
  }

  /** A change codes exactly the plain fields that differ, and the angles and the
      coordinates that do not go on moving as they did last time. */
  lemma ChangeSendsDifferences(ctx: Context, base: Entity, target: Entity)
    requires Usable(ctx)
    ensures forall i :: 0 <= i < 5 ==>
              (Mentions(ChangeBody(ctx, base, target), Field(i)) <==> target.fields[i] != base.fields[i])
    ensures forall i :: 0 <= i < 3 ==>
              (Mentions(ChangeBody(ctx, base, target), Field(5 + i)) <==>
                 target.fields[5 + i] != Plus8(base.fields[5 + i], base.angleCarry[i]))
    ensures forall i :: 0 <= i < 3 ==>
              (Moves(ChangeBody(ctx, base, target), i) <==>
                 target.origin[i] != Plus16(base.origin[i], base.originCarry[i]))
  {
    hide Usable, Mentions, DeltaFieldTokens, OriginTokens, SplitWordDelta, ByteOf, OriginMaskOf, ChangeBody, Plus8,
         Plus16, Minus16, NewAngleCarry;
    forall i | 0 <= i < 8
      ensures Mentions(ChangeBody(ctx, base, target), Field(i)) <==> DeltaFieldMask(base, target)[i]
    {
      ChangeMentions(ctx, base, target, Field(i));
    }
    forall i | 0 <= i < 3
      ensures Moves(ChangeBody(ctx, base, target), i) <==>
              target.origin[i] != Plus16(base.origin[i], base.originCarry[i])
      ensures DeltaFieldMask(base, target)[5 + i] <==>
              target.fields[5 + i] != Plus8(base.fields[5 + i], base.angleCarry[i])
    {
      ChangeMentions(ctx, base, target, OriginLow(i));
      ChangeMentions(ctx, base, target, OriginHigh(i));
      DifferenceHasByte(base.originCarry[i], NewOriginCarries(base, target)[i]);
      GoesOn16(base.origin[i], target.origin[i], base.originCarry[i]);
      GoesOn8(base.fields[5 + i], target.fields[5 + i], base.angleCarry[i]);
      assert NewAngleCarry(base, target, i) == Minus8(target.fields[5 + i], base.fields[5 + i]) by {
        CarryOfAngle(base, target, i);
      }
    }
  }

  lemma CarryOfAngle(base: Entity, target: Entity, axis: nat)
    requires axis < 3
    ensures NewAngleCarry(base, target, axis) == Minus8(target.fields[5 + axis], base.fields[5 + axis])
  {
  }

  lemma GoesOn16(word: u16, target: u16, carry: u16)
    ensures Minus16(target, word) == carry <==> target == Plus16(word, carry)
  {
  }

  lemma GoesOn8(angle: u8, target: u8, carry: u8)
    ensures Minus8(target, angle) == carry <==> target == Plus8(angle, carry)
  {
  }

  lemma ChangeMentions(ctx: Context, base: Entity, target: Entity, row: Row)
    requires Usable(ctx) && row != OriginMask && row != FieldMask
    ensures var mask, deltas := DeltaFieldMask(base, target), CarryDeltas(base, target);
            Mentions(ChangeBody(ctx, base, target), row) <==>
            || (row.Field? && row.field < 8 && mask[row.field])
            || (row.OriginLow? && row.axis < 3 && deltas[row.axis].low != 0)
            || (row.OriginHigh? && row.axis < 3 && deltas[row.axis].high != 0)
  {
    hide Usable, Mentions, DeltaFieldTokens, OriginTokens, CarryDeltas, ByteOf, HighXor, DeltaFieldMask;
    var mask, deltas, highXor := DeltaFieldMask(base, target), CarryDeltas(base, target), HighXor(base, target);
    var fields, origins := DeltaFieldTokens(ctx, base, target, mask, 0), OriginTokens(deltas, 0);
    var lowXor := ByteOf(Xor(mask, base.fieldMask));
    var high := if highXor != 0 then [Token(OriginMask, highXor)] else [];
    var low := if mask != base.fieldMask then [Token(FieldMask, lowXor)] else [];
    MentionsOne(Token(OriginMask, highXor), row);
    MentionsOne(Token(FieldMask, lowXor), row);
    MentionsNothing(row);
    MentionsEither(high, low + (fields + origins), row);
    MentionsEither(low, fields + origins, row);
    MentionsEither(fields, origins, row);
    DeltaFieldsMention(ctx, base, target, mask, 0, row);
    OriginMentions(deltas, 0, row);
  }

  lemma {:induction false} ChunksAreNumbers(remaining: nat)
    ensures forall i :: 0 <= i < |Chunks(remaining)| ==> Chunks(remaining)[i].row == NumberExtension
  {
    if remaining >= 255 {
      ChunksAreNumbers(remaining - 255);
    }
  }

  /** Only the number is sent of an entity that looks like its baseline, and more than
      the number of any other. */
  predicate OnlyNumber(tokens: seq<Token>) {
    forall i :: 0 <= i < |tokens| ==> tokens[i].row == EntitySymbol || tokens[i].row == NumberExtension
  }

  lemma OnlyNumberBoth(a: seq<Token>, b: seq<Token>)
    ensures OnlyNumber(a + b) <==> OnlyNumber(a) && OnlyNumber(b)
  {
    if OnlyNumber(a + b) {
      assert forall i :: 0 <= i < |a| ==> a[i] == (a + b)[i];
      assert forall i :: 0 <= i < |b| ==> b[i] == (a + b)[|a| + i];
    }
  }

  lemma ChunksAreOnlyNumber(remaining: nat)
    ensures OnlyNumber(Chunks(remaining))
  {
    ChunksAreNumbers(remaining);
  }

  lemma BodyIsMore(ctx: Context, target: Entity)
    requires Usable(ctx)
    ensures OnlyNumber(NewBody(ctx, target)) <==> NewBody(ctx, target) == []
  {
    if NewBody(ctx, target) != [] {
      assert NewBody(ctx, target)[0].row == OriginMask;
    }
  }

  lemma BaselineIsFree(ctx: Context, target: Entity, st: Stream)
    requires Usable(ctx) && Encodable(st, NewEntity(target))
    ensures OnlyNumber(ActionTokens(ctx, NewEntity(target), st)) <==> ShowsBaseline(ctx, target)
  {
    hide ShowsBaseline, Usable, Chunks, ByteOf, NewHighMask, Baseline, OnlyNumber, NewBody;
    NewBodyIsNeeded(ctx, target);
    BodyIsMore(ctx, target);
    var difference := target.number - st.number;
    var chunks := if difference >= 64 then Chunks(difference - 64) else [];
    if difference >= 64 {
      ChunksAreOnlyNumber(difference - 64);
    }
    SymbolIsNumber(ActionTokens(ctx, NewEntity(target), st)[0]);
    OnlyNumberBoth(chunks, NewBody(ctx, target));
    OnlyNumberBoth([ActionTokens(ctx, NewEntity(target), st)[0]], chunks + NewBody(ctx, target));
    assert ActionTokens(ctx, NewEntity(target), st)
           == [ActionTokens(ctx, NewEntity(target), st)[0]] + (chunks + NewBody(ctx, target));
  }

  lemma SymbolIsNumber(token: Token)
    ensures OnlyNumber([]) && (token.row == EntitySymbol ==> OnlyNumber([token]))
  {
  }
}
