/** What a command costs on the client link: which bits and rows stand for what, and
    what a packet is predicted from. */
module ClientCosts {
  import opened Words
  import opened PackedWords
  import opened LinkStreams
  import opened ClientMoves
  import opened ClientOperations
  import opened ClientPackets
  import opened ClientStrings
  import H = HuffmanRoundTrip

  /** One of the two bits of a word is set. */
  predicate WordSent(mask: WordMask, word: nat)
    requires word < 6
  {
    mask[2 * word] || mask[2 * word + 1]
  }

  lemma WordSentExactly(d: CommandDelta, word: nat)
    requires word < 6
    ensures WordSent(MaskOfDelta(d), word) <==> d.words[word] != 0
  {
    var bit := 2 * word;
    assert bit / 2 == word && (bit + 1) / 2 == word && bit % 2 == 0 && (bit + 1) % 2 == 1;
    var w := d.words[word];
    assert MaskOfDelta(d)[bit] == (w % 0x100 != 0) && MaskOfDelta(d)[bit + 1] == NeedsHigh(w);
    if w % 0x100 == 0 {
      assert Signed(0) == 0;
    }
  }

  lemma NoMinus(a: u16, b: u16)
    ensures Minus16(a, b) == 0 <==> a == b
  {
  }

  lemma NoMinus8(a: u8, b: u8)
    ensures Minus8(a, b) == 0 <==> a == b
  {
  }

  lemma NoXor(a: u8, b: u8)
    ensures XorByte(a, b) == 0 <==> a == b
  {
    hide MaskOf;
    XorIsZero(MaskOf(a), MaskOf(b));
    if MaskOf(a) == MaskOf(b) {
      ByteOfMask(a);
      ByteOfMask(b);
    }
  }

  /** The bits of a mask name exactly what differs from the command that is expected,
      yaw before pitch and roll, then the three moves. */
  lemma MaskNamesDifferences(p: MovePredictor, c: ClientCommand)
    ensures var mask, expected := MaskOfDelta(PlannedDelta(p, c)), Expected(p);
            && (WordSent(mask, 0) <==> c.angles[1] != expected.angles[1])
            && (WordSent(mask, 1) <==> c.angles[0] != expected.angles[0])
            && (WordSent(mask, 2) <==> c.angles[2] != expected.angles[2])
            && (forall i :: 0 <= i < 3 ==> (WordSent(mask, 3 + i) <==> c.moves[i] != expected.moves[i]))
            && (mask[12] <==> c.buttons != expected.buttons)
            && (mask[13] <==> c.msec != expected.msec)
            && (mask[14] <==> c.impulse != 0) && !mask[15]
  {
    var d := PlannedDelta(p, c);
    NoXor(c.buttons, p.buttons);
    NoMinus8(c.msec, p.msec);
    assert d.words[0] == Minus16(c.angles[1], Expected(p).angles[1]);
    assert d.words[1] == Minus16(c.angles[0], Expected(p).angles[0]);
    assert d.words[2] == Minus16(c.angles[2], Expected(p).angles[2]);
    assert forall i :: 0 <= i < 3 ==> d.words[3 + i] == Minus16(c.moves[i], p.moves[i]);
    assert d.buttons == XorByte(c.buttons, p.buttons) && d.msec == Minus8(c.msec, p.msec) && d.impulse == c.impulse;
    var mask := MaskOfDelta(d);
    assert mask[12] == (d.buttons != 0) && mask[13] == (d.msec != 0) && mask[14] == (d.impulse != 0) && !mask[15];
    hide XorByte, Minus8, Minus16, Plus16, PlannedDelta, MaskOfDelta, WordSent;
    forall w | 0 <= w < 6
      ensures WordSent(mask, w) <==> d.words[w] != 0
    {
      WordSentExactly(d, w);
    }
    NoMinus(c.angles[1], Expected(p).angles[1]);
    NoMinus(c.angles[0], Expected(p).angles[0]);
    NoMinus(c.angles[2], Expected(p).angles[2]);
    forall i | 0 <= i < 3
      ensures d.words[3 + i] != 0 <==> c.moves[i] != p.moves[i]
    {
      NoMinus(c.moves[i], p.moves[i]);
    }
  }

  /** Only the turns and the duration are expected to be sent again. */
  predicate Habitual(mask: WordMask) {
    forall i :: 0 <= i < 16 && mask[i] ==> i < 6 || i == 13
  }

  /** Repeating a mask is free exactly when it holds nothing else. */
  lemma HabitIsFree(mask: WordMask)
    ensures Xor(mask, Remembered(mask)) == NoFlags(16) <==> Habitual(mask)
  {
    var xor := Xor(mask, Remembered(mask));
    if Habitual(mask) {
      forall i | 0 <= i < 16
        ensures !xor[i]
      {
      }
      assert xor == NoFlags(16);
    }
    if xor == NoFlags(16) {
      forall i | 0 <= i < 16 && mask[i]
        ensures i < 6 || i == 13
      {
        assert !xor[i];
      }
    }
  }

  /** A mask is refused exactly when its last bit is set. */
  lemma InvalidMaskIsRefused(low: u8, high: u8, previous: WordMask, rest: Items)
    ensures var items := [H.Coded(MASK_LOW, low), H.Coded(MASK_HIGH, high)] + rest;
            var mask: WordMask := Xor(MaskOf(low) + MaskOf(high), previous);
            ParseMask(items, previous) == (if mask[15] then Bad else Parsed(mask, rest))
  {
    hide MaskOf, Xor;
    TwoSymbols(H.Coded(MASK_LOW, low), H.Coded(MASK_HIGH, high), rest);
  }

  /** Every byte of every word has a row of its own, apart from all other rows. */
  lemma RowsAreDistinct(word: nat, other: nat)
    requires word < 6 && other < 6
    ensures IMPULSE < LowModel(word) < MODELS && IMPULSE < HighModel(word) < MODELS
    ensures LowModel(word) != HighModel(other)
    ensures LowModel(word) == LowModel(other) || HighModel(word) == HighModel(other) ==> word == other
  {
  }

  /** A symbol of this row is sent. */
  predicate Codes(items: Items, model: nat) {
    exists i :: 0 <= i < |items| && items[i].Coded? && items[i].model == model
  }

  lemma CodesEither(a: Items, b: Items, model: nat)
    ensures Codes(a + b, model) <==> Codes(a, model) || Codes(b, model)
  {
    if Codes(a, model) {
      var i :| 0 <= i < |a| && a[i].Coded? && a[i].model == model;
      assert (a + b)[i] == a[i];
    }
    if Codes(b, model) {
      var i :| 0 <= i < |b| && b[i].Coded? && b[i].model == model;
      assert (a + b)[|a| + i] == b[i];
    }
  }

  lemma CodesOptional(present: bool, own: nat, symbol: u8, model: nat)
    ensures Codes(Optional(present, own, symbol), model) <==> present && own == model
  {
    if present {
      assert Optional(present, own, symbol)[0].model == own;
    }
  }

  lemma {:induction false} CodesWords(d: CommandDelta, word: nat, model: nat)
    requires word <= 6
    ensures Codes(AllWordItems(d, word), model) <==>
            exists w :: word <= w < 6 && ((MaskOfDelta(d)[2 * w] && model == LowModel(w))
                                          || (MaskOfDelta(d)[2 * w + 1] && model == HighModel(w)))
    decreases 6 - word
  {
    hide Codes, MaskOfDelta, Optional, LowModel, HighModel;
    if word == 6 {
      CodesOptional(false, 0, 0, model);
      assert Optional(false, 0, 0) == [] by {
        NothingOptional();
      }
    } else {
      var mask, split := MaskOfDelta(d), SplitDelta16(d.words[word]);
      hide SplitDelta16;
      CodesOptional(mask[2 * word], LowModel(word), split.low, model);
      CodesOptional(mask[2 * word + 1], HighModel(word), split.high, model);
      CodesEither(Optional(mask[2 * word], LowModel(word), split.low),
                  Optional(mask[2 * word + 1], HighModel(word), split.high), model);
      CodesEither(WordItems(d, word), AllWordItems(d, word + 1), model);
      CodesWords(d, word + 1, model);
    }
  }

  lemma NothingOptional()
    ensures Optional(false, 0, 0) == []
  {
  }

  /** After the two symbols of the mask there is one symbol for each bit that is set, in
      the row of this bit, and nothing else. */
  lemma ItemsFollowMask(d: CommandDelta, previous: WordMask)
    ensures var mask, items := MaskOfDelta(d), DeltaItems(d, previous);
            && |items| >= 2
            && items[0] == H.Coded(MASK_LOW, ByteOf(Xor(mask, previous)[..8]))
            && items[1] == H.Coded(MASK_HIGH, ByteOf(Xor(mask, previous)[8..]))
            && (forall w :: 0 <= w < 6 ==> (Codes(items[2..], LowModel(w)) <==> mask[2 * w]))
            && (forall w :: 0 <= w < 6 ==> (Codes(items[2..], HighModel(w)) <==> mask[2 * w + 1]))
            && (Codes(items[2..], BUTTONS) <==> mask[12])
            && (Codes(items[2..], MSEC) <==> mask[13])
            && (Codes(items[2..], IMPULSE) <==> mask[14])
  {
    var mask, items := MaskOfDelta(d), DeltaItems(d, previous);
    assert mask[12] == (d.buttons != 0) && mask[13] == (d.msec != 0) && mask[14] == (d.impulse != 0);
    assert items[2..] == AllWordItems(d, 0) + TailItems(d);
    hide Codes, MaskOfDelta, AllWordItems, Xor, ByteOf;
    CodesTail(d, BUTTONS);
    CodesTail(d, MSEC);
    CodesTail(d, IMPULSE);
    forall w | 0 <= w < 6
      ensures Codes(items[2..], LowModel(w)) <==> mask[2 * w]
      ensures Codes(items[2..], HighModel(w)) <==> mask[2 * w + 1]
    {
      CodesTail(d, LowModel(w));
      CodesTail(d, HighModel(w));
      RowsOf(d, w);
    }
    NoWordRow(d, BUTTONS);
    NoWordRow(d, MSEC);
    NoWordRow(d, IMPULSE);
  }

  lemma CodesTail(d: CommandDelta, model: nat)
    ensures Codes(AllWordItems(d, 0) + TailItems(d), model) <==>
            || Codes(AllWordItems(d, 0), model)
            || (d.buttons != 0 && model == BUTTONS) || (d.msec != 0 && model == MSEC)
            || (d.impulse != 0 && model == IMPULSE)
  {
    hide Codes, AllWordItems, Optional;
    var buttons, msec, impulse := Optional(d.buttons != 0, BUTTONS, d.buttons), Optional(d.msec != 0, MSEC, d.msec),
      Optional(d.impulse != 0, IMPULSE, d.impulse);
    CodesEither(AllWordItems(d, 0), TailItems(d), model);
    CodesEither(buttons, msec + impulse, model);
    CodesEither(msec, impulse, model);
    CodesOptional(d.buttons != 0, BUTTONS, d.buttons, model);
    CodesOptional(d.msec != 0, MSEC, d.msec, model);
    CodesOptional(d.impulse != 0, IMPULSE, d.impulse, model);
  }

  lemma RowsOf(d: CommandDelta, w: nat)
    requires w < 6
    ensures Codes(AllWordItems(d, 0), LowModel(w)) <==> MaskOfDelta(d)[2 * w]
    ensures Codes(AllWordItems(d, 0), HighModel(w)) <==> MaskOfDelta(d)[2 * w + 1]
  {
    hide Codes, MaskOfDelta, AllWordItems;
    CodesWords(d, 0, LowModel(w));
    CodesWords(d, 0, HighModel(w));
    forall v: nat | v < 6
      ensures LowModel(w) == LowModel(v) || HighModel(w) == HighModel(v) ==> v == w
      ensures LowModel(w) != HighModel(v) && HighModel(w) != LowModel(v)
    {
    }
  }

  lemma NoWordRow(d: CommandDelta, model: nat)
    requires model < WORDS
    ensures !Codes(AllWordItems(d, 0), model)
  {
    hide Codes, MaskOfDelta, AllWordItems;
    CodesWords(d, 0, model);
  }

  lemma {:induction false} UploadItem(data: seq<u8>, previous: u8, k: nat)
    requires k < |data|
    ensures |UploadItems(data, previous)| == |data|
    ensures UploadItems(data, previous)[k]
            == H.Coded(UPLOAD_DELTA, Minus8(data[k], if k == 0 then previous else data[k - 1]))
    decreases |data|
  {
    hide Minus8;
    if |data| > 1 {
      UploadItem(data[1..], data[0], if k == 0 then 0 else k - 1);
    } else {
      assert UploadItems(data[1..], data[0]) == [];
    }
  }

  /** Item by item: uploads are their header and the differences of neighbouring bytes,
      voices are coded bytes without tokens, and all other payloads are plain bytes. */
  lemma PayloadItem(s: Setting, op: Operation, k: nat)
    requires s.dictionary.WellFormed() && WellFormed(op) && Compressed(op.opcode)
    requires op.opcode != CLC_MOVE && op.opcode != CLC_STRING && k < |op.payload|
    ensures BodyItems(s, op).Some? && |BodyItems(s, op).value| == |op.payload|
    ensures BodyItems(s, op).value[k]
            == (if op.opcode == CLC_UPLOAD && k >= 3 then
                  H.Coded(UPLOAD_DELTA, Minus8(op.payload[k], if k == 3 then 0 else op.payload[k - 1]))
                else if op.opcode == CLC_VOICE_START || op.opcode == CLC_VOICE_STOP then
                  H.Coded(STRING_BYTE, op.payload[k])
                else H.Literal(op.payload[k]))
  {
    hide Minus8, UploadItems;
    if op.opcode == CLC_UPLOAD {
      assert |op.payload| >= 3;
      var data := op.payload[3..];
      if data != [] {
        UploadItem(data, 0, if k >= 3 then k - 3 else 0);
      } else {
        NoUpload();
      }
    }
  }

  lemma NoUpload()
    ensures UploadItems([], 0) == []
  {
  }

  /** A move is predicted from the command that its packet refers to, moved on as
      expected to the one just before the first that is sent. */
  lemma StartIsCoasted(basis: (Entry, Entry), sequence: u32, delta: u8)
    requires 1 <= delta && sequence < 0x8000_0000
    ensures First(delta) < 3
    ensures var referred, firstSent := Before(sequence, delta), CommandSequence(sequence, First(delta));
            StartOf(basis, delta)
            == Coasted(NewPredictor(basis.0.command, basis.1.command, 0), (firstSent - referred - 1) % 0x8000_0000)
  {
    hide NewPredictor, Coasted;
    SkippingIsCoasting(basis.0.command, basis.1.command, delta - TransmittedCount(delta));
    StepsBetween(sequence, delta, 2 - First(delta));
  }

  lemma StepsBetween(sequence: u32, delta: nat, back: nat)
    requires back < delta < 0x100
    ensures ((sequence - back) % 0x8000_0000 - (sequence - delta) % 0x8000_0000 - 1) % 0x8000_0000 == delta - back - 1
  {
  }
}
