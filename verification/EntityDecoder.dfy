/** Replays an edit script from its tokens. */
module EntityDecoder {
  import opened Words
  import opened PackedWords
  import opened EntityDeltas
  import opened EntityActions
  import opened EntityScripts
  import opened EntityPayloads
  import opened EntityPlans

  /** The end of a round: to be continued, the end of the list, or an error. A
      decoder that asks for another row than the encoder used, or for more symbols
      than it wrote, is lost. */
  datatype RoundEnd = Continue | EndOfList | DuplicateEntity | DroppedPacket | EndOfStream | LostStep

  datatype Read<+T> = Got(value: T) | Failed(error: ReadError)

  class Decoder {
    const ctx: Context
    const base: seq<Entity>
    const cut: bool  // the bytes end before the symbol after the tokens
    var tokens: seq<Token>
    var baseIndex: nat
    var currentNumber: u16
    var entities: seq<Entity>

    predicate Valid()
      reads this
    {
      Usable(ctx) && baseIndex <= |base|
    }

    function State(): Stream
      reads this
    {
      Stream(baseIndex, currentNumber, entities)
    }

    constructor (ctx: Context, base: seq<Entity>, tokens: seq<Token>, cut: bool)
      requires Usable(ctx)
      ensures Valid() && this.ctx == ctx && this.base == base && this.tokens == tokens && this.cut == cut
      ensures State() == START
    {
      this.ctx, this.base, this.tokens, this.cut := ctx, base, tokens, cut;
      baseIndex, currentNumber, entities := 0, 32, [];
    }

    /** How a list ends when a symbol cannot be read. */
    function StopOf(error: ReadError): RoundEnd {
      if error.NothingLeft? && cut then EndOfStream else LostStep
    }

    /** Reads a symbol of the row; fails at the end, and when the next token has another row. */
    method Read(row: Row) returns (symbol: Read<u8>)
      modifies `tokens
      ensures symbol.Failed? ==> Take(old(tokens), row) == Stopped(symbol.error) && tokens == old(tokens)
      ensures symbol.Got? ==> Take(old(tokens), row) == Parsed(symbol.value, tokens)
    {
      if tokens == [] {
        return Failed(NothingLeft);
      }
      if tokens[0].row != row {
        return Failed(OtherRow);
      }
      symbol := Got(tokens[0].symbol);
      tokens := tokens[1..];
    }

    method DecodeNewFields(record: Entity, mask: Mask) returns (r: Read<Entity>)
      requires Usable(ctx)
      modifies `tokens
      ensures r.Failed? ==> ParseNewFields(ctx, old(tokens), record, mask, 0) == Stopped(r.error)
      ensures r.Got? ==> ParseNewFields(ctx, old(tokens), record, mask, 0) == Parsed(r.value, tokens)
    {
      hide Usable, PatchedField;
      var e: Entity := record;
      for field := 0 to 8
        invariant ParseNewFields(ctx, old(tokens), record, mask, 0) == ParseNewFields(ctx, tokens, e, mask, field)
      {
        if mask[field] {
          var symbol := Read(Field(field));
          if symbol.Failed? {
            return Failed(symbol.error);
          }
          e := e.(fields := e.fields[field := PatchedField(ctx, field, e.fields[field], symbol.value)]);
        }
      }
      r := Got(e);
    }

    method DecodeDeltaFields(record: Entity, mask: Mask) returns (r: Read<Entity>)
      requires Usable(ctx)
      modifies `tokens
      ensures r.Failed? ==> ParseDeltaFields(ctx, old(tokens), record, mask, 0) == Stopped(r.error)
      ensures r.Got? ==> ParseDeltaFields(ctx, old(tokens), record, mask, 0) == Parsed(r.value, tokens)
    {
      hide Usable, PatchedField, Turned;
      var e: Entity := record;
      for field := 0 to 8
        invariant ParseDeltaFields(ctx, old(tokens), record, mask, 0) == ParseDeltaFields(ctx, tokens, e, mask, field)
      {
        var value: u8 := 0;
        if mask[field] {
          var symbol := Read(Field(field));
          if symbol.Failed? {
            return Failed(symbol.error);
          }
          value := symbol.value;
        }
        if field >= 5 {
          e := Turned(e, field - 5, value);
        } else if mask[field] {
          e := e.(fields := e.fields[field := PatchedField(ctx, field, e.fields[field], value)]);
        }
      }
      r := Got(e);
    }

    method DecodeMaskedByte(present: bool, row: Row) returns (r: Read<u8>)
      modifies `tokens
      ensures r.Failed? ==> TakeIf(old(tokens), present, row) == Stopped(r.error)
      ensures r.Got? ==> TakeIf(old(tokens), present, row) == Parsed(r.value, tokens)
    {
      if !present {
        return Got(0);
      }
      r := Read(row);
    }

    method DecodeOrigin(words: seq<u16>, mask: Flags) returns (r: Read<seq<u16>>)
      requires |words| == 3 && |mask| == 6
      modifies `tokens
      ensures r.Failed? ==> ParseOrigin(old(tokens), words, mask, 0) == Stopped(r.error)
      ensures r.Got? ==> ParseOrigin(old(tokens), words, mask, 0) == Parsed(r.value, tokens)
    {
      hide AddDelta, TakeIf;
      var result: seq<u16> := words;
      for axis := 0 to 3
        invariant |result| == 3
        invariant ParseOrigin(old(tokens), words, mask, 0) == ParseOrigin(tokens, result, mask, axis)
      {
        var low := DecodeMaskedByte(mask[2 * axis], OriginLow(axis));
        if low.Failed? {
          return Failed(low.error);
        }
        var high := DecodeMaskedByte(mask[2 * axis + 1], OriginHigh(axis));
        if high.Failed? {
          return Failed(high.error);
        }
        result := result[axis := AddDelta(result[axis], low.value, high.value)];
      }
      r := Got(result);
    }

    method DecodeNumber(difference: u8) returns (r: Read<u16>)
      modifies `tokens, `currentNumber
      ensures r.Failed? ==> ParseNumber(old(tokens), old(currentNumber), difference) == Stopped(r.error)
      ensures r.Got? ==> ParseNumber(old(tokens), old(currentNumber), difference) == Parsed(currentNumber, tokens)
    {
      if difference != 0 {
        currentNumber := Plus16(currentNumber, difference);
        return Got(currentNumber);
      }
      currentNumber := Plus16(currentNumber, 64);
      ghost var all, from := tokens, currentNumber;
      while true
        invariant ParseChunks(all, from) == ParseChunks(tokens, currentNumber)
        decreases |tokens|
      {
        var value := Read(NumberExtension);
        if value.Failed? {
          return Failed(value.error);
        }
        currentNumber := Plus16(currentNumber, value.value);
        if value.value != 255 {
          return Got(currentNumber);
        }
      }
    }

    /** Copies the base entities below the current number. */
    method CopyBelow()
      requires Valid()
      modifies `baseIndex, `entities
      ensures Valid() && baseIndex == SkipBelow(base, old(baseIndex), currentNumber)
      ensures entities == old(entities) + base[old(baseIndex)..baseIndex]
    {
      while baseIndex < |base| && base[baseIndex].number < currentNumber
        invariant old(baseIndex) <= baseIndex <= |base|
        invariant SkipBelow(base, baseIndex, currentNumber) == SkipBelow(base, old(baseIndex), currentNumber)
        invariant entities == old(entities) + base[old(baseIndex)..baseIndex]
      {
        assert base[old(baseIndex)..baseIndex + 1] == base[old(baseIndex)..baseIndex] + [base[baseIndex]];
        entities := entities + [base[baseIndex]];
        baseIndex := baseIndex + 1;
      }
    }

    method DecodeNewRecord(payload: bool) returns (r: Read<Entity>)
      requires Usable(ctx)
      modifies `tokens
      ensures r.Failed? ==> ParseNew(ctx, old(tokens), currentNumber, payload) == Stopped(r.error)
      ensures r.Got? ==> ParseNew(ctx, old(tokens), currentNumber, payload) == Parsed(r.value, tokens)
      ensures r.Got? ==> IsNewRecord(r.value, payload)
    {
      hide Usable, Baseline, MaskOf, ParseNewFields, ParseOrigin, Fresh, WithoutHistory, ShowsBaseline;
      var record := Fresh(Baseline(ctx, currentNumber).(number := currentNumber));
      if !payload {
        NewShowsBaseline(ctx, tokens, currentNumber);
        return Got(record);
      }
      var high := Read(OriginMask);
      if high.Failed? {
        return Failed(high.error);
      }
      var mask := DecodeMaskedByte(MaskOf(high.value)[6], FieldMask);
      if mask.Failed? {
        return Failed(mask.error);
      }
      var patched := DecodeNewFields(record, MaskOf(mask.value));
      if patched.Failed? {
        return Failed(patched.error);
      }
      var origin := DecodeOrigin(patched.value.origin, MaskOf(high.value)[..6]);
      if origin.Failed? {
        return Failed(origin.error);
      }
      r := Got(patched.value.(origin := origin.value));
      NewKeepsBaseline(ctx, old(tokens), currentNumber);
    }

    /** A round of the specification ends in the same way. */
    ghost predicate Ends(p: Reading<Round>, end: RoundEnd)
      reads this
    {
      match end
      case Continue => p == Parsed(More(State()), tokens)
      case EndOfList => p == Parsed(Finished, tokens)
      case DuplicateEntity => p == Parsed(Duplicate(currentNumber), tokens)
      case DroppedPacket => p == Parsed(Dropped, tokens)
      case EndOfStream => p == Stopped(NothingLeft) && cut
      case LostStep => p.Stopped? && !(p.error.NothingLeft? && cut)
    }

    /** Numbered as the list says and without history; without a payload it shows its
        baseline. */
    predicate IsNewRecord(e: Entity, payload: bool)
      reads this
    {
      e.number == currentNumber && WithoutHistory(e) && (!payload ==> ShowsBaseline(ctx, e))
    }

    method DecodeNewEntity(symbol: u8) returns (end: RoundEnd)
      requires Valid()
      modifies `tokens, `baseIndex, `currentNumber, `entities
      ensures Valid() && Ends(ParseNewRound(ctx, base, old(State()), symbol, old(tokens)), end)
      ensures end != EndOfList
      ensures end == Continue ==> entities != [] && IsNewRecord(entities[|entities| - 1], symbol / 64 % 2 == 1)
      ensures end == Continue ==> baseIndex == |base| || base[baseIndex].number > currentNumber
      ensures end == DuplicateEntity ==> baseIndex < |base| && base[baseIndex].number == currentNumber
    {
      hide Usable, ParseNumber, ParseNew, SkipBelow, WithoutHistory, ShowsBaseline;
      var number := DecodeNumber(symbol % 64);
      if number.Failed? {
        return StopOf(number.error);
      }
      CopyBelow();
      if baseIndex < |base| && base[baseIndex].number == currentNumber {
        return DuplicateEntity;
      }
      var record := DecodeNewRecord(symbol / 64 % 2 == 1);
      if record.Failed? {
        return StopOf(record.error);
      }
      entities := entities + [record.value];
      end := Continue;
    }

    method DecodeRunLength(symbol: u8) returns (run: Read<nat>)
      requires 0 < symbol < 128
      modifies `tokens
      ensures run.Failed? ==> ParseRun(old(tokens), symbol) == Stopped(run.error)
      ensures run.Got? ==> ParseRun(old(tokens), symbol) == Parsed(run.value, tokens)
    {
      if symbol < 64 {
        return Got(symbol);
      }
      if symbol % 32 != 0 {
        return Got(symbol % 32);
      }
      var value := Read(EntitySymbol);
      if value.Failed? {
        return Failed(value.error);
      }
      var extended: nat := 32 + value.value as int;
      run := Got(extended);
    }

    method DecodeChange(record: Entity, highFollows: bool) returns (r: Read<Entity>)
      requires Usable(ctx)
      modifies `tokens
      ensures r.Failed? ==> ParseChange(ctx, old(tokens), record, highFollows) == Stopped(r.error)
      ensures r.Got? ==> ParseChange(ctx, old(tokens), record, highFollows) == Parsed(r.value, tokens)
    {
      hide Usable, MaskOf, TakeIf, ParseDeltaFields, ParseOrigin, Moved, Xor;
      var highXor := DecodeMaskedByte(highFollows, OriginMask);
      if highXor.Failed? {
        return Failed(highXor.error);
      }
      var high := Xor(HighMask(record.originMask, false), MaskOf(highXor.value));
      var lowXor := DecodeMaskedByte(high[6], FieldMask);
      if lowXor.Failed? {
        return Failed(lowXor.error);
      }
      var mask := Xor(record.fieldMask, MaskOf(lowXor.value));
      var patched := DecodeDeltaFields(record, mask);
      if patched.Failed? {
        return Failed(patched.error);
      }
      var carries := DecodeOrigin(patched.value.originCarry, high[..6]);
      if carries.Failed? {
        return Failed(carries.error);
      }
      r := Got(Moved(patched.value, carries.value).(fieldMask := mask, originMask := high[..6]));
    }

    /** Copies all but the last entity of a run. */
    method CopyRun(run: nat) returns (ok: bool)
      requires Valid() && run >= 1
      modifies `baseIndex, `entities
      ensures Valid() && (ok <==> run <= |base| - old(baseIndex))
      ensures ok ==> baseIndex == old(baseIndex) + run - 1
                     && entities == old(entities) + base[old(baseIndex)..baseIndex]
    {
      var left := run;
      while left > 1
        invariant Valid() && 1 <= left <= run && baseIndex == old(baseIndex) + run - left
        invariant entities == old(entities) + base[old(baseIndex)..baseIndex]
      {
        if baseIndex >= |base| {
          return false;
        }
        entities := entities + [base[baseIndex]];
        baseIndex := baseIndex + 1;
        left := left - 1;
      }
      ok := baseIndex < |base|;
    }

    method DecodeBaseEntity(symbol: u8) returns (end: RoundEnd)
      requires Valid() && 0 < symbol < 128
      modifies `tokens, `baseIndex, `currentNumber, `entities
      ensures Valid() && Ends(ParseBaseRound(ctx, base, old(State()), symbol, old(tokens)), end)
      ensures end != EndOfList
    {
      hide Usable, ParseRun, ParseChange, MaskFollows;
      var run := DecodeRunLength(symbol);
      if run.Failed? {
        return StopOf(run.error);
      }
      var ok := CopyRun(run.value);
      if !ok {
        return DroppedPacket;
      }
      currentNumber := base[baseIndex].number;
      if symbol < 64 {
        baseIndex := baseIndex + 1;
        return Continue;
      }
      var record := base[baseIndex];
      baseIndex := baseIndex + 1;
      var changed := DecodeChange(record, MaskFollows(symbol));
      if changed.Failed? {
        return StopOf(changed.error);
      }
      entities := entities + [changed.value];
      end := Continue;
    }

    method AppendRemainingBase()
      requires Valid()
      modifies `baseIndex, `entities
      ensures entities == Outcome(base, old(State()))
    {
      while baseIndex < |base|
        invariant old(baseIndex) <= baseIndex <= |base|
        invariant entities == old(entities) + base[old(baseIndex)..baseIndex]
      {
        entities := entities + [base[baseIndex]];
        baseIndex := baseIndex + 1;
      }
    }

    /** Decodes a whole list; the result names the way in which it ended. */
    method Decode() returns (end: RoundEnd)
      requires Valid()
      modifies this
      ensures end != Continue
      ensures end == EndOfList ==> ParseScript(ctx, base, old(State()), old(tokens)) == Parsed(Some(entities), tokens)
      ensures end == DuplicateEntity || end == DroppedPacket ==>
                ParseScript(ctx, base, old(State()), old(tokens)) == Parsed(None, tokens)
      ensures end == EndOfStream ==> ParseScript(ctx, base, old(State()), old(tokens)) == Stopped(NothingLeft) && cut
      ensures end == LostStep ==>
                var p := ParseScript(ctx, base, old(State()), old(tokens));
                p.Stopped? && !(p.error.NothingLeft? && cut)
    {
      hide Usable, ParseNewRound, ParseBaseRound, Outcome;
      while true
        invariant Valid()
        invariant ParseScript(ctx, base, old(State()), old(tokens)) == ParseScript(ctx, base, State(), tokens)
        decreases |tokens|
      {
        ghost var round := ParseRound(ctx, base, State(), tokens);
        var symbol := Read(EntitySymbol);
        if symbol.Failed? {
          return StopOf(symbol.error);
        }
        if symbol.value == 0 {
          AppendRemainingBase();
          return EndOfList;
        }
        if symbol.value >= 128 {
          end := DecodeNewEntity(symbol.value);
        } else {
          end := DecodeBaseEntity(symbol.value);
        }
        assert Ends(round, end);
        if end != Continue {
          return;
        }
      }
    }
  }
}
