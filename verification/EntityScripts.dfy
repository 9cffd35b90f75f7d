/** Edit scripts between two lists of packet entities: what the actions do to the
    decoder's list, and how they are told apart in the token stream. */
module EntityScripts {
  import opened Words
  import opened PackedWords
  import opened EntityDeltas
  import opened EntityActions

  /** How far the decoder is in the base list, the running entity number, and the
      entities so far. */
  datatype Stream = Stream(baseIndex: nat, number: u16, entities: seq<Entity>)

  const START := Stream(0, 32, [])

  /** Strictly increasing entity numbers. */
  predicate Ordered(entities: seq<Entity>) {
    forall i, j :: 0 <= i < j < |entities| ==> entities[i].number < entities[j].number
  }

  /** The first entity from `i` on whose number is not below `number`. */
  function SkipBelow(base: seq<Entity>, i: nat, number: u16): (j: nat)
    requires i <= |base|
    ensures i <= j <= |base|
    ensures forall k :: i <= k < j ==> base[k].number < number
    ensures j < |base| ==> number <= base[j].number
    decreases |base| - i
  {
    if i < |base| && base[i].number < number then SkipBelow(base, i + 1, number) else i
  }

  /** The action fits the decoder's position in the base list. */
  predicate Fits(base: seq<Entity>, st: Stream, a: Action) {
    && st.baseIndex <= |base|
    && match a
       case NewEntity(target) =>
         forall i :: st.baseIndex <= i < |base| ==> base[i].number != target.number
       case RemoveEntity(run, e) =>
         1 <= run <= |base| - st.baseIndex && base[st.baseIndex + run - 1] == e
       case ChangeEntity(run, e, target) =>
         && 1 <= run <= |base| - st.baseIndex && base[st.baseIndex + run - 1] == e
         && e.number == target.number
  }

  /** The encoder accepts the action: a new entity comes after the running number,
      and the run of a change fits its two symbols. */
  predicate Encodable(st: Stream, a: Action) {
    match a
    case NewEntity(target) => st.number < target.number
    case RemoveEntity(_, _) => true
    case ChangeEntity(run, _, _) => run <= MAX_CHANGE_RUN
  }

  /** What an action means: copy the entities before it, then add, drop or replace
      one. */
  function Act(base: seq<Entity>, st: Stream, a: Action): (next: Stream)
    requires Fits(base, st, a)
    ensures next.baseIndex <= |base|
  {
    match a
    case NewEntity(target) =>
      var at := SkipBelow(base, st.baseIndex, target.number);
      Stream(at, target.number, st.entities + base[st.baseIndex..at] + [Fresh(target)])
    case RemoveEntity(run, e) =>
      var at := st.baseIndex + run - 1;
      Stream(at + 1, e.number, st.entities + base[st.baseIndex..at])
    case ChangeEntity(run, e, target) =>
      var at := st.baseIndex + run - 1;
      Stream(at + 1, e.number, st.entities + base[st.baseIndex..at] + [Changed(e, target)])
  }

  /** Difference of entity numbers, in chunks of 255 beyond 64. */
  function Chunks(remaining: nat): seq<Token> {
    if remaining >= 255 then [Token(NumberExtension, 255)] + Chunks(remaining - 255)
    else [Token(NumberExtension, remaining)]
  }

  /** First symbol of a change: a short run, and whether a mask byte follows. */
  function ChangeSymbol(run: nat, maskFollows: bool): u8 {
    64 + (if run < 32 then run else 0) + (if maskFollows then 32 else 0)
  }

  predicate MaskFollows(symbol: u8) {
    symbol / 32 % 2 == 1
  }

  lemma ChangeSymbolParts(run: nat, maskFollows: bool)
    ensures var symbol := ChangeSymbol(run, maskFollows);
            64 <= symbol < 128 && MaskFollows(symbol) == maskFollows
  {
  }

  function RunTokens(run: nat): seq<Token>
    requires run <= MAX_CHANGE_RUN
  {
    if run >= 32 then [Token(EntitySymbol, run - 32)] else []
  }

  function ActionTokens(ctx: Context, a: Action, st: Stream): seq<Token>
    requires Usable(ctx) && Encodable(st, a)
  {
    match a
    case NewEntity(target) =>
      var difference := target.number - st.number;
      var payload := ByteOf(NewHighMask(Baseline(ctx, target.number), target)) != 0;
      [Token(EntitySymbol, 128 + (if payload then 64 else 0) + (if difference < 64 then difference else 0))]
      + ((if difference >= 64 then Chunks(difference - 64) else [])
      + NewBody(ctx, target))
    case RemoveEntity(run, _) =>
      [Token(EntitySymbol, run % 0x100)]  // cut to a byte, unchecked
    case ChangeEntity(run, e, target) =>
      [Token(EntitySymbol, ChangeSymbol(run, HighXor(e, target) != 0))] + (RunTokens(run) + ChangeBody(ctx, e, target))
  }

  /** One round of the decoder's loop. */
  datatype Round = More(next: Stream) | Finished | Duplicate(number: u16) | Dropped

  predicate Sound(base: seq<Entity>, round: Round) {
    round.More? ==> round.next.baseIndex <= |base|
  }

  function ParseChunks(tokens: seq<Token>, number: u16): (p: Reading<u16>)
    ensures p.Parsed? ==> |p.rest| < |tokens|
    decreases |tokens|
  {
    match Take(tokens, NumberExtension)
    case Stopped(error) => Stopped(error)
    case Parsed(value, rest) =>
      if value == 255 then ParseChunks(rest, Plus16(number, 255)) else Parsed(Plus16(number, value), rest)
  }

  function ParseNumber(tokens: seq<Token>, number: u16, difference: u8): (p: Reading<u16>)
    ensures p.Parsed? ==> |p.rest| <= |tokens|
  {
    if difference != 0 then Parsed(Plus16(number, difference), tokens)
    else ParseChunks(tokens, Plus16(number, 64))
  }

  function ParseRun(tokens: seq<Token>, symbol: u8): (p: Reading<nat>)
    requires 0 < symbol < 128
    ensures p.Parsed? ==> p.value >= 1 && |p.rest| <= |tokens|
  {
    if symbol < 64 then Parsed(symbol, tokens)
    else if symbol % 32 != 0 then Parsed(symbol % 32, tokens)
    else
      match Take(tokens, EntitySymbol)
      case Stopped(error) => Stopped(error)
      case Parsed(value, rest) => Parsed(value + 32, rest)
  }

  function ParseNewRound(ctx: Context, base: seq<Entity>, st: Stream, symbol: u8,
                         tokens: seq<Token>): (p: Reading<Round>)
    requires Usable(ctx) && st.baseIndex <= |base|
    ensures p.Parsed? ==> |p.rest| <= |tokens| && Sound(base, p.value)
  {
    match ParseNumber(tokens, st.number, symbol % 64)
    case Stopped(error) => Stopped(error)
    case Parsed(number, afterNumber) =>
      var at := SkipBelow(base, st.baseIndex, number);
      if at < |base| && base[at].number == number then Parsed(Duplicate(number), afterNumber)
      else
        match ParseNew(ctx, afterNumber, number, symbol / 64 % 2 == 1)
        case Stopped(error) => Stopped(error)
        case Parsed(e, rest) =>
          Parsed(More(Stream(at, number, st.entities + base[st.baseIndex..at] + [e])), rest)
  }

  function ParseBaseRound(ctx: Context, base: seq<Entity>, st: Stream, symbol: u8,
                          tokens: seq<Token>): (p: Reading<Round>)
    requires Usable(ctx) && st.baseIndex <= |base| && 0 < symbol < 128
    ensures p.Parsed? ==> |p.rest| <= |tokens| && Sound(base, p.value)
  {
    match ParseRun(tokens, symbol)
    case Stopped(error) => Stopped(error)
    case Parsed(run, afterRun) =>
      if |base| - st.baseIndex < run then Parsed(Dropped, afterRun)
      else
        var at := st.baseIndex + run - 1;
        var copied := st.entities + base[st.baseIndex..at];
        if symbol < 64 then Parsed(More(Stream(at + 1, base[at].number, copied)), afterRun)
        else
          match ParseChange(ctx, afterRun, base[at], MaskFollows(symbol))
          case Stopped(error) => Stopped(error)
          case Parsed(e, rest) => Parsed(More(Stream(at + 1, base[at].number, copied + [e])), rest)
  }

  function ParseRound(ctx: Context, base: seq<Entity>, st: Stream, tokens: seq<Token>): (p: Reading<Round>)
    requires Usable(ctx) && st.baseIndex <= |base|
    ensures p.Parsed? ==> |p.rest| < |tokens| && Sound(base, p.value)
  {
    match Take(tokens, EntitySymbol)
    case Stopped(error) => Stopped(error)
    case Parsed(symbol, rest) =>
      if symbol == 0 then Parsed(Finished, rest)
      else if symbol >= 128 then ParseNewRound(ctx, base, st, symbol, rest)
      else ParseBaseRound(ctx, base, st, symbol, rest)
  }

  lemma {:induction false} ChunksRestored(remaining: nat, number: u16, rest: seq<Token>)
    requires number + remaining < 0x1_0000
    ensures ParseChunks(Chunks(remaining) + rest, number) == Parsed(number + remaining, rest)
    decreases remaining
  {
    if remaining >= 255 {
      var later := Chunks(remaining - 255) + rest;
      ChunksRestored(remaining - 255, number + 255, rest);
      Regroup([Token(NumberExtension, 255)], Chunks(remaining - 255), rest);
      assert ([Token(NumberExtension, 255)] + later)[1..] == later;
      hide Chunks;
    } else {
      assert ([Token(NumberExtension, remaining)] + rest)[1..] == rest;
    }
  }

  lemma NumberRestored(current: u16, number: u16, rest: seq<Token>)
    requires current < number
    ensures var difference: nat := number - current;
            ParseNumber((if difference >= 64 then Chunks(difference - 64) else []) + rest, current,
                        if difference < 64 then difference else 0) == Parsed(number, rest)
  {
    var difference: nat := number - current;
    if difference >= 64 {
      ChunksRestored(difference - 64, current + 64, rest);
    } else {
      assert [] + rest == rest;
    }
  }

  lemma RunRestored(run: nat, flag: bool, rest: seq<Token>)
    requires 1 <= run <= MAX_CHANGE_RUN
    ensures ParseRun(RunTokens(run) + rest, ChangeSymbol(run, flag)) == Parsed(run, rest)
  {
    assert [] + rest == rest;
  }

  lemma NewInStep(ctx: Context, base: seq<Entity>, st: Stream, a: Action, rest: seq<Token>)
    requires Usable(ctx) && Fits(base, st, a) && a.NewEntity? && Encodable(st, a)
    ensures ParseRound(ctx, base, st, ActionTokens(ctx, a, st) + rest) == Parsed(More(Act(base, st, a)), rest)
  {
    hide Usable, NewHighMask, Baseline, ByteOf, NewBody, ParseNew, Chunks, ParseNumber, Fresh, SkipBelow;
    var target := a.target;
    var difference: nat := target.number - st.number;
    var payload := ByteOf(NewHighMask(Baseline(ctx, target.number), target)) != 0;
    var chunks := if difference >= 64 then Chunks(difference - 64) else [];
    var tokens := ActionTokens(ctx, a, st) + rest;
    assert tokens[1..] == chunks + (NewBody(ctx, target) + rest);
    NumberRestored(st.number, target.number, NewBody(ctx, target) + rest);
    NewRestored(ctx, target, rest);
  }

  lemma ChangeTokens(ctx: Context, st: Stream, run: nat, e: Entity, target: Entity, rest: seq<Token>)
    requires Usable(ctx) && 1 <= run <= MAX_CHANGE_RUN
    ensures ActionTokens(ctx, ChangeEntity(run, e, target), st) + rest
            == [Token(EntitySymbol, ChangeSymbol(run, HighXor(e, target) != 0))]
               + (RunTokens(run) + (ChangeBody(ctx, e, target) + rest))
  {
    hide Usable, HighXor, ChangeBody, ChangeSymbol, RunTokens;
  }

  lemma ChangeRound(ctx: Context, base: seq<Entity>, st: Stream, symbol: u8, tokens: seq<Token>, run: nat,
                    afterRun: seq<Token>, e: Entity, rest: seq<Token>)
    requires Usable(ctx) && st.baseIndex <= |base| && 64 <= symbol < 128
    requires ParseRun(tokens, symbol) == Parsed(run, afterRun) && 1 <= run <= |base| - st.baseIndex
    requires ParseChange(ctx, afterRun, base[st.baseIndex + run - 1], MaskFollows(symbol)) == Parsed(e, rest)
    ensures ParseBaseRound(ctx, base, st, symbol, tokens)
            == Parsed(More(Stream(st.baseIndex + run, base[st.baseIndex + run - 1].number,
                                  st.entities + base[st.baseIndex..st.baseIndex + run - 1] + [e])), rest)
  {
    hide Usable, ParseRun, ParseChange, MaskFollows;
  }

  lemma BaseRound(ctx: Context, base: seq<Entity>, st: Stream, symbol: u8, tokens: seq<Token>)
    requires Usable(ctx) && st.baseIndex <= |base| && 0 < symbol < 128
    ensures ParseRound(ctx, base, st, [Token(EntitySymbol, symbol)] + tokens)
            == ParseBaseRound(ctx, base, st, symbol, tokens)
  {
    hide Usable, ParseBaseRound, ParseNewRound;
    assert ([Token(EntitySymbol, symbol)] + tokens)[1..] == tokens;
  }

  lemma ChangeBaseRound(ctx: Context, base: seq<Entity>, st: Stream, run: nat, target: Entity, symbol: u8,
                        rest: seq<Token>)
    requires Usable(ctx) && st.baseIndex <= |base| && 1 <= run <= |base| - st.baseIndex && run <= MAX_CHANGE_RUN
    requires base[st.baseIndex + run - 1].number == target.number
    requires symbol == ChangeSymbol(run, HighXor(base[st.baseIndex + run - 1], target) != 0) && 0 < symbol < 128
    ensures ParseBaseRound(ctx, base, st, symbol,
              RunTokens(run) + (ChangeBody(ctx, base[st.baseIndex + run - 1], target) + rest))
            == Parsed(More(Stream(st.baseIndex + run, target.number,
                                  st.entities + base[st.baseIndex..st.baseIndex + run - 1]
                                  + [Changed(base[st.baseIndex + run - 1], target)])), rest)
  {
    var e := base[st.baseIndex + run - 1];
    var flag := HighXor(e, target) != 0;
    ChangeSymbolParts(run, flag);
    hide HighXor, ChangeSymbol, MaskFollows, Usable, ChangeBody, ParseChange, ParseRun, Changed, WireEqual, RunTokens,
         ParseBaseRound;
    var afterRun := ChangeBody(ctx, e, target) + rest;
    RunRestored(run, flag, afterRun);
    ChangeRestored(ctx, e, target, rest);
    ChangeRound(ctx, base, st, symbol, RunTokens(run) + afterRun, run, afterRun, Changed(e, target), rest);
  }

  lemma ActOnChange(base: seq<Entity>, st: Stream, run: nat, e: Entity, target: Entity)
    requires Fits(base, st, ChangeEntity(run, e, target))
    ensures base[st.baseIndex + run - 1] == e && e.number == target.number && 1 <= run <= |base| - st.baseIndex
    ensures Act(base, st, ChangeEntity(run, e, target))
            == Stream(st.baseIndex + run, target.number,
                      st.entities + base[st.baseIndex..st.baseIndex + run - 1] + [Changed(e, target)])
  {
    hide Changed;
  }

  lemma ChangeInStep(ctx: Context, base: seq<Entity>, st: Stream, run: nat, e: Entity, target: Entity, rest: seq<Token>)
    requires Usable(ctx) && Fits(base, st, ChangeEntity(run, e, target)) && run <= MAX_CHANGE_RUN
    ensures ParseRound(ctx, base, st, ActionTokens(ctx, ChangeEntity(run, e, target), st) + rest)
            == Parsed(More(Act(base, st, ChangeEntity(run, e, target))), rest)
  {
    hide ParseRound, ParseBaseRound, ActionTokens, HighXor, ChangeBody, ChangeSymbol, RunTokens, Usable, Changed,
         MaskFollows, Act, Fits, Encodable;
    var flag := HighXor(e, target) != 0;
    var symbol := ChangeSymbol(run, flag);
    ChangeSymbolParts(run, flag);
    ActOnChange(base, st, run, e, target);
    ChangeTokens(ctx, st, run, e, target, rest);
    ChangeBaseRound(ctx, base, st, run, target, symbol, rest);
    BaseRound(ctx, base, st, symbol, RunTokens(run) + (ChangeBody(ctx, e, target) + rest));
  }

  /** A removal never looks like a new entity or a change: those add one. */
  lemma NewRoundDiffers(ctx: Context, base: seq<Entity>, st: Stream, a: Action, symbol: u8, tokens: seq<Token>)
    requires Usable(ctx) && Fits(base, st, a) && a.RemoveEntity?
    ensures var p := ParseNewRound(ctx, base, st, symbol, tokens);
            p.Parsed? && p.value.More? ==> p.value.next != Act(base, st, a)
  {
    hide Usable, ParseNumber, ParseNew;
    match ParseNumber(tokens, st.number, symbol % 64) {
      case Stopped(_) =>
      case Parsed(number, _) =>
        assert SkipBelow(base, st.baseIndex, number) == st.baseIndex + a.run ==>
               base[st.baseIndex + a.run - 1].number < number;
    }
  }

  lemma ChangeRoundDiffers(ctx: Context, base: seq<Entity>, st: Stream, a: Action, symbol: u8, tokens: seq<Token>)
    requires Usable(ctx) && Fits(base, st, a) && a.RemoveEntity? && 64 <= symbol < 128
    ensures var p := ParseBaseRound(ctx, base, st, symbol, tokens);
            p.Parsed? && p.value.More? ==> p.value.next != Act(base, st, a)
  {
    hide Usable, ParseChange, ParseRun;
    var p := ParseBaseRound(ctx, base, st, symbol, tokens);
    var run := ParseRun(tokens, symbol);
    if p.Parsed? && p.value.More? {
      assert p.value.next.baseIndex == st.baseIndex + run.value;
      assert |p.value.next.entities| == |st.entities| + run.value;
      assert |Act(base, st, a).entities| == |st.entities| + a.run - 1;
    }
  }

  /** The run of a removal is cut to a byte, and from 64 on it is read as another
      kind of symbol: the decoder stays in step exactly for shorter runs. */
  lemma RemoveInStep(ctx: Context, base: seq<Entity>, st: Stream, a: Action, rest: seq<Token>)
    requires Usable(ctx) && Fits(base, st, a) && a.RemoveEntity?
    ensures ParseRound(ctx, base, st, ActionTokens(ctx, a, st) + rest) == Parsed(More(Act(base, st, a)), rest)
            <==> a.run <= 63
  {
    hide Usable, ParseChange, ParseNewRound;
    var tokens := ActionTokens(ctx, a, st) + rest;
    var symbol: u8 := a.run % 0x100;
    assert tokens[0] == Token(EntitySymbol, symbol) && tokens[1..] == rest;
    if symbol >= 128 {
      NewRoundDiffers(ctx, base, st, a, symbol, rest);
    } else if symbol >= 64 {
      ChangeRoundDiffers(ctx, base, st, a, symbol, rest);
    }
  }
}
