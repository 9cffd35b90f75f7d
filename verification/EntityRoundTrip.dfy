/** Packet entities from end to end: planned, range coded, decoded and replayed. */
module EntityRoundTrip {
  import opened Words
  import opened PackedWords
  import opened EntityDeltas
  import opened EntityActions
  import opened EntityScripts
  import opened EntityPlans
  import opened EntityPrefixes
  import opened RangeTables
  import E = EntityEncoder
  import D = EntityDecoder
  import C = RangeRoundTrip
  import F = FrequencyTables

  /** Encodes the actions of a plan and the end of the list; fails exactly when
      some action cannot be encoded where it comes up. */
  method EncodeSVCPacketEntities(ctx: Context, ghost base: seq<Entity>, actions: seq<Action>)
    returns (r: Option<seq<Token>>)
    requires Usable(ctx) && FitsAll(base, actions)
    ensures r.Some? <==> AllEncodable(base, actions)
    ensures r.Some? ==> r.value == ScriptTokens(ctx, base, actions, 0)
  {
    hide Usable, ActionTokens, Encodable, FitsAll, Replay, Act;
    var enc := new E.Encoder(ctx);
    FitsPrefix(base, actions, 0);
    StartsEmpty(base, actions);
    for i := 0 to |actions|
      invariant fresh(enc) && enc.ctx == ctx && FitsAll(base, actions[..i])
      invariant enc.current == Replay(base, actions[..i]).number
      invariant forall k :: 0 <= k < i ==> EncodableAt(base, actions, k)
      invariant AllEncodable(base, actions) ==>
                  enc.tokens + ScriptTokens(ctx, base, actions, i) == ScriptTokens(ctx, base, actions, 0)
    {
      FitsPrefix(base, actions, i);
      ghost var st := Replay(base, actions[..i]);
      ghost var other := enc.State();
      SameForNumber(ctx, actions[i], st, other);
      RunOfFit(base, st, actions[i]);
      ghost var before := enc.tokens;
      var ok := enc.EncodeAction(actions[i]);
      assert ok <==> EncodableAt(base, actions, i);
      if !ok {
        return None;
      }
      ActNumber(base, st, actions[i]);
      if AllEncodable(base, actions) {
        Regroup(before, ActionTokens(ctx, actions[i], st), ScriptTokens(ctx, base, actions, i + 1));
      }
    }
    enc.Put(EntitySymbol, 0);
    r := Some(enc.tokens);
  }

  lemma StartsEmpty(base: seq<Entity>, actions: seq<Action>)
    requires FitsAll(base, actions)
    ensures FitsAll(base, actions[..0]) && Replay(base, actions[..0]) == START
  {
  }

  /** Tokens depend on the stream only through the running number. */
  lemma SameForNumber(ctx: Context, a: Action, st: Stream, other: Stream)
    requires Usable(ctx) && st.number == other.number
    ensures Encodable(st, a) == Encodable(other, a)
    ensures Encodable(st, a) ==> ActionTokens(ctx, a, st) == ActionTokens(ctx, a, other)
  {
    hide Usable, NewBody, ChangeBody, HighXor, ChangeSymbol, RunTokens, Chunks, NewHighMask, Baseline, ByteOf;
  }

  lemma RunOfFit(base: seq<Entity>, st: Stream, a: Action)
    requires Fits(base, st, a)
    ensures !a.NewEntity? ==> 1 <= a.run <= |base|
  {
  }

  lemma ActNumber(base: seq<Entity>, st: Stream, a: Action)
    requires Fits(base, st, a)
    ensures Act(base, st, a).number == (if a.NewEntity? then a.target else a.base).number
  {
  }

  function RowsOf(tokens: seq<Token>): (rows: seq<Row>)
    ensures |rows| == |tokens|
  {
    seq(|tokens|, i requires 0 <= i < |tokens| => tokens[i].row)
  }

  function SymbolsOf(tokens: seq<Token>): (symbols: seq<u8>)
    ensures |symbols| == |tokens|
  {
    seq(|tokens|, i requires 0 <= i < |tokens| => tokens[i].symbol)
  }

  /** The whole stream: the tokens, and what the packet holds around them. */
  function StreamOf(models: Row -> C.Model, tokens: seq<Token>, around: Around): seq<C.Item> {
    around.With(ItemsOf(models, RowsOf(tokens), SymbolsOf(tokens)))
  }

  /** A strict decoder can read the last token, and so all of them. */
  predicate Legible(models: Row -> C.Model, tokens: seq<Token>, around: Around)
    requires tokens != [] && C.AcceptsAll(StreamOf(models, tokens, around))
  {
    C.Readable(StreamOf(models, tokens, around), |around.before| + |tokens| - 1)
  }

  /** Tokens through the bytes of the range coder: the rows that the decoder will
      ask for are those of the tokens, as long as it is in step. The strict decoder
      gets all of them exactly when the last one is legible. */
  method ThroughBytes(models: Row -> C.Model, tokens: seq<Token>, around: Around) returns (r: Option<seq<Token>>)
    requires Table(models) && around.Usable() && tokens != []
    ensures r.Some? <==> C.AcceptsAll(StreamOf(models, tokens, around))
    ensures r.Some? ==> r.value <= tokens && (r.value == tokens <==> Legible(models, tokens, around))
  {
    hide Table, C.AcceptsAll, C.Readable, Around.With, ItemsOf;
    var symbols := SymbolsOf(tokens);
    var encoded, received := RangeTables.ThroughBytes(models, RowsOf(tokens), symbols, around, true);
    if !encoded {
      return None;
    }
    var got := seq(|received|, i requires 0 <= i < |received| => Token(tokens[i].row, received[i]));
    assert got == tokens[..|received|];
    r := Some(got);
  }

  /** The encoder accepts the plan for these two lists. */
  predicate Plannable(base: seq<Entity>, target: seq<Entity>)
    requires Ordered(base) && Ordered(target)
  {
    PlanWorks(base, target);
    AllEncodable(base, Plan(base, target))
  }

  function PlanTokens(ctx: Context, base: seq<Entity>, target: seq<Entity>): (tokens: seq<Token>)
    requires Usable(ctx) && Ordered(base) && Ordered(target) && Plannable(base, target)
    ensures tokens != []
  {
    PlanWorks(base, target);
    ScriptTokens(ctx, base, Plan(base, target), 0)
  }

  /** Neither the encoder nor its range coder refuses the list. */
  predicate Sendable(ctx: Context, models: Row -> C.Model, base: seq<Entity>, target: seq<Entity>, around: Around)
    requires Usable(ctx) && Ordered(base) && Ordered(target)
  {
    Plannable(base, target) && C.AcceptsAll(StreamOf(models, PlanTokens(ctx, base, target), around))
  }

  /** The list arrives before the stream ends. */
  predicate Arrives(ctx: Context, models: Row -> C.Model, base: seq<Entity>, target: seq<Entity>, around: Around)
    requires Usable(ctx) && Ordered(base) && Ordered(target)
  {
    Sendable(ctx, models, base, target, around) && Legible(models, PlanTokens(ctx, base, target), around)
  }

  /** The records that the encoder keeps of a list. */
  function Records(base: seq<Entity>, target: seq<Entity>): (records: seq<Entity>)
    requires Ordered(base) && Ordered(target)
    ensures AllWireEqual(records, target)
  {
    PlanWorks(base, target);
    Outcome(base, Replay(base, Plan(base, target)))
  }

  /** One list of entities from the encoder, which holds `base`, to the decoder,
      which holds an equal `mirror` of it, in a stream with other symbols around.
      What is sent with short removals is decoded to the encoder's records, which
      show what the target shows, exactly when its last symbol is legible; otherwise
      the strict decoder reports the end of the stream. */
  method Exchange(ctx: Context, models: Row -> C.Model, base: seq<Entity>, mirror: seq<Entity>, target: seq<Entity>,
                  around: Around)
    returns (sent: bool, records: seq<Entity>, end: D.RoundEnd, decoded: seq<Entity>)
    requires Usable(ctx) && Table(models) && around.Usable() && Ordered(base) && Ordered(target) && mirror == base
    ensures sent <==> Sendable(ctx, models, base, target, around)
    ensures records == Records(base, target)
    ensures sent && ShortRemovals(Plan(base, target)) ==>
              if Arrives(ctx, models, base, target, around)
              then end == D.EndOfList && decoded == records
              else end == D.EndOfStream
  {
    hide Usable, Table, FitsAll, Replay, Outcome, ScriptTokens, ParseScript, Needed, InOrder, Ordered, AllWireEqual,
         C.AcceptsAll, StreamOf, PlanFrom, Legible, AllEncodable, ShortRemovals, Around.Usable;
    PlanWorks(base, target);
    var actions;
    actions, records := PlanPacketEntities(base, target);
    sent, end, decoded := false, D.LostStep, [];
    var tokens := EncodeSVCPacketEntities(ctx, base, actions);
    if tokens.None? {
      return;
    }
    assert tokens.value == PlanTokens(ctx, base, target);
    var received := ThroughBytes(models, tokens.value, around);
    if received.None? {
      return;
    }
    sent := true;
    if ShortRemovals(actions) {
      WholeScript(ctx, base, actions, received.value);
    }
    var decoder := new D.Decoder(ctx, mirror, received.value, |received.value| < |tokens.value|);
    end := decoder.Decode();
    decoded := decoder.entities;
  }

  /** What a decoder makes of a script, or of a first part of it. */
  lemma WholeScript(ctx: Context, base: seq<Entity>, actions: seq<Action>, received: seq<Token>)
    requires Usable(ctx) && FitsAll(base, actions) && AllEncodable(base, actions) && ShortRemovals(actions)
    requires received <= ScriptTokens(ctx, base, actions, 0)
    ensures ParseScript(ctx, base, START, received)
            == if received == ScriptTokens(ctx, base, actions, 0)
               then Parsed(Some(Outcome(base, Replay(base, actions))), [])
               else Stopped(NothingLeft)
    ensures |received| == |ScriptTokens(ctx, base, actions, 0)| <==> received == ScriptTokens(ctx, base, actions, 0)
  {
    hide Usable, Outcome, ScriptTokens, ParseScript, Replay;
    StartsEmpty(base, actions);
    ScriptRestored(ctx, base, actions, 0, []);
    var tokens := ScriptTokens(ctx, base, actions, 0);
    assert tokens + [] == tokens;
    if |received| < |tokens| {
      CutScript(ctx, base, tokens, |received|);
      assert received == tokens[..|received|];
    }
  }

  /** A snapshot of up to 63 entities that are not players. */
  predicate Snapshot(entities: seq<Entity>) {
    && Ordered(entities) && |entities| <= 63
    && forall i :: 0 <= i < |entities| ==> entities[i].number > 32
  }

  /** Between snapshots every plan is accepted and every removal is short. */
  lemma SnapshotsArePlannable(base: seq<Entity>, target: seq<Entity>)
    requires Ordered(base) && |base| <= 63 && Snapshot(target)
    ensures Plannable(base, target) && ShortRemovals(Plan(base, target))
  {
    hide FitsAll, InOrder, PlanFrom, Ordered;
    PlanWorks(base, target);
    var actions := Plan(base, target);
    RunsFitBase(base, actions);
    PlanEncodable(base, actions);
    assert actions != [] ==> Needed(base, target, actions[0]);
  }

  lemma RecordsOrdered(records: seq<Entity>, target: seq<Entity>)
    requires Ordered(target) && AllWireEqual(records, target)
    ensures Ordered(records) && |records| == |target|
  {
    forall i, j | 0 <= i < j < |records|
      ensures records[i].number < records[j].number
    {
      assert WireEqual(records[i], target[i]) && WireEqual(records[j], target[j]);
    }
  }

  predicate AllOrdered(lists: seq<seq<Entity>>) {
    forall i :: 0 <= i < |lists| ==> Ordered(lists[i])
  }

  /** The records kept after the first `i` lists, each a change of the one before. */
  function Kept(lists: seq<seq<Entity>>, i: nat): (records: seq<Entity>)
    requires AllOrdered(lists) && i <= |lists|
    ensures Ordered(records)
    ensures i > 0 ==> AllWireEqual(records, lists[i - 1])
  {
    if i == 0 then []
    else
      var records := Records(Kept(lists, i - 1), lists[i - 1]);
      RecordsOrdered(records, lists[i - 1]);
      records
  }

  /** No list asks for a removal that its six bits cannot tell. */
  predicate AllShort(lists: seq<seq<Entity>>)
    requires AllOrdered(lists)
  {
    forall i :: 0 <= i < |lists| ==> ShortRemovals(Plan(Kept(lists, i), lists[i]))
  }

  /** Snapshots are such lists, and each can be planned. */
  lemma SnapshotsAreShort(snapshots: seq<seq<Entity>>)
    requires forall i :: 0 <= i < |snapshots| ==> Snapshot(snapshots[i])
    ensures AllOrdered(snapshots) && AllShort(snapshots)
    ensures forall i :: 0 <= i < |snapshots| ==> Plannable(Kept(snapshots, i), snapshots[i])
  {
    hide Ordered, ShortRemovals, PlanFrom, Plannable, Records;
    assert AllOrdered(snapshots);
    forall i | 0 <= i < |snapshots|
      ensures ShortRemovals(Plan(Kept(snapshots, i), snapshots[i])) && Plannable(Kept(snapshots, i), snapshots[i])
    {
      if i > 0 {
        RecordsOrdered(Kept(snapshots, i), snapshots[i - 1]);
      }
      SnapshotsArePlannable(Kept(snapshots, i), snapshots[i]);
    }
  }

  /** List `i` arrives, on top of the records kept of the lists before it. */
  predicate ArrivesAt(ctx: Context, models: Row -> C.Model, lists: seq<seq<Entity>>, arounds: seq<Around>, i: nat)
    requires Usable(ctx) && AllOrdered(lists) && i < |lists| == |arounds|
  {
    Arrives(ctx, models, Kept(lists, i), lists[i], arounds[i])
  }

  predicate SendableAt(ctx: Context, models: Row -> C.Model, lists: seq<seq<Entity>>, arounds: seq<Around>, i: nat)
    requires Usable(ctx) && AllOrdered(lists) && i < |lists| == |arounds|
  {
    Sendable(ctx, models, Kept(lists, i), lists[i], arounds[i])
  }

  /** One list of a run; the encoder keeps it if it was sent. */
  method ExchangeAt(ctx: Context, models: Row -> C.Model, lists: seq<seq<Entity>>, arounds: seq<Around>, i: nat,
                    kept: seq<Entity>, mirrored: seq<Entity>)
    returns (arrived: bool, records: seq<Entity>, decoded: seq<Entity>)
    requires Usable(ctx) && Table(models) && AllOrdered(lists) && AllShort(lists) && i < |lists| == |arounds|
    requires arounds[i].Usable() && kept == mirrored == Kept(lists, i)
    ensures arrived <==> ArrivesAt(ctx, models, lists, arounds, i)
    ensures records == if SendableAt(ctx, models, lists, arounds, i) then Kept(lists, i + 1) else kept
    ensures arrived ==> decoded == records == Kept(lists, i + 1) && AllWireEqual(decoded, lists[i])
  {
    hide Usable, Table, Arrives, Sendable, Legible, AllWireEqual, ShortRemovals, PlanFrom, Records, Around.Usable,
         Ordered;
    assert Kept(lists, i + 1) == Records(kept, lists[i]);
    ArrivesIfSent(ctx, models, kept, lists[i], arounds[i]);
    var sent, end;
    sent, records, end, decoded := Exchange(ctx, models, kept, mirrored, lists[i], arounds[i]);
    if !sent {
      return false, kept, mirrored;
    }
    arrived := end == D.EndOfList;
  }

  /** Every list shown has arrived, is what the encoder keeps of it, and looks like
      the one that was sent. */
  predicate ShownRight(ctx: Context, models: Row -> C.Model, lists: seq<seq<Entity>>, arounds: seq<Around>,
                       shown: seq<seq<Entity>>)
    requires Usable(ctx) && AllOrdered(lists) && |arounds| == |lists|
  {
    && |shown| <= |lists|
    && forall i :: 0 <= i < |shown| ==>
         ArrivesAt(ctx, models, lists, arounds, i) && shown[i] == Kept(lists, i + 1) && AllWireEqual(shown[i], lists[i])
  }

  lemma OneMoreShown(ctx: Context, models: Row -> C.Model, lists: seq<seq<Entity>>, arounds: seq<Around>,
                     shown: seq<seq<Entity>>, decoded: seq<Entity>)
    requires Usable(ctx) && AllOrdered(lists) && |arounds| == |lists| && ShownRight(ctx, models, lists, arounds, shown)
    requires |shown| < |lists| && ArrivesAt(ctx, models, lists, arounds, |shown|)
    requires decoded == Kept(lists, |shown| + 1)
    ensures ShownRight(ctx, models, lists, arounds, shown + [decoded])
  {
    hide Arrives, Records, Ordered, Usable, AllWireEqual;
  }

  /** A whole run over a link, one stream for each list. The decoder shows every
      list until one does not arrive: the two ends keep equal records up to there,
      histories included. A list that is refused leaves both as they were; one whose
      stream ends early is kept by the encoder alone. */
  method ExchangeAll(ctx: Context, models: Row -> C.Model, lists: seq<seq<Entity>>, arounds: seq<Around>)
    returns (shown: seq<seq<Entity>>, kept: seq<Entity>, mirrored: seq<Entity>)
    requires Usable(ctx) && Table(models) && AllOrdered(lists) && AllShort(lists) && |arounds| == |lists|
    requires forall i :: 0 <= i < |arounds| ==> arounds[i].Usable()
    ensures ShownRight(ctx, models, lists, arounds, shown) && mirrored == Kept(lists, |shown|)
    ensures |shown| < |lists| ==> !ArrivesAt(ctx, models, lists, arounds, |shown|)
    ensures kept == if |shown| < |lists| && SendableAt(ctx, models, lists, arounds, |shown|)
                    then Kept(lists, |shown| + 1) else mirrored
  {
    shown, kept, mirrored := [], [], [];
    assert ShownRight(ctx, models, lists, arounds, []) && Kept(lists, 0) == [];
    hide *;
    for i := 0 to |lists|
      invariant |shown| == i && kept == mirrored == Kept(lists, i)
      invariant ShownRight(ctx, models, lists, arounds, shown)
    {
      var arrived, records, decoded := ExchangeAt(ctx, models, lists, arounds, i, kept, mirrored);
      kept := records;
      if !arrived {
        return;
      }
      OneMoreShown(ctx, models, lists, arounds, shown, decoded);
      mirrored := decoded;
      shown := shown + [decoded];
    }
  }

  lemma ArrivesIfSent(ctx: Context, models: Row -> C.Model, base: seq<Entity>, target: seq<Entity>, around: Around)
    requires Usable(ctx) && Ordered(base) && Ordered(target)
    ensures Arrives(ctx, models, base, target, around) ==> Sendable(ctx, models, base, target, around)
  {
    hide Sendable, Legible, Usable, Ordered;
  }

  /** Over a table built from counts no list of snapshots is refused, whatever
      accepted symbols come around it. */
  lemma CountedIsSendable(ctx: Context, models: Row -> C.Model, counts: Row -> seq<u32>, base: seq<Entity>,
                          target: seq<Entity>, around: Around, before: seq<seq<u32>>, after: seq<seq<u32>>)
    requires Usable(ctx) && Ordered(base) && |base| <= 63 && Snapshot(target) && Counted(models, counts)
    requires F.AllFromCounts(around.before, before) && F.AllFromCounts(around.after, after)
    ensures Sendable(ctx, models, base, target, around)
  {
    hide PlanFrom, Usable, Ordered, Counted, F.AllFromCounts, C.AcceptsAll;
    SnapshotsArePlannable(base, target);
    var tokens := PlanTokens(ctx, base, target);
    CountedIsAccepted(models, counts, RowsOf(tokens), SymbolsOf(tokens), around, before, after);
  }
}
