/** A list of entities whose stream ends too early for a strict decoder, although
    nothing refuses it. */
module EntityEarlyEnd {
  import opened Words
  import opened Sums
  import opened EntityDeltas
  import opened EntityActions
  import opened EntityScripts
  import opened EntityPlans
  import opened EntityRoundTrip
  import opened RangeTables
  import opened RangeInterval
  import C = RangeRoundTrip
  import F = FrequencyTables

  /** Counts of the symbols, one row for all keys: a total of 0xff00ff. */
  function Counts(): (counts: seq<u32>)
    ensures |counts| == 256
  {
    seq(256, i requires 0 <= i < 256 => if i == 0 then 10444959 else if i < 255 then 1 else 6266722)
  }

  lemma {:induction false} CountsSum(k: nat)
    requires 1 <= k <= 255
    ensures Sum(Counts()[..k]) == 10444958 + k
  {
    if k == 1 {
      assert Counts()[..1] == [10444959] && [10444959][..0] == [];
      assert Sum([10444959]) == 10444959;
    } else {
      CountsSum(k - 1);
      F.SumNext(Counts(), k - 1);
    }
  }

  lemma CountsTotal()
    ensures Sum(Counts()) == 16711935
  {
    CountsSum(255);
    F.SumNext(Counts(), 255);
    assert Counts()[..256] == Counts();
  }

  function Row(): (row: seq<u32>)
    ensures |row| == 256
  {
    CountsTotal();
    F.CumulativeRow(Counts())
  }

  lemma RowStarts()
    ensures Row()[0] == 2684354463 && Row()[1] == 2684354720
  {
    CountsTotal();
    CountsSum(1);
    CountsSum(2);
    hide Sum;
    F.RowEntry(Counts(), 0);
    F.RowEntry(Counts(), 1);
  }

  function Models(): EntityDeltas.Row -> C.Model {
    _ => C.Single(Row(), 256)
  }

  lemma ModelsAreCounted()
    ensures Table(Models()) && Counted(Models(), _ => Counts())
  {
    CountsTotal();
    hide Sum, F.CumulativeRow;
    F.RowIsMonotone(Counts());
    assert C.D.IsPowerOfTwo(256) by {
      assert C.D.IsPowerOfTwo(4) && C.D.IsPowerOfTwo(16) && C.D.IsPowerOfTwo(64);
    }
  }

  function ItemFor(symbol: u8): C.Item {
    C.Item(C.Single(Row(), 256), symbol)
  }

  /** One entity, and none; the removal is followed by one more symbol. */
  function Base(): seq<Entity> {
    [Blank(33)]
  }

  function Later(): Around {
    Around([], [ItemFor(0)])
  }

  function Removal(): seq<Action> {
    [RemoveEntity(1, Blank(33))]
  }

  lemma BaseIsSnapshot()
    ensures Snapshot(Base()) && Snapshot([])
  {
  }

  lemma RemovalIsNext()
    ensures NextAction(Base(), [], 0, 0, 1) == Removal()[0]
  {
  }

  lemma RemovalIsPlanned()
    ensures Plan(Base(), []) == Removal()
  {
    NothingEqual(Base(), [], 0);
    NothingEqual(Base(), [], 1);
    RemovalIsNext();
    hide PlanFrom, EqualCount, NextAction, Blank;
    PlanFromStep(Base(), [], 0, 0, 0, [], Removal()[0]);
    PlanFromEnds(Base(), [], 1, 0, 0);
    assert [] + Plan(Base(), []) == Plan(Base(), []) && [] + Removal() + [] == Removal();
  }

  lemma RemovalPlan(ctx: Context)
    requires Usable(ctx)
    ensures Snapshot(Base()) && Snapshot([]) && Plannable(Base(), []) && Plan(Base(), []) == Removal()
    ensures PlanTokens(ctx, Base(), []) == [Token(EntitySymbol, 1), Token(EntitySymbol, 0)]
  {
    hide PlanFrom, Usable;
    BaseIsSnapshot();
    RemovalIsPlanned();
    SnapshotsArePlannable(Base(), []);
    var actions := Removal();
    assert actions[..0] == [];
    assert ScriptTokens(ctx, Base(), actions, 1) == [Token(EntitySymbol, 0)];
    assert ActionTokens(ctx, actions[0], Replay(Base(), actions[..0])) == [Token(EntitySymbol, 1)];
  }

  /** The shares of the two symbols in the ranges that come up. */
  lemma Shares()
    ensures Accepts(WHOLE, Row(), 1) && Chosen(WHOLE, Row(), 1) == Interval(2684354462, 256, 0)
    ensures Accepts(Interval(175921854021632, 16842751, 2), Row(), 0)
            && Chosen(Interval(175921854021632, 16842751, 2), Row(), 0)
               == Interval(175921854021632, 10526717, 2)
    ensures Accepts(Interval(45035994629537792, 2694839807, 3), Row(), 0)
            && Chosen(Interval(45035994629537792, 2694839807, 3), Row(), 0)
               == Interval(45035994629537792, 1684274817, 3)
  {
    hide Row;
    RowStarts();
  }

  lemma Normalized()
    ensures Normalize(Interval(2684354462, 256, 0)) == Interval(175921854021632, 16842751, 2)
    ensures Normalize(Interval(175921854021632, 10526717, 2)) == Interval(45035994629537792, 2694839807, 3)
    ensures Normalize(Interval(45035994629537792, 1684274817, 3)) == Interval(45035994629537792, 1684274817, 3)
  {
    assert Shift(Interval(2684354462, 256, 0)) == Interval(687194742272, 65791, 1);
    assert Shift(Interval(687194742272, 65791, 1)) == Interval(175921854021632, 16842751, 2);
    assert Normalize(Interval(175921854021632, 16842751, 2)) == Interval(175921854021632, 16842751, 2);
    assert Shift(Interval(175921854021632, 10526717, 2)) == Interval(45035994629537792, 2694839807, 3);
  }

  /** The final ends straddle, two digits are lost, and only one digit has been
      produced since the symbol that ends the list. */
  lemma Intervals(items: seq<C.Item>)
    requires items == [ItemFor(1), ItemFor(0), ItemFor(0)] && C.AcceptsAll(items)
    ensures C.DigitsBefore(items, 1) == 2
    ensures C.Run(items) == Interval(45035994629537792, 1684274817, 3)
  {
    hide Row, Normalize, Chosen, C.EncoderAfter;
    Shares();
    Normalized();
    C.Nested(items, 1, []);
    C.Nested(items, 2, []);
    assert items[..0] == [] && items[..3] == items;
    C.Extend(items, 0);
    C.Extend(items, 1);
    C.Extend(items, 2);
  }

  lemma TwoDigitsLost()
    ensures LostDigits(Interval(45035994629537792, 1684274817, 3)) == 2
  {
    assert 45035994629537792 / 0x1_0000_0000 == 0x9fffff;
    assert TrailingOnes(0x9f) == 0;
    assert TrailingOnes(0x9fff) == 1;
    assert TrailingOnes(0x9fffff) == 2;
  }

  lemma Stream()
    ensures StreamOf(Models(), [Token(EntitySymbol, 1), Token(EntitySymbol, 0)], Later())
            == [ItemFor(1), ItemFor(0), ItemFor(0)]
  {
    hide Row;
  }

  lemma LaterIsCounted()
    ensures F.AllFromCounts(Later().before, []) && F.AllFromCounts(Later().after, [Counts()]) && Later().Usable()
  {
    ModelsAreCounted();
    hide F.FromCounts, Row;
    assert Models()(EntitySymbol) == C.Single(Row(), 256);
    assert F.FromCounts(C.Item(Models()(EntitySymbol), 0), Counts());
    assert C.D.LastReachable(256, 256) == 255;
  }

  /** Over a table built from counts, taking away the only entity is sent and does
      not arrive: the stream ends before the symbol that ends the list. */
  lemma EndsEarly(ctx: Context)
    requires Usable(ctx)
    ensures Table(Models()) && Counted(Models(), _ => Counts()) && Later().Usable()
    ensures Snapshot(Base()) && Snapshot([]) && ShortRemovals(Plan(Base(), []))
    ensures Sendable(ctx, Models(), Base(), [], Later()) && !Arrives(ctx, Models(), Base(), [], Later())
  {
    hide Row, Models, Counts, Table, Counted, F.AllFromCounts, PlanFrom, PlanTokens, LostDigits, Plannable, Usable,
         StreamOf, C.AcceptsAll, C.DigitsBefore, C.Run, Snapshot, Around.Usable;
    ModelsAreCounted();
    RemovalPlan(ctx);
    LaterIsCounted();
    Stream();
    CountedIsSendable(ctx, Models(), _ => Counts(), Base(), [], Later(), [], [Counts()]);
    Intervals([ItemFor(1), ItemFor(0), ItemFor(0)]);
    TwoDigitsLost();
  }
}
