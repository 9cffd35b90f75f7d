/** Whole edit scripts: planned from two ordered lists, and replayed. */
module EntityPlans {
  import opened Words
  import opened EntityDeltas
  import opened EntityActions
  import opened EntityScripts

  predicate FitsAll(base: seq<Entity>, actions: seq<Action>)
    decreases actions, 0
  {
    actions == [] ||
    (var n := |actions| - 1; FitsAll(base, actions[..n]) && Fits(base, Replay(base, actions[..n]), actions[n]))
  }

  /** The decoder's state after the actions. */
  function Replay(base: seq<Entity>, actions: seq<Action>): (st: Stream)
    requires FitsAll(base, actions)
    ensures st.baseIndex <= |base|
    decreases actions, 1
  {
    if actions == [] then START
    else var n := |actions| - 1; Act(base, Replay(base, actions[..n]), actions[n])
  }

  /** The list that a script leads to: what it produced and the rest of the base. */
  function Outcome(base: seq<Entity>, st: Stream): seq<Entity>
    requires st.baseIndex <= |base|
  {
    st.entities + base[st.baseIndex..]
  }

  lemma {:induction false} FitsPrefix(base: seq<Entity>, actions: seq<Action>, i: nat)
    requires FitsAll(base, actions) && i <= |actions|
    ensures FitsAll(base, actions[..i])
    ensures i < |actions| ==>
              && Fits(base, Replay(base, actions[..i]), actions[i])
              && FitsAll(base, actions[..i + 1])
              && Replay(base, actions[..i + 1]) == Act(base, Replay(base, actions[..i]), actions[i])
    decreases |actions|
  {
    hide Fits, Act;
    if i == |actions| {
      assert actions[..i] == actions;
    } else {
      var n := |actions| - 1;
      if i == n {
        assert actions[..i + 1] == actions;
      } else {
        FitsPrefix(base, actions[..n], i);
        assert actions[..n][..i] == actions[..i] && actions[..n][..i + 1] == actions[..i + 1];
      }
    }
  }

  lemma FitsSnoc(base: seq<Entity>, actions: seq<Action>, a: Action)
    requires FitsAll(base, actions) && Fits(base, Replay(base, actions), a)
    ensures FitsAll(base, actions + [a]) && Replay(base, actions + [a]) == Act(base, Replay(base, actions), a)
  {
    assert (actions + [a])[..|actions|] == actions;
  }

  /** The encoder accepts action `i` where it comes up. */
  predicate EncodableAt(base: seq<Entity>, actions: seq<Action>, i: nat)
    requires FitsAll(base, actions) && i < |actions|
  {
    FitsPrefix(base, actions, i);
    Encodable(Replay(base, actions[..i]), actions[i])
  }

  predicate AllEncodable(base: seq<Entity>, actions: seq<Action>)
    requires FitsAll(base, actions)
  {
    forall i :: 0 <= i < |actions| ==> EncodableAt(base, actions, i)
  }

  /** Tokens of the actions from `i` on, and the end of the list. */
  function ScriptTokens(ctx: Context, base: seq<Entity>, actions: seq<Action>, i: nat): (tokens: seq<Token>)
    requires Usable(ctx) && FitsAll(base, actions) && AllEncodable(base, actions) && i <= |actions|
    decreases |actions| - i
  {
    if i == |actions| then [Token(EntitySymbol, 0)]
    else
      assert EncodableAt(base, actions, i);
      FitsPrefix(base, actions, i);
      ActionTokens(ctx, actions[i], Replay(base, actions[..i])) + ScriptTokens(ctx, base, actions, i + 1)
  }

  /** The decoder's loop; no value stands for a dropped packet. */
  function ParseScript(ctx: Context, base: seq<Entity>, st: Stream, tokens: seq<Token>): Reading<Option<seq<Entity>>>
    requires Usable(ctx) && st.baseIndex <= |base|
    decreases |tokens|
  {
    match ParseRound(ctx, base, st, tokens)
    case Stopped(error) => Stopped(error)
    case Parsed(round, rest) =>
      match round
      case More(next) => ParseScript(ctx, base, next, rest)
      case Finished => Parsed(Some(Outcome(base, st)), rest)
      case Duplicate(_) => Parsed(None, rest)
      case Dropped => Parsed(None, rest)
  }

  /** The runs of all removals fit the six bits that are read back. */
  predicate ShortRemovals(actions: seq<Action>) {
    forall i :: 0 <= i < |actions| && actions[i].RemoveEntity? ==> actions[i].run <= 63
  }

  /** One round of the decoder on the tokens of action `i`. */
  predicate InStepAt(ctx: Context, base: seq<Entity>, actions: seq<Action>, i: nat, rest: seq<Token>)
    requires Usable(ctx) && FitsAll(base, actions) && AllEncodable(base, actions) && i < |actions|
  {
    assert EncodableAt(base, actions, i);
    FitsPrefix(base, actions, i);
    ParseRound(ctx, base, Replay(base, actions[..i]), ActionTokens(ctx, actions[i], Replay(base, actions[..i])) + rest)
    == Parsed(More(Replay(base, actions[..i + 1])), rest)
  }

  lemma ActionInStep(ctx: Context, base: seq<Entity>, actions: seq<Action>, i: nat, rest: seq<Token>)
    requires Usable(ctx) && FitsAll(base, actions) && AllEncodable(base, actions) && i < |actions|
    ensures InStepAt(ctx, base, actions, i, rest) <==> actions[i].RemoveEntity? ==> actions[i].run <= 63
  {
    hide Usable, ParseRound, ActionTokens, Act;
    FitsPrefix(base, actions, i);
    assert EncodableAt(base, actions, i);
    var st := Replay(base, actions[..i]);
    match actions[i] {
      case NewEntity(_) => NewInStep(ctx, base, st, actions[i], rest);
      case RemoveEntity(_, _) => RemoveInStep(ctx, base, st, actions[i], rest);
      case ChangeEntity(run, e, target) => ChangeInStep(ctx, base, st, run, e, target, rest);
    }
  }

  /** The decoder's rounds on the tokens of the actions, one by one. */
  predicate InStep(ctx: Context, base: seq<Entity>, actions: seq<Action>, rest: seq<Token>)
    requires Usable(ctx) && FitsAll(base, actions) && AllEncodable(base, actions)
  {
    forall i :: 0 <= i < |actions| ==> InStepAt(ctx, base, actions, i, rest)
  }

  /** The decoder follows the encoder through every action of a script exactly
      when no removal is 64 or more entities after the action before it. */
  lemma StaysInStep(ctx: Context, base: seq<Entity>, actions: seq<Action>, rest: seq<Token>)
    requires Usable(ctx) && FitsAll(base, actions) && AllEncodable(base, actions)
    ensures InStep(ctx, base, actions, rest) <==> ShortRemovals(actions)
  {
    hide Usable, InStepAt, FitsAll, AllEncodable;
    if InStep(ctx, base, actions, rest) {
      forall i | 0 <= i < |actions| && actions[i].RemoveEntity?
        ensures actions[i].run <= 63
      {
        assert InStepAt(ctx, base, actions, i, rest);
        ActionInStep(ctx, base, actions, i, rest);
      }
    }
    if ShortRemovals(actions) {
      forall i | 0 <= i < |actions|
        ensures InStepAt(ctx, base, actions, i, rest)
      {
        ActionInStep(ctx, base, actions, i, rest);
      }
    }
  }

  /** Then the decoded list is the encoder's, and nothing is left unread. */
  lemma {:induction false} ScriptRestored(ctx: Context, base: seq<Entity>, actions: seq<Action>, i: nat,
                                          rest: seq<Token>)
    requires Usable(ctx) && FitsAll(base, actions) && AllEncodable(base, actions) && ShortRemovals(actions)
    requires i <= |actions|
    ensures FitsAll(base, actions[..i])
    ensures ParseScript(ctx, base, Replay(base, actions[..i]), ScriptTokens(ctx, base, actions, i) + rest)
            == Parsed(Some(Outcome(base, Replay(base, actions))), rest)
    decreases |actions| - i
  {
    hide Usable, ActionTokens, Act, Fits, Encodable, Outcome, FitsAll, Replay;
    FitsPrefix(base, actions, i);
    if i == |actions| {
      assert actions[..i] == actions;
      var tokens := [Token(EntitySymbol, 0)] + rest;
      assert tokens[1..] == rest;
    } else {
      hide ParseRound, ParseNewRound, ParseBaseRound;
      assert EncodableAt(base, actions, i);
      var later := ScriptTokens(ctx, base, actions, i + 1) + rest;
      var now := ActionTokens(ctx, actions[i], Replay(base, actions[..i]));
      assert ScriptTokens(ctx, base, actions, i) + rest == now + later;
      ActionInStep(ctx, base, actions, i, later);
      ScriptRestored(ctx, base, actions, i + 1, rest);
    }
  }

  /** The entities before `i` have numbers up to `number`, and the others above. */
  predicate Divided(entities: seq<Entity>, i: nat, number: u16) {
    && i <= |entities|
    && (forall k :: 0 <= k < i ==> entities[k].number <= number)
    && (forall k :: i <= k < |entities| ==> number < entities[k].number)
  }

  predicate AllWireEqual(records: seq<Entity>, target: seq<Entity>) {
    |records| == |target| && forall i :: 0 <= i < |records| ==> WireEqual(records[i], target[i])
  }

  /** The action is called for by the two lists: nothing is added that the base
      has, nothing is removed that stays, nothing is changed that looks the same. */
  predicate Needed(base: seq<Entity>, target: seq<Entity>, a: Action) {
    match a
    case NewEntity(e) => e in target && forall k :: 0 <= k < |base| ==> base[k].number != e.number
    case RemoveEntity(_, e) => e in base && forall k :: 0 <= k < |target| ==> target[k].number != e.number
    case ChangeEntity(_, e, t) => e in base && t in target && !WireEqual(e, t)
  }

  /** Only a new entity at the start of the script can be out of order. */
  predicate InOrder(base: seq<Entity>, actions: seq<Action>, i: nat)
    requires i < |actions| && FitsAll(base, actions)
  {
    FitsPrefix(base, actions, i);
    actions[i].NewEntity? ==>
      (Replay(base, actions[..i]).number < actions[i].target.number
       <==> i != 0 || actions[0].target.number > 32)
  }

  /** A plan for the first `b` and `t` entities of the two lists. */
  ghost predicate Planned(base: seq<Entity>, target: seq<Entity>, b: nat, t: nat, actions: seq<Action>) {
    && FitsAll(base, actions) && b <= |base| && t <= |target|
    && var st := Replay(base, actions);
       && st.baseIndex == b && AllWireEqual(st.entities, target[..t])
       && (if actions == [] then b == t == 0 else Divided(base, b, st.number) && Divided(target, t, st.number))
       && (forall i :: 0 <= i < |actions| ==> Needed(base, target, actions[i]))
       && (forall i :: 0 <= i < |actions| ==> InOrder(base, actions, i))
  }

  /** The next `count` entities of both lists look the same. */
  predicate EqualRun(base: seq<Entity>, target: seq<Entity>, b: nat, t: nat, count: nat) {
    && b + count <= |base| && t + count <= |target|
    && AllWireEqual(base[b..b + count], target[t..t + count])
  }

  lemma CopiedRun(entities: seq<Entity>, base: seq<Entity>, target: seq<Entity>, b: nat, t: nat, count: nat)
    requires t <= |target| && AllWireEqual(entities, target[..t]) && EqualRun(base, target, b, t, count)
    ensures AllWireEqual(entities + base[b..b + count], target[..t + count])
    ensures forall e :: t + count < |target| && WireEqual(e, target[t + count]) ==>
              AllWireEqual(entities + base[b..b + count] + [e], target[..t + count + 1])
  {
    hide WireEqual;
    var copied := entities + base[b..b + count];
    assert target[..t + count] == target[..t] + target[t..t + count];
    if t + count < |target| {
      assert target[..t + count + 1] == target[..t + count] + [target[t + count]];
    }
  }

  /** Extends a plan by an action with the right effect. */
  lemma PlanNext(base: seq<Entity>, target: seq<Entity>, b: nat, t: nat, actions: seq<Action>, a: Action, b': nat,
                 t': nat)
    requires Planned(base, target, b, t, actions)
    requires Fits(base, Replay(base, actions), a) && Needed(base, target, a) && b' <= |base| && t' <= |target|
    requires a.NewEntity? && actions != [] ==> Replay(base, actions).number < a.target.number
    requires var next := Act(base, Replay(base, actions), a);
             && next.baseIndex == b' && AllWireEqual(next.entities, target[..t'])
             && Divided(base, b', next.number) && Divided(target, t', next.number)
    ensures Planned(base, target, b', t', actions + [a])
    ensures Replay(base, actions + [a]) == Act(base, Replay(base, actions), a)
  {
    hide Needed, Divided, AllWireEqual, Act, Fits;
    var longer := actions + [a];
    FitsSnoc(base, actions, a);
    forall i | 0 <= i < |longer|
      ensures InOrder(base, longer, i)
    {
      if i < |actions| {
        assert longer[..i] == actions[..i];
        assert InOrder(base, actions, i);
      } else {
        assert longer[..i] == actions;
      }
    }
  }

  lemma RunNumbers(base: seq<Entity>, target: seq<Entity>, b: nat, t: nat, count: nat)
    requires EqualRun(base, target, b, t, count)
    ensures forall i :: b <= i < b + count ==> base[i].number == target[i - b + t].number
    ensures forall j :: t <= j < t + count ==> target[j].number == base[j - t + b].number
  {
    forall i | b <= i < b + count
      ensures base[i].number == target[i - b + t].number
    {
      assert WireEqual(base[b..b + count][i - b], target[t..t + count][i - b]);
    }
    forall j | t <= j < t + count
      ensures target[j].number == base[j - t + b].number
    {
      assert WireEqual(base[b..b + count][j - t], target[t..t + count][j - t]);
    }
  }

  /** Where the two lists first differ, an entity of lower number on one side has
      no match on the other. */
  lemma NoMatch(listed: seq<Entity>, other: seq<Entity>, i: nat, o: nat, count: nat, number: u16, begun: bool)
    requires Ordered(listed) && Ordered(other) && i + count < |listed| && o + count <= |other|
    requires if begun then Divided(listed, i, number) && Divided(other, o, number) else i == o == 0
    requires forall j :: o <= j < o + count ==> other[j].number == listed[j - o + i].number
    requires o + count < |other| ==> listed[i + count].number < other[o + count].number
    ensures forall k :: 0 <= k < |other| ==> other[k].number != listed[i + count].number
    ensures forall k :: 0 <= k < o + count ==> other[k].number < listed[i + count].number
    ensures Divided(listed, i + count + 1, listed[i + count].number)
    ensures Divided(other, o + count, listed[i + count].number)
  {
  }

  lemma {:induction false} SkipTo(base: seq<Entity>, i: nat, j: nat, number: u16)
    requires i <= j <= |base| && (j < |base| ==> number <= base[j].number)
    requires forall k :: i <= k < j ==> base[k].number < number
    ensures SkipBelow(base, i, number) == j
  {
  }

  lemma PlannedFacts(base: seq<Entity>, target: seq<Entity>, b: nat, t: nat, actions: seq<Action>)
    requires Planned(base, target, b, t, actions)
    ensures FitsAll(base, actions) && b <= |base| && t <= |target|
    ensures var st := Replay(base, actions);
            && st.baseIndex == b && AllWireEqual(st.entities, target[..t])
            && (if actions == [] then b == t == 0 else Divided(base, b, st.number) && Divided(target, t, st.number))
  {
  }

  /** What the three actions after a run of equal entities do. */
  lemma NewEffect(base: seq<Entity>, target: seq<Entity>, b: nat, t: nat, count: nat, st: Stream, begun: bool)
    requires Ordered(base) && Ordered(target) && st.baseIndex == b && EqualRun(base, target, b, t, count)
    requires if begun then Divided(base, b, st.number) && Divided(target, t, st.number) else b == t == 0
    requires t + count < |target| && (b + count < |base| ==> target[t + count].number < base[b + count].number)
    ensures var e := target[t + count];
            && Fits(base, st, NewEntity(e)) && Needed(base, target, NewEntity(e))
            && Act(base, st, NewEntity(e)) == Stream(b + count, e.number, st.entities + base[b..b + count] + [Fresh(e)])
            && Divided(base, b + count, e.number) && Divided(target, t + count + 1, e.number)
            && (begun ==> st.number < e.number)
  {
    RunNumbers(base, target, b, t, count);
    NoMatch(target, base, t, b, count, st.number, begun);
    hide EqualRun, Ordered, Fresh;
    SkipTo(base, b, b + count, target[t + count].number);
  }

  lemma AddNew(base: seq<Entity>, target: seq<Entity>, b: nat, t: nat, count: nat, actions: seq<Action>)
    requires Ordered(base) && Ordered(target) && Planned(base, target, b, t, actions)
    requires EqualRun(base, target, b, t, count) && t + count < |target|
    requires b + count < |base| ==> target[t + count].number < base[b + count].number
    ensures Planned(base, target, b + count, t + count + 1, actions + [NewEntity(target[t + count])])
    ensures Replay(base, actions + [NewEntity(target[t + count])]).entities
            == Replay(base, actions).entities + base[b..b + count] + [Fresh(target[t + count])]
  {
    hide Planned, EqualRun, AllWireEqual, Divided, Ordered, Act, Fits, Needed, FitsAll, Replay;
    PlannedFacts(base, target, b, t, actions);
    var st, e := Replay(base, actions), target[t + count];
    NewEffect(base, target, b, t, count, st, actions != []);
    CopiedRun(st.entities, base, target, b, t, count);
    PlanNext(base, target, b, t, actions, NewEntity(e), b + count, t + count + 1);
  }

  lemma RemoveEffect(base: seq<Entity>, target: seq<Entity>, b: nat, t: nat, count: nat, st: Stream, begun: bool)
    requires Ordered(base) && Ordered(target) && st.baseIndex == b && EqualRun(base, target, b, t, count)
    requires if begun then Divided(base, b, st.number) && Divided(target, t, st.number) else b == t == 0
    requires b + count < |base| && (t + count < |target| ==> base[b + count].number < target[t + count].number)
    ensures var a := RemoveEntity(count + 1, base[b + count]);
            && Fits(base, st, a) && Needed(base, target, a)
            && Act(base, st, a) == Stream(b + count + 1, a.base.number, st.entities + base[b..b + count])
            && Divided(base, b + count + 1, a.base.number) && Divided(target, t + count, a.base.number)
  {
    RunNumbers(base, target, b, t, count);
    NoMatch(base, target, b, t, count, st.number, begun);
  }

  lemma AddRemove(base: seq<Entity>, target: seq<Entity>, b: nat, t: nat, count: nat, actions: seq<Action>)
    requires Ordered(base) && Ordered(target) && Planned(base, target, b, t, actions)
    requires EqualRun(base, target, b, t, count) && b + count < |base|
    requires t + count < |target| ==> base[b + count].number < target[t + count].number
    ensures Planned(base, target, b + count + 1, t + count, actions + [RemoveEntity(count + 1, base[b + count])])
    ensures Replay(base, actions + [RemoveEntity(count + 1, base[b + count])]).entities
            == Replay(base, actions).entities + base[b..b + count]
  {
    hide Planned, EqualRun, AllWireEqual, Divided, Ordered, Act, Fits, Needed, FitsAll, Replay;
    PlannedFacts(base, target, b, t, actions);
    var st, a := Replay(base, actions), RemoveEntity(count + 1, base[b + count]);
    RemoveEffect(base, target, b, t, count, st, actions != []);
    CopiedRun(st.entities, base, target, b, t, count);
    PlanNext(base, target, b, t, actions, a, b + count + 1, t + count);
  }

  lemma ChangeEffect(base: seq<Entity>, target: seq<Entity>, b: nat, t: nat, count: nat, st: Stream)
    requires Ordered(base) && Ordered(target) && st.baseIndex == b && EqualRun(base, target, b, t, count)
    requires b + count < |base| && t + count < |target|
    requires base[b + count].number == target[t + count].number && !WireEqual(base[b + count], target[t + count])
    ensures var a := ChangeEntity(count + 1, base[b + count], target[t + count]);
            && Fits(base, st, a) && Needed(base, target, a) && WireEqual(Changed(a.base, a.target), a.target)
            && Act(base, st, a) == Stream(b + count + 1, a.base.number,
                                          st.entities + base[b..b + count] + [Changed(a.base, a.target)])
            && Divided(base, b + count + 1, a.base.number) && Divided(target, t + count + 1, a.base.number)
  {
  }

  lemma AddChange(base: seq<Entity>, target: seq<Entity>, b: nat, t: nat, count: nat, actions: seq<Action>)
    requires Ordered(base) && Ordered(target) && Planned(base, target, b, t, actions)
    requires EqualRun(base, target, b, t, count) && b + count < |base| && t + count < |target|
    requires base[b + count].number == target[t + count].number && !WireEqual(base[b + count], target[t + count])
    ensures var a := ChangeEntity(count + 1, base[b + count], target[t + count]);
            && Planned(base, target, b + count + 1, t + count + 1, actions + [a])
            && Replay(base, actions + [a]).entities
               == Replay(base, actions).entities + base[b..b + count] + [Changed(a.base, a.target)]
  {
    hide Planned, EqualRun, AllWireEqual, Divided, Ordered, Act, Fits, Needed, FitsAll, Replay, Changed, WireEqual;
    PlannedFacts(base, target, b, t, actions);
    var st, a := Replay(base, actions), ChangeEntity(count + 1, base[b + count], target[t + count]);
    ChangeEffect(base, target, b, t, count, st);
    CopiedRun(st.entities, base, target, b, t, count);
    PlanNext(base, target, b, t, actions, a, b + count + 1, t + count + 1);
  }

  /** A plan for all entities is what the caller wants. */
  lemma PlanDone(base: seq<Entity>, target: seq<Entity>, b: nat, t: nat, count: nat, actions: seq<Action>)
    requires Planned(base, target, b, t, actions) && EqualRun(base, target, b, t, count)
    requires b + count == |base| && t + count == |target|
    ensures FitsAll(base, actions) && Outcome(base, Replay(base, actions)) == Replay(base, actions).entities + base[b..]
    ensures AllWireEqual(Outcome(base, Replay(base, actions)), target)
    ensures forall i :: 0 <= i < |actions| ==> Needed(base, target, actions[i]) && InOrder(base, actions, i)
  {
    hide Needed, InOrder, Divided, WireEqual;
    CopiedRun(Replay(base, actions).entities, base, target, b, t, count);
    assert base[b..b + count] == base[b..] && target[..t + count] == target;
  }

  /** How many entities look the same in both lists, from `b` and `t` on. */
  function EqualCount(base: seq<Entity>, target: seq<Entity>, b: nat, t: nat): (count: nat)
    requires b <= |base| && t <= |target|
    ensures b + count <= |base| && t + count <= |target|
    decreases |base| - b
  {
    if b < |base| && t < |target| && WireEqual(base[b], target[t])
    then 1 + EqualCount(base, target, b + 1, t + 1)
    else 0
  }

  /** The action after a run of equal entities: the two lists are merged by number. */
  function NextAction(base: seq<Entity>, target: seq<Entity>, baseAt: nat, targetAt: nat, run: nat): (a: Action)
    requires baseAt <= |base| && targetAt <= |target| && (baseAt < |base| || targetAt < |target|)
    ensures (a.RemoveEntity? || targetAt < |target|) && (a.NewEntity? || baseAt < |base|)
  {
    if targetAt < |target| && (baseAt == |base| || target[targetAt].number < base[baseAt].number) then
      NewEntity(target[targetAt])
    else if targetAt == |target| || base[baseAt].number < target[targetAt].number then
      RemoveEntity(run, base[baseAt])
    else
      ChangeEntity(run, base[baseAt], target[targetAt])
  }

  /** The script for the entities from `b` and `t` on. */
  function PlanFrom(base: seq<Entity>, target: seq<Entity>, b: nat, t: nat): seq<Action>
    requires b <= |base| && t <= |target|
    decreases |base| + |target| - b - t
  {
    var count := EqualCount(base, target, b, t);
    var baseAt, targetAt := b + count, t + count;
    if baseAt == |base| && targetAt == |target| then []
    else
      var a := NextAction(base, target, baseAt, targetAt, count + 1);
      [a] + PlanFrom(base, target, if a.NewEntity? then baseAt else baseAt + 1,
                     if a.RemoveEntity? then targetAt else targetAt + 1)
  }

  function Plan(base: seq<Entity>, target: seq<Entity>): seq<Action> {
    PlanFrom(base, target, 0, 0)
  }

  lemma {:induction false} EqualCountEach(base: seq<Entity>, target: seq<Entity>, b: nat, t: nat)
    requires b <= |base| && t <= |target|
    ensures var count := EqualCount(base, target, b, t);
            && (forall k :: b <= k < b + count ==> WireEqual(base[k], target[k - b + t]))
            && (b + count < |base| && t + count < |target| ==> !WireEqual(base[b + count], target[t + count]))
    decreases |base| - b
  {
    hide WireEqual;
    if b < |base| && t < |target| && WireEqual(base[b], target[t]) {
      EqualCountEach(base, target, b + 1, t + 1);
    }
  }

  lemma EqualCountRun(base: seq<Entity>, target: seq<Entity>, b: nat, t: nat)
    requires b <= |base| && t <= |target|
    ensures var count := EqualCount(base, target, b, t);
            && EqualRun(base, target, b, t, count)
            && (b + count < |base| && t + count < |target| ==> !WireEqual(base[b + count], target[t + count]))
  {
    hide WireEqual, EqualCount;
    EqualCountEach(base, target, b, t);
  }

  lemma PlanFromEnds(base: seq<Entity>, target: seq<Entity>, b: nat, t: nat, count: nat)
    requires b <= |base| && t <= |target| && count == EqualCount(base, target, b, t)
    requires b + count == |base| && t + count == |target|
    ensures PlanFrom(base, target, b, t) == []
  {
    hide EqualCount;
  }

  /** The script from the action after the next one on. */
  function PlanAfter(base: seq<Entity>, target: seq<Entity>, baseAt: nat, targetAt: nat, a: Action): seq<Action>
    requires baseAt <= |base| && targetAt <= |target|
    requires (a.RemoveEntity? || targetAt < |target|) && (a.NewEntity? || baseAt < |base|)
  {
    PlanFrom(base, target, if a.NewEntity? then baseAt else baseAt + 1,
             if a.RemoveEntity? then targetAt else targetAt + 1)
  }

  /** One turn of the planning loop that does not end it. */
  lemma PlanFromStep(base: seq<Entity>, target: seq<Entity>, b: nat, t: nat, count: nat, actions: seq<Action>,
                     a: Action)
    requires b <= |base| && t <= |target| && count == EqualCount(base, target, b, t)
    requires b + count < |base| || t + count < |target|
    requires a == NextAction(base, target, b + count, t + count, count + 1)
    ensures actions + PlanFrom(base, target, b, t) == actions + [a] + PlanAfter(base, target, b + count, t + count, a)
  {
    hide EqualCount, NextAction;
    assert PlanFrom(base, target, b, t) == [a] + PlanAfter(base, target, b + count, t + count, a);
    hide PlanFrom, PlanAfter;
    Regroup(actions, [a], PlanAfter(base, target, b + count, t + count, a));
  }

  /** The actions lead from the base to what the target shows, and each is called for. */
  ghost predicate Leads(base: seq<Entity>, target: seq<Entity>, actions: seq<Action>) {
    && FitsAll(base, actions) && AllWireEqual(Outcome(base, Replay(base, actions)), target)
    && forall i :: 0 <= i < |actions| ==> Needed(base, target, actions[i]) && InOrder(base, actions, i)
  }

  /** A plan for the first entities, continued for the others, leads to the target. */
  lemma {:induction false} PlanContinues(base: seq<Entity>, target: seq<Entity>, b: nat, t: nat, actions: seq<Action>)
    requires Ordered(base) && Ordered(target) && b <= |base| && t <= |target| && Planned(base, target, b, t, actions)
    ensures Leads(base, target, actions + PlanFrom(base, target, b, t))
    decreases |base| + |target| - b - t
  {
    hide Needed, InOrder, Divided, WireEqual, AllWireEqual, Ordered, Planned, FitsAll, Replay, Outcome, EqualRun,
         EqualCount, Changed, Fresh, Act, Fits;
    EqualCountRun(base, target, b, t);
    var count := EqualCount(base, target, b, t);
    var baseAt, targetAt := b + count, t + count;
    if baseAt == |base| && targetAt == |target| {
      PlanDone(base, target, b, t, count, actions);
      PlanFromEnds(base, target, b, t, count);
      assert Leads(base, target, actions) && actions + [] == actions;
    } else {
      var a := NextAction(base, target, baseAt, targetAt, count + 1);
      PlanFromStep(base, target, b, t, count, actions, a);
      hide PlanFrom, Leads;
      match a {
        case NewEntity(_) =>
          AddNew(base, target, b, t, count, actions);
          PlanContinues(base, target, baseAt, targetAt + 1, actions + [a]);
        case RemoveEntity(_, _) =>
          AddRemove(base, target, b, t, count, actions);
          PlanContinues(base, target, baseAt + 1, targetAt, actions + [a]);
        case ChangeEntity(_, _, _) =>
          AddChange(base, target, b, t, count, actions);
          PlanContinues(base, target, baseAt + 1, targetAt + 1, actions + [a]);
      }
    }
  }

  /** The plan fits, and what it leads to shows what the target shows. Nothing in it
      is superfluous, and only a new entity at its start can be out of order. */
  lemma PlanWorks(base: seq<Entity>, target: seq<Entity>)
    requires Ordered(base) && Ordered(target)
    ensures var actions := Plan(base, target);
            && FitsAll(base, actions) && AllWireEqual(Outcome(base, Replay(base, actions)), target)
            && forall i :: 0 <= i < |actions| ==> Needed(base, target, actions[i]) && InOrder(base, actions, i)
  {
    hide Needed, InOrder, AllWireEqual, Ordered, Planned, FitsAll, Replay, Outcome, PlanFrom;
    NothingPlanned(base, target);
    PlanContinues(base, target, 0, 0, []);
    assert [] + Plan(base, target) == Plan(base, target);
  }

  /** Plans a script that leads from `base` to what `target` shows; `records` are
      the entities, with their history, that the encoder keeps. */
  method PlanPacketEntities(base: seq<Entity>, target: seq<Entity>) returns (actions: seq<Action>, records: seq<Entity>)
    requires Ordered(base) && Ordered(target)
    ensures actions == Plan(base, target)
    ensures FitsAll(base, actions) && records == Outcome(base, Replay(base, actions)) && AllWireEqual(records, target)
    ensures forall i :: 0 <= i < |actions| ==> Needed(base, target, actions[i]) && InOrder(base, actions, i)
  {
    hide Needed, InOrder, Divided, Changed, WireEqual, AllWireEqual, Ordered, Planned, FitsAll, Replay, Outcome,
         EqualCount, EqualRun, PlanFrom;
    actions, records := [], [];
    var b: nat, t: nat := 0, 0;
    NothingPlanned(base, target);
    while true
      invariant Planned(base, target, b, t, actions) && FitsAll(base, actions) && b <= |base| && t <= |target|
      invariant records == Replay(base, actions).entities
      invariant actions + PlanFrom(base, target, b, t) == Plan(base, target)
      decreases |base| + |target| - b - t
    {
      var count := CountEqual(base, target, b, t);
      var baseAt, targetAt := b + count, t + count;
      if baseAt == |base| && targetAt == |target| {
        EqualCountRun(base, target, b, t);
        PlanDone(base, target, b, t, count, actions);
        PlanFromEnds(base, target, b, t, count);
        records := records + base[b..];
        return;
      }
      EqualCountRun(base, target, b, t);
      PlanFromStep(base, target, b, t, count, actions, NextAction(base, target, baseAt, targetAt, count + 1));
      records := records + base[b..baseAt];
      if targetAt < |target| && (baseAt == |base| || target[targetAt].number < base[baseAt].number) {
        AddNew(base, target, b, t, count, actions);
        actions := actions + [NewEntity(target[targetAt])];
        records := records + [Fresh(target[targetAt])];
        b, t := baseAt, targetAt + 1;
      } else if baseAt < |base| && (targetAt == |target| || base[baseAt].number < target[targetAt].number) {
        AddRemove(base, target, b, t, count, actions);
        actions := actions + [RemoveEntity(count + 1, base[baseAt])];
        b, t := baseAt + 1, targetAt;
      } else {
        AddChange(base, target, b, t, count, actions);
        actions := actions + [ChangeEntity(count + 1, base[baseAt], target[targetAt])];
        records := records + [Changed(base[baseAt], target[targetAt])];
        b, t := baseAt + 1, targetAt + 1;
      }
      PlannedFacts(base, target, b, t, actions);
    }
  }

  method CountEqual(base: seq<Entity>, target: seq<Entity>, b: nat, t: nat) returns (count: nat)
    requires b <= |base| && t <= |target|
    ensures count == EqualCount(base, target, b, t)
  {
    count := 0;
    while b + count < |base| && t + count < |target| && WireEqual(base[b + count], target[t + count])
      invariant b + count <= |base| && t + count <= |target|
      invariant count + EqualCount(base, target, b + count, t + count) == EqualCount(base, target, b, t)
      decreases |base| - count
    {
      count := count + 1;
    }
  }

  lemma NothingPlanned(base: seq<Entity>, target: seq<Entity>)
    ensures Planned(base, target, 0, 0, []) && FitsAll(base, []) && Replay(base, []).entities == []
  {
  }

  /** No run is longer than the base list. */
  lemma RunsFitBase(base: seq<Entity>, actions: seq<Action>)
    requires FitsAll(base, actions)
    ensures forall i :: 0 <= i < |actions| && !actions[i].NewEntity? ==> 1 <= actions[i].run <= |base|
  {
    hide FitsAll, Replay;
    forall i | 0 <= i < |actions| && !actions[i].NewEntity?
      ensures 1 <= actions[i].run <= |base|
    {
      FitsPrefix(base, actions, i);
    }
  }

  /** A planned script can be encoded exactly when it does not start with a new
      entity whose number a player could have, and no change comes after a run
      longer than 286 unchanged entities. */
  lemma PlanEncodable(base: seq<Entity>, actions: seq<Action>)
    requires FitsAll(base, actions) && forall i :: 0 <= i < |actions| ==> InOrder(base, actions, i)
    ensures AllEncodable(base, actions) <==>
              && (actions != [] && actions[0].NewEntity? ==> actions[0].target.number > 32)
              && (forall i :: 0 <= i < |actions| && actions[i].ChangeEntity? ==> actions[i].run <= MAX_CHANGE_RUN)
  {
    hide FitsAll, Replay;
    forall i | 0 <= i < |actions|
      ensures EncodableAt(base, actions, i) <==>
                && (i == 0 && actions[0].NewEntity? ==> actions[0].target.number > 32)
                && (actions[i].ChangeEntity? ==> actions[i].run <= MAX_CHANGE_RUN)
    {
      FitsPrefix(base, actions, i);
      assert InOrder(base, actions, i);
    }
    hide EncodableAt, InOrder;
    if AllEncodable(base, actions) {
      assert actions != [] ==> EncodableAt(base, actions, 0);
      forall i | 0 <= i < |actions| && actions[i].ChangeEntity?
        ensures actions[i].run <= MAX_CHANGE_RUN
      {
        assert EncodableAt(base, actions, i);
      }
    }
  }

  /** Sixty-four blank entities, numbered from 33. */
  function SixtyFour(): (base: seq<Entity>)
    ensures |base| == 64
  {
    seq(64, i requires 0 <= i < 64 => Blank(33 + i))
  }

  /** Removing only the last of 64 entities is planned as one action, whose token
      the decoder takes for a change after a long run: it loses its step. */
  lemma LongRemovalIsLost(ctx: Context)
    requires Usable(ctx)
    ensures var actions := [RemoveEntity(64, SixtyFour()[63])];
            && Plan(SixtyFour(), SixtyFour()[..63]) == actions
            && FitsAll(SixtyFour(), actions) && AllEncodable(SixtyFour(), actions)
            && AllWireEqual(Outcome(SixtyFour(), Replay(SixtyFour(), actions)), SixtyFour()[..63])
            && ParseScript(ctx, SixtyFour(), START, ScriptTokens(ctx, SixtyFour(), actions, 0)).Stopped?
  {
    hide Usable, ParseScript, PlanFrom, Blank;
    var base, removed := SixtyFour(), RemoveEntity(64, SixtyFour()[63]);
    var actions := [removed];
    LongRemovalIsPlanned(base);
    LongRemovalFits(base, removed);
    var tokens := ScriptTokens(ctx, base, actions, 0);
    assert actions[..0] == [];
    assert ScriptTokens(ctx, base, actions, 1) == [Token(EntitySymbol, 0)];
    assert ActionTokens(ctx, removed, Replay(base, actions[..0])) == [Token(EntitySymbol, 64)];
    assert tokens == [Token(EntitySymbol, 64), Token(EntitySymbol, 0)];
    BlankAt(31);
    MisreadRemoval(ctx, base);
  }

  lemma BlankAt(i: nat)
    requires i < 64
    ensures SixtyFour()[i] == Blank(33 + i)
  {
  }

  lemma LongRemovalFits(base: seq<Entity>, removed: Action)
    requires |base| == 64 && removed == RemoveEntity(64, base[63])
    ensures FitsAll(base, [removed]) && AllEncodable(base, [removed])
    ensures Outcome(base, Replay(base, [removed])) == base[..63]
    ensures AllWireEqual(base[..63], base[..63])
  {
    assert [removed][..0] == [] && [removed][..1] == [removed];
    assert Fits(base, START, removed);
    assert EncodableAt(base, [removed], 0);
  }

  /** All but the last are equal to themselves. */
  lemma {:induction false} EqualToFront(base: seq<Entity>, b: nat)
    requires base != [] && b < |base|
    ensures EqualCount(base, base[..|base| - 1], b, b) == |base| - 1 - b
    decreases |base| - b
  {
    if b < |base| - 1 {
      EqualToFront(base, b + 1);
    }
  }

  lemma LongRemovalIsPlanned(base: seq<Entity>)
    requires |base| == 64
    ensures Plan(base, base[..63]) == [RemoveEntity(64, base[63])]
  {
    var target, a := base[..63], RemoveEntity(64, base[63]);
    EqualToFront(base, 0);
    NothingEqual(base, target, 64);
    hide PlanFrom, EqualCount, WireEqual;
    assert NextAction(base, target, 63, 63, 64) == a;
    PlanFromStep(base, target, 0, 0, 63, [], a);
    PlanFromEnds(base, target, 64, 63, 0);
    assert [] + Plan(base, target) == Plan(base, target) && [] + [a] + [] == [a];
  }

  lemma NothingEqual(base: seq<Entity>, target: seq<Entity>, b: nat)
    requires b <= |base|
    ensures EqualCount(base, target, b, |target|) == 0
  {
  }

  lemma MisreadRemoval(ctx: Context, base: seq<Entity>)
    requires Usable(ctx) && |base| == 64 && base[31] == Blank(64)
    ensures ParseScript(ctx, base, START, [Token(EntitySymbol, 64), Token(EntitySymbol, 0)]).Stopped?
  {
    hide Usable, ParseChange;
    var tokens := [Token(EntitySymbol, 64), Token(EntitySymbol, 0)];
    assert tokens[1..] == [Token(EntitySymbol, 0)];
    assert ParseRun(tokens[1..], 64) == Parsed(32, []) by {
      assert tokens[1..][1..] == [];
    }
    var p := ParseRound(ctx, base, START, tokens);
    assert p == ParseBaseRound(ctx, base, START, 64, tokens[1..]);
    if p.Parsed? {
      assert p.value.More? && p.rest == [];
    }
  }
}
