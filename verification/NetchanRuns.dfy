/** Safety of the reliable channel over whole runs, and progress from every
    reachable state. */
module NetchanRuns {
  import opened Words
  import opened Sequencer
  import opened Netchan

  function Initial(firstA: u32, firstB: u32, pingA: int, pingB: int): Net {
    Net(Start(firstA, pingA), Start(firstB, pingB), [], [])
  }

  /** Every step of the run is enabled when its turn comes. */
  predicate Possible(n: Net, steps: seq<Step>)
    decreases |steps|
  {
    steps == [] || (Enabled(n, steps[0]) && Possible(Next(n, steps[0]), steps[1..]))
  }

  function After(n: Net, steps: seq<Step>): Net
    requires Possible(n, steps)
    decreases |steps|
  {
    if steps == [] then n else After(Next(n, steps[0]), steps[1..])
  }

  ghost predicate Inv(n: Net, firstA: nat, firstB: nat) {
    && Link(n.a, n.b, n.ab, n.ba, firstA, firstB)
    && Link(n.b, n.a, n.ba, n.ab, firstB, firstA)
  }

  lemma InitialInv(firstA: u32, firstB: u32, pingA: int, pingB: int)
    requires firstA <= 0x4000_0000 && firstB <= 0x4000_0000
    ensures Inv(Initial(firstA, firstB, pingA, pingB), firstA, firstB)
  {
  }

  lemma StepKeepsInv(n: Net, step: Step, firstA: nat, firstB: nat)
    requires Inv(n, firstA, firstB) && Enabled(n, step)
    ensures Inv(Next(n, step), firstA, firstB)
  {
    hide Link, Send, Receive;
    match step
    case SendA(cmds, elapsed) =>
      SenderSends(n.a, n.b, n.ab, n.ba, firstA, firstB, cmds, elapsed);
      ReceiverSends(n.b, n.a, n.ba, n.ab, firstB, firstA, cmds, elapsed);
    case SendB(cmds, elapsed) =>
      SenderSends(n.b, n.a, n.ba, n.ab, firstB, firstA, cmds, elapsed);
      ReceiverSends(n.a, n.b, n.ab, n.ba, firstA, firstB, cmds, elapsed);
    case DeliverToA(i) =>
      SenderReceives(n.a, n.b, n.ab, n.ba, firstA, firstB, i);
      ReceiverReceives(n.b, n.a, n.ba, n.ab, firstB, firstA, i);
    case DeliverToB(i) =>
      ReceiverReceives(n.a, n.b, n.ab, n.ba, firstA, firstB, i);
      SenderReceives(n.b, n.a, n.ba, n.ab, firstB, firstA, i);
    case PassToA(seqWord, ackWord) =>
      PassChangesNothing(n.a, n.b, n.ab, n.ba, firstA, firstB, seqWord, ackWord);
    case PassToB(seqWord, ackWord) =>
      PassChangesNothing(n.b, n.a, n.ba, n.ab, firstB, firstA, seqWord, ackWord);
  }

  lemma {:induction false} RunKeepsInv(n: Net, steps: seq<Step>, firstA: nat, firstB: nat)
    requires Inv(n, firstA, firstB) && Possible(n, steps)
    ensures Inv(After(n, steps), firstA, firstB)
    decreases |steps|
  {
    hide Inv, Enabled, Next;
    if steps != [] {
      StepKeepsInv(n, steps[0], firstA, firstB);
      RunKeepsInv(Next(n, steps[0]), steps[1..], firstA, firstB);
    }
  }

  lemma {:induction false} FlattenPrefix(batches: seq<Batch>, k: nat)
    requires k <= |batches|
    ensures Flatten(batches[..k]) <= Flatten(batches)
  {
    if k == |batches| {
      assert batches[..k] == batches;
    } else {
      var n := |batches| - 1;
      FlattenPrefix(batches[..n], k);
      assert batches[..n][..k] == batches[..k];
    }
  }

  /** What a sender and its receiver can rely on at any moment: the batches the
      receiver has accepted are, in order and each once, the first ones the
      sender formed; the send buffer is empty exactly when the stored
      acknowledgement bit equals the outgoing bit; and an empty buffer means
      that everything formed has been accepted. */
  ghost predicate Reliable(s: Peer, r: Peer) {
    && r.delivered <= s.batches && |s.batches| <= |r.delivered| + 1
    && Flatten(r.delivered) <= s.queued
    && (s.channel.outgoingCommandsBuf == [] <==>
        s.channel.isIncomingAckReliable == s.channel.isOutgoingSeqReliable)
    && (s.channel.outgoingCommandsBuf == [] ==> r.delivered == s.batches)
    && (s.channel.outgoingCommandsBuf != [] ==>
        s.batches != [] && s.channel.outgoingCommandsBuf == s.batches[|s.batches| - 1])
    && (s.channel.outgoingCommandsBuf == [] && s.channel.outgoingCommands == [] ==>
        Flatten(r.delivered) == s.queued)
  }

  lemma LinkIsReliable(s: Peer, r: Peer, out: seq<Sent>, back: seq<Sent>, first: nat, backFirst: nat)
    requires Link(s, r, out, back, first, backFirst)
    ensures Reliable(s, r)
  {
    FlattenPrefix(s.batches, |r.delivered|);
  }

  /** The main safety result, for both directions of every run. */
  lemma ReliableDelivery(firstA: u32, firstB: u32, pingA: int, pingB: int, steps: seq<Step>)
    requires firstA <= 0x4000_0000 && firstB <= 0x4000_0000
    requires Possible(Initial(firstA, firstB, pingA, pingB), steps)
    ensures var n := After(Initial(firstA, firstB, pingA, pingB), steps);
            Reliable(n.a, n.b) && Reliable(n.b, n.a)
  {
    hide Reliable, Possible, After, Link, Initial;
    var n := After(Initial(firstA, firstB, pingA, pingB), steps);
    InitialInv(firstA, firstB, pingA, pingB);
    RunKeepsInv(Initial(firstA, firstB, pingA, pingB), steps, firstA, firstB);
    LinkIsReliable(n.a, n.b, n.ab, n.ba, firstA, firstB);
    LinkIsReliable(n.b, n.a, n.ba, n.ab, firstB, firstA);
  }

  /** Over every run, a timeout at an end whose peer counts from 1 changes nothing:
      the read loop may hand on (0, 0) whenever it likes. */
  lemma TimeoutsAreHarmless(firstA: u32, firstB: u32, pingA: int, pingB: int, steps: seq<Step>)
    requires firstA <= 0x4000_0000 && 1 <= firstB <= 0x4000_0000
    requires Possible(Initial(firstA, firstB, pingA, pingB), steps)
    ensures var n := After(Initial(firstA, firstB, pingA, pingB), steps);
            Enabled(n, PassToA(0, 0)) && Next(n, PassToA(0, 0)) == n
  {
    hide Possible, After, Link, Initial, Unfiltered;
    var n := After(Initial(firstA, firstB, pingA, pingB), steps);
    InitialInv(firstA, firstB, pingA, pingB);
    RunKeepsInv(Initial(firstA, firstB, pingA, pingB), steps, firstA, firstB);
    TimeoutIsUnfiltered(n.a, n.b, n.ab, n.ba, firstA, firstB);
    PassChangesNothing(n.a, n.b, n.ab, n.ba, firstA, firstB, 0, 0);
  }

  /** The first batch of `a` has reached `b`. */
  predicate FirstArrived(n: Net, one: Command) {
    && n.a.filter == Filter(false, 0) && n.b.filter == Filter(true, 0) && n.b.delivered == [[one]]
    && n.a.channel == Channel(Disconnected, 0, 0, 0, 1, 1, false, true, false, [], [one])
    && n.b.channel == Channel(Connected, 0, 0, 0, 0, 0, false, false, true, [], [])
    && |n.ab| == 1 && n.ba == []
  }

  lemma SendsFirst(one: Command)
    ensures var n := Initial(0, 0, 0, 0);
            && Enabled(n, SendA([one], 0)) && Enabled(Next(n, SendA([one], 0)), DeliverToB(0))
            && FirstArrived(Next(Next(n, SendA([one], 0)), DeliverToB(0)), one)
  {
    assert [] + [one] == [one];
    var n := Next(Initial(0, 0, 0, 0), SendA([one], 0));
    assert n.ab == [Sent(Packet(RELIABLE_BIT, 0, [one]), 0)];
  }

  /** Its acknowledgement has come back in packet 0. */
  predicate FirstAnswered(n: Net, one: Command) {
    && n.b.delivered == [[one]]
    && n.a.channel == Channel(Connected, 0, 0, 0, 1, 1, true, true, false, [], [])
    && |n.ab| == 1
  }

  lemma AnswersFirst(n: Net, one: Command)
    requires FirstArrived(n, one)
    ensures Enabled(n, SendB([], 0)) && Enabled(Next(n, SendB([], 0)), DeliverToA(0))
    ensures FirstAnswered(Next(Next(n, SendB([], 0)), DeliverToA(0)), one)
  {
    var m := Next(n, SendB([], 0));
    assert m.ba == [Sent(Packet(0, RELIABLE_BIT, []), 1)];
  }

  lemma SendsSecond(n: Net, one: Command, two: Command)
    requires FirstAnswered(n, one)
    ensures Enabled(n, SendA([two], 0))
    ensures var m := Next(n, SendA([two], 0));
            && m.b.delivered == [[one]] && m.a.channel.outgoingCommandsBuf == [two]
            && Pass(m.a, 0, 0).channel.outgoingCommandsBuf == []
  {
    assert [] + [two] == [two];
  }

  /** If the peer counts from 0 they are not: after its packet 0 the second batch, still
      outstanding, is dropped by the words (0, 0). */
  lemma TimeoutDropsBatch(one: Command, two: Command) returns (steps: seq<Step>)
    ensures Possible(Initial(0, 0, 0, 0), steps)
    ensures var n := After(Initial(0, 0, 0, 0), steps);
            && n.b.delivered == [[one]] && n.a.channel.outgoingCommandsBuf == [two]
            && Pass(n.a, 0, 0).channel.outgoingCommandsBuf == []
  {
    hide Next, Enabled, Initial, FirstArrived, FirstAnswered, Pass;
    var n := Initial(0, 0, 0, 0);
    var first, answer := [SendA([one], 0), DeliverToB(0)], [SendB([], 0), DeliverToA(0)];
    SendsFirst(one);
    TwoSteps(n, SendA([one], 0), DeliverToB(0));
    var arrived := After(n, first);
    AnswersFirst(arrived, one);
    TwoSteps(arrived, SendB([], 0), DeliverToA(0));
    var answered := After(arrived, answer);
    SendsSecond(answered, one, two);
    OneStep(answered, SendA([two], 0));
    AfterBoth(n, first, answer);
    AfterBoth(n, first + answer, [SendA([two], 0)]);
    steps := first + answer + [SendA([two], 0)];
  }

  lemma OneStep(n: Net, step: Step)
    requires Enabled(n, step)
    ensures Possible(n, [step]) && After(n, [step]) == Next(n, step)
  {
    hide Enabled, Next;
    assert [step][0] == step && [step][1..] == [];
  }

  // ----- Progress ----------------------------------------------------------

  /** One packet each way, neither of them lost: the packets with index `i` of the
      one direction and `j` of the other. */
  function RoundSteps(pingA: int, pingB: int, i: nat, j: nat): seq<Step> {
    [SendA([], pingA), DeliverToB(i), SendB([], pingB), DeliverToA(j)]
  }

  function Rounds(pingA: int, pingB: int, i: nat, j: nat, count: nat): seq<Step>
    decreases count
  {
    if count == 0 then []
    else RoundSteps(pingA, pingB, i, j) + Rounds(pingA, pingB, i + 1, j + 1, count - 1)
  }

  function Quiet(n: Net, count: nat): seq<Step> {
    Rounds(n.a.channel.ping, n.b.channel.ping, |n.ab|, |n.ba|, count)
  }

  lemma {:induction false} AfterBoth(n: Net, first: seq<Step>, second: seq<Step>)
    requires Possible(n, first) && Possible(After(n, first), second)
    ensures Possible(n, first + second)
    ensures After(n, first + second) == After(After(n, first), second)
    decreases |first|
  {
    hide Enabled, Next;
    if first == [] {
      assert first + second == second;
    } else {
      assert (first + second)[0] == first[0] && (first + second)[1..] == first[1..] + second;
      AfterBoth(Next(n, first[0]), first[1..], second);
    }
  }

  /** The newest packet is admitted, and its acknowledgement is taken over. */
  lemma NewestIsAdmitted(r: Peer, packet: Packet, first: nat)
    requires first <= Masked(packet.seqWord) < first + 0x4000_0000
    requires r.filter.received ==> first <= r.filter.incoming < Masked(packet.seqWord)
    requires r.channel.incomingSeq == (if r.filter.received then r.filter.incoming else 0)
    ensures var q := Receive(r, packet);
            && q.channel.incomingSeq == Masked(packet.seqWord)
            && q.channel.incomingAck == Masked(packet.ackWord)
            && q.channel.isIncomingAckReliable == IsReliable(packet.ackWord)
            && q.delivered == (if IsReliable(packet.seqWord) then r.delivered + [packet.commands] else r.delivered)
            && q.batches == r.batches && q.queued == r.queued
            && q.channel.ping == r.channel.ping
            && q.channel.outgoingSeq == r.channel.outgoingSeq
            && q.channel.lastReliableSeq == r.channel.lastReliableSeq
            && q.channel.outgoingCommands == r.channel.outgoingCommands
            && q.channel.isOutgoingSeqReliable == r.channel.isOutgoingSeqReliable
  {
    AdmitsNewer(r.filter, packet.seqWord, first);
  }

  /** The net in the middle of a round: `a` has sent and `b` has received. */
  function Midway(n: Net): Net
    requires |n.ab| < 0x3fff_ffff
  {
    var (p, sent) := Send(n.a, [], n.a.channel.ping);
    if sent.None? then n
    else n.(a := p, ab := n.ab + [sent.value], b := Receive(n.b, sent.value.packet))
  }

  /** What the first half of a round does. An idle buffer takes up and delivers
      everything queued, a packet known to be lost is delivered, and otherwise
      nothing reliable is sent. */
  lemma FirstHalf(n: Net, firstA: nat, firstB: nat)
    requires Inv(n, firstA, firstB) && |n.ab| < 0x3fff_ffff
    ensures var m, first := Midway(n), [SendA([], n.a.channel.ping), DeliverToB(|n.ab|)];
            && Possible(n, first) && After(n, first) == m
            && |m.ab| == |n.ab| + 1 && m.ba == n.ba
            && m.a.queued == n.a.queued && m.a.filter == n.a.filter
            && m.a.channel.ping == n.a.channel.ping && m.b.channel.ping == n.b.channel.ping
            && m.a.channel.outgoingSeq == n.a.channel.outgoingSeq + 1
            && m.b.channel.incomingSeq == n.a.channel.outgoingSeq
            && (n.a.channel.outgoingCommandsBuf == [] ==>
                m.a.channel.outgoingCommands == [] && |m.b.delivered| == |m.a.batches|)
            && (KnownLost(n.a.channel) ==> |m.b.delivered| == |m.a.batches|)
            && (|m.b.delivered| != |m.a.batches| ==>
                m.a.channel.lastReliableSeq == n.a.channel.lastReliableSeq)
  {
    var cmds: seq<Command>, ping := [], n.a.channel.ping;
    assert n.a.channel.outgoingCommands + cmds == n.a.channel.outgoingCommands;
    assert n.a.queued + cmds == n.a.queued;
    var (p, sent) := Send(n.a, cmds, ping);
    SendKeepsReceiver(n.a, cmds, ping);
    assert sent.Some? && p.channel.ping == ping;
    assert Append(n.ab, sent) == n.ab + [sent.value];
    SentBatches(n, firstA, firstB);
    hide Send, Receive, Flatten, Outstanding, Acknowledged, Informed;
    NewestIsAdmitted(n.b, sent.value.packet, firstA);
    var n1 := n.(a := p, ab := n.ab + [sent.value]);
    assert n1 == Next(n, SendA([], ping));
    assert Midway(n) == Next(n1, DeliverToB(|n.ab|));
    TwoSteps(n, SendA([], ping), DeliverToB(|n.ab|));
  }

  lemma TwoSteps(n: Net, one: Step, two: Step)
    requires Enabled(n, one) && Enabled(Next(n, one), two)
    ensures Possible(n, [one, two]) && After(n, [one, two]) == Next(Next(n, one), two)
  {
    hide Enabled, Next;
    var n1, n2 := Next(n, one), Next(Next(n, one), two);
    assert [one, two][0] == one && [one, two][1..] == [two];
    assert [two][0] == two && [two][1..] == [];
    assert Possible(n2, []) && After(n2, []) == n2;
    assert Possible(n1, [two]) && After(n1, [two]) == n2;
  }

  /** Which batches exist, and which the receiver has if the packet arrives. */
  lemma SentBatches(n: Net, firstA: nat, firstB: nat)
    requires Inv(n, firstA, firstB) && |n.ab| < 0x3fff_ffff
    ensures var (p, sent) := Send(n.a, [], n.a.channel.ping);
            && sent.Some?
            && var arrived := |n.b.delivered| + (if IsReliable(sent.value.packet.seqWord) then 1 else 0);
            && (n.a.channel.outgoingCommandsBuf == [] ==>
                p.channel.outgoingCommands == [] && arrived == |p.batches|)
            && (KnownLost(n.a.channel) ==> arrived == |p.batches|)
            && (arrived != |p.batches| ==> p.channel.lastReliableSeq == n.a.channel.lastReliableSeq)
  {
    var cmds: seq<Command>, ping := [], n.a.channel.ping;
    assert n.a.channel.outgoingCommands + cmds == n.a.channel.outgoingCommands;
    if n.a.channel.outgoingCommandsBuf == [] || KnownLost(n.a.channel) {
      NothingAhead(n.a, n.b, n.ab, n.ba, firstA, firstB);
    }
    hide Inv, Link;
    if StartsBatch(n.a.channel.(outgoingCommands := n.a.channel.outgoingCommands + cmds)) {
      SendWithBatch(n.a, cmds, ping);
    } else {
      SendWithoutBatch(n.a, cmds, ping);
    }
  }

  /** What a whole round does for the sender `a`: the answer it gets tells the
      present truth. */
  ghost predicate Advanced(n: Net, m: Net) {
    && m.a.queued == n.a.queued
    && m.a.channel.ping == n.a.channel.ping && m.b.channel.ping == n.b.channel.ping
    && |m.ab| == |n.ab| + 1 && |m.ba| == |n.ba| + 1
    && m.a.channel.outgoingSeq == n.a.channel.outgoingSeq + 1
    && m.a.channel.incomingAck == n.a.channel.outgoingSeq
    && (n.a.channel.outgoingCommandsBuf == [] ==>
        m.a.channel.outgoingCommandsBuf == [] && m.a.channel.outgoingCommands == [])
    && (KnownLost(n.a.channel) ==> m.a.channel.outgoingCommandsBuf == [])
    && (m.a.channel.outgoingCommandsBuf != [] ==>
        m.a.channel.lastReliableSeq == n.a.channel.lastReliableSeq)
  }

  /** The second half: the answer carries the number just received and the parity
      of everything delivered. */
  lemma SecondHalf(m: Net, firstA: nat, firstB: nat)
    requires Inv(m, firstA, firstB) && |m.ba| < 0x3fff_ffff
    ensures var second := [SendB([], m.b.channel.ping), DeliverToA(|m.ba|)];
            && Possible(m, second)
            && var e := After(m, second);
            && |e.ba| == |m.ba| + 1 && e.ab == m.ab
            && e.a.queued == m.a.queued && e.a.batches == m.a.batches && e.b.delivered == m.b.delivered
            && e.a.channel.ping == m.a.channel.ping && e.b.channel.ping == m.b.channel.ping
            && e.a.channel.outgoingSeq == m.a.channel.outgoingSeq
            && e.a.channel.outgoingCommands == m.a.channel.outgoingCommands
            && e.a.channel.lastReliableSeq == m.a.channel.lastReliableSeq
            && e.a.channel.isOutgoingSeqReliable == m.a.channel.isOutgoingSeqReliable
            && e.a.channel.incomingAck == m.b.channel.incomingSeq
            && e.a.channel.isIncomingAckReliable == m.b.channel.isIncomingSeqReliable
  {
    var cmds: seq<Command>, ping := [], m.b.channel.ping;
    var (q, sent) := Send(m.b, cmds, ping);
    SendKeepsReceiver(m.b, cmds, ping);
    assert sent.Some? && q.channel.ping == ping;
    assert Append(m.ba, sent) == m.ba + [sent.value];
    hide Send, Receive, Flatten, Outstanding, Acknowledged, Informed;
    NewestIsAdmitted(m.a, sent.value.packet, firstB);
    var m1 := m.(b := q, ba := m.ba + [sent.value]);
    assert m1 == Next(m, SendB([], ping));
    TwoSteps(m, SendB([], ping), DeliverToA(|m.ba|));
  }

  function Round(n: Net): seq<Step> {
    RoundSteps(n.a.channel.ping, n.b.channel.ping, |n.ab|, |n.ba|)
  }

  lemma RoundAdvances(n: Net, firstA: nat, firstB: nat)
    requires Inv(n, firstA, firstB) && |n.ab| < 0x3fff_ffff && |n.ba| < 0x3fff_ffff
    ensures Possible(n, Round(n))
    ensures Inv(After(n, Round(n)), firstA, firstB)
    ensures Advanced(n, After(n, Round(n)))
  {
    hide Possible, After, Inv;
    var first := [SendA([], n.a.channel.ping), DeliverToB(|n.ab|)];
    var second := [SendB([], n.b.channel.ping), DeliverToA(|n.ba|)];
    FirstHalf(n, firstA, firstB);
    var m := After(n, first);
    RunKeepsInv(n, first, firstA, firstB);
    SecondHalf(m, firstA, firstB);
    var e := After(m, second);
    AfterBoth(n, first, second);
    assert first + second == Round(n);
    RunKeepsInv(n, Round(n), firstA, firstB);
    TruthfulAnswer(m, e, firstA, firstB);
  }

  /** The buffer is empty after a round exactly when everything formed has been
      delivered. */
  lemma TruthfulAnswer(m: Net, e: Net, firstA: nat, firstB: nat)
    requires Inv(m, firstA, firstB) && Inv(e, firstA, firstB)
    requires e.a.batches == m.a.batches && e.b.delivered == m.b.delivered
    requires e.a.channel.isIncomingAckReliable == m.b.channel.isIncomingSeqReliable
    ensures e.a.channel.outgoingCommandsBuf == [] <==> |m.b.delivered| == |m.a.batches|
  {
    LinkIsReliable(e.a, e.b, e.ab, e.ba, firstA, firstB);
    hide Numbered, Outstanding, Acknowledged, Informed, Flatten;
    assert Batched(m.a, m.b) && Batched(e.a, e.b);
  }

  /** One round, and then some more. */
  lemma RoundThenMore(n: Net, count: nat, firstA: nat, firstB: nat)
    requires Inv(n, firstA, firstB) && |n.ab| < 0x3fff_ffff && |n.ba| < 0x3fff_ffff
    ensures Possible(n, Round(n))
    ensures var m := After(n, Round(n));
            Possible(m, Quiet(m, count)) ==>
              Possible(n, Quiet(n, count + 1)) && After(n, Quiet(n, count + 1)) == After(m, Quiet(m, count))
  {
    hide Possible, After, Inv, RoundSteps;
    RoundAdvances(n, firstA, firstB);
    var m := After(n, Round(n));
    if Possible(m, Quiet(m, count)) {
      AfterBoth(n, Round(n), Quiet(m, count));
    }
  }

  /** `count` packets have gone each way, and nothing was queued at `a`. */
  predicate Passed(n: Net, m: Net, count: nat) {
    && m.a.queued == n.a.queued
    && m.a.channel.ping == n.a.channel.ping && m.b.channel.ping == n.b.channel.ping
    && |m.ab| == |n.ab| + count && |m.ba| == |n.ba| + count
  }

  /** The sender is idle and everything it was given has been delivered. */
  ghost predicate Drained(n: Net) {
    && n.a.channel.outgoingCommandsBuf == [] && n.a.channel.outgoingCommands == []
    && Flatten(n.b.delivered) == n.a.queued
  }

  lemma IdleIsDrained(n: Net, firstA: nat, firstB: nat)
    requires Inv(n, firstA, firstB)
    requires n.a.channel.outgoingCommandsBuf == [] && n.a.channel.outgoingCommands == []
    ensures Drained(n)
  {
    LinkIsReliable(n.a, n.b, n.ab, n.ba, firstA, firstB);
  }

  /** Once a packet is known to be lost, or nothing is outstanding, two rounds
      deliver everything. */
  lemma TwoRoundsDrain(n: Net, firstA: nat, firstB: nat)
    requires Inv(n, firstA, firstB) && |n.ab| + 2 <= 0x3fff_ffff && |n.ba| + 2 <= 0x3fff_ffff
    requires n.a.channel.outgoingCommandsBuf == [] || KnownLost(n.a.channel)
    ensures Possible(n, Quiet(n, 2))
    ensures Drained(After(n, Quiet(n, 2))) && Passed(n, After(n, Quiet(n, 2)), 2)
  {
    hide After, Inv, Round, Rounds, Drained;
    RoundAdvances(n, firstA, firstB);
    var m := After(n, Round(n));
    RoundAdvances(m, firstA, firstB);
    var e := After(m, Round(m));
    IdleIsDrained(e, firstA, firstB);
    NoMoreRounds(e);
    RoundThenMore(m, 0, firstA, firstB);
    RoundThenMore(n, 1, firstA, firstB);
  }

  lemma NoMoreRounds(n: Net)
    ensures Possible(n, Quiet(n, 0)) && After(n, Quiet(n, 0)) == n
  {
  }

  /** After two rounds in which the buffer stayed full, the acknowledgement has
      moved past the last reliable packet. */
  lemma TwoRoundsReveal(n: Net, m: Net, k: Net, firstA: nat, firstB: nat)
    requires Inv(n, firstA, firstB) && Inv(k, firstA, firstB) && Advanced(n, m) && Advanced(m, k)
    ensures k.a.channel.outgoingCommandsBuf == [] || KnownLost(k.a.channel)
  {
    LinkIsReliable(k.a, k.b, k.ab, k.ba, firstA, firstB);
    hide Acknowledged, Informed, Batched, Flatten;
    assert n.a.channel.lastReliableSeq <= n.a.channel.outgoingSeq;
  }

  lemma DrainFrom(n: Net, firstA: nat, firstB: nat)
    requires Inv(n, firstA, firstB) && |n.ab| + 4 <= 0x3fff_ffff && |n.ba| + 4 <= 0x3fff_ffff
    ensures Possible(n, Quiet(n, 4))
    ensures Drained(After(n, Quiet(n, 4))) && Passed(n, After(n, Quiet(n, 4)), 4)
  {
    hide Possible, After, Inv, Round, Rounds, Drained;
    RoundAdvances(n, firstA, firstB);
    var m := After(n, Round(n));
    RoundAdvances(m, firstA, firstB);
    var k := After(m, Round(m));
    TwoRoundsReveal(n, m, k, firstA, firstB);
    TwoRoundsDrain(k, firstA, firstB);
    RoundThenMore(m, 2, firstA, firstB);
    RoundThenMore(n, 3, firstA, firstB);
  }

  // ----- Both directions ---------------------------------------------------

  /** The net as the other end sees it. */
  function Mirror(n: Net): Net {
    Net(n.b, n.a, n.ba, n.ab)
  }

  function MirrorStep(step: Step): Step {
    match step
    case SendA(cmds, elapsed) => SendB(cmds, elapsed)
    case SendB(cmds, elapsed) => SendA(cmds, elapsed)
    case DeliverToA(i) => DeliverToB(i)
    case DeliverToB(i) => DeliverToA(i)
    case PassToA(seqWord, ackWord) => PassToB(seqWord, ackWord)
    case PassToB(seqWord, ackWord) => PassToA(seqWord, ackWord)
  }

  function MirrorAll(steps: seq<Step>): (mirrored: seq<Step>)
    ensures |mirrored| == |steps|
  {
    seq(|steps|, i requires 0 <= i < |steps| => MirrorStep(steps[i]))
  }

  lemma {:induction false} MirrorRun(n: Net, steps: seq<Step>)
    requires Possible(n, steps)
    ensures Possible(Mirror(n), MirrorAll(steps))
    ensures After(Mirror(n), MirrorAll(steps)) == Mirror(After(n, steps))
    decreases |steps|
  {
    hide Send, Receive;
    if steps != [] {
      assert MirrorAll(steps)[1..] == MirrorAll(steps[1..]);
      assert Next(Mirror(n), MirrorStep(steps[0])) == Mirror(Next(n, steps[0]));
      MirrorRun(Next(n, steps[0]), steps[1..]);
    }
  }

  lemma MirrorInv(n: Net, firstA: nat, firstB: nat)
    requires Inv(n, firstA, firstB)
    ensures Inv(Mirror(n), firstB, firstA)
  {
    hide Link;
  }

  /** An idle sender with nothing more to send stays idle. */
  lemma HalfKeepsIdle(n: Net, firstA: nat, firstB: nat)
    requires Inv(n, firstA, firstB) && |n.ab| < 0x3fff_ffff && Drained(n)
    ensures var m, half := Midway(n), [SendA([], n.a.channel.ping), DeliverToB(|n.ab|)];
            && Possible(n, half) && After(n, half) == m && Drained(m) && m.a.queued == n.a.queued
  {
    var half := [SendA([], n.a.channel.ping), DeliverToB(|n.ab|)];
    FirstHalf(n, firstA, firstB);
    assert n.a.channel.outgoingSeq < 0x7fff_ffff;
    assert n.a.channel.outgoingCommands + [] == [];
    SendWithoutBatch(n.a, [], n.a.channel.ping);
    hide Inv, Possible, After, Send, Receive, Flatten;
    RunKeepsInv(n, half, firstA, firstB);
    IdleIsDrained(Midway(n), firstA, firstB);
  }

  /** Rounds that `a` begins are rounds that `b` begins, between two halves. */
  lemma {:induction false} RoundsShifted(pingA: int, pingB: int, i: nat, j: nat, count: nat)
    ensures Rounds(pingA, pingB, i, j, count + 1)
            == [SendA([], pingA), DeliverToB(i)]
               + (MirrorAll(Rounds(pingB, pingA, j, i + 1, count)) + [SendB([], pingB), DeliverToA(j + count)])
    decreases count
  {
    if count == 0 {
      assert MirrorAll([]) == [];
    } else {
      RoundsShifted(pingA, pingB, i + 1, j + 1, count - 1);
      var later := MirrorAll(Rounds(pingB, pingA, j + 1, i + 2, count - 1));
      assert MirrorAll(Rounds(pingB, pingA, j, i + 1, count)) == MirrorAll(RoundSteps(pingB, pingA, j, i + 1)) + later;
      MirrorRound(pingA, pingB, i, j);
      hide Rounds, MirrorAll, RoundSteps;
      var one, two, three, last: seq<Step> := [SendA([], pingA), DeliverToB(i)], [SendB([], pingB), DeliverToA(j)],
        [SendA([], pingA), DeliverToB(i + 1)], [SendB([], pingB), DeliverToA(j + count)];
      assert one + two + (three + (later + last)) == one + (two + three + later + last);
    }
  }

  lemma MirrorRound(pingA: int, pingB: int, i: nat, j: nat)
    ensures MirrorAll(RoundSteps(pingB, pingA, j, i + 1))
            == [SendB([], pingB), DeliverToA(j)] + [SendA([], pingA), DeliverToB(i + 1)]
    ensures RoundSteps(pingA, pingB, i, j) == [SendA([], pingA), DeliverToB(i)] + [SendB([], pingB), DeliverToA(j)]
  {
  }

  /** From midway in a round on, four rounds begun by `b` drain it, and the last
      half of the last round keeps it so. */
  lemma OtherDrains(h: Net, firstA: nat, firstB: nat) returns (steps: seq<Step>, last: seq<Step>)
    requires Inv(h, firstA, firstB) && |h.ab| + 4 <= 0x3fff_ffff && |h.ba| + 5 <= 0x3fff_ffff
    ensures steps == MirrorAll(Quiet(Mirror(h), 4))
    ensures last == [SendB([], h.b.channel.ping), DeliverToA(|h.ba| + 4)]
    ensures Possible(h, steps + last)
    ensures Drained(Mirror(After(h, steps + last))) && After(h, steps + last).b.queued == h.b.queued
  {
    hide Possible, After, Inv, Drained, Rounds;
    var other := Mirror(h);
    MirrorInv(h, firstA, firstB);
    DrainFrom(other, firstB, firstA);
    var mirrored := Quiet(other, 4);
    RunKeepsInv(other, mirrored, firstB, firstA);
    var drained := After(other, mirrored);
    HalfKeepsIdle(drained, firstB, firstA);
    var half := [SendA([], drained.a.channel.ping), DeliverToB(|drained.ab|)];
    AfterBoth(other, mirrored, half);
    MirrorRun(other, mirrored + half);
    steps, last := MirrorAll(mirrored), MirrorAll(half);
    assert MirrorAll(mirrored + half) == steps + last;
    assert Mirror(other) == h;
  }

  lemma DrainBothFrom(n: Net, firstA: nat, firstB: nat)
    requires Inv(n, firstA, firstB) && |n.ab| + 5 <= 0x3fff_ffff && |n.ba| + 5 <= 0x3fff_ffff
    ensures Possible(n, Quiet(n, 5))
    ensures var m := After(n, Quiet(n, 5));
            Drained(m) && Drained(Mirror(m)) && m.a.queued == n.a.queued && m.b.queued == n.b.queued
  {
    hide Possible, After, Inv, Round, Rounds, Drained;
    RoundAdvances(n, firstA, firstB);
    DrainFrom(After(n, Round(n)), firstA, firstB);
    RoundThenMore(n, 4, firstA, firstB);
    var half := [SendA([], n.a.channel.ping), DeliverToB(|n.ab|)];
    FirstHalf(n, firstA, firstB);
    RunKeepsInv(n, half, firstA, firstB);
    MidwayKeepsOther(n, firstA, firstB);
    var h := Midway(n);
    var steps, last := OtherDrains(h, firstA, firstB);
    AfterBoth(n, half, steps + last);
    RoundsShifted(n.a.channel.ping, n.b.channel.ping, |n.ab|, |n.ba|, 4);
  }

  lemma MidwayKeepsOther(n: Net, firstA: nat, firstB: nat)
    requires Inv(n, firstA, firstB) && |n.ab| < 0x3fff_ffff
    ensures Midway(n).b.queued == n.b.queued
  {
  }

  /** Progress of one end: from every reachable state, whatever was lost before,
      four packets each way without a further loss deliver every command that the
      end which sends first was given. */
  lemma FourRoundsDrain(firstA: u32, firstB: u32, pingA: int, pingB: int, steps: seq<Step>)
    requires firstA <= 0x4000_0000 && firstB <= 0x4000_0000
    requires Possible(Initial(firstA, firstB, pingA, pingB), steps)
    requires var n := After(Initial(firstA, firstB, pingA, pingB), steps);
             |n.ab| + 4 <= 0x3fff_ffff && |n.ba| + 4 <= 0x3fff_ffff
    ensures var n := After(Initial(firstA, firstB, pingA, pingB), steps);
            && Possible(n, Quiet(n, 4))
            && Drained(After(n, Quiet(n, 4)))
            && After(n, Quiet(n, 4)).a.queued == n.a.queued
  {
    hide Possible, After, Initial, Drained, Inv;
    InitialInv(firstA, firstB, pingA, pingB);
    RunKeepsInv(Initial(firstA, firstB, pingA, pingB), steps, firstA, firstB);
    DrainFrom(After(Initial(firstA, firstB, pingA, pingB), steps), firstA, firstB);
  }

  /** The main progress result: five packets each way deliver everything that both
      ends were given. No run can wedge the channel. */
  lemma FiveRoundsDrainBoth(firstA: u32, firstB: u32, pingA: int, pingB: int, steps: seq<Step>)
    requires firstA <= 0x4000_0000 && firstB <= 0x4000_0000
    requires Possible(Initial(firstA, firstB, pingA, pingB), steps)
    requires var n := After(Initial(firstA, firstB, pingA, pingB), steps);
             |n.ab| + 5 <= 0x3fff_ffff && |n.ba| + 5 <= 0x3fff_ffff
    ensures var n := After(Initial(firstA, firstB, pingA, pingB), steps);
            && Possible(n, Quiet(n, 5))
            && var m := After(n, Quiet(n, 5));
            && Drained(m) && m.a.queued == n.a.queued
            && Drained(Mirror(m)) && m.b.queued == n.b.queued
  {
    hide Possible, After, Initial, Drained, Inv;
    InitialInv(firstA, firstB, pingA, pingB);
    RunKeepsInv(Initial(firstA, firstB, pingA, pingB), steps, firstA, firstB);
    DrainBothFrom(After(Initial(firstA, firstB, pingA, pingB), steps), firstA, firstB);
  }
}
