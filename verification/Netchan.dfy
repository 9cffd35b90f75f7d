/** Two endpoints, each a sequencer behind the filter, over a network that loses,
    duplicates and reorders packets: every packet ever sent may be delivered any
    number of times, at any later moment, or never. Stale words, and those of a
    timeout, also reach a sequencer past the filter. */
module Netchan {
  import opened Words
  import opened Sequencer

  type Batch = seq<Command>

  /** An endpoint with its history: the reliable batches it has formed, all the
      commands it was given, and the reliable batches it has accepted. */
  datatype Peer = Peer(
    filter: Filter, channel: Channel,
    batches: seq<Batch>, queued: seq<Command>, delivered: seq<Batch>)

  /** A packet with the number of batches its sender had accepted by then. */
  datatype Sent = Sent(packet: Packet, accepted: nat)

  datatype Net = Net(a: Peer, b: Peer, ab: seq<Sent>, ba: seq<Sent>)

  datatype Step =
    | SendA(cmds: seq<Command>, elapsed: int)
    | SendB(cmds: seq<Command>, elapsed: int)
    | DeliverToA(index: nat)
    | DeliverToB(index: nat)
    | PassToA(seqWord: u32, ackWord: u32)
    | PassToB(seqWord: u32, ackWord: u32)

  function Flatten(batches: seq<Batch>): seq<Command> {
    if batches == [] then [] else Flatten(batches[..|batches| - 1]) + batches[|batches| - 1]
  }

  function Start(first: u32, ping: int): Peer {
    Peer(Filter(false, 0), NewChannel(first, ping), [], [], [])
  }

  function Send(p: Peer, cmds: seq<Command>, elapsed: int): (Peer, Option<Sent>) {
    var (channel, packet) := Outgoing(p.channel, cmds, elapsed);
    var formed := channel.isOutgoingSeqReliable != p.channel.isOutgoingSeqReliable;
    (p.(channel := channel,
        queued := p.queued + cmds,
        batches := if formed then p.batches + [channel.outgoingCommandsBuf] else p.batches),
     if packet.None? then None else Some(Sent(packet.value, |p.delivered|)))
  }

  function Receive(p: Peer, packet: Packet): Peer {
    if !Admits(p.filter, packet.seqWord) then p
    else p.(filter := Filter(true, Masked(packet.seqWord)),
            channel := Incoming(p.channel, packet.seqWord, packet.ackWord).(state := Connected),
            delivered := if IsReliable(packet.seqWord) then p.delivered + [packet.commands] else p.delivered)
  }

  /** Words that reach the sequencer past the filter. */
  function Pass(p: Peer, seqWord: u32, ackWord: u32): Peer {
    p.(channel := Incoming(p.channel, seqWord, ackWord))
  }

  /** Stale words, or the (0, 0) of a timeout before anything has been accepted. */
  predicate Unfiltered(p: Peer, seqWord: u32, ackWord: u32) {
    Masked(seqWord) < p.channel.incomingSeq || (!p.filter.received && seqWord == 0 && ackWord == 0)
  }

  /** Fewer than 2^30 packets travel in each direction. */
  predicate Enabled(n: Net, step: Step) {
    match step
    case SendA(_, _) => |n.ab| < 0x3fff_ffff
    case SendB(_, _) => |n.ba| < 0x3fff_ffff
    case DeliverToA(i) => i < |n.ba|
    case DeliverToB(i) => i < |n.ab|
    case PassToA(seqWord, ackWord) => Unfiltered(n.a, seqWord, ackWord)
    case PassToB(seqWord, ackWord) => Unfiltered(n.b, seqWord, ackWord)
  }

  function Append(sent: seq<Sent>, packet: Option<Sent>): seq<Sent> {
    if packet.None? then sent else sent + [packet.value]
  }

  function Next(n: Net, step: Step): Net
    requires Enabled(n, step)
  {
    match step
    case SendA(cmds, elapsed) => var (p, s) := Send(n.a, cmds, elapsed); n.(a := p, ab := Append(n.ab, s))
    case SendB(cmds, elapsed) => var (p, s) := Send(n.b, cmds, elapsed); n.(b := p, ba := Append(n.ba, s))
    case DeliverToA(i) => n.(a := Receive(n.a, n.ba[i].packet))
    case DeliverToB(i) => n.(b := Receive(n.b, n.ab[i].packet))
    case PassToA(seqWord, ackWord) => n.(a := Pass(n.a, seqWord, ackWord))
    case PassToB(seqWord, ackWord) => n.(b := Pass(n.b, seqWord, ackWord))
  }

  // ----- The invariant of one direction ------------------------------------

  predicate Odd(n: nat) {
    n % 2 == 1
  }

  /** A receiver has not yet moved past this number. */
  predicate Ahead(r: Peer, number: nat) {
    !r.filter.received || number > r.filter.incoming
  }

  /** The packets of one direction are numbered from `first`, and the receiver
      stands at one of them. */
  ghost predicate Numbered(s: Peer, r: Peer, out: seq<Sent>, first: nat) {
    && first <= 0x4000_0000 && |out| <= 0x3fff_ffff
    && s.channel.outgoingSeq == first + |out|
    && (forall i :: 0 <= i < |out| ==> Masked(out[i].packet.seqWord) == first + i)
    && (r.filter.received ==> first <= r.filter.incoming < first + |out|)
    && r.channel.incomingSeq == (if r.filter.received then r.filter.incoming else 0)
  }

  /** What the sender can know: how many of its batches the last packet it has
      accepted had seen delivered. */
  function Known(s: Peer, back: seq<Sent>, backFirst: nat): nat
    requires s.filter.received ==> backFirst <= s.filter.incoming < backFirst + |back|
  {
    if s.filter.received then back[s.filter.incoming - backFirst].accepted else 0
  }

  /** Batches: formed in order, delivered in order, at most one outstanding. */
  ghost predicate Batched(s: Peer, r: Peer) {
    && s.queued == Flatten(s.batches) + s.channel.outgoingCommands
    && (forall k :: 0 <= k < |s.batches| ==> s.batches[k] != [])
    && s.channel.isOutgoingSeqReliable == Odd(|s.batches|)
    && r.channel.isIncomingSeqReliable == Odd(|r.delivered|)
    && |s.batches| - 1 <= |r.delivered| <= |s.batches|
    && r.delivered == s.batches[..|r.delivered|]
  }

  /** A reliable packet the receiver can still accept is the sender's last one and
      carries the batch that is outstanding. */
  ghost predicate Outstanding(s: Peer, r: Peer, out: seq<Sent>, first: nat) {
    && s.channel.lastReliableSeq <= first + |out|
    && (s.batches == [] ==> s.channel.lastReliableSeq == 0)
    && forall i :: 0 <= i < |out| && IsReliable(out[i].packet.seqWord) && Ahead(r, first + i) ==>
         && first + i + 1 == s.channel.lastReliableSeq
         && |r.delivered| == |s.batches| - 1
         && out[i].packet.commands == s.batches[|r.delivered|]
  }

  /** Acknowledgements on their way back: their bit is the parity of the batches
      accepted, they never run ahead, and one past the last reliable packet tells
      the present truth. */
  ghost predicate Acknowledged(s: Peer, r: Peer, back: seq<Sent>) {
    && (forall j :: 0 <= j < |back| ==>
         && IsReliable(back[j].packet.ackWord) == Odd(back[j].accepted)
         && back[j].accepted <= |r.delivered|
         && Masked(back[j].packet.ackWord) <= r.channel.incomingSeq
         && (Masked(back[j].packet.ackWord) >= s.channel.lastReliableSeq ==> back[j].accepted == |r.delivered|))
    && (forall j, k :: 0 <= j < k < |back| ==> back[j].accepted <= back[k].accepted)
  }

  /** The send buffer is empty exactly when the stored acknowledgement bit equals
      the outgoing bit, and then every batch has been delivered. */
  ghost predicate Informed(s: Peer, back: seq<Sent>, backFirst: nat)
    requires s.filter.received ==> backFirst <= s.filter.incoming < backFirst + |back|
  {
    var known, c := Known(s, back, backFirst), s.channel;
    && |s.batches| - 1 <= known <= |s.batches|
    && c.isIncomingAckReliable == Odd(known)
    && c.incomingAck == (if s.filter.received
                         then Masked(back[s.filter.incoming - backFirst].packet.ackWord) else 0)
    && c.outgoingCommandsBuf == (if known == |s.batches| then [] else s.batches[known])
  }

  ghost predicate Link(s: Peer, r: Peer, out: seq<Sent>, back: seq<Sent>, first: nat, backFirst: nat) {
    && Numbered(s, r, out, first)
    && Numbered(r, s, back, backFirst)
    && Batched(s, r)
    && Outstanding(s, r, out, first)
    && Acknowledged(s, r, back)
    && Informed(s, back, backFirst)
  }

  // ----- What each kind of step does to one direction -------------------------

  lemma FlattenSnoc(batches: seq<Batch>, batch: Batch)
    ensures Flatten(batches + [batch]) == Flatten(batches) + batch
  {
    assert (batches + [batch])[..|batches|] == batches;
  }

  /** Nothing outstanding: the condition under which a reliable packet is sent. */
  lemma NothingAhead(s: Peer, r: Peer, out: seq<Sent>, back: seq<Sent>, first: nat, backFirst: nat)
    requires Link(s, r, out, back, first, backFirst)
    requires KnownLost(s.channel) || s.channel.outgoingCommandsBuf == []
    ensures forall i :: 0 <= i < |out| && IsReliable(out[i].packet.seqWord) ==> !Ahead(r, first + i)
    ensures KnownLost(s.channel) ==>
            |r.delivered| == |s.batches| - 1 && s.channel.outgoingCommandsBuf == s.batches[|r.delivered|]
    ensures s.channel.outgoingCommandsBuf == [] ==> |r.delivered| == |s.batches|
  {
    var known := Known(s, back, backFirst);
    if KnownLost(s.channel) {
      assert s.filter.received && known == |r.delivered|;
    }
  }

  /** Sending changes nothing that the other direction's sender relies on. */
  lemma SendKeepsReceiver(p: Peer, cmds: seq<Command>, elapsed: int)
    requires p.channel.outgoingSeq < 0x7fff_ffff && p.channel.incomingSeq < 0x8000_0000
    ensures var (q, sent) := Send(p, cmds, elapsed);
            && q.filter == p.filter && q.delivered == p.delivered
            && q.channel.incomingSeq == p.channel.incomingSeq
            && q.channel.incomingAck == p.channel.incomingAck
            && q.channel.isIncomingSeqReliable == p.channel.isIncomingSeqReliable
            && q.channel.isIncomingAckReliable == p.channel.isIncomingAckReliable
            && q.queued == p.queued + cmds
            && (sent.None? ==> q.channel.outgoingSeq == p.channel.outgoingSeq)
            && (sent.Some? ==>
                && q.channel.outgoingSeq == p.channel.outgoingSeq + 1
                && Masked(sent.value.packet.seqWord) == p.channel.outgoingSeq
                && Masked(sent.value.packet.ackWord) == p.channel.incomingSeq
                && IsReliable(sent.value.packet.ackWord) == p.channel.isIncomingSeqReliable
                && sent.value.accepted == |p.delivered|)
  {
  }

  /** Without a new batch only the queue, the number of the next packet and the
      number of the last reliable one can change. */
  lemma SendWithoutBatch(p: Peer, cmds: seq<Command>, elapsed: int)
    requires !StartsBatch(p.channel.(outgoingCommands := p.channel.outgoingCommands + cmds))
             || RateLimited(p.channel, elapsed)
    requires p.channel.outgoingSeq < 0x7fff_ffff
    ensures var (q, sent) := Send(p, cmds, elapsed);
            && q.batches == p.batches
            && q.channel.outgoingCommands == p.channel.outgoingCommands + cmds
            && q.channel.outgoingCommandsBuf == p.channel.outgoingCommandsBuf
            && q.channel.isOutgoingSeqReliable == p.channel.isOutgoingSeqReliable
            && (sent.Some? ==>
                && IsReliable(sent.value.packet.seqWord) == KnownLost(p.channel)
                && sent.value.packet.commands == (if KnownLost(p.channel) then p.channel.outgoingCommandsBuf else []))
            && q.channel.lastReliableSeq == (if sent.Some? && KnownLost(p.channel)
                                             then p.channel.outgoingSeq + 1 else p.channel.lastReliableSeq)
  {
  }

  lemma SendWithBatch(p: Peer, cmds: seq<Command>, elapsed: int)
    requires StartsBatch(p.channel.(outgoingCommands := p.channel.outgoingCommands + cmds))
    requires !RateLimited(p.channel, elapsed) && p.channel.outgoingSeq < 0x7fff_ffff
    ensures var (q, sent) := Send(p, cmds, elapsed);
            var batch := p.channel.outgoingCommands + cmds;
            && q.batches == p.batches + [batch]
            && q.channel.outgoingCommands == []
            && q.channel.outgoingCommandsBuf == batch
            && q.channel.isOutgoingSeqReliable == !p.channel.isOutgoingSeqReliable
            && sent.Some? && IsReliable(sent.value.packet.seqWord) && sent.value.packet.commands == batch
            && q.channel.lastReliableSeq == p.channel.outgoingSeq + 1
  {
  }

  lemma SenderSendsBatch(s: Peer, r: Peer, out: seq<Sent>, back: seq<Sent>, first: nat, backFirst: nat,
                         cmds: seq<Command>, elapsed: int)
    requires Link(s, r, out, back, first, backFirst) && |out| < 0x3fff_ffff
    requires StartsBatch(s.channel.(outgoingCommands := s.channel.outgoingCommands + cmds))
    requires !RateLimited(s.channel, elapsed)
    ensures var (p, sent) := Send(s, cmds, elapsed);
            Link(p, r, Append(out, sent), back, first, backFirst)
  {
    hide Send, Flatten;
    SendKeepsReceiver(s, cmds, elapsed);
    SendWithBatch(s, cmds, elapsed);
    NothingAhead(s, r, out, back, first, backFirst);
    var (p, sent) := Send(s, cmds, elapsed);
    BatchIsOutstanding(s, p, r, out, sent.value, first);
    assert Batched(p, r) by {
      FlattenSnoc(s.batches, s.channel.outgoingCommands + cmds);
    }
  }

  /** A new batch, when nothing else can still be accepted. */
  lemma BatchIsOutstanding(s: Peer, p: Peer, r: Peer, out: seq<Sent>, sent: Sent, first: nat)
    requires Numbered(s, r, out, first) && |r.delivered| == |s.batches|
    requires forall i :: 0 <= i < |out| && IsReliable(out[i].packet.seqWord) ==> !Ahead(r, first + i)
    requires p.batches == s.batches + [sent.packet.commands]
    requires p.channel.lastReliableSeq == s.channel.outgoingSeq + 1
    ensures Outstanding(p, r, out + [sent], first)
  {
  }

  lemma SenderSendsOther(s: Peer, r: Peer, out: seq<Sent>, back: seq<Sent>, first: nat, backFirst: nat,
                         cmds: seq<Command>, elapsed: int)
    requires Link(s, r, out, back, first, backFirst) && |out| < 0x3fff_ffff
    requires !StartsBatch(s.channel.(outgoingCommands := s.channel.outgoingCommands + cmds))
             || RateLimited(s.channel, elapsed)
    ensures var (p, sent) := Send(s, cmds, elapsed);
            Link(p, r, Append(out, sent), back, first, backFirst)
  {
    hide Send, Flatten, Outstanding, Acknowledged, Informed;
    SendKeepsReceiver(s, cmds, elapsed);
    SendWithoutBatch(s, cmds, elapsed);
    var (p, sent) := Send(s, cmds, elapsed);
    NumberedAfterSend(s, p, r, out, sent, first);
    PacketsAfterSend(s, r, out, back, first, backFirst, cmds, elapsed);
    QueuedAfterSend(s.batches, s.channel.outgoingCommands, cmds);
    hide Numbered, Batched;
    AnswersAfterSend(s, p, r, back, backFirst);
  }

  lemma QueuedAfterSend(batches: seq<Batch>, pending: seq<Command>, cmds: seq<Command>)
    ensures Flatten(batches) + pending + cmds == Flatten(batches) + (pending + cmds)
  {
  }

  /** What can still be accepted after a packet without a new batch. */
  lemma PacketsAfterSend(s: Peer, r: Peer, out: seq<Sent>, back: seq<Sent>, first: nat, backFirst: nat,
                         cmds: seq<Command>, elapsed: int)
    requires Link(s, r, out, back, first, backFirst) && |out| < 0x3fff_ffff
    requires !StartsBatch(s.channel.(outgoingCommands := s.channel.outgoingCommands + cmds))
             || RateLimited(s.channel, elapsed)
    ensures var (p, sent) := Send(s, cmds, elapsed);
            Outstanding(p, r, Append(out, sent), first) && s.channel.lastReliableSeq <= p.channel.lastReliableSeq
  {
    hide Send, Flatten, Acknowledged, Informed;
    SendWithoutBatch(s, cmds, elapsed);
    var (p, sent) := Send(s, cmds, elapsed);
    if sent.Some? {
      if KnownLost(s.channel) {
        NothingAhead(s, r, out, back, first, backFirst);
        ResentIsOutstanding(s, p, r, out, sent.value, first);
      } else {
        OtherIsOutstanding(s, p, r, out, sent.value, first);
      }
    }
  }

  /** Without a new batch the sender learns and owes the same as before. */
  lemma AnswersAfterSend(s: Peer, p: Peer, r: Peer, back: seq<Sent>, backFirst: nat)
    requires Numbered(r, s, back, backFirst) && Acknowledged(s, r, back) && Informed(s, back, backFirst)
              && Batched(s, r)
    requires p.filter == s.filter && p.batches == s.batches
              && p.queued == Flatten(p.batches) + p.channel.outgoingCommands
    requires p.channel.incomingSeq == s.channel.incomingSeq && p.channel.incomingAck == s.channel.incomingAck
    requires p.channel.isIncomingAckReliable == s.channel.isIncomingAckReliable
    requires p.channel.isOutgoingSeqReliable == s.channel.isOutgoingSeqReliable
    requires p.channel.outgoingCommandsBuf == s.channel.outgoingCommandsBuf
    requires s.channel.lastReliableSeq <= p.channel.lastReliableSeq
    ensures Numbered(r, p, back, backFirst) && Acknowledged(p, r, back) && Informed(p, back, backFirst) && Batched(p, r)
  {
  }

  lemma NumberedAfterSend(s: Peer, p: Peer, r: Peer, out: seq<Sent>, sent: Option<Sent>, first: nat)
    requires Numbered(s, r, out, first) && |out| < 0x3fff_ffff
    requires p.channel.outgoingSeq == s.channel.outgoingSeq + (if sent.Some? then 1 else 0)
    requires sent.Some? ==> Masked(sent.value.packet.seqWord) == s.channel.outgoingSeq
    ensures Numbered(p, r, Append(out, sent), first)
  {
  }

  /** The lost batch again, when nothing else can still be accepted. */
  lemma ResentIsOutstanding(s: Peer, p: Peer, r: Peer, out: seq<Sent>, sent: Sent, first: nat)
    requires Numbered(s, r, out, first) && |r.delivered| == |s.batches| - 1
    requires forall i :: 0 <= i < |out| && IsReliable(out[i].packet.seqWord) ==> !Ahead(r, first + i)
    requires p.batches == s.batches && sent.packet.commands == s.batches[|r.delivered|]
    requires p.channel.lastReliableSeq == s.channel.outgoingSeq + 1
    ensures Outstanding(p, r, out + [sent], first)
  {
  }

  lemma OtherIsOutstanding(s: Peer, p: Peer, r: Peer, out: seq<Sent>, sent: Sent, first: nat)
    requires Outstanding(s, r, out, first) && !IsReliable(sent.packet.seqWord)
    requires p.batches == s.batches && p.channel.lastReliableSeq == s.channel.lastReliableSeq
    ensures Outstanding(p, r, out + [sent], first)
  {
  }

  lemma SenderSends(s: Peer, r: Peer, out: seq<Sent>, back: seq<Sent>, first: nat, backFirst: nat,
                    cmds: seq<Command>, elapsed: int)
    requires Link(s, r, out, back, first, backFirst) && |out| < 0x3fff_ffff
    ensures var (p, sent) := Send(s, cmds, elapsed);
            Link(p, r, Append(out, sent), back, first, backFirst)
  {
    hide Link, Send;
    if StartsBatch(s.channel.(outgoingCommands := s.channel.outgoingCommands + cmds))
       && !RateLimited(s.channel, elapsed) {
      SenderSendsBatch(s, r, out, back, first, backFirst, cmds, elapsed);
    } else {
      SenderSendsOther(s, r, out, back, first, backFirst, cmds, elapsed);
    }
  }

  lemma ReceiverSends(s: Peer, r: Peer, out: seq<Sent>, back: seq<Sent>, first: nat, backFirst: nat,
                      cmds: seq<Command>, elapsed: int)
    requires Link(s, r, out, back, first, backFirst) && |back| < 0x3fff_ffff
    ensures var (p, sent) := Send(r, cmds, elapsed);
            Link(s, p, out, Append(back, sent), first, backFirst)
  {
    hide Send, Flatten;
    SendKeepsReceiver(r, cmds, elapsed);
    var (p, sent) := Send(r, cmds, elapsed);
    assert Batched(s, p);
    assert Acknowledged(s, p, Append(back, sent));
  }

  lemma ReceiverCounts(s: Peer, r: Peer, out: seq<Sent>, back: seq<Sent>, first: nat, backFirst: nat, i: nat)
    requires Numbered(s, r, out, first) && Numbered(r, s, back, backFirst) && Acknowledged(s, r, back) && i < |out|
    requires Batched(s, r) && Outstanding(s, r, out, first)
    ensures var t := Receive(r, out[i].packet);
            Numbered(s, t, out, first) && Numbered(t, s, back, backFirst) && Acknowledged(s, t, back)
  {
    AdmitsNewer(r.filter, out[i].packet.seqWord, first);
  }

  lemma ReceiverTakes(s: Peer, r: Peer, out: seq<Sent>, first: nat, i: nat)
    requires Numbered(s, r, out, first) && Batched(s, r) && Outstanding(s, r, out, first) && i < |out|
    ensures var t := Receive(r, out[i].packet);
            Batched(s, t) && Outstanding(s, t, out, first)
  {
    AdmitsNewer(r.filter, out[i].packet.seqWord, first);
  }

  lemma ReceiverReceives(s: Peer, r: Peer, out: seq<Sent>, back: seq<Sent>, first: nat, backFirst: nat, i: nat)
    requires Link(s, r, out, back, first, backFirst) && i < |out|
    ensures Link(s, Receive(r, out[i].packet), out, back, first, backFirst)
  {
    ReceiverCounts(s, r, out, back, first, backFirst, i);
    ReceiverTakes(s, r, out, first, i);
    hide Numbered, Acknowledged, Batched, Outstanding, Receive;
  }

  lemma SenderReceives(s: Peer, r: Peer, out: seq<Sent>, back: seq<Sent>, first: nat, backFirst: nat, j: nat)
    requires Link(s, r, out, back, first, backFirst) && j < |back|
    ensures Link(Receive(s, back[j].packet), r, out, back, first, backFirst)
  {
    AdmitsNewer(s.filter, back[j].packet.seqWord, backFirst);
  }

  /** What passes the filter by changes nothing: nothing is acknowledged, and no
      outstanding batch is dropped. */
  lemma PassChangesNothing(s: Peer, r: Peer, out: seq<Sent>, back: seq<Sent>, first: nat, backFirst: nat,
                           seqWord: u32, ackWord: u32)
    requires Link(s, r, out, back, first, backFirst) && Unfiltered(s, seqWord, ackWord)
    ensures Pass(s, seqWord, ackWord) == s
  {
    hide Flatten, Outstanding, Acknowledged;
  }

  /** When the other end counts from 1, as the server does, every timeout is one of
      these. */
  lemma TimeoutIsUnfiltered(s: Peer, r: Peer, out: seq<Sent>, back: seq<Sent>, first: nat, backFirst: nat)
    requires Link(s, r, out, back, first, backFirst) && backFirst >= 1
    ensures Unfiltered(s, 0, 0)
  {
    assert Numbered(r, s, back, backFirst);
  }
}
