/** One end of the reliable channel: sequence numbers, one reliable bit for each
    direction, and the send buffer. A sequence word carries its reliable bit in
    bit 31. */
module Sequencer {
  import opened Words

  type Command = seq<u8>

  datatype SessionState = Disconnected | Handshake | Connecting | Connected

  function WithBit(sequence: u32, reliable: bool): u32 {
    if reliable then Masked(sequence) + RELIABLE_BIT else sequence
  }

  datatype Channel = Channel(
    state: SessionState,
    ping: int,
    incomingSeq: u32,
    incomingAck: u32,
    lastReliableSeq: u32,
    outgoingSeq: u32,
    isIncomingAckReliable: bool,
    isOutgoingSeqReliable: bool,
    isIncomingSeqReliable: bool,
    outgoingCommands: seq<Command>,
    outgoingCommandsBuf: seq<Command>)

  datatype Packet = Packet(seqWord: u32, ackWord: u32, commands: seq<Command>)

  function NewChannel(outgoingSeq: u32, ping: int): Channel {
    Channel(Disconnected, ping, 0, 0, 0, outgoingSeq, false, false, false, [], [])
  }

  /** What an incoming pair of sequence words does. A stale one does nothing. */
  function Incoming(c: Channel, seqWord: u32, ackWord: u32): Channel {
    if Masked(seqWord) < c.incomingSeq then c
    else c.(outgoingCommandsBuf :=
              if IsReliable(ackWord) == c.isOutgoingSeqReliable then [] else c.outgoingCommandsBuf,
            isIncomingSeqReliable := c.isIncomingSeqReliable != IsReliable(seqWord),
            incomingSeq := Masked(seqWord),
            incomingAck := Masked(ackWord),
            isIncomingAckReliable := IsReliable(ackWord))
  }

  /** The reliable packet is known to be lost: a later packet has been
      acknowledged, and the acknowledgement does not carry our bit. */
  predicate KnownLost(c: Channel) {
    c.incomingAck > c.lastReliableSeq && c.isIncomingAckReliable != c.isOutgoingSeqReliable
  }

  predicate StartsBatch(c: Channel) {
    c.outgoingCommandsBuf == [] && c.outgoingCommands != []
  }

  predicate RateLimited(c: Channel, elapsed: int) {
    c.state == Connected && elapsed < c.ping
  }

  /** Queues commands and, unless the rate limit forbids it, forms a packet.
      `elapsed` is the time since the last write, in milliseconds. */
  function Outgoing(c: Channel, cmds: seq<Command>, elapsed: int): (Channel, Option<Packet>) {
    var queued := c.(outgoingCommands := c.outgoingCommands + cmds);
    if RateLimited(c, elapsed) then (queued, None)
    else
      var reliable := KnownLost(queued) || StartsBatch(queued);
      var ready := if StartsBatch(queued)
                   then queued.(outgoingCommandsBuf := queued.outgoingCommands,
                                isOutgoingSeqReliable := !queued.isOutgoingSeqReliable,
                                outgoingCommands := [])
                   else queued;
      var next: u32 := (c.outgoingSeq + 1) % 0x1_0000_0000;
      var packet := Packet(WithBit(c.outgoingSeq, reliable),
                           WithBit(c.incomingSeq, c.isIncomingSeqReliable),
                           if reliable then ready.outgoingCommandsBuf else []);
      (ready.(outgoingSeq := next, lastReliableSeq := if reliable then next else c.lastReliableSeq), Some(packet))
  }

  /** The sequencer alone accepts a packet with an equal number again, and a
      reliable one then undoes its own bit: exactly the reliable, non-stale
      packets are not idempotent. */
  lemma RepeatedPacket(c: Channel, seqWord: u32, ackWord: u32)
    ensures Incoming(Incoming(c, seqWord, ackWord), seqWord, ackWord) == Incoming(c, seqWord, ackWord) <==>
            Masked(seqWord) < c.incomingSeq || !IsReliable(seqWord)
  {
    var once := Incoming(c, seqWord, ackWord);
    assert Masked(seqWord) >= c.incomingSeq ==> once.incomingSeq == Masked(seqWord);
  }

  /** A fresh channel that gets the reliable packet 1 twice has the bit of one that
      never got it. */
  lemma RepeatedBitIsLost(ping: int)
    ensures var c := Channel(Disconnected, ping, 0, 0, 0, 0, false, false, false, [], []);
            var once := Incoming(c, RELIABLE_BIT + 1, 0);
            && once.isIncomingSeqReliable
            && !Incoming(once, RELIABLE_BIT + 1, 0).isIncomingSeqReliable
  {
  }

  /** What a read timeout or a connectionless packet does, which the client hands on
      as the words (0, 0): nothing, exactly when a number above 0 has been seen or
      they say what the last acknowledgement said. */
  lemma TimeoutIsHarmless(c: Channel)
    ensures Incoming(c, 0, 0) == c <==>
            || c.incomingSeq > 0
            || (c.incomingAck == 0 && !c.isIncomingAckReliable
                && (c.isOutgoingSeqReliable || c.outgoingCommandsBuf == []))
  {
    assert c.incomingSeq > 0 ==> Incoming(c, 0, 0) == c;
    assert Incoming(c, 0, 0).outgoingCommandsBuf
           == (if c.incomingSeq == 0 && !c.isOutgoingSeqReliable then [] else c.outgoingCommandsBuf);
  }

  /** Nothing is sent exactly when a connected channel has to wait; then the commands are
      queued, and nothing else changes. */
  lemma SilentExactly(c: Channel, cmds: seq<Command>, elapsed: int)
    ensures var (next, packet) := Outgoing(c, cmds, elapsed);
            && (packet.None? <==> c.state == Connected && elapsed < c.ping)
            && (packet.None? ==> next == c.(outgoingCommands := c.outgoingCommands + cmds))
  {
  }

  /** An attempt to send, at a time in milliseconds. */
  datatype Attempt = Attempt(at: int, cmds: seq<Command>)

  /** The times at which packets are formed; each one is the last write for those
      that follow. */
  function SendTimes(c: Channel, lastWrite: int, attempts: seq<Attempt>): seq<int>
    decreases |attempts|
  {
    if attempts == [] then []
    else
      var (next, packet) := Outgoing(c, attempts[0].cmds, attempts[0].at - lastWrite);
      if packet.None? then SendTimes(next, lastWrite, attempts[1..])
      else [attempts[0].at] + SendTimes(next, attempts[0].at, attempts[1..])
  }

  /** At least `gap` lies before each time. */
  predicate Spaced(last: int, times: seq<int>, gap: int) {
    && (times != [] ==> times[0] - last >= gap)
    && forall i, k :: 0 <= i < |times| && k == i + 1 && k < |times| ==> times[k] - times[i] >= gap
  }

  /** However often it is asked to send, a connected channel leaves at least the ping
      between two packets; any other channel sends each time. */
  lemma {:induction false} PacketsAreSpaced(c: Channel, lastWrite: int, attempts: seq<Attempt>)
    ensures c.state != Connected ==> |SendTimes(c, lastWrite, attempts)| == |attempts|
    ensures c.state == Connected ==> Spaced(lastWrite, SendTimes(c, lastWrite, attempts), c.ping)
    decreases |attempts|
  {
    if attempts != [] {
      var at := attempts[0].at;
      var (next, packet) := Outgoing(c, attempts[0].cmds, at - lastWrite);
      var write := if packet.None? then lastWrite else at;
      PacketsAreSpaced(next, write, attempts[1..]);
    }
  }

  class Sequencer {
    var state: SessionState
    var ping: int
    var incomingSeq: u32
    var incomingAck: u32
    var lastReliableSeq: u32
    var outgoingSeq: u32
    var isIncomingAckReliable: bool
    var isOutgoingSeqReliable: bool
    var isIncomingSeqReliable: bool
    var outgoingCommands: seq<Command>
    var outgoingCommandsBuf: seq<Command>

    function State(): Channel
      reads this
    {
      Channel(state, ping, incomingSeq, incomingAck, lastReliableSeq, outgoingSeq,
              isIncomingAckReliable, isOutgoingSeqReliable, isIncomingSeqReliable,
              outgoingCommands, outgoingCommandsBuf)
    }

    constructor (outgoingSeq: u32, ping: int)
      ensures State() == NewChannel(outgoingSeq, ping)
    {
      this.state, this.ping := Disconnected, ping;
      incomingSeq, incomingAck, lastReliableSeq, this.outgoingSeq := 0, 0, 0, outgoingSeq;
      isIncomingAckReliable, isOutgoingSeqReliable, isIncomingSeqReliable := false, false, false;
      outgoingCommands, outgoingCommandsBuf := [], [];
    }

    method SetState(state: SessionState)
      modifies this`state
      ensures State() == old(State()).(state := state)
    {
      this.state := state;
    }

    /** Everything but the session state and the ping starts over. */
    method Reset()
      modifies this
      ensures State() == NewChannel(0, old(ping)).(state := old(state))
    {
      incomingSeq, incomingAck, lastReliableSeq, outgoingSeq := 0, 0, 0, 0;
      isIncomingAckReliable, isOutgoingSeqReliable, isIncomingSeqReliable := false, false, false;
      outgoingCommands, outgoingCommandsBuf := [], [];
    }

    method Acknowledge(seqWord: u32, ackWord: u32)
      modifies this
      ensures State() == Incoming(old(State()), seqWord, ackWord)
      ensures Masked(seqWord) < old(incomingSeq) ==> State() == old(State())
      ensures Masked(seqWord) >= old(incomingSeq) ==>
                && incomingSeq == Masked(seqWord) && incomingAck == Masked(ackWord)
                && isIncomingAckReliable == IsReliable(ackWord)
                && (isIncomingSeqReliable != old(isIncomingSeqReliable) <==> IsReliable(seqWord))
                && outgoingCommandsBuf == (if IsReliable(ackWord) == isOutgoingSeqReliable
                                           then [] else old(outgoingCommandsBuf))
    {
      var seqReliable, ackReliable := IsReliable(seqWord), IsReliable(ackWord);
      var sequence, ack := Masked(seqWord), Masked(ackWord);
      if sequence < incomingSeq {
        return;
      }
      if ackReliable == isOutgoingSeqReliable {
        outgoingCommandsBuf := [];
      }
      if seqReliable {
        isIncomingSeqReliable := !isIncomingSeqReliable;
      }
      incomingSeq, incomingAck, isIncomingAckReliable := sequence, ack, ackReliable;
    }

    method Emit(cmds: seq<Command>, elapsed: int) returns (packet: Option<Packet>)
      modifies this
      ensures (State(), packet) == Outgoing(old(State()), cmds, elapsed)
      ensures packet.None? <==> state == Connected && elapsed < ping
    {
      outgoingCommands := outgoingCommands + cmds;
      if state == Connected && elapsed < ping {
        return None;
      }
      var isReliable := false;
      if incomingAck > lastReliableSeq && isIncomingAckReliable != isOutgoingSeqReliable {
        isReliable := true;
      }
      if |outgoingCommandsBuf| == 0 && |outgoingCommands| > 0 {
        outgoingCommandsBuf := outgoingCommands;
        isOutgoingSeqReliable := !isOutgoingSeqReliable;
        isReliable := true;
        outgoingCommands := [];
      }
      var seqWord := outgoingSeq;
      if isReliable {
        seqWord := WithBit(seqWord, true);
      }
      var ackWord := incomingSeq;
      if isIncomingSeqReliable {
        ackWord := WithBit(ackWord, true);
      }
      var outgoing: seq<Command> := [];
      outgoingSeq := (outgoingSeq + 1) % 0x1_0000_0000;
      if isReliable {
        outgoing := outgoing + outgoingCommandsBuf;
        assert outgoing == outgoingCommandsBuf;
        lastReliableSeq := outgoingSeq;
      }
      packet := Some(Packet(seqWord, ackWord, outgoing));
    }

    method Process(seqWord: u32, ackWord: u32, cmds: seq<Command>, elapsed: int) returns (packet: Option<Packet>)
      modifies this
      ensures (State(), packet) == Outgoing(Incoming(old(State()), seqWord, ackWord), cmds, elapsed)
      ensures Masked(seqWord) < old(incomingSeq) ==> (State(), packet) == Outgoing(old(State()), cmds, elapsed)
    {
      Acknowledge(seqWord, ackWord);
      packet := Emit(cmds, elapsed);
    }
  }

  /** The server's per-client filter in front of its sequencer. */
  datatype Filter = Filter(received: bool, incoming: u32)

  /** The packet is new: its number is ahead of the last accepted one by less than
      half the number space. */
  predicate Admits(f: Filter, seqWord: u32) {
    !f.received || Newer(f.incoming, Masked(seqWord))
  }

  /** Over fewer than 2^30 numbers the modular filter admits exactly the numbers
      above the last accepted one. */
  lemma AdmitsNewer(f: Filter, seqWord: u32, first: nat)
    requires first <= Masked(seqWord) < first + 0x4000_0000
    requires f.received ==> first <= f.incoming < first + 0x4000_0000
    ensures Admits(f, seqWord) <==> !f.received || Masked(seqWord) > f.incoming
  {
  }

  class Client {
    const sequencer: Sequencer
    var received: bool
    var incoming: u32

    constructor (outgoingSeq: u32, ping: int)
      ensures fresh(sequencer) && !received && sequencer.State() == NewChannel(outgoingSeq, ping)
    {
      sequencer := new Sequencer(outgoingSeq, ping);
      received, incoming := false, 0;
    }

    function View(): Filter
      reads this
    {
      Filter(received, incoming)
    }

    /** `game` is false for a connectionless packet, which changes nothing here. */
    method AcceptPacket(game: bool, seqWord: u32, ackWord: u32) returns (accepted: bool)
      modifies this, sequencer
      ensures accepted <==> !game || Admits(old(View()), seqWord)
      ensures game && accepted ==>
              && View() == Filter(true, Masked(seqWord))
              && sequencer.State() == Incoming(old(sequencer.State()), seqWord, ackWord).(state := Connected)
      ensures !game || !accepted ==> View() == old(View()) && sequencer.State() == old(sequencer.State())
    {
      if !game {
        return true;
      }
      var sequence := Masked(seqWord);
      var distance := (sequence - incoming) % 0x8000_0000;
      if received && (distance == 0 || distance >= 0x4000_0000) {
        return false;
      }
      received, incoming := true, sequence;
      sequencer.Acknowledge(seqWord, ackWord);
      sequencer.SetState(Connected);
      accepted := true;
    }
  }
}
