/** What the client link compresses over whole streams. */
module ClientRuns {
  import opened Words
  import opened ClientMoves
  import opened ClientStrings
  import opened ClientOperations
  import opened ClientPackets
  import opened ClientHeaders
  import opened ClientPlans
  import opened ClientChoice
  import opened ClientLink

  predicate Switched(events: seq<Event>, i: nat)
    requires i <= |events|
  {
    exists k :: 0 <= k < i && events[k].Enable?
  }

  lemma SwitchedNext(events: seq<Event>, i: nat)
    requires i < |events|
    ensures Switched(events, i + 1) <==> Switched(events, i) || events[i].Enable?
  {
    if Switched(events, i) {
      var k :| 0 <= k < i && events[k].Enable?;
      assert events[k].Enable? && k < i + 1;
    }
  }

  /** The encoder is enabled exactly when it has been told so. */
  lemma {:induction false} EnabledByEvent(dictionary: Dictionary, events: seq<Event>, i: nat)
    requires GoodDictionary(dictionary) && GoodEvents(events) && i <= |events|
    ensures GoodEvents(events[..i])
    ensures StateAfter(dictionary, events[..i]).enabled <==> Switched(events, i)
  {
    if i > 0 {
      hide StateAfter, After, GoodEvents, Switched;
      EnabledByEvent(dictionary, events, i - 1);
      NextState(dictionary, events, i - 1);
      SwitchedNext(events, i - 1);
      if events[i - 1].Send? {
        PacketKeepsSwitch(StateAfter(dictionary, events[..i - 1]), events[i - 1].packet);
      }
    }
  }

  lemma PacketKeepsSwitch(st: EncoderState, packet: seq<u8>)
    requires st.dictionary.WellFormed()
    ensures After(st, packet).enabled == st.enabled
  {
  }

  /** In a stream in order the number to which distances refer is that of the last
      packet with a header. */
  lemma {:induction false} LastIsNewest(dictionary: Dictionary, events: seq<Event>, i: nat)
    requires GoodDictionary(dictionary) && GoodEvents(events) && Ordered(events) && i <= |events|
    ensures GoodEvents(events[..i])
    ensures var st, last := StateAfter(dictionary, events[..i]), LastHeader(events[..i]);
            (st.started <==> last.Some?) && (st.started ==> st.last == Masked(last.value.sequence))
  {
    assert forall k :: 0 <= k < i ==> events[..i][k] == events[k];
    if i > 0 {
      assert events[i - 1].Send? ==> InOrder(LastHeader(events[..i - 1]), events[i - 1].packet);
      hide StateAfter, LastHeader, After, ReadRawHeader, GoodEvents, Ordered, InOrder;
      LastIsNewest(dictionary, events, i - 1);
      NextState(dictionary, events, i - 1);
      if events[i - 1].Send? {
        LastAfter(StateAfter(dictionary, events[..i - 1]), LastHeader(events[..i - 1]), events[i - 1].packet);
      }
    }
  }

  lemma LastAfter(st: EncoderState, last: Option<RawHeader>, packet: seq<u8>)
    requires st.dictionary.WellFormed() && InOrder(last, packet)
    requires (st.started <==> last.Some?) && (st.started ==> st.last == Masked(last.value.sequence))
    ensures After(st, packet).started <==> last.Some? || ReadRawHeader(packet).Some?
    ensures After(st, packet).started ==>
              After(st, packet).last == Masked((if ReadRawHeader(packet).Some? then ReadRawHeader(packet)
                                                else last).value.sequence)
  {
    hide PlanOf, Commit, Operations, IsCompressedPacket, ReadRawHeader;
  }

  /** Nothing is compressed before the switch: everything sent arrives as it is. */
  lemma NothingBeforeSwitch(dictionary: Dictionary, events: seq<Event>, i: nat)
    requires GoodDictionary(dictionary) && GoodEvents(events) && i < |events| && events[i].Send?
    requires !Switched(events, i)
    ensures GoodEvents(events[..i]) && PlanOf(StateAfter(dictionary, events[..i]), events[i].packet).None?
    ensures DeliveredAt(dictionary, events, i) == events[i].packet
  {
    EnabledByEvent(dictionary, events, i);
    hide StateAfter, GoodEvents;
    CompressedExactly(StateAfter(dictionary, events[..i]), events[i].packet);
    hide PlanOf;
  }

  /** The operations take up the whole body, and none of them can lack a code but a
      move without a basis: strings are free of the escape byte. */
  ghost predicate Codable(packet: seq<u8>)
    requires |packet| >= 10
  {
    && AllBytes(Operations(packet)) == packet[10..]
    && forall i :: 0 <= i < |Operations(packet)| ==>
         var op := Operations(packet)[i];
         op.opcode != CLC_NOP && op.opcode != CLC_VOICE_RAW && (op.opcode == CLC_STRING ==> ESCAPE !in op.payload)
  }

  /** What a packet with a move leaves on record: itself and the one before it. */
  lemma MoveLeavesBoth(st: EncoderState, packet: seq<u8>)
    requires st.dictionary.WellFormed() && ReadRawHeader(packet).Some? && HasMove(Operations(packet))
    ensures var moves, number := After(st, packet).moves, Masked(ReadRawHeader(packet).value.sequence);
            RecordAt(moves, number).Some? && RecordAt(moves, (number - 1) % 0x8000_0000).Some?
  {
    var number := Masked(ReadRawHeader(packet).value.sequence);
    MovesAfter(st, packet);
    hide After, Commit, RecordAt, ReadRawHeader, PlanOf, HasMove, Basis, Operations, First;
    if PlanOf(st, packet).Some? {
      PlanHasBasis(st, packet);
      CommitLeavesBoth(st.moves, Operations(packet), number, PlanOf(st, packet).value.setting.delta, false);
    } else {
      CommitLeavesBoth(st.moves, Operations(packet), number, 1, true);
    }
  }

  lemma CommitLeavesBoth(h: History, operations: seq<Operation>, number: u32, delta: u8, raw: bool)
    requires number < 0x8000_0000 && HasMove(operations)
    requires raw || (1 <= delta && Basis(h, number, delta).Some?)
    ensures var moves := Commit(h, operations, number, if raw then 0 else First(delta));
            RecordAt(moves, number).Some? && RecordAt(moves, (number - 1) % 0x8000_0000).Some?
  {
    hide Commit, RecordAt, HasMove, Basis, First;
    MoveMakesBasis(h, operations, number, delta, raw, 1);
    BasisOfNext(Commit(h, operations, number, if raw then 0 else First(delta)), number);
  }

  lemma MovesAfter(st: EncoderState, packet: seq<u8>)
    requires st.dictionary.WellFormed() && ReadRawHeader(packet).Some?
    ensures |packet| >= 10
    ensures After(st, packet).moves
            == Commit(st.moves, Operations(packet), Masked(ReadRawHeader(packet).value.sequence),
                      match PlanOf(st, packet) case None => 0 case Some(plan) => First(plan.setting.delta))
  {
  }

  lemma PlanHasBasis(st: EncoderState, packet: seq<u8>)
    requires st.dictionary.WellFormed() && ReadRawHeader(packet).Some? && PlanOf(st, packet).Some?
    requires |packet| >= 10 && HasMove(Operations(packet))
    ensures var delta := PlanOf(st, packet).value.setting.delta;
            1 <= delta && Basis(st.moves, Masked(ReadRawHeader(packet).value.sequence), delta).Some?
  {
    PlanFacts(st, packet);
    hide PlanOf, Basis, ReadRawHeader, ItemsFrom, Operations;
    MoveHasBasis(PlanOf(st, packet).value.setting, Operations(packet));
  }

  lemma MoveHasBasis(s: Setting, operations: seq<Operation>)
    requires 1 <= s.delta && Arrivable(s, operations) && HasMove(operations)
    ensures Basis(s.history, s.sequence, s.delta).Some?
  {
  }

  lemma BasisOfNext(h: History, number: u32)
    requires number < 0x8000_0000 && Basis(h, (number + 1) % 0x8000_0000, 1).Some?
    ensures RecordAt(h, number).Some? && RecordAt(h, (number - 1) % 0x8000_0000).Some?
  {
    BasisNumbers(number, 1, 1);
  }

  /** Once compression is switched on, a packet with a move is followed by compressed
      packets: whatever is codable and at most 28 ahead. */
  lemma MovesAreFollowed(dictionary: Dictionary, events: seq<Event>, i: nat)
    requires GoodDictionary(dictionary) && GoodEvents(events) && Ordered(events) && i + 1 < |events|
    requires events[i].Send? && events[i + 1].Send? && Switched(events, i)
    requires ReadRawHeader(events[i].packet).Some? && ReadRawHeader(events[i + 1].packet).Some?
    requires 1 <= (ReadRawHeader(events[i + 1].packet).value.sequence
                   - ReadRawHeader(events[i].packet).value.sequence) % 0x8000_0000 <= 28
    requires |events[i].packet| >= 10 && HasMove(Operations(events[i].packet))
    requires |events[i + 1].packet| >= 10 && Codable(events[i + 1].packet)
    ensures GoodEvents(events[..i + 1])
    ensures PlanOf(StateAfter(dictionary, events[..i + 1]), events[i + 1].packet).Some?
  {
    hide StateAfter, LastHeader, GoodEvents, Ordered, ReadRawHeader, After, HasMove, Compressible, Codable, PlanOf,
         BothRecorded, Operations;
    EnabledByEvent(dictionary, events, i + 1);
    BothAfterMove(dictionary, events, i);
    var st := StateAfter(dictionary, events[..i + 1]);
    CodableIsCompressible(st, events[i].packet, events[i + 1].packet);
    CompressedExactly(st, events[i + 1].packet);
  }

  /** After a packet with a move the next one can refer to it. */
  lemma BothAfterMove(dictionary: Dictionary, events: seq<Event>, i: nat)
    requires GoodDictionary(dictionary) && GoodEvents(events) && Ordered(events) && i < |events| && events[i].Send?
    requires ReadRawHeader(events[i].packet).Some? && |events[i].packet| >= 10 && HasMove(Operations(events[i].packet))
    ensures GoodEvents(events[..i + 1])
    ensures var st := StateAfter(dictionary, events[..i + 1]);
            && st.started && st.last == Masked(ReadRawHeader(events[i].packet).value.sequence) && BothRecorded(st)
  {
    hide StateAfter, LastHeader, GoodEvents, Ordered, ReadRawHeader, After, HasMove, Operations, RecordAt;
    LastIsNewest(dictionary, events, i + 1);
    NextState(dictionary, events, i);
    MoveLeavesBoth(StateAfter(dictionary, events[..i]), events[i].packet);
  }

  lemma CodableIsCompressible(st: EncoderState, packet: seq<u8>, next: seq<u8>)
    requires st.dictionary.WellFormed() && st.enabled && st.started
    requires ReadRawHeader(packet).Some? && ReadRawHeader(next).Some? && |next| >= 10 && Codable(next)
    requires st.last == Masked(ReadRawHeader(packet).value.sequence)
    requires 1 <= (ReadRawHeader(next).value.sequence - ReadRawHeader(packet).value.sequence) % 0x8000_0000 <= 28
    requires BothRecorded(st)
    ensures Compressible(st, next)
  {
    hide RecordAt, ReadRawHeader, Stuck, AllBytes, Operations;
    SameDistance(ReadRawHeader(packet).value.sequence, ReadRawHeader(next).value.sequence);
    forall k | 0 <= k < |Operations(next)|
      ensures HasCode(st, Operations(next)[k])
    {
      if Operations(next)[k].opcode == CLC_STRING {
        PlainIsNeverStuck(st.dictionary, Operations(next)[k].payload);
        StuckExactly(st.dictionary, Operations(next)[k].payload);
      }
    }
  }

  lemma SameDistance(previous: u32, sequence: u32)
    ensures (sequence - Masked(previous)) % 0x8000_0000 == (sequence - previous) % 0x8000_0000
  {
  }
}
