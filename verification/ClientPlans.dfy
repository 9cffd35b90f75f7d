/** The decision of the client encoder: which packets are compressed, and into
    what. */
module ClientPlans {
  import opened Words
  import opened LinkStreams
  import opened ClientMoves
  import opened ClientStrings
  import opened ClientOperations
  import opened ClientPackets
  import opened ClientHeaders
  import H = HuffmanRoundTrip

  /** `last` is the newest sequence number seen, once there is one. */
  datatype EncoderState = EncoderState(dictionary: Dictionary, enabled: bool, started: bool, last: u32, moves: History)

  const MAX_DELTA: u8 := 28

  function Tracked(started: bool, last: u32, sequence: u32): u32 {
    if !started || Newer(last, sequence) then sequence else last
  }

  /** The number after all of these have been seen. */
  function TrackedAll(numbers: seq<u32>): u32
    requires numbers != []
  {
    var n := |numbers| - 1;
    if n == 0 then numbers[0] else Tracked(true, TrackedAll(numbers[..n]), numbers[n])
  }

  function Number(first: u32, ahead: nat): u32 {
    (first + ahead) % 0x8000_0000
  }

  function Numbers(first: u32, ahead: seq<nat>): (numbers: seq<u32>)
    ensures |numbers| == |ahead|
  {
    seq(|ahead|, i requires 0 <= i < |ahead| => Number(first, ahead[i]))
  }

  /** In whatever order numbers come, within half of the half range, around the 2^31 wrap
      or not, the one to which distances refer is the greatest. */
  lemma {:induction false} TrackedIsGreatest(first: u32, ahead: seq<nat>) returns (g: nat)
    requires ahead != [] && forall i :: 0 <= i < |ahead| ==> ahead[i] < 0x4000_0000
    ensures g < |ahead| && IsGreatest(ahead, g) && TrackedAll(Numbers(first, ahead)) == Number(first, ahead[g])
    decreases |ahead|
  {
    hide Number, Newer;
    var n, numbers := |ahead| - 1, Numbers(first, ahead);
    g := 0;
    if n > 0 {
      g := TrackedIsGreatest(first, ahead[..n]);
      assert numbers[..n] == Numbers(first, ahead[..n]);
      NewerIsGreater(first, ahead[g], ahead[n]);
      assert forall i :: 0 <= i < n ==> ahead[..n][i] == ahead[i];
      TrackedNext(numbers);
      g := if ahead[n] > ahead[g] then n else g;
    }
  }

  lemma TrackedNext(numbers: seq<u32>)
    requires |numbers| >= 2
    ensures var n := |numbers| - 1;
            TrackedAll(numbers) == Tracked(true, TrackedAll(numbers[..n]), numbers[n])
  {
  }

  predicate IsGreatest(ahead: seq<nat>, g: nat)
    requires g < |ahead|
  {
    forall i :: 0 <= i < |ahead| ==> ahead[i] <= ahead[g]
  }

  lemma NewerIsGreater(first: u32, a: nat, b: nat)
    requires a < 0x4000_0000 && b < 0x4000_0000
    ensures Newer(Number(first, a), Number(first, b)) <==> a < b
  {
    SameDifference(first + b, first + a);
  }

  lemma SameDifference(x: int, y: int)
    ensures (x % 0x8000_0000 - y % 0x8000_0000) % 0x8000_0000 == (x - y) % 0x8000_0000
  {
    assert x == x / 0x8000_0000 * 0x8000_0000 + x % 0x8000_0000;
    assert y == y / 0x8000_0000 * 0x8000_0000 + y % 0x8000_0000;
    assert x - y == (x / 0x8000_0000 - y / 0x8000_0000) * 0x8000_0000 + (x % 0x8000_0000 - y % 0x8000_0000);
  }

  function Operations(packet: seq<u8>): seq<Operation>
    requires |packet| >= 10
  {
    ParseAll(packet[10..], [], true).operations
  }

  lemma {:induction false} ParsedAllWellFormed(body: seq<u8>, done: seq<Operation>, compressible: bool)
    requires forall i :: 0 <= i < |done| ==> WellFormed(done[i])
    requires compressible ==> forall i :: 0 <= i < |done| ==> Compressed(done[i].opcode)
    ensures var r := ParseAll(body, done, compressible);
            && (forall i :: 0 <= i < |r.operations| ==> WellFormed(r.operations[i]))
            && (r.compressible ==> AllWellFormed(r.operations))
    decreases |body|
  {
    hide ParseOne, WellFormed, Compressed;
    if body != [] && ParseOne(body).Some? {
      var op := ParseOne(body).value;
      ParsedIsWellFormed(body);
      ParsedAllWellFormed(body[|op.raw.value|..], done + [op], compressible && Compressed(op.opcode));
    }
  }

  /** A compressed packet: what it is coded from, and its items. */
  datatype Plan = Plan(setting: Setting, items: Items, clcDelta: bool)

  function DeltaTo(st: EncoderState, sequence: u32): nat {
    (Masked(sequence) - st.last) % 0x8000_0000
  }

  /** The setting in which a packet may be compressed. */
  function SettingOf(st: EncoderState, sequence: u32): Option<Setting> {
    var delta := DeltaTo(st, sequence);
    if !st.enabled || !st.started || delta == 0 || delta > MAX_DELTA then None
    else if RecordAt(st.moves, Before(Masked(sequence), delta)).None? then None
    else Some(Setting(st.dictionary, st.moves, Masked(sequence), delta))
  }

  function PlanOf(st: EncoderState, packet: seq<u8>): Option<Plan>
    requires st.dictionary.WellFormed()
  {
    match ReadRawHeader(packet)
    case None => None
    case Some(h) =>
      var parsing := ParseAll(packet[10..], [], true);
      var setting := SettingOf(st, h.sequence);
      ParsedAllWellFormed(packet[10..], [], true);
      if !parsing.complete || !parsing.compressible || setting.None? then None
      else
        match ItemsFrom(setting.value, parsing.operations, h.ack, 0)
        case None => None
        case Some(items) =>
          Some(Plan(setting.value, [H.Coded(SEQUENCE_DELTA, setting.value.delta)] + items,
                    AnyFolded(parsing.operations, h.ack)))
  }

  /** The encoder after a packet. */
  function After(st: EncoderState, packet: seq<u8>): EncoderState
    requires st.dictionary.WellFormed()
  {
    match ReadRawHeader(packet)
    case None => st
    case Some(h) =>
      var first := match PlanOf(st, packet) case None => 0 case Some(plan) => First(plan.setting.delta);
      st.(moves := Commit(st.moves, Operations(packet), Masked(h.sequence), first),
          last := Tracked(st.started, st.last, Masked(h.sequence)), started := true)
  }

  lemma PlanFacts(st: EncoderState, packet: seq<u8>)
    requires st.dictionary.WellFormed() && PlanOf(st, packet).Some?
    ensures var plan := PlanOf(st, packet).value;
            && ReadRawHeader(packet).Some? && |packet| >= 10
            && var h := ReadRawHeader(packet).value;
            && plan.setting == Setting(st.dictionary, st.moves, Masked(h.sequence), plan.setting.delta)
            && 1 <= plan.setting.delta <= MAX_DELTA
            && AllWellFormed(Operations(packet)) && Arrivable(plan.setting, Operations(packet))
            && ItemsFrom(plan.setting, Operations(packet), h.ack, 0).Some?
            && plan.items == [H.Coded(SEQUENCE_DELTA, plan.setting.delta)]
                             + ItemsFrom(plan.setting, Operations(packet), h.ack, 0).value
            && (plan.clcDelta <==> AnyFolded(Operations(packet), h.ack))
  {
    hide ParseAll, ItemsFrom, AnyFolded, WellFormed, Basis, Commit;
    ParsedAllWellFormed(packet[10..], [], true);
    var plan, h := PlanOf(st, packet).value, ReadRawHeader(packet).value;
    EncodableIsArrivable(plan.setting, Operations(packet), h.ack, 0);
  }

  /** What the receiver of a packet gets: raw packets as they are, compressed ones
      rebuilt from what arrives of their operations. */
  function Delivered(st: EncoderState, packet: seq<u8>): seq<u8>
    requires st.dictionary.WellFormed()
  {
    match PlanOf(st, packet)
    case None => packet
    case Some(plan) =>
      PlanFacts(st, packet);
      RawHeaderBytes(ReadRawHeader(packet).value)
      + AllBytes(AllArrived(plan.setting, Operations(packet), ReadRawHeader(packet).value.ack))
  }

  /** What a compressed packet's items mean to a decoder with this dictionary and
      history: the distance to the packet referred to, and all operations. */
  function ParsePacket(dictionary: Dictionary, moves: History, sequence: u32, ack: u32, clcDelta: bool, items: Items)
    : Parse<(u8, seq<Operation>)>
    requires dictionary.WellFormed()
  {
    match TakeSymbol(items, SEQUENCE_DELTA)
    case Lost => Lost
    case Parsed(delta, rest) =>
      if delta == 0 || delta > MAX_DELTA then Bad
      else
        match ParseOperations(Setting(dictionary, moves, Masked(sequence), delta), rest, [])
        case Bad => Bad
        case Lost => Lost
        case Parsed(operations, rest) =>
          Parsed((delta, operations + (if clcDelta then [Plain(CLC_DELTA, [ack % 0x100])] else [])), rest)
  }

  /** A distance that no encoder sends is refused, and no other. */
  lemma DistanceIsChecked(dictionary: Dictionary, moves: History, sequence: u32, ack: u32, clcDelta: bool,
                          delta: u8, rest: Items)
    requires dictionary.WellFormed()
    ensures var p := ParsePacket(dictionary, moves, sequence, ack, clcDelta, [H.Coded(SEQUENCE_DELTA, delta)] + rest);
            if 1 <= delta <= 28 then p.Parsed? ==> p.value.0 == delta else p.Bad?
    ensures 1 <= delta <= 28 ==>
              ParsePacket(dictionary, moves, sequence, ack, clcDelta,
                          [H.Coded(SEQUENCE_DELTA, delta), H.Coded(OPCODE, CLC_BAD)] + rest).Parsed?
  {
    SymbolRestored(SEQUENCE_DELTA, delta, rest);
    var empty := [H.Coded(OPCODE, CLC_BAD)] + rest;
    SymbolRestored(SEQUENCE_DELTA, delta, empty);
    SymbolRestored(OPCODE, CLC_BAD, rest);
    assert [H.Coded(SEQUENCE_DELTA, delta), H.Coded(OPCODE, CLC_BAD)] + rest
           == [H.Coded(SEQUENCE_DELTA, delta)] + empty;
  }

  /** The items of a plan mean, to a decoder with the same dictionary and history,
      what arrives of its operations. */
  lemma PlanRestored(st: EncoderState, packet: seq<u8>)
    requires st.dictionary.WellFormed() && st.dictionary.NulFree() && PlanOf(st, packet).Some?
    ensures ReadRawHeader(packet).Some? && Arrivable(PlanOf(st, packet).value.setting, Operations(packet))
    ensures var plan, h := PlanOf(st, packet).value, ReadRawHeader(packet).value;
            ParsePacket(st.dictionary, st.moves, h.sequence, h.ack, plan.clcDelta, plan.items)
            == Parsed((plan.setting.delta, AllArrived(plan.setting, Operations(packet), h.ack)), [])
  {
    PlanFacts(st, packet);
    hide PlanOf, ItemsFrom, ParseOperations, ArrivedFrom, AnyFolded, WellFormed, Arrivable, Operations;
    var plan, h := PlanOf(st, packet).value, ReadRawHeader(packet).value;
    var items := ItemsFrom(plan.setting, Operations(packet), h.ack, 0).value;
    SymbolRestored(SEQUENCE_DELTA, plan.setting.delta, items);
    OperationsRestored(plan.setting, Operations(packet), h.ack, 0, [], []);
    assert items + [] == items;
    assert [] + ArrivedFrom(plan.setting, Operations(packet), h.ack, 0)
           == ArrivedFrom(plan.setting, Operations(packet), h.ack, 0);
  }

  /** An operation with the bytes it is written as. */
  function Written(op: Operation): Operation {
    op.(raw := Some(OperationBytes(op)))
  }

  function AllWritten(operations: seq<Operation>): (written: seq<Operation>)
    ensures |written| == |operations|
  {
    seq(|operations|, i requires 0 <= i < |operations| => Written(operations[i]))
  }

  lemma LastBytes(operations: seq<Operation>, op: Operation)
    ensures AllBytes(operations + [op]) == AllBytes(operations) + OperationBytes(op)
  {
    hide OperationBytes;
    assert (operations + [op])[..|operations|] == operations;
  }

  lemma {:induction false} FirstBytes(first: Operation, later: seq<Operation>)
    ensures AllBytes([first] + later) == OperationBytes(first) + AllBytes(later)
    decreases |later|
  {
    hide OperationBytes;
    if later == [] {
      LastBytes([], first);
      assert [first] + later == [] + [first];
    } else {
      hide AllBytes;
      var init, last := later[..|later| - 1], later[|later| - 1];
      assert later == init + [last] && [first] + later == [first] + init + [last];
      FirstBytes(first, init);
      LastBytes(init, last);
      LastBytes([first] + init, last);
    }
  }

  /** A raw parser finds exactly the operations that were written. */
  lemma {:induction false} WrittenIsRead(operations: seq<Operation>, done: seq<Operation>, compressible: bool)
    requires forall i :: 0 <= i < |operations| ==> WellFormed(operations[i]) && operations[i].raw.None?
    ensures var r := ParseAll(AllBytes(operations), done, compressible);
            r.complete && r.operations == done + AllWritten(operations)
    decreases |operations|
  {
    hide ParseOne, WellFormed, OperationBytes;
    if operations == [] {
      assert done + AllWritten([]) == done;
    } else {
      var op := operations[0];
      FirstBytes(op, operations[1..]);
      assert operations == [op] + operations[1..];
      WrittenIsParsed(op, AllBytes(operations[1..]));
      var rest := AllBytes(operations)[|OperationBytes(op)|..];
      assert rest == AllBytes(operations[1..]);
      WrittenIsRead(operations[1..], done + [Written(op)], compressible && Compressed(op.opcode));
      assert done + [Written(op)] + AllWritten(operations[1..]) == done + AllWritten(operations);
    }
  }

  lemma {:induction false} ArrivedWellFormed(s: Setting, operations: seq<Operation>, ack: u32, i: nat)
    requires Arrivable(s, operations) && AllWellFormed(operations) && i <= |operations|
    ensures forall k :: 0 <= k < |ArrivedFrom(s, operations, ack, i)| ==>
              WellFormed(ArrivedFrom(s, operations, ack, i)[k]) && ArrivedFrom(s, operations, ack, i)[k].raw.None?
    decreases |operations| - i
  {
    hide TakePayload, Received, Basis;
    if i < |operations| {
      ArrivedWellFormed(s, operations, ack, i + 1);
      assert WellFormed(Arrived(s, operations[i]));
    }
  }

  /** What is delivered of a compressed packet, parsed again, is its own operations
      in their order, except that a clc_delta equal to the acknowledgement comes at
      the end, once, and that commands not sent are those on record. */
  lemma DeliveredIsParsed(st: EncoderState, packet: seq<u8>)
    requires st.dictionary.WellFormed() && PlanOf(st, packet).Some?
    ensures ReadRawHeader(packet).Some? && |packet| >= 10 && |Delivered(st, packet)| >= 10
    ensures Arrivable(PlanOf(st, packet).value.setting, Operations(packet))
    ensures ReadRawHeader(Delivered(st, packet)) == ReadRawHeader(packet)
    ensures Operations(Delivered(st, packet))
            == AllWritten(AllArrived(PlanOf(st, packet).value.setting, Operations(packet),
                                     ReadRawHeader(packet).value.ack))
  {
    PlanFacts(st, packet);
    var plan, h := PlanOf(st, packet).value, ReadRawHeader(packet).value;
    hide PlanOf, ParseOne, ItemsFrom, AnyFolded, WellFormed, Arrivable, Arrived, ReadRawHeader, RawHeaderBytes;
    var arrived := AllArrived(plan.setting, Operations(packet), h.ack);
    ArrivedWellFormed(plan.setting, Operations(packet), h.ack, 0);
    DeltaWellFormed(h.ack);
    WrittenIsRead(arrived, [], true);
    assert [] + AllWritten(arrived) == AllWritten(arrived);
    assert Delivered(st, packet)[10..] == AllBytes(arrived);
    SameHeader(packet, AllBytes(arrived));
  }

  lemma DeltaWellFormed(ack: u32)
    ensures WellFormed(Plain(CLC_DELTA, [ack % 0x100]))
  {
  }

  lemma SameHeader(packet: seq<u8>, body: seq<u8>)
    requires ReadRawHeader(packet).Some?
    ensures ReadRawHeader(RawHeaderBytes(ReadRawHeader(packet).value) + body) == ReadRawHeader(packet)
  {
    RawHeaderOfPacket(packet);
    var h := ReadRawHeader(packet).value;
    hide RawHeaderBytes;
    var delivered := RawHeaderBytes(h) + body;
    assert delivered[..10] == packet[..10];
    assert forall i :: 0 <= i < 10 ==> delivered[i] == packet[i];
  }
}
