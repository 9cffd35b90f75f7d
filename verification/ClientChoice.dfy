/** When the client encoder compresses a packet, in terms of what was sent before and
    what the packet holds. */
module ClientChoice {
  import opened Words
  import opened ClientMoves
  import opened ClientStrings
  import opened ClientOperations
  import opened ClientPackets
  import opened ClientHeaders
  import opened ClientPlans

  // ----- Strings -----------------------------------------------------------

  /** How far one step of the string encoder goes. */
  function StepSize(d: Dictionary, data: seq<u8>): (size: nat)
    requires d.WellFormed() && data != []
    ensures 1 <= size <= |data|
  {
    match MatchOf(d, data)
    case None => 1
    case Some(m) => MatchFits(d, data); |m.text|
  }

  /** A step of the encoder begins at `k`. */
  ghost predicate Reached(d: Dictionary, data: seq<u8>, k: nat)
    requires d.WellFormed() && k <= |data|
    decreases k
  {
    k == 0 || exists j: nat :: j < k && Reached(d, data, j) && k == j + StepSize(d, data[j..])
  }

  /** A step begins at a byte that looks like the escape, and no entry of a dictionary
      covers it. */
  ghost predicate StuckAt(d: Dictionary, data: seq<u8>, k: nat)
    requires d.WellFormed()
  {
    k < |data| && Reached(d, data, k) && data[k] == ESCAPE && MatchOf(d, data[k..]).None?
  }

  ghost predicate Stuck(d: Dictionary, data: seq<u8>)
    requires d.WellFormed()
  {
    exists k: nat :: StuckAt(d, data, k)
  }

  /** The steps after the first one are those of the rest. */
  lemma {:induction false} ReachedLater(d: Dictionary, data: seq<u8>, k: nat)
    requires d.WellFormed() && data != [] && StepSize(d, data) <= k <= |data| && Reached(d, data, k)
    ensures Reached(d, data[StepSize(d, data)..], k - StepSize(d, data))
    decreases k
  {
    hide StepSize;
    var size := StepSize(d, data);
    var tail := data[size..];
    if k > size {
      var j: nat :| j < k && Reached(d, data, j) && k == j + StepSize(d, data[j..]);
      assert data[0..] == data;
      NothingBetween(d, data, j);
      ReachedLater(d, data, j);
      assert data[j..] == tail[j - size..];
    }
  }

  lemma {:induction false} ReachedEarlier(d: Dictionary, data: seq<u8>, k: nat)
    requires d.WellFormed() && data != [] && StepSize(d, data) + k <= |data|
    requires Reached(d, data[StepSize(d, data)..], k)
    ensures Reached(d, data, StepSize(d, data) + k)
    decreases k
  {
    hide StepSize;
    var size := StepSize(d, data);
    var tail := data[size..];
    if k == 0 {
      assert data[0..] == data && Reached(d, data, 0);
    } else {
      var j: nat :| j < k && Reached(d, tail, j) && k == j + StepSize(d, tail[j..]);
      ReachedEarlier(d, data, j);
      assert data[size + j..] == tail[j..];
    }
  }

  /** No step begins inside the first one. */
  lemma {:induction false} NothingBetween(d: Dictionary, data: seq<u8>, k: nat)
    requires d.WellFormed() && data != [] && k <= |data| && Reached(d, data, k)
    ensures k == 0 || k >= StepSize(d, data)
    decreases k
  {
    if k > 0 {
      var j: nat :| j < k && Reached(d, data, j) && k == j + StepSize(d, data[j..]);
      NothingBetween(d, data, j);
      assert data[0..] == data;
    }
  }

  /** A string has no compressed form exactly when its encoder gets stuck. */
  lemma {:induction false} StuckExactly(d: Dictionary, data: seq<u8>)
    requires d.WellFormed()
    ensures StringItems(d, data).None? <==> Stuck(d, data)
    decreases |data|
  {
    if data != [] {
      var size := StepSize(d, data);
      var tail := data[size..];
      assert data[0..] == data && Reached(d, data, 0);
      StuckExactly(d, tail);
      if MatchOf(d, data).None? && data[0] == ESCAPE {
        assert StuckAt(d, data, 0);
      } else {
        StuckLater(d, data);
      }
    }
  }

  lemma StuckLater(d: Dictionary, data: seq<u8>)
    requires d.WellFormed() && data != [] && (MatchOf(d, data).Some? || data[0] != ESCAPE)
    ensures Stuck(d, data) <==> Stuck(d, data[StepSize(d, data)..])
  {
    hide StuckAt, StepSize, MatchOf;
    var size := StepSize(d, data);
    if Stuck(d, data) {
      var k: nat :| StuckAt(d, data, k);
      StuckAtLater(d, data, k);
    }
    if Stuck(d, data[size..]) {
      var k: nat :| StuckAt(d, data[size..], k);
      StuckAtEarlier(d, data, k);
    }
  }

  lemma StuckAtLater(d: Dictionary, data: seq<u8>, k: nat)
    requires d.WellFormed() && data != [] && (MatchOf(d, data).Some? || data[0] != ESCAPE) && StuckAt(d, data, k)
    ensures k >= StepSize(d, data) && StuckAt(d, data[StepSize(d, data)..], k - StepSize(d, data))
  {
    hide StepSize, MatchOf, Reached;
    var size := StepSize(d, data);
    assert data[0..] == data;
    NothingBetween(d, data, k);
    ReachedLater(d, data, k);
    assert data[size..][k - size..] == data[k..];
  }

  lemma StuckAtEarlier(d: Dictionary, data: seq<u8>, k: nat)
    requires d.WellFormed() && data != [] && StuckAt(d, data[StepSize(d, data)..], k)
    ensures StuckAt(d, data, StepSize(d, data) + k)
  {
    hide StepSize, MatchOf, Reached;
    var size := StepSize(d, data);
    ReachedEarlier(d, data, k);
    assert data[size..][k..] == data[size + k..];
  }

  /** A string without the escape byte can always be compressed. */
  lemma PlainIsNeverStuck(d: Dictionary, data: seq<u8>)
    requires d.WellFormed() && ESCAPE !in data
    ensures StringItems(d, data).Some?
  {
    StuckExactly(d, data);
  }

  // ----- Packets -----------------------------------------------------------

  /** The packet seen last and the one before it are on record. */
  predicate BothRecorded(st: EncoderState) {
    RecordAt(st.moves, st.last % 0x8000_0000).Some? && RecordAt(st.moves, (st.last - 1) % 0x8000_0000).Some?
  }

  /** An operation that the link has a code for. */
  ghost predicate HasCode(st: EncoderState, op: Operation)
    requires st.dictionary.WellFormed()
  {
    && op.opcode != CLC_NOP && op.opcode != CLC_VOICE_RAW
    && (op.opcode == CLC_MOVE ==> BothRecorded(st))
    && (op.opcode == CLC_STRING ==> !Stuck(st.dictionary, op.payload))
  }

  /** The packet is 1 to 28 ahead of the one seen last, which is on record; the
      operations take up its whole body, and all of them have a code. */
  ghost predicate Compressible(st: EncoderState, packet: seq<u8>)
    requires st.dictionary.WellFormed()
  {
    && st.enabled && st.started
    && ReadRawHeader(packet).Some?
    && 1 <= (ReadRawHeader(packet).value.sequence - st.last) % 0x8000_0000 <= 28
    && RecordAt(st.moves, st.last % 0x8000_0000).Some?
    && AllBytes(Operations(packet)) == packet[10..]
    && forall i :: 0 <= i < |Operations(packet)| ==> HasCode(st, Operations(packet)[i])
  }

  /** After an error some of the body is left. */
  lemma {:induction false} IncompleteIsShort(body: seq<u8>, done: seq<Operation>, compressible: bool)
    ensures var r := ParseAll(body, done, compressible);
            !r.complete ==> |AllBytes(r.operations)| < |AllBytes(done)| + |body|
    decreases |body|
  {
    hide ParseOne, Compressed, AllBytes;
    if body != [] && ParseOne(body).Some? {
      var op := ParseOne(body).value;
      IncompleteIsShort(body[|op.raw.value|..], done + [op], compressible && Compressed(op.opcode));
      LastBytes(done, op);
    }
  }

  lemma {:induction false} OpcodesTell(body: seq<u8>, done: seq<Operation>, compressible: bool)
    requires ParseAll(body, done, compressible).complete
    ensures var r := ParseAll(body, done, compressible);
            && done <= r.operations
            && (r.compressible <==> compressible && forall i :: |done| <= i < |r.operations| ==>
                                                      Compressed(r.operations[i].opcode))
    decreases |body|
  {
    hide ParseOne, Compressed;
    if body != [] {
      var op := ParseOne(body).value;
      var r := ParseAll(body, done, compressible);
      OpcodesTell(body[|op.raw.value|..], done + [op], compressible && Compressed(op.opcode));
      assert r.operations[|done|] == (done + [op])[|done|] == op;
      assert (done + [op])[..|done|] == done;
    }
  }

  /** Parsing is complete exactly when the operations are the whole body, and then
      says which opcodes occur. */
  lemma CompleteExactly(body: seq<u8>)
    ensures var r := ParseAll(body, [], true);
            && (r.complete <==> AllBytes(r.operations) == body)
            && (r.complete ==>
                  (r.compressible <==> forall i :: 0 <= i < |r.operations| ==> Compressed(r.operations[i].opcode)))
  {
    hide ParseAll, Compressed;
    var r := ParseAll(body, [], true);
    ParsedBytes(body, [], true);
    assert AllBytes([]) == [] && [] + body == body;
    hide AllBytes;
    if r.complete {
      OpcodesTell(body, [], true);
    } else {
      IncompleteIsShort(body, [], true);
    }
  }

  /** All operations have items exactly when each of them does. */
  lemma {:induction false} ItemsExactly(s: Setting, operations: seq<Operation>, ack: u32, i: nat)
    requires s.dictionary.WellFormed() && AllWellFormed(operations) && i <= |operations|
    ensures ItemsFrom(s, operations, ack, i).Some? <==>
            forall k :: i <= k < |operations| ==>
              (operations[k].opcode == CLC_MOVE ==> Basis(s.history, s.sequence, s.delta).Some?)
              && (operations[k].opcode == CLC_STRING ==> !Stuck(s.dictionary, operations[k].payload))
    decreases |operations| - i
  {
    hide Basis, Stuck, StringItems, WellFormed, LiteralItems, UploadItems;
    if i < |operations| {
      ItemsExactly(s, operations, ack, i + 1);
      OperationExactly(s, operations[i]);
    }
  }

  lemma OperationExactly(s: Setting, op: Operation)
    requires s.dictionary.WellFormed() && WellFormed(op)
    ensures OperationItems(s, op).Some? <==>
            (op.opcode == CLC_MOVE ==> Basis(s.history, s.sequence, s.delta).Some?)
            && (op.opcode == CLC_STRING ==> !Stuck(s.dictionary, op.payload))
  {
    hide Basis, Stuck, StringItems, LiteralItems, UploadItems;
    if op.opcode == CLC_STRING {
      StuckExactly(s.dictionary, op.payload);
    }
  }

  /** The packet that a distance refers back to is the one seen last. */
  lemma ReferredTo(st: EncoderState, sequence: u32)
    ensures DeltaTo(st, sequence) == (sequence - st.last) % 0x8000_0000
    ensures Before(Masked(sequence), DeltaTo(st, sequence)) == st.last % 0x8000_0000
    ensures Before(Masked(sequence), DeltaTo(st, sequence) + 1) == (st.last - 1) % 0x8000_0000
  {
    BackBy(Masked(sequence), st.last, 0);
    BackBy(Masked(sequence), st.last, 1);
    assert (Masked(sequence) - st.last) % 0x8000_0000 == (sequence - st.last) % 0x8000_0000 by {
      SameRest(sequence, st.last);
    }
  }

  lemma BackBy(a: int, b: int, more: nat)
    ensures (a - ((a - b) % 0x8000_0000 + more)) % 0x8000_0000 == (b - more) % 0x8000_0000
  {
    var rounds := (a - b) / 0x8000_0000;
    assert a - b == rounds * 0x8000_0000 + (a - b) % 0x8000_0000;
    RoundsCancel(b - more, rounds);
    assert a - ((a - b) % 0x8000_0000 + more) == b - more + rounds * 0x8000_0000;
  }

  lemma RoundsCancel(a: int, rounds: int)
    ensures (a + rounds * 0x8000_0000) % 0x8000_0000 == a % 0x8000_0000
  {
  }

  lemma SameRest(a: u32, b: int)
    ensures (Masked(a) - b) % 0x8000_0000 == (a - b) % 0x8000_0000
  {
  }

  /** The encoder compresses exactly the compressible packets. */
  lemma CompressedExactly(st: EncoderState, packet: seq<u8>)
    requires st.dictionary.WellFormed()
    ensures PlanOf(st, packet).Some? <==> Compressible(st, packet)
  {
    hide PlanOf, ParseAll, ItemsFrom, AllBytes, RecordAt, Stuck, Before, DeltaTo, ReadRawHeader, AllWellFormed;
    if ReadRawHeader(packet).Some? {
      HeaderIsTen(packet);
      var h, r := ReadRawHeader(packet).value, ParseAll(packet[10..], [], true);
      ReferredTo(st, h.sequence);
      CompleteExactly(packet[10..]);
      PlannedExactly(st, packet);
      if r.complete && r.compressible && SettingOf(st, h.sequence).Some? {
        ItemsExactly(SettingOf(st, h.sequence).value, r.operations, h.ack, 0);
      }
    } else {
      NoHeaderNoPlan(st, packet);
    }
  }

  lemma NoHeaderNoPlan(st: EncoderState, packet: seq<u8>)
    requires st.dictionary.WellFormed() && ReadRawHeader(packet).None?
    ensures PlanOf(st, packet).None?
  {
  }

  /** What the encoder goes through, one after the other. */
  lemma PlannedExactly(st: EncoderState, packet: seq<u8>)
    requires st.dictionary.WellFormed() && ReadRawHeader(packet).Some? && |packet| >= 10
    ensures var h, r := ReadRawHeader(packet).value, ParseAll(packet[10..], [], true);
            && (r.complete && r.compressible ==> AllWellFormed(r.operations))
            && (PlanOf(st, packet).Some? <==>
                  && r.complete && r.compressible && SettingOf(st, h.sequence).Some?
                  && ItemsFrom(SettingOf(st, h.sequence).value, r.operations, h.ack, 0).Some?)
  {
    hide ParseAll, ItemsFrom, AnyFolded, AllWellFormed, SettingOf, ReadRawHeader;
    ParsedAllWellFormed(packet[10..], [], true);
  }

  lemma HeaderIsTen(packet: seq<u8>)
    requires ReadRawHeader(packet).Some?
    ensures |packet| >= 10
  {
  }
}
