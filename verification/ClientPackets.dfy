/** Client packets as items: what the encoder writes, what the decoder makes of it,
    and what both commit to their move histories. */
module ClientPackets {
  import opened Words
  import opened PackedWords
  import opened LinkStreams
  import opened ClientMoves
  import opened ClientStrings
  import opened ClientOperations
  import H = HuffmanRoundTrip

  /** Commits the commands of a move from index `first` on. */
  function CommitMove(h: History, move: ClientMove, sequence: u32, first: nat): History
    requires first <= 3
    decreases 3 - first
  {
    if first == 3 then h
    else
      var at := CommandSequence(sequence, first);
      CommitMove(h[at % 32 := Some(Entry(at, move.commands[first], move.lossage))], move, sequence, first + 1)
  }

  /** Raw packets commit all commands of their moves, compressed ones those sent. */
  function Commit(h: History, operations: seq<Operation>, sequence: u32, first: nat): History
    requires first <= 3
  {
    if operations == [] then h
    else
      var n := |operations| - 1;
      var before := Commit(h, operations[..n], sequence, first);
      if operations[n].move.Some? then CommitMove(before, operations[n].move.value, sequence, first) else before
  }

  /** A clc_delta that repeats the acknowledgement goes into the header. */
  predicate Folded(op: Operation, ack: u32) {
    op.opcode == CLC_DELTA && op.payload == [ack % 0x100]
  }

  predicate AnyFolded(operations: seq<Operation>, ack: u32) {
    exists i :: 0 <= i < |operations| && Folded(operations[i], ack)
  }

  /** What both ends use to code a packet. */
  datatype Setting = Setting(dictionary: Dictionary, history: History, sequence: u32, delta: u8)

  function UploadItems(data: seq<u8>, previous: u8): Items
    decreases |data|
  {
    if data == [] then [] else [H.Coded(UPLOAD_DELTA, Minus8(data[0], previous))] + UploadItems(data[1..], data[0])
  }

  /** Only operations that can be compressed are given to this. */
  function BodyItems(s: Setting, op: Operation): Option<Items>
    requires s.dictionary.WellFormed() && WellFormed(op)
  {
    if op.opcode == CLC_MOVE then MoveItems(s.history, op.move.value, s.sequence, s.delta)
    else if op.opcode == CLC_STRING then StringItems(s.dictionary, op.payload)
    else if op.opcode == CLC_VOICE_START || op.opcode == CLC_VOICE_STOP then Some(LiteralItems(op.payload))
    else if op.opcode == CLC_UPLOAD then Some(Literals(op.payload[..3]) + UploadItems(op.payload[3..], 0))
    else Some(Literals(op.payload))
  }

  function OperationItems(s: Setting, op: Operation): Option<Items>
    requires s.dictionary.WellFormed() && WellFormed(op)
  {
    match BodyItems(s, op)
    case None => None
    case Some(body) => Some([H.Coded(OPCODE, op.opcode)] + body)
  }

  predicate AllWellFormed(operations: seq<Operation>) {
    forall i :: 0 <= i < |operations| ==> WellFormed(operations[i]) && Compressed(operations[i].opcode)
  }

  /** The items of the operations that stay in the body, from `i` on, and the end
      of the packet. */
  function ItemsFrom(s: Setting, operations: seq<Operation>, ack: u32, i: nat): Option<Items>
    requires s.dictionary.WellFormed() && AllWellFormed(operations) && i <= |operations|
    decreases |operations| - i
  {
    if i == |operations| then Some([H.Coded(OPCODE, CLC_BAD)])
    else
      var later := ItemsFrom(s, operations, ack, i + 1);
      if Folded(operations[i], ack) then later
      else
        var own := OperationItems(s, operations[i]);
        if own.None? || later.None? then None else Some(own.value + later.value)
  }

  function ParseUpload(items: Items, count: nat, done: seq<u8>, previous: u8): (p: Parse<seq<u8>>)
    ensures p.NotLonger(items) && !p.Bad?
    decreases count
  {
    if count == 0 then Parsed(done, items)
    else
      match TakeSymbol(items, UPLOAD_DELTA)
      case Lost => Lost
      case Parsed(difference, rest) =>
        var value := Plus8(previous, difference);
        ParseUpload(rest, count - 1, done + [value], value)
  }

  function ParseUploadPayload(items: Items): (p: Parse<seq<u8>>)
    ensures p.NotLonger(items)
  {
    match TakeBytes(items, 3, [])
    case Lost => Lost
    case Parsed(header, rest) =>
      match UploadSize(header)
      case None => Bad
      case Some(size) => ParseUpload(rest, size, header, 0)
  }

  /** The payload of an operation other than a move. */
  function ParsePayload(s: Setting, opcode: u8, items: Items): (p: Parse<seq<u8>>)
    requires s.dictionary.WellFormed()
    ensures p.NotLonger(items)
  {
    if opcode == CLC_STRING then ParseString(s.dictionary, items, [])
    else if opcode == CLC_VOICE_START || opcode == CLC_VOICE_STOP then ParseLiteral(items, [])
    else if opcode == CLC_UPLOAD then ParseUploadPayload(items)
    else if Compressed(opcode) && FixedSize(opcode).Some? then TakeBytes(items, FixedSize(opcode).value, [])
    else Bad
  }

  function ParseBody(s: Setting, opcode: u8, items: Items): (p: Parse<Operation>)
    requires s.dictionary.WellFormed()
    ensures p.NotLonger(items)
  {
    if opcode == CLC_MOVE then
      match ParseMove(s.history, items, s.sequence, s.delta)
      case Bad => Bad
      case Lost => Lost
      case Parsed(move, rest) => Parsed(MoveOperation(move), rest)
    else
      match ParsePayload(s, opcode, items)
      case Bad => Bad
      case Lost => Lost
      case Parsed(payload, rest) => Parsed(Plain(opcode, payload), rest)
  }

  /** Operations up to the end mark, after those already decoded. */
  function ParseOperations(s: Setting, items: Items, done: seq<Operation>): (p: Parse<seq<Operation>>)
    requires s.dictionary.WellFormed()
    decreases |items|
  {
    match TakeSymbol(items, OPCODE)
    case Lost => Lost
    case Parsed(opcode, rest) =>
      if opcode == CLC_BAD then Parsed(done, rest)
      else
        match ParseBody(s, opcode, rest)
        case Bad => Bad
        case Lost => Lost
        case Parsed(op, rest) => ParseOperations(s, rest, done + [op])
  }

  /** What arrives of one operation. */
  function Arrived(s: Setting, op: Operation): Operation
    requires op.move.Some? ==> 1 <= s.delta && Basis(s.history, s.sequence, s.delta).Some?
  {
    if op.move.Some? then MoveOperation(Received(s.history, op.move.value, s.sequence, s.delta))
    else Plain(op.opcode, op.payload)
  }

  predicate Arrivable(s: Setting, operations: seq<Operation>) {
    (exists i :: 0 <= i < |operations| && operations[i].move.Some?) ==>
      1 <= s.delta && Basis(s.history, s.sequence, s.delta).Some?
  }

  function ArrivedFrom(s: Setting, operations: seq<Operation>, ack: u32, i: nat): seq<Operation>
    requires Arrivable(s, operations) && i <= |operations|
    decreases |operations| - i
  {
    if i == |operations| then []
    else
      (if Folded(operations[i], ack) then [] else [Arrived(s, operations[i])])
      + ArrivedFrom(s, operations, ack, i + 1)
  }

  /** All operations that the decoder ends up with: a folded clc_delta comes last. */
  function AllArrived(s: Setting, operations: seq<Operation>, ack: u32): seq<Operation>
    requires Arrivable(s, operations)
  {
    ArrivedFrom(s, operations, ack, 0) + (if AnyFolded(operations, ack) then [Plain(CLC_DELTA, [ack % 0x100])] else [])
  }

  lemma {:induction false} ArrivedFromKeeps(s: Setting, operations: seq<Operation>, ack: u32, i: nat)
    requires Arrivable(s, operations) && i <= |operations|
    ensures forall k :: i <= k < |operations| && !Folded(operations[k], ack) ==>
              Arrived(s, operations[k]) in ArrivedFrom(s, operations, ack, i)
    ensures forall a :: a in ArrivedFrom(s, operations, ack, i) ==>
              exists k :: i <= k < |operations| && !Folded(operations[k], ack) && a == Arrived(s, operations[k])
    decreases |operations| - i
  {
    hide Arrived, Folded;
    if i < |operations| {
      ArrivedFromKeeps(s, operations, ack, i + 1);
      var own := if Folded(operations[i], ack) then [] else [Arrived(s, operations[i])];
      var later := ArrivedFrom(s, operations, ack, i + 1);
      assert ArrivedFrom(s, operations, ack, i) == own + later;
      assert !Folded(operations[i], ack) ==> own[0] == Arrived(s, operations[i]);
      forall a | a in own + later
        ensures exists k :: i <= k < |operations| && !Folded(operations[k], ack) && a == Arrived(s, operations[k])
      {
        if a in later {
          var k :| i + 1 <= k < |operations| && !Folded(operations[k], ack) && a == Arrived(s, operations[k]);
        }
      }
    }
  }

  /** Folding only moves things: every operation arrives, nothing else does, and a
      clc_delta of the acknowledgement comes last if it comes at all. */
  lemma NothingIsLost(s: Setting, operations: seq<Operation>, ack: u32)
    requires Arrivable(s, operations) && AllWellFormed(operations)
    ensures forall k :: 0 <= k < |operations| ==> Arrived(s, operations[k]) in AllArrived(s, operations, ack)
    ensures forall a :: a in AllArrived(s, operations, ack) ==>
              exists k :: 0 <= k < |operations| && a == Arrived(s, operations[k])
    ensures forall j :: 0 <= j < |AllArrived(s, operations, ack)| - 1 ==>
              AllArrived(s, operations, ack)[j] != Operation(CLC_DELTA, [ack % 0x100], None, None)
  {
    hide ArrivedFrom, WellFormed;
    ArrivedFromKeeps(s, operations, ack, 0);
    var delta := Operation(CLC_DELTA, [ack % 0x100], None, None);
    var before := ArrivedFrom(s, operations, ack, 0);
    forall k | 0 <= k < |operations| && Folded(operations[k], ack)
      ensures Arrived(s, operations[k]) == delta
    {
      FoldedIsDelta(operations[k], ack);
    }
    assert delta !in before;
    var tail := if AnyFolded(operations, ack) then [delta] else [];
    assert AllArrived(s, operations, ack) == before + tail;
    forall a | a in before + tail
      ensures exists k :: 0 <= k < |operations| && a == Arrived(s, operations[k])
    {
      if a in tail {
        var k :| 0 <= k < |operations| && Folded(operations[k], ack);
        assert a == Arrived(s, operations[k]);
      }
    }
    forall k | 0 <= k < |operations|
      ensures Arrived(s, operations[k]) in before + tail
    {
      if Folded(operations[k], ack) {
        assert tail[0] == delta && delta in tail;
      }
    }
  }

  lemma FoldedIsDelta(op: Operation, ack: u32)
    requires WellFormed(op) && Folded(op, ack)
    ensures op.move.None? && op.opcode == CLC_DELTA && op.payload == [ack % 0x100]
  {
  }

  lemma {:induction false} UploadRestored(data: seq<u8>, done: seq<u8>, previous: u8, rest: Items)
    ensures ParseUpload(UploadItems(data, previous) + rest, |data|, done, previous) == Parsed(done + data, rest)
    decreases |data|
  {
    if data == [] {
      assert [] + rest == rest && done + [] == done;
    } else {
      var later := UploadItems(data[1..], data[0]) + rest;
      var difference := Minus8(data[0], previous);
      SymbolRestored(UPLOAD_DELTA, difference, later);
      ByteDifferenceAdds(data[0], previous);
      Regroup([H.Coded(UPLOAD_DELTA, difference)], UploadItems(data[1..], data[0]), rest);
      assert UploadItems(data, previous) + rest == [H.Coded(UPLOAD_DELTA, difference)] + later;
      hide Plus8, Minus8, TakeSymbol, UploadItems;
      UploadRestored(data[1..], done + [data[0]], data[0], rest);
      Regroup(done, [data[0]], data[1..]);
      assert [data[0]] + data[1..] == data;
    }
  }

  lemma UploadPayloadRestored(payload: seq<u8>, rest: Items)
    requires TakePayload(CLC_UPLOAD, payload) == Some(|payload|)
    ensures |payload| >= 3
    ensures ParseUploadPayload(Literals(payload[..3]) + UploadItems(payload[3..], 0) + rest) == Parsed(payload, rest)
  {
    hide ParseUpload, UploadItems, TakeBytes;
    var tail := UploadItems(payload[3..], 0) + rest;
    assert Literals(payload[..3]) + UploadItems(payload[3..], 0) + rest == Literals(payload[..3]) + tail;
    BytesRestored(payload[..3], [], tail);
    assert [] + payload[..3] == payload[..3];
    UploadRestored(payload[3..], payload[..3], 0, rest);
    assert payload[..3] + payload[3..] == payload;
  }

  lemma StringTerminated(opcode: u8, payload: seq<u8>)
    requires IsString(opcode) && TakePayload(opcode, payload) == Some(|payload|)
    ensures Terminated(payload)
  {
    assert payload[..FindZero(payload)] == payload[..|payload| - 1];
  }

  lemma PayloadRestored(s: Setting, op: Operation, rest: Items)
    requires s.dictionary.WellFormed() && s.dictionary.NulFree() && WellFormed(op) && Compressed(op.opcode)
    requires op.opcode != CLC_MOVE && BodyItems(s, op).Some?
    ensures ParsePayload(s, op.opcode, BodyItems(s, op).value + rest) == Parsed(op.payload, rest)
  {
    hide ParseString, ParseLiteral, StringItems, LiteralItems, ParseUploadPayload, UploadItems, TakeBytes, Terminated;
    assert [] + op.payload == op.payload;
    if IsString(op.opcode) {
      StringTerminated(op.opcode, op.payload);
      if op.opcode == CLC_STRING {
        StringRestored(s.dictionary, op.payload, [], rest);
      } else {
        LiteralRestored(op.payload, [], rest);
      }
    } else if op.opcode == CLC_UPLOAD {
      UploadPayloadRestored(op.payload, rest);
    } else {
      BytesRestored(op.payload, [], rest);
    }
  }

  lemma OperationRestored(s: Setting, op: Operation, rest: Items)
    requires s.dictionary.WellFormed() && s.dictionary.NulFree() && WellFormed(op) && Compressed(op.opcode)
    requires 1 <= s.delta && BodyItems(s, op).Some?
    ensures op.move.Some? ==> Basis(s.history, s.sequence, s.delta).Some?
    ensures ParseBody(s, op.opcode, BodyItems(s, op).value + rest) == Parsed(Arrived(s, op), rest)
  {
    if op.opcode == CLC_MOVE {
      MoveRestored(s.history, op.move.value, s.sequence, s.delta, rest);
    } else {
      PayloadRestored(s, op, rest);
    }
  }

  /** Encodable operations are decoded to what arrives of them, and the end mark is
      the last item read. */
  lemma {:induction false} OperationsRestored(s: Setting, operations: seq<Operation>, ack: u32, i: nat,
                                              done: seq<Operation>, rest: Items)
    requires s.dictionary.WellFormed() && s.dictionary.NulFree() && AllWellFormed(operations) && 1 <= s.delta
    requires Arrivable(s, operations) && i <= |operations| && ItemsFrom(s, operations, ack, i).Some?
    ensures ParseOperations(s, ItemsFrom(s, operations, ack, i).value + rest, done)
            == Parsed(done + ArrivedFrom(s, operations, ack, i), rest)
    decreases |operations| - i
  {
    hide BodyItems, ParseBody, Arrived, Arrivable, Folded, WellFormed;
    var items := ItemsFrom(s, operations, ack, i).value + rest;
    if i == |operations| {
      SymbolRestored(OPCODE, CLC_BAD, rest);
      assert done + [] == done;
    } else if Folded(operations[i], ack) {
      OperationsRestored(s, operations, ack, i + 1, done, rest);
      assert [] + ArrivedFrom(s, operations, ack, i + 1) == ArrivedFrom(s, operations, ack, i + 1);
    } else {
      var op := operations[i];
      var body, later := BodyItems(s, op).value, ItemsFrom(s, operations, ack, i + 1).value + rest;
      NotTheEnd(op);
      assert items == [H.Coded(OPCODE, op.opcode)] + (body + later);
      SymbolRestored(OPCODE, op.opcode, body + later);
      OperationRestored(s, op, later);
      OperationsRestored(s, operations, ack, i + 1, done + [Arrived(s, op)], rest);
      assert done + [Arrived(s, op)] + ArrivedFrom(s, operations, ack, i + 1)
             == done + ([Arrived(s, op)] + ArrivedFrom(s, operations, ack, i + 1));
    }
  }

  lemma NotTheEnd(op: Operation)
    requires WellFormed(op)
    ensures op.opcode != CLC_BAD
  {
  }

  /** Whoever could encode all moves has a basis for them. */
  lemma {:induction false} EncodableIsArrivable(s: Setting, operations: seq<Operation>, ack: u32, i: nat)
    requires s.dictionary.WellFormed() && AllWellFormed(operations) && 1 <= s.delta && i <= |operations|
    requires ItemsFrom(s, operations, ack, i).Some?
    ensures forall k :: i <= k < |operations| && operations[k].move.Some? ==>
              Basis(s.history, s.sequence, s.delta).Some?
    decreases |operations| - i
  {
    if i < |operations| {
      EncodableIsArrivable(s, operations, ack, i + 1);
    }
  }

  /** Two moves that agree on what is committed. */
  lemma {:induction false} SameCommit(h: History, a: ClientMove, b: ClientMove, sequence: u32, first: nat)
    requires first <= 3 && a.lossage == b.lossage && a.commands[first..] == b.commands[first..]
    ensures CommitMove(h, a, sequence, first) == CommitMove(h, b, sequence, first)
    decreases 3 - first
  {
    if first < 3 {
      assert a.commands[first] == a.commands[first..][0] == b.commands[first..][0] == b.commands[first];
      assert a.commands[first + 1..] == a.commands[first..][1..] == b.commands[first..][1..] == b.commands[first + 1..];
      var at := CommandSequence(sequence, first);
      SameCommit(h[at % 32 := Some(Entry(at, a.commands[first], a.lossage))], a, b, sequence, first + 1);
    }
  }

  lemma ArrivedCommit(s: Setting, h: History, op: Operation)
    requires op.move.Some? && 1 <= s.delta && Basis(s.history, s.sequence, s.delta).Some?
    ensures CommitMove(h, Arrived(s, op).move.value, s.sequence, First(s.delta))
            == CommitMove(h, op.move.value, s.sequence, First(s.delta))
  {
    hide Basis, Recorded;
    AlwaysRecorded(s.history, s.sequence, s.delta);
    var received := Received(s.history, op.move.value, s.sequence, s.delta);
    assert received.commands[First(s.delta)..] == op.move.value.commands[First(s.delta)..];
    SameCommit(h, received, op.move.value, s.sequence, First(s.delta));
  }

  lemma {:induction false} CommitAppend(h: History, a: seq<Operation>, b: seq<Operation>, sequence: u32, first: nat)
    requires first <= 3
    ensures Commit(h, a + b, sequence, first) == Commit(Commit(h, a, sequence, first), b, sequence, first)
    decreases |b|
  {
    if b == [] {
      assert a + b == a;
    } else {
      var n := |b| - 1;
      assert (a + b)[..|a + b| - 1] == a + b[..n] && (a + b)[|a + b| - 1] == b[n];
      CommitAppend(h, a, b[..n], sequence, first);
    }
  }

  lemma CommitOne(h: History, op: Operation, sequence: u32, first: nat)
    requires first <= 3
    ensures Commit(h, [op], sequence, first)
            == (if op.move.Some? then CommitMove(h, op.move.value, sequence, first) else h)
  {
    assert [op][..0] == [];
  }

  lemma {:induction false} ArrivedFromCommit(s: Setting, h: History, operations: seq<Operation>, ack: u32, i: nat)
    requires Arrivable(s, operations) && AllWellFormed(operations) && i <= |operations|
    ensures Commit(h, ArrivedFrom(s, operations, ack, i), s.sequence, First(s.delta))
            == Commit(h, operations[i..], s.sequence, First(s.delta))
    decreases |operations| - i
  {
    hide Arrived, CommitMove, Basis, Commit, WellFormed, Folded;
    var first := First(s.delta);
    if i == |operations| {
      assert operations[i..] == [];
    } else {
      var op, later := operations[i], ArrivedFrom(s, operations, ack, i + 1);
      var next := if op.move.Some? then CommitMove(h, op.move.value, s.sequence, first) else h;
      assert operations[i..] == [op] + operations[i + 1..];
      CommitAppend(h, [op], operations[i + 1..], s.sequence, first);
      CommitOne(h, op, s.sequence, first);
      ArrivedFromCommit(s, next, operations, ack, i + 1);
      if Folded(op, ack) {
        FoldedIsNoMove(op, ack);
        assert [] + later == later;
      } else {
        CommitAppend(h, [Arrived(s, op)], later, s.sequence, first);
        CommitOne(h, Arrived(s, op), s.sequence, first);
        ArrivedMove(s, op);
        if op.move.Some? {
          ArrivedCommit(s, h, op);
        }
      }
    }
  }

  lemma FoldedIsNoMove(op: Operation, ack: u32)
    requires WellFormed(op) && Folded(op, ack)
    ensures op.move.None?
  {
  }

  lemma ArrivedMove(s: Setting, op: Operation)
    requires op.move.Some? ==> 1 <= s.delta && Basis(s.history, s.sequence, s.delta).Some?
    ensures Arrived(s, op).move.Some? <==> op.move.Some?
  {
  }

  /** The decoder commits what arrives of a compressed packet, the encoder what it
      sent: the histories stay equal. */
  lemma HistoriesAgree(s: Setting, h: History, operations: seq<Operation>, ack: u32)
    requires Arrivable(s, operations) && AllWellFormed(operations)
    ensures Commit(h, AllArrived(s, operations, ack), s.sequence, First(s.delta))
            == Commit(h, operations, s.sequence, First(s.delta))
  {
    var tail := if AnyFolded(operations, ack) then [Plain(CLC_DELTA, [ack % 0x100])] else [];
    ArrivedFromCommit(s, h, operations, ack, 0);
    assert operations[0..] == operations;
    CommitAppend(h, ArrivedFrom(s, operations, ack, 0), tail, s.sequence, First(s.delta));
    hide AnyFolded;
    if tail != [] {
      CommitOne(Commit(h, operations, s.sequence, First(s.delta)), tail[0], s.sequence, First(s.delta));
    }
  }

  /** Neighbours in the 31-bit range are in different places of the ring. */
  lemma NeighbourSlots(sequence: u32, i: nat, j: nat)
    requires i < j < 3
    ensures CommandSequence(sequence, i) % 32 != CommandSequence(sequence, j) % 32
  {
  }

  /** The commands that a move commits are found under their numbers, and the ones
      before them stay where they were. */
  lemma {:induction false} CommitIsFound(h: History, move: ClientMove, sequence: u32, first: nat, i: nat)
    requires first <= 3 && i < 3
    ensures var at := CommandSequence(sequence, i);
            RecordAt(CommitMove(h, move, sequence, first), at)
            == (if i < first then RecordAt(h, at) else Some(Entry(at, move.commands[i], move.lossage)))
    decreases 3 - first
  {
    hide CommandSequence, RecordAt;
    if first < 3 {
      var at := CommandSequence(sequence, first);
      var next := h[at % 32 := Some(Entry(at, move.commands[first], move.lossage))];
      CommitIsFound(next, move, sequence, first + 1, i);
      NumbersAreShort(sequence, first);
      NumbersAreShort(sequence, i);
      FoundAfterUpdate(h, Entry(at, move.commands[first], move.lossage), CommandSequence(sequence, i));
      if i < first {
        NeighbourSlots(sequence, i, first);
      }
    }
  }

  lemma NumbersAreShort(sequence: u32, i: nat)
    requires i < 3
    ensures CommandSequence(sequence, i) < 0x8000_0000
  {
  }

  predicate HasMove(operations: seq<Operation>) {
    exists i :: 0 <= i < |operations| && operations[i].move.Some?
  }

  /** Commits leave on record what they commit and what was on record before. */
  lemma {:induction false} CommitsAreFound(h: History, operations: seq<Operation>, sequence: u32, first: nat, i: nat)
    requires first <= 3 && i < 3
    ensures var at := CommandSequence(sequence, i);
            (RecordAt(h, at).Some? || (HasMove(operations) && first <= i)) ==>
              RecordAt(Commit(h, operations, sequence, first), at).Some?
    decreases |operations|
  {
    hide CommandSequence, RecordAt, CommitMove;
    if operations != [] {
      var n := |operations| - 1;
      CommitsAreFound(h, operations[..n], sequence, first, i);
      if operations[n].move.Some? {
        CommitIsFound(Commit(h, operations[..n], sequence, first), operations[n].move.value, sequence, first, i);
      } else if HasMove(operations) {
        var k :| 0 <= k < |operations| && operations[k].move.Some?;
        assert operations[..n][k].move.Some?;
      }
    }
  }

  lemma BasisNumbers(sequence: u32, delta: u8, next: u8)
    requires sequence < 0x8000_0000
    ensures var later: u32 := (sequence + next) % 0x8000_0000;
            && Before(later, next) == sequence == CommandSequence(sequence, 2)
            && Before(later, next + 1) == Before(sequence, 1) == CommandSequence(sequence, 1)
    ensures delta == 1 ==> Before(sequence, delta) == CommandSequence(sequence, 1)
  {
  }

  /** Once a packet with a move has passed, the next packets that refer to it have
      what they are predicted from: after a raw packet always, and after a
      compressed one because it had it itself. */
  lemma MoveMakesBasis(h: History, operations: seq<Operation>, sequence: u32, delta: u8, raw: bool, next: u8)
    requires sequence < 0x8000_0000 && HasMove(operations)
    requires raw || (1 <= delta && Basis(h, sequence, delta).Some?)
    ensures var later: u32 := (sequence + next) % 0x8000_0000;
            Basis(Commit(h, operations, sequence, if raw then 0 else First(delta)), later, next).Some?
  {
    var first := if raw then 0 else First(delta);
    BasisNumbers(sequence, delta, next);
    hide Before, CommandSequence, RecordAt, Commit, HasMove;
    CommitsAreFound(h, operations, sequence, first, 1);
    CommitsAreFound(h, operations, sequence, first, 2);
  }
}
