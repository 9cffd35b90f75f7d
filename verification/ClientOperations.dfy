/** The operations of a client packet: in their raw form, in the move history, and
    as items of a compressed packet. */
module ClientOperations {
  import opened Words
  import opened ClientMoves
  import C = ClientCommands

  const CLC_BAD: u8 := 0
  const CLC_NOP: u8 := 1
  const CLC_MOVE: u8 := 3
  const CLC_STRING: u8 := 4
  const CLC_DELTA: u8 := 5
  const CLC_TMOVE: u8 := 6
  const CLC_UPLOAD: u8 := 7
  const CLC_PEER: u8 := 0x33
  const CLC_VOICE_START: u8 := 0x50
  const CLC_VOICE_STOP: u8 := 0x51
  const CLC_VOICE_RAW: u8 := 0x52
  const CLC_VOICE_GSM: u8 := 0x53
  const CLC_RESYNC: u8 := 0x55

  /** The exact bytes are known only of operations parsed from a raw packet. */
  datatype Operation = Operation(opcode: u8, payload: seq<u8>, move: Option<ClientMove>, raw: Option<seq<u8>>)

  function Plain(opcode: u8, payload: seq<u8>): Operation {
    Operation(opcode, payload, None, None)
  }

  function MoveOperation(move: ClientMove): Operation {
    Operation(CLC_MOVE, [], Some(move), None)
  }

  /** Payload sizes that depend on the opcode alone. */
  function FixedSize(opcode: u8): Option<nat> {
    if opcode == CLC_NOP || opcode == CLC_RESYNC then Some(0)
    else if opcode == CLC_DELTA then Some(1)
    else if opcode == CLC_TMOVE then Some(6)
    else if opcode == CLC_PEER then Some(16)
    else if opcode == CLC_VOICE_RAW then Some(162)
    else if opcode == CLC_VOICE_GSM then Some(34)
    else None
  }

  predicate IsString(opcode: u8) {
    opcode == CLC_STRING || opcode == CLC_VOICE_START || opcode == CLC_VOICE_STOP
  }

  /** Qizmo does not compress these two. */
  predicate Compressed(opcode: u8) {
    opcode != CLC_NOP && opcode != CLC_VOICE_RAW
  }

  /** The position of the first zero byte, or the length. */
  function FindZero(data: seq<u8>): (end: nat)
    ensures end <= |data| && 0 !in data[..end] && (end < |data| ==> data[end] == 0)
  {
    if data == [] || data[0] == 0 then 0
    else
      var later := FindZero(data[1..]);
      assert data[..later + 1] == [data[0]] + data[1..][..later];
      later + 1
  }

  /** The size of an upload is a signed 16-bit number. */
  function UploadSize(header: seq<u8>): Option<nat>
    requires |header| >= 2
  {
    var low: int, high: int := header[0], header[1];
    if high >= 0x80 then None else Some(low + high * 0x100)
  }

  /** Negative sizes are refused. */
  lemma UploadSizeIsSigned(size: int, rest: seq<u8>)
    requires -0x8000 <= size < 0x8000
    ensures UploadSize(C.WordBytes(size % 0x1_0000) + rest) == (if size >= 0 then Some(size) else None)
  {
  }

  /** The payload of an operation other than a move; none when it is cut short or
      the opcode is unknown. */
  function TakePayload(opcode: u8, body: seq<u8>): (r: Option<nat>)
    ensures r.Some? ==> r.value <= |body|
  {
    if FixedSize(opcode).Some? then
      if FixedSize(opcode).value <= |body| then FixedSize(opcode) else None
    else if IsString(opcode) then
      if FindZero(body) < |body| then Some(FindZero(body) + 1) else None
    else if opcode == CLC_UPLOAD then
      if |body| < 3 || UploadSize(body).None? || |body| < 3 + UploadSize(body).value then None
      else Some(3 + UploadSize(body).value)
    else None
  }

  /** The first operation of a body and the bytes it takes. */
  function ParseOne(body: seq<u8>): (r: Option<Operation>)
    requires body != []
    ensures r.Some? ==> r.value.raw.Some? && r.value.raw.value != [] && r.value.raw.value <= body
  {
    if body[0] == CLC_MOVE then
      match C.ParseMoveBytes(body[1..])
      case Short => None
      case Read(move, rest) =>
        Some(Operation(CLC_MOVE, [], Some(move), Some(body[..|body| - |rest|])))
    else
      match TakePayload(body[0], body[1..])
      case None => None
      case Some(size) => Some(Operation(body[0], body[1..][..size], None, Some(body[..size + 1])))
  }

  /** Nop, delta, tmove, peer association, raw and compressed voice, and the request of a
      resynchronisation: each takes so many bytes, and fails when there are fewer. */
  lemma FixedPayload(opcode: u8, size: nat, body: seq<u8>)
    requires (opcode, size) in [(1, 0), (5, 1), (6, 6), (0x33, 16), (0x52, 162), (0x53, 34), (0x55, 0)]
    ensures ParseOne([opcode] + body)
            == (if |body| < size then None
                else Some(Operation(opcode, body[..size], None, Some([opcode] + body[..size]))))
  {
    hide C.ParseMoveBytes;
    assert ([opcode] + body)[1..] == body;
    if |body| >= size {
      assert ([opcode] + body)[..size + 1] == [opcode] + body[..size];
    }
  }

  /** All operations up to the end or the first error; whether that was the end,
      and whether all of them can be compressed. */
  datatype Parsing = Parsing(operations: seq<Operation>, complete: bool, compressible: bool)

  function ParseAll(body: seq<u8>, done: seq<Operation>, compressible: bool): Parsing
    decreases |body|
  {
    if body == [] then Parsing(done, true, compressible)
    else
      match ParseOne(body)
      case None => Parsing(done, false, false)
      case Some(op) =>
        ParseAll(body[|op.raw.value|..], done + [op], compressible && Compressed(op.opcode))
  }

  method ParseClientOperations(packet: seq<u8>) returns (r: Parsing)
    ensures r == ParseAll(packet, [], true)
  {
    hide ParseOne;
    var body: seq<u8> := packet;
    var operations: seq<Operation>, compressible := [], true;
    while |body| != 0
      invariant ParseAll(packet, [], true) == ParseAll(body, operations, compressible)
      decreases |body|
    {
      var operation := ParseOne(body);
      if operation.None? {
        return Parsing(operations, false, false);
      }
      operations := operations + [operation.value];
      compressible := compressible && Compressed(operation.value.opcode);
      body := body[|operation.value.raw.value|..];
    }
    r := Parsing(operations, true, compressible);
  }

  /** The bytes of an operation in a raw packet. */
  function OperationBytes(op: Operation): seq<u8> {
    if op.raw.Some? then op.raw.value
    else [op.opcode] + (if op.move.Some? then C.MoveBytes(op.move.value) else op.payload)
  }

  function AllBytes(operations: seq<Operation>): seq<u8> {
    if operations == [] then []
    else AllBytes(operations[..|operations| - 1]) + OperationBytes(operations[|operations| - 1])
  }

  /** A completely parsed body is the bytes of its operations. */
  lemma {:induction false} ParsedBytes(body: seq<u8>, done: seq<Operation>, compressible: bool)
    ensures var r := ParseAll(body, done, compressible);
            done <= r.operations && (r.complete ==> AllBytes(r.operations) == AllBytes(done) + body)
    decreases |body|
  {
    hide ParseOne;
    if body == [] {
      assert AllBytes(done) + [] == AllBytes(done);
    } else if ParseOne(body).Some? {
      var op := ParseOne(body).value;
      var size := |op.raw.value|;
      ParsedBytes(body[size..], done + [op], compressible && Compressed(op.opcode));
      assert (done + [op])[..|done|] == done;
      assert AllBytes(done + [op]) == AllBytes(done) + op.raw.value;
      assert AllBytes(done) + op.raw.value + body[size..] == AllBytes(done) + body;
    }
  }

  /** An operation that parsing could have produced. */
  predicate WellFormed(op: Operation) {
    if op.opcode == CLC_MOVE then op.move.Some? && op.payload == []
    else op.move.None? && TakePayload(op.opcode, op.payload) == Some(|op.payload|)
  }

  lemma {:induction false} FindZeroAppended(data: seq<u8>, rest: seq<u8>)
    ensures FindZero(data) < |data| ==> FindZero(data + rest) == FindZero(data)
    ensures FindZero(data) < |data| ==> FindZero(data[..FindZero(data) + 1]) == FindZero(data)
    decreases |data|
  {
    if data != [] && data[0] != 0 {
      FindZeroAppended(data[1..], rest);
      assert (data + rest)[1..] == data[1..] + rest;
      if FindZero(data) < |data| {
        assert data[..FindZero(data) + 1][1..] == data[1..][..FindZero(data[1..]) + 1];
      }
    }
  }

  /** A payload is told from what follows it, and stands by itself. */
  lemma PayloadAppended(opcode: u8, payload: seq<u8>, rest: seq<u8>)
    ensures TakePayload(opcode, payload) == Some(|payload|) ==> TakePayload(opcode, payload + rest) == Some(|payload|)
  {
    FindZeroAppended(payload, rest);
  }

  lemma PayloadAlone(opcode: u8, body: seq<u8>)
    ensures TakePayload(opcode, body).Some? ==>
              TakePayload(opcode, body[..TakePayload(opcode, body).value]) == Some(TakePayload(opcode, body).value)
  {
    FindZeroAppended(body, []);
  }

  /** Whatever the decoder writes, a raw parser reads back: same opcode, same
      payload, same move. */
  lemma WrittenIsParsed(op: Operation, rest: seq<u8>)
    requires WellFormed(op) && op.raw.None?
    ensures var bytes := OperationBytes(op);
            ParseOne(bytes + rest) == Some(op.(raw := Some(bytes)))
  {
    var bytes := OperationBytes(op);
    var body := bytes + rest;
    hide C.MoveBytes, C.ParseMoveBytes, TakePayload;
    if op.opcode == CLC_MOVE {
      C.MoveRead(op.move.value, rest);
      assert body[1..] == C.MoveBytes(op.move.value) + rest;
      assert body[..|body| - |rest|] == bytes;
    } else {
      PayloadAppended(op.opcode, op.payload, rest);
      assert body[1..] == op.payload + rest;
      assert body[..|op.payload| + 1] == bytes && body[1..][..|op.payload|] == op.payload;
    }
  }

  lemma ParsedIsWellFormed(body: seq<u8>)
    requires body != [] && ParseOne(body).Some?
    ensures WellFormed(ParseOne(body).value)
  {
    if body[0] != CLC_MOVE {
      PayloadAlone(body[0], body[1..]);
    }
  }
}
