# Verified model of the Quake link and demo codecs

This project models, in Dafny, the parts of a QuakeWorld proxy and tool set whose
correctness rests on state that two ends keep in step, and proves what those
parts promise. `dafny verify dfyconfig.toml` checks all of it.

- **Range coder.** The encoder keeps `low` and `high` modulo 2^32 and defers
  carries with a cached byte and a count of pending ones. `RangeInterval` is the
  exact, unbounded arithmetic; `RangeWords` proves that the wrapped words denote
  it; `RangeEncoder` and `RangeDecoder` are the two classes; `RangeRoundTrip` puts
  them together, in lockstep, leniently and strictly; `FrequencyTables` builds the rows
  they use, and `RangeTables` sends symbols of keyed rows through them.
- **Reliable channel.** `Sequencer` is one endpoint with the filter in front of it;
  `Netchan` is two of them over a network that loses, duplicates and reorders, and with
  read loops that also hand on stale words, with the invariant of one direction;
  `NetchanRuns` has safety over all runs and the proof that the channel never wedges.
- **Huffman codes.** `HuffmanCodes` builds codes in place in arrays, as the source
  does, against the merge procedure of `HuffmanOptimal` and the forest invariant of
  `HuffmanForest`. `HuffmanResults` concludes that no prefix code is cheaper, in which
  order equal counts get their codes, and exactly when codes fit their packed words. `BitStream`, `HuffmanTrie` and `HuffmanRoundTrip`
  write and read them.
- **Client link.** `LinkHeader` and `ClientHeaders` are the headers; `ClientMoves`,
  `ClientCommands`, `ClientStrings`, `ClientOperations` and `ClientPackets` say what
  the contents mean; `LinkStreams` carries items down to bits; `ClientPlans` is the
  choice between raw and compressed, and `ClientChoice` says in terms of the packet when
  it is which; `ClientCosts` is what prediction saves; `ClientEncoder` and
  `ClientDecoder` are the two classes, and `ClientLink` and `ClientRuns` run them against
  each other over whole streams.
- **Packet entities.** `EntityDeltas` and `EntityActions` code one entity, with exactly
  the bytes that `EntityPayloads` counts,
  `EntityScripts` one action, `EntityPlans` whole edit scripts; `EntityEncoder` and
  `EntityDecoder` are the two classes; `EntityPrefixes` is what a decoder
  makes of a stream that is cut short; `EntityRoundTrip` sends scripts through the range
  coder, read strictly, over whole sequences of snapshots, and `EntityEarlyEnd` is one
  that does not arrive.
- **Smaller parts.** `RemapTables` (index tables built by swaps), `UserCommands`
  and `RecordedCommands` (recorded user commands, one by one and end to end through
  the range coder), `PacketWriter` (the held packet queue and its worker, in
  every interleaving), `LobbyNames` and `Lobby` (distinct names, slots and ids).

Code that changes objects, arrays or buffers in the source is a class or a method
with loops here, and each such method is proved against a function or predicate
whose properties are lemmas. Decoders are specified as parsers of tokens or items:
what a parser returns is said for every input, and the round trips say that it
inverts the encoder. Bytes and words are ranges of the integers with every
wrap-around written out; masks are sequences of flags.

## What the code does differently from what one would expect

Each of these is stated and proved with its exact condition.

- A removal in an entity script writes its run as one unchecked byte, while only six
  bits of it are read back. Removals more than 63 entities after the previous action
  make the decoder lose its step, although the encoder checks the run of a change
  (`EntityPlans.StaysInStep`, `EntityPlans.LongRemovalIsLost`).
- A compressed client packet whose two header words are all ones is taken for a
  connectionless packet, and a raw one with bit 30 of its number set for a compressed
  one (`LinkHeader.HeaderIsCompressed`, `LinkHeader.AllOnesIsLost`,
  `ClientHeaders.RawIsNotCompressed`).
- The sequencer by itself accepts a reliable packet a second time and loses the
  parity of its bit; only the filter of the server prevents that
  (`Sequencer.RepeatedPacket`, `Sequencer.RepeatedBitIsLost`).
- The client's read loop processes the words (0, 0) after every timeout. That is harmless
  only because the server counts from 1: after an accepted packet numbered 0 it can drop
  an outstanding batch (`Sequencer.TimeoutIsHarmless`, `NetchanRuns.TimeoutsAreHarmless`,
  `NetchanRuns.TimeoutDropsBatch`).
- A finished range-coded stream may leave out pending bytes when the final words
  wrap, so that a strict decoder can report an early end
  (`RangeRoundTrip.RoundTrip` has the exact symbols). A list of packet entities that is
  sent can therefore fail to arrive (`EntityEarlyEnd.EndsEarly`).
- The scan of the model list counts its chunks from the number of sound chunks, and so
  skips chunks of a list that has several (`RemapTables.ChunksSkipped`); the source
  says that the original does the same.
- The quotient of the range decoder does not fit 32 bits for the very last code word
  of an interval, which no symbol's share contains (`RangeDecoder.QuotientFits`).
- A recorded user command cannot return to a zero impulse
  (`UserCommands.ChangesDecoded`).
- A lobby name that is numbered and cut can end with a space, which a cleaned name
  never does (`LobbyNames.NumberedIsClean`, `LobbyNames.SpaceAtEnd`).
- After 2^32 - 1 admissions the user id of a lobby client wraps to 0, the mark of a
  free slot (`Lobby.Server.AdmitLobbyClient`).

## Model

| member | source | states |
|---|---|---|
| `RangeEncoder.Encoder.constructor` | qizmo/rangeenc/encoder.go:23-28 | a new coder stands for the whole unit interval, with nothing emitted |
| `RangeEncoder.Encoder.EncodeSymbol` | qizmo/rangeenc/encoder.go:30-40 | succeeds exactly when the coder is open and the symbol has a share of the exact, unbounded range; then the exact interval is that share, renormalised, and a refusal changes nothing |
| `RangeEncoder.Encoder.EncodeSymbol2x256` | qizmo/rangeenc/encoder.go:42-56 | the same for a distribution split over two consecutive rows of 256 |
| `RangeEncoder.Encoder.EncodeInterval` | qizmo/rangeenc/encoder.go:88-111 | the 32-bit words narrow as the exact interval does; fails exactly for an empty frequency, an empty offset range or a finished coder |
| `RangeEncoder.Encoder.Settle` | qizmo/rangeenc/encoder.go:134-146 | the renormalisation loop ends and equals the exact normalisation |
| `RangeEncoder.Encoder.Renormalize` | qizmo/rangeenc/encoder.go:134-146 | one turn: flush or defer the top byte, and shift all words |
| `RangeEncoder.Encoder.FlushCacheAndPending` | qizmo/rangeenc/encoder.go:148-165 | cached byte plus carry, then the pending bytes as 0xff, or as 0 after a carry |
| `RangeEncoder.Encoder.Finish` | qizmo/rangeenc/encoder.go:113-132 | the finished bytes, continued with zeros, lie in the final exact interval; finishing twice gives the same bytes; unless the words wrap no digit is missing, and if they wrap exactly the 0xff digits at the end of the low end are |
| `RangeWords.CarryAddsOne` | qizmo/rangeenc/encoder.go:148-165 | flushing with a carry adds exactly one to the number that emitted, cached and pending bytes denote |
| `RangeWords.CarryIsDetected` | qizmo/rangeenc/encoder.go:134-165 | `low < previousLow` holds exactly when the exact low end has carried, and a carry never meets a cached 0xff or an empty cache |
| `RangeWords.StraddlesWithoutCarry` | qizmo/rangeenc/encoder.go:134-146 | words that wrap have not carried before, their cached byte can take the carry, and when renormalised the top byte is 0xff |
| `RangeWords.NarrowRefines` | qizmo/rangeenc/encoder.go:96-108 | choosing a share of the wrapped words is choosing it of the unbounded interval |
| `RangeWords.RenormalizeRefines` | qizmo/rangeenc/encoder.go:134-146 | a renormalisation of the wrapped words keeps denoting the exact interval, shifted by one byte |
| `RangeWords.FinishHolds` | qizmo/rangeenc/encoder.go:113-132 | both finishing branches end inside the exact interval; the wrapped one leaves out exactly the pending bytes |
| `RangeWords.FinishedLength` | qizmo/rangeenc/encoder.go:113-132 | how long the finished stream is, from the exact interval alone: a wrapped end loses as many digits as the low end has 0xff digits at its end |
| `RangeInterval.NormalizeRange` | qizmo/rangeenc/encoder.go:134-146 | from any range that 32-bit offsets allow, normalisation ends within four steps at a range of at least 2^24 |
| `RangeInterval.ChosenKeepsStream` | qizmo/rangeenc/encoder.go:88-111 | a stream inside a chosen share is inside the interval before |
| `RangeDecoder.Decoder.constructor` | qizmo/rangedec/decoder.go:25-35 | the first four bytes are the initial code word |
| `RangeDecoder.Decoder.Padded` | qizmo/rangedec/decoder.go:37-43 | any buffer, padded with four zeros, starts a decoder |
| `RangeDecoder.Decoder.Renormalize` | qizmo/rangedec/decoder.go:45-62 | follows the exact normalisation; the strict form fails exactly when the bytes that are left are fewer than the refills |
| `RangeDecoder.Decoder.Search` | qizmo/rangedec/decoder.go:102-116 | on any monotone row and first step that is a power of two the binary search answers like a linear scan |
| `RangeDecoder.Decoder.DecodeWith` | qizmo/rangedec/decoder.go:78-118 | wherever the stream continues with some symbol of the row, that symbol is what is returned, and the words then follow the encoder; fails exactly for an empty table or a strict end of stream |
| `RangeDecoder.QuotientSides` | qizmo/rangedec/decoder.go:92-101 | one truncated division decides the comparison of the code word with every cumulative offset at once |
| `RangeDecoder.QuotientFits` | qizmo/rangedec/decoder.go:92-101 | inside the interval the 64-bit quotient fits 32 bits exactly when the code word is not the very last value of the interval |
| `RangeDecoder.LocatedOnce` | qizmo/rangedec/decoder.go:102-116 | the answer of the search is unique |
| `RangeDecoder.SelectsEncoded` | qizmo/rangedec/decoder.go:78-118 | reading a stream inside the share of a symbol, no other symbol can be found |
| `RangeRoundTrip.EncodeAll` | qizmo/rangeenc/encoder.go:30-132 | a whole sequence is encoded exactly when every symbol in turn has a share of what is left; its bytes lie in the final interval, and their number is exact; the trace has the words before each symbol |
| `RangeRoundTrip.DecodeAll` | qizmo/rangedec/decoder.go:64-76 | the lenient decoder returns exactly the encoded symbols; the strict one stops at the first symbol before which more digits were produced than there are bytes; the trace has the refilled words before each symbol |
| `RangeRoundTrip.RoundTrip` | qizmo/rangedec/decoder.go:37-118 | encode, finish and decode give back every sequence that can be encoded, over rows of any power-of-two first step; a strict decoder reads exactly the readable symbols, before which no digit was produced that `Finish` leaves out; before each symbol `low` and `high` are equal at both ends |
| `RangeRoundTrip.EncoderDenotes` | qizmo/rangeenc/encoder.go:96-165 | after any accepted sequence the wrapped words denote the exact interval |
| `RangeRoundTrip.DecoderFollows` | qizmo/rangedec/decoder.go:64-118 | after the same symbols the words of the decoder follow that interval, for any bytes |
| `RangeRoundTrip.Lockstep` | qizmo/rangedec/decoder.go:78-118 | before each symbol of any sequence `low` and `high` of the refilled decoder are those of the encoder |
| `FrequencyTables.BuildCumulativeRowFromCounts` | qizmo/freq/tables.go:19-39 | the row of wrapped 64-bit products and quotients; all ones when the total is zero |
| `FrequencyTables.BuildPairedCumulativeRows` | qizmo/freq/tables.go:66-86 | two raw rows become consecutive halves of one distribution |
| `FrequencyTables.RowIsMonotone` | qizmo/freq/tables.go:19-39 | for totals up to 2^32 + 1 the row never decreases and ends at 2^32 - 1, across paired halves too |
| `FrequencyTables.EntryIsExact` | qizmo/freq/tables.go:32-37 | for such totals every entry is the exact quotient, rounded down |
| `FrequencyTables.LargeTotalsWrap` | qizmo/freq/tables.go:32-37 | above them the product wraps: two concrete totals whose last entry is not 2^32 - 1 |
| `FrequencyTables.SymbolGap` | qizmo/freq/tables.go:19-39 | the gap of a symbol is at least its share of 2^32 - 1 |
| `FrequencyTables.PositiveGap` | qizmo/freq/tables.go:19-39 | a symbol that occurs has a positive gap, and a gap of 256 when the total is below 2^24 |
| `FrequencyTables.WideGapAccepted` | qizmo/rangeenc/encoder.go:96-101 | a gap of 256 has a share of every normalised range |
| `FrequencyTables.WideGapsAccepted` | qizmo/rangeenc/encoder.go:96-111 | no encode call of any run fails over any rows in which each encoded symbol has a gap of 256 |
| `FrequencyTables.NeverRefused` | qizmo/rangeenc/encoder.go:88-111 | no run over symbols that occur in tables of totals below 2^24 is ever refused |
| `Sequencer.Sequencer.Reset` | common/sequencer/sequencer.go:62-74 | everything but state and ping goes back to the beginning |
| `Sequencer.Sequencer.Acknowledge` | common/sequencer/sequencer.go:88-110 | a stale packet leaves the whole channel as it is; any other moves numbers and bits, and an acknowledgement of the outgoing bit empties the send buffer |
| `Sequencer.Sequencer.Emit` | common/sequencer/sequencer.go:112-154 | queues; sends nothing exactly when a connected channel has to wait; starts a batch only on an empty buffer and resends only after a known loss |
| `Sequencer.Sequencer.Process` | common/sequencer/sequencer.go:76-82 | an acknowledgement followed by an emission; with a stale pair of words an emission alone |
| `Sequencer.RepeatedPacket` | common/sequencer/sequencer.go:88-110 | without the filter a repeated packet is harmless exactly when it is stale or not reliable |
| `Sequencer.RepeatedBitIsLost` | common/sequencer/sequencer.go:88-110 | a reliable packet that comes twice leaves the bit of one that never came: a concrete channel and packet |
| `Sequencer.TimeoutIsHarmless` | client/quake/net.go:61-124 | the words (0, 0) of a timeout or of a connectionless packet change nothing exactly when a number above 0 has been seen or they say what the last acknowledgement said |
| `Sequencer.SilentExactly` | common/sequencer/sequencer.go:112-117 | a connected channel whose ping has not elapsed sends nothing and only queues; otherwise something is sent |
| `Sequencer.PacketsAreSpaced` | common/sequencer/sequencer.go:112-117 | however often it is asked to send, a connected channel leaves at least the ping between two packets, and any other sends each time |
| `Words.OneIsNewer` | server/quake/client.go:72-76 | of two different numbers exactly one is newer, also across the 2^31 wrap, unless they are 2^30 apart, when neither is |
| `Sequencer.AdmitsNewer` | server/quake/client.go:72-76 | over fewer than 2^30 numbers the modular filter admits exactly the newer ones |
| `Sequencer.Client.AcceptPacket` | server/quake/client.go:62-82 | rejects exactly what the filter does not admit, without touching the sequencer |
| `Netchan.NothingAhead` | common/sequencer/sequencer.go:119-131 | whenever a reliable packet may be formed, no earlier one can still be accepted |
| `Netchan.SenderSends` | common/sequencer/sequencer.go:112-154 | sending keeps the invariant of its own direction |
| `Netchan.ReceiverSends` | common/sequencer/sequencer.go:133-154 | sending keeps the invariant of the opposite direction: acknowledgements tell the truth |
| `Netchan.ReceiverReceives` | server/quake/client.go:62-82 | accepting or rejecting any packet ever sent keeps the invariant of its direction |
| `Netchan.SenderReceives` | common/sequencer/sequencer.go:88-110 | learning from any acknowledgement keeps the invariant of the direction it acknowledges |
| `Netchan.PassChangesNothing` | client/quake/net.go:61-124 | stale words that reach the sequencer past the filter, and those of a timeout before anything was accepted, change nothing: no batch is dropped |
| `NetchanRuns.RunKeepsInv` | common/sequencer/sequencer.go:88-154 | the invariant holds after every run of sends, deliveries and unfiltered stale words |
| `NetchanRuns.ReliableDelivery` | common/sequencer/sequencer.go:88-154 | over every run with loss, duplication and reordering: accepted batches are a prefix of those formed, in order and each once; the buffer is empty exactly when stored acknowledgement bit and outgoing bit agree; an empty buffer means all was accepted |
| `NetchanRuns.TimeoutsAreHarmless` | client/quake/net.go:61-124 | over every run, an end whose peer counts from 1, as the server does, may process (0, 0) at any moment without any effect |
| `NetchanRuns.TimeoutDropsBatch` | client/quake/net.go:61-124 | with a peer that counts from 0, a concrete run in which (0, 0) drops a batch that is still outstanding |
| `NetchanRuns.RoundAdvances` | common/sequencer/sequencer.go:112-154 | one packet each way without loss always moves the channel on |
| `NetchanRuns.FourRoundsDrain` | common/sequencer/sequencer.go:112-154 | from every reachable state four packets each way without loss deliver all that the end which sends first was given |
| `NetchanRuns.FiveRoundsDrainBoth` | common/sequencer/sequencer.go:112-154 | from every reachable state five packets each way without loss deliver all that both ends were given: the channel never wedges |
| `HuffmanCodes.FindTwoLeast` | net/qizmo/huffman.go:128-140 | one scan finds the two least positive counts; every lower index than the one found has a greater count |
| `HuffmanCodes.MergeStep` | net/qizmo/huffman.go:145-150 | a merge writes one pair, adds the counts and redirects the link |
| `HuffmanCodes.GrowTree` | net/qizmo/huffman.go:117-151 | 255 merges in place make one tree of all 256 symbols, of least cost; they stop early exactly when some symbol does not occur |
| `HuffmanCodes.AssignChild` | net/qizmo/huffman.go:166-177 | every leaf below gets the packed code of its path, and no other code changes |
| `HuffmanCodes.AssignNode` | net/qizmo/huffman.go:179-191 | both children extend the code of the node by one bit |
| `HuffmanCodes.BuildHuffmanCodes` | net/qizmo/huffman.go:108-157 | fails exactly when a symbol does not occur; otherwise every symbol has the code of its leaf in a finished tree, whose lighter subtree is on the left at every node, and of two equally heavy ones the one that starts with the lower symbol |
| `HuffmanForest.JoinGrows` | net/qizmo/huffman.go:145-150 | what every merge keeps: weights, leaves, balance, order and cost of the forest, and its representation in the pair array |
| `HuffmanForest.LastTreeFinished` | net/qizmo/huffman.go:117-151 | after the last merge one tree holds exactly the 256 symbols, at the cost and the height of the merge procedure |
| `HuffmanForest.TreeExists` | net/qizmo/huffman.go:117-151 | whenever all symbols occur the merges end with such a tree |
| `HuffmanOptimal.HuffmanIsLeast` | net/qizmo/huffman.go:108-157 | the cost of repeated merging of the two least counts is least among all code lengths that satisfy the Kraft inequality |
| `PrefixCodes.KraftInequality` | net/qizmo/huffman.go:108-157 | every prefix-free set of words satisfies the Kraft inequality |
| `HuffmanTree.CodesArePrefixFree` | net/qizmo/huffman.go:166-191 | no code of a tree starts another |
| `HuffmanTree.CodesAreComplete` | net/qizmo/huffman.go:166-191 | every proper start of a code goes on to some code after either bit |
| `HuffmanTree.JoinIsHeavy` | net/qizmo/huffman.go:145-150 | a tree of height n merged from least counts weighs at least the Fibonacci number of n + 2 |
| `HuffmanResults.CodesAreCheapest` | net/qizmo/huffman.go:108-157 | no prefix-free code of the 256 symbols costs less than the assigned one |
| `HuffmanResults.CodesAreOrdered` | net/qizmo/huffman.go:133-147 | of two codes that differ in the last bit only, the 0 belongs to the rarer symbol, and to the lower one of two that are equally frequent |
| `HuffmanResults.CodesFitExactly` | net/qizmo/huffman.go:26-32 | all codes fit the packed word exactly when the merge procedure ends with a tree of height at most 27 |
| `HuffmanResults.CodesFit` | net/qizmo/huffman.go:26-32 | with a total below Fibonacci(30) = 832040 that is always so |
| `PackedCodes.PackedLength` | net/qizmo/huffman.go:26-32 | length and bits of a packed code can be read back |
| `PackedCodes.PackedBit` | net/qizmo/huffman.go:34-36 | bit i of a packed code is bit i of the word |
| `PackedCodes.PackedAppend` | net/qizmo/huffman.go:179-191 | packing one bit more is appending it to the word |
| `BitStream.BitWriter.WriteCode` | net/qizmo/huffman.go:198-208 | appends exactly the bits of the code, most significant first |
| `BitStream.BitWriter.WriteByte` | net/qizmo/huffman.go:210-213 | a byte is written as its eight bits |
| `BitStream.BitReader.ReadBit` | net/qizmo/huffman.go:228-236 | the next bit, or the end of the data |
| `BitStream.BitReader.ReadByte` | net/qizmo/huffman.go:238-248 | the next eight bits, failing exactly when fewer are left |
| `BitStream.StreamOfWritten` | net/qizmo/huffman.go:198-208 | the bytes start with all written bits |
| `HuffmanTrie.BuildTrie` | net/qizmo/huffman.go:76-104 | the decoder of all codes; a duplicate is reported exactly when two codes are equal |
| `HuffmanTrie.Trie.Insert` | net/qizmo/huffman.go:82-101 | adds one code to the trie, or reports that its place is taken |
| `HuffmanTrie.Trie.ReadSymbol` | net/qizmo/huffman.go:271-287 | walks to the symbol whose code comes next |
| `HuffmanRoundTrip.ReadCoded` | net/qizmo/huffman.go:271-287 | returns the symbol that was written and consumes exactly its bits; the nil-child error is unreachable |
| `HuffmanRoundTrip.ModelCodes` | net/qizmo/huffman.go:108-157 | the packed codes that are built for a row are prefix-free and complete, no prefix code on the 256 symbols costs less, and siblings are in the order of count and symbol |
| `HuffmanRoundTrip.SmallTotalIsUsable` | net/qizmo/huffman.go:26-32 | such totals are one case of the rows whose codes fit |
| `HuffmanRoundTrip.RoundTrip` | net/qizmo/huffman.go:198-287 | for all tables with codes of at most 27 bits, any mix of symbols and literal bytes is read back, consuming exactly the written bits |
| `LinkHeader.LinkSequences.DecodeHeader` | protocol/qizmo/link.go:66-80 | expands both numbers against the last ones seen and remembers them; an uncompressed packet changes nothing |
| `LinkHeader.ExpandRestores` | protocol/qizmo/link.go:82-95 | expanding the packed word restores a number exactly when it is in the block of the previous one and at most 8192 behind, or in the next block and less than 8192 ahead, also across the 31-bit wrap |
| `LinkHeader.AheadIsExpandable` | protocol/qizmo/link.go:82-95 | every number less than 8192 ahead in the 31-bit range is restored |
| `LinkHeader.HeaderIsCompressed` | protocol/qizmo/link.go:29-52 | an encoded header is recognised as compressed exactly when it is not all ones |
| `LinkHeader.AllOnesIsLost` | protocol/qizmo/link.go:29-52 | a concrete header that is all ones |
| `LinkHeader.HeaderRoundTrip` | protocol/qizmo/link.go:29-95 | a whole header is read back exactly when it is not all ones and both numbers can be restored: they are in the window, or nothing came before and fourteen bits are all there is |
| `PackedWords.SplitRestores` | qizmo/packed/math.go:10-23 | adding the sign-extended low byte and the shifted high byte of a split difference reaches the target |
| `PackedWords.SplitIsUnique` | qizmo/packed/math.go:19-23 | only one pair of bytes adds up to a difference |
| `PackedWords.XorByteRestores` | qizmo/internal/message/decoder_packetentities.go:35-40 | applying a flipped byte twice restores it |
| `ClientEncoder.PredictorState.constructor` | net/qizmo/client_move.go:173-184 | angles extrapolated over the skipped commands, the rest as in the base command |
| `ClientCosts.StartIsCoasted` | net/qizmo/client_encoder_move.go:9-43 | a move is predicted from the command its packet refers to, moved on as expected to the one just before the first that is sent |
| `ClientEncoder.PredictorState.Plan` | net/qizmo/client_encoder_move.go:54-85 | the difference from the prediction, and the predictor moved on to the command |
| `ClientEncoder.EncodeClientCommandDelta` | net/qizmo/client_encoder_move.go:98-148 | writes the predicted mask change, the non-zero bytes of six words in link order, and the optional fields |
| `ClientMoves.SkippingIsCoasting` | net/qizmo/client_move.go:173-184 | the multiplication that skips commands equals predicting them one by one |
| `ClientMoves.ExpectedIsFree` | net/qizmo/client_encoder_move.go:54-85 | of a command that is exactly as predicted only an empty mask is sent |
| `ClientCosts.MaskNamesDifferences` | net/qizmo/client_encoder_move.go:54-96 | the bits of a mask name exactly what differs from the expected command: yaw, pitch, roll, the three moves, buttons, duration and impulse |
| `ClientCosts.HabitIsFree` | net/qizmo/client_encoder_move.go:98-110 | repeating a mask costs two zero symbols exactly when it holds nothing but turns and duration |
| `ClientCosts.ItemsFollowMask` | net/qizmo/client_encoder_move.go:98-148 | after the two symbols of the mask there is one symbol for each bit that is set, in the row of this bit, and nothing else |
| `ClientCosts.RowsAreDistinct` | net/qizmo/client_move.go:186-189 | every byte of every word has a row of its own |
| `ClientMoves.WordSplit` | net/qizmo/client_encoder_move.go:87-96 | the mask bits name exactly the non-zero bytes of a split word |
| `ClientMoves.MaskRestored` | net/qizmo/client_decoder_move.go:68-81 | a mask sent as its difference from the remembered one comes back |
| `ClientCosts.InvalidMaskIsRefused` | net/qizmo/client_decoder_move.go:68-81 | a mask is refused exactly when its last bit is set |
| `ClientMoves.CommandRestored` | net/qizmo/client_decoder_move.go:63-143 | from any prediction and remembered mask, the planned difference of any command decodes to the command and the same mask |
| `ClientMoves.CommandsRestored` | net/qizmo/client_decoder_move.go:49-59 | predictor and mask stay equal at both ends over the commands of a packet |
| `ClientMoves.AlwaysRecorded` | net/qizmo/client_decoder_move.go:40-47 | the commands that are not sent are always on record when the move can be encoded |
| `ClientMoves.MoveRestored` | net/qizmo/client_decoder_move.go:12-61 | a move decodes to its own new commands after the recorded ones |
| `ClientEncoder.Encoder.EncodeClientMove` | net/qizmo/client_encoder_move.go:9-43 | possible exactly when the referenced command and the one before it are on record |
| `ClientDecoder.Decoder.DecodeClientCommand` | net/qizmo/client_decoder_move.go:63-143 | reads from the bits what the specification parses from the items |
| `ClientDecoder.Decoder.DecodeClientMove` | net/qizmo/client_decoder_move.go:12-61 | the same for a whole move, with errors for missing records |
| `ClientCommands.DeltaRead` | net/qizmo/client_decoder_move.go:155-211 | a raw command written against a base is parsed back against that base |
| `ClientCommands.MoveRead` | net/qizmo/client_move.go:65-84 | every move survives its raw form |
| `ClientStrings.Longest` | net/qizmo/client_string.go:140-150 | the first of the longest matching entries of a dictionary |
| `ClientStrings.LongestIsUnique` | net/qizmo/client_string.go:140-150 | there is only one such entry |
| `ClientStrings.LongestMatch` | net/qizmo/client_string.go:140-150 | the search loop finds it |
| `ClientStrings.MatchClientString` | net/qizmo/client_string.go:123-138 | proxy phrases, then names, then common phrases: the first dictionary with a match decides |
| `ClientStrings.FirstDictionaryDecides` | net/qizmo/client_string.go:120-138 | a match among the proxy phrases wins over any name, and a name over any common phrase, however long; within one dictionary the first of the longest wins |
| `ClientStrings.MatchFits` | net/qizmo/client_string.go:100-138 | the chosen token stands, at the decoder, for a non-empty start of the data |
| `ClientStrings.StringRestored` | net/qizmo/client_string.go:45-98 | every encodable terminated string comes back from a decoder with equal dictionaries free of zero bytes |
| `ClientStrings.LiteralRestored` | net/qizmo/client_string.go:22-43 | literal strings come back |
| `ClientEncoder.Encoder.EncodeClientString` | net/qizmo/client_string.go:75-98 | fails exactly when an uncovered byte looks like the escape |
| `ClientDecoder.Decoder.DecodeClientString` | net/qizmo/client_string.go:45-73 | reads from the bits what the specification parses, with errors for unknown tokens |
| `ClientOperations.ParseClientOperations` | net/qizmo/client_operation.go:18-102 | the operations up to the end or the first malformed one |
| `ClientOperations.ParsedBytes` | net/qizmo/client_operation.go:109-118 | a completely parsed body is the bytes of its operations |
| `ClientOperations.UploadSizeIsSigned` | net/qizmo/client_operation.go:104-107 | the size of an upload is a signed word, and a negative one is refused |
| `ClientOperations.FixedPayload` | net/qizmo/client_operation.go:18-102 | seven opcodes take a fixed number of bytes each, and fail when there are fewer |
| `ClientOperations.WrittenIsParsed` | net/qizmo/client_operation.go:109-118 | whatever is written of an operation is parsed back: same opcode, payload and move |
| `LinkStreams.LinkWriter.WriteBytes` | net/qizmo/huffman.go:215-219 | bytes become literal items, and items become exactly their bits |
| `LinkStreams.LinkReader.ReadSymbol` | net/qizmo/client_decoder.go:197-199 | returns the symbol that was written for this table and consumes at least one bit |
| `LinkStreams.LinkReader.ReadBytes` | net/qizmo/huffman.go:250-260 | returns the bytes that were written |
| `ClientEncoder.Encoder.EncodeClientOperation` | net/qizmo/client_encoder.go:120-167 | writes the items of an operation, or fails exactly when it has none |
| `ClientCosts.PayloadItem` | net/qizmo/client_encoder.go:135-163 | item by item: uploads are their header and the differences of neighbouring bytes, voices are coded bytes without tokens, other payloads are plain bytes |
| `ClientEncoder.Encoder.EncodeBody` | net/qizmo/client_encoder.go:84-106 | all operations but those folded into the header, and the end mark |
| `ClientEncoder.Encoder.Observe` | net/qizmo/state.go:33-43 | the newest sequence number, by half of the 31-bit range |
| `ClientPlans.TrackedIsGreatest` | net/qizmo/state.go:33-43 | in whatever order numbers come, within half of the half range around the 2^31 wrap or not, the greatest is kept |
| `ClientEncoder.Encoder.Encode` | net/qizmo/client_encoder.go:44-118 | a packet is compressed exactly when it is compressible, and passed as it is otherwise, always so before compression is enabled; in both cases commits the history and observes the number |
| `ClientChoice.StuckExactly` | net/qizmo/client_string.go:75-98 | a string has no compressed form exactly when a step of its encoder begins at an escape byte that no entry covers |
| `ClientChoice.CompleteExactly` | net/qizmo/client_operation.go:18-102 | parsing is complete exactly when the bytes of the operations are the whole body, and then tells whether all opcodes have a code |
| `ClientChoice.CompressedExactly` | net/qizmo/client_encoder.go:64-104 | a packet is compressed exactly when compression is enabled, a packet has been seen, this one is 1 to 28 ahead of it, the one seen last is on record, the operations take up the whole body, none is a nop or raw voice, moves have both records, and no string gets stuck |
| `ClientRuns.NothingBeforeSwitch` | net/qizmo/client_encoder.go:40-67 | over any stream, everything sent before `Enable` arrives as it is |
| `ClientRuns.LastIsNewest` | net/qizmo/state.go:33-43 | over any stream in order, distances refer to the last packet that had a header |
| `ClientRuns.MovesAreFollowed` | net/qizmo/client_encoder.go:64-104 | over any stream in order, after `Enable` a packet with a move is followed by a compressed packet whenever the next is codable and at most 28 ahead |
| `ClientDecoder.Decoder.DecodeClientOperations` | net/qizmo/client_decoder.go:107-195 | reads from the bits what the specification parses, up to the end mark |
| `ClientDecoder.Decoder.DecodeCompressedPacket` | net/qizmo/client_decoder.go:44-88 | header, operations and a folded clc_delta at the end, and the commit of the sent commands |
| `ClientDecoder.Decoder.ObserveRawPacket` | net/qizmo/client_decoder.go:90-105 | numbers and all three commands of each move of a raw packet |
| `ClientDecoder.Decoder.ObserveResyncRequest` | net/qizmo/client_extension.go:32-38 | a request is remembered exactly when one is among the operations |
| `ClientDecoder.Decoder.Decode` | net/qizmo/client_decoder.go:34-42 | raw packets pass unchanged; compressed ones decode as their items say |
| `ClientPackets.PayloadRestored` | net/qizmo/client_decoder.go:133-189 | every payload kind comes back |
| `ClientPackets.OperationsRestored` | net/qizmo/client_decoder.go:107-195 | encodable operations decode to what arrives of them, and nothing is read past the end mark |
| `ClientPackets.NothingIsLost` | net/qizmo/client_encoder.go:84-92 | folding only moves things: every operation arrives, nothing else does, and a clc_delta of the acknowledgement comes at the end or not at all |
| `ClientPackets.HistoriesAgree` | net/qizmo/client_operation.go:120-164 | committing what arrives leaves the decoder with the history that the encoder commits |
| `ClientPackets.CommitIsFound` | net/qizmo/client_operation.go:138-159 | committed commands are found in the ring under their own numbers, and the ones just before them stay |
| `ClientPackets.MoveMakesBasis` | net/qizmo/client_encoder.go:69-81 | once a packet with a move has passed, raw or compressed, the next packets have the two records that they are predicted from |
| `ClientPlans.PlanRestored` | net/qizmo/client_decoder.go:44-88 | the items of a packet mean, to a decoder with equal dictionary and history, what arrives of its operations |
| `ClientPlans.DistanceIsChecked` | net/qizmo/client_decoder.go:50-62 | a distance outside 1 to 28 is refused, and no other is |
| `ClientPlans.DeliveredIsParsed` | net/qizmo/client_decoder.go:72-83 | parsed again, a delivered packet has its own operations in order, except that a clc_delta equal to the acknowledgement comes last, once, and that commands not sent are the recorded ones |
| `ClientHeaders.RawHeaderRead` | net/qizmo/packet.go:36-56 | every header but a connectionless one is read back from its ten bytes, and nothing from fewer |
| `ClientHeaders.RawIsNotCompressed` | protocol/qizmo/link.go:48-52 | a raw packet is mistaken for a compressed one exactly when bit 30 of its number is set |
| `ClientHeaders.CompressedByBit` | protocol/qizmo/link.go:48-52 | any packet is taken for a compressed one exactly when it has four bytes, bit 30 of its first long is set, and they are not all ones |
| `ClientHeaders.CompressedStart` | net/qizmo/packet.go:58-67 | the six header bytes of a compressed packet are read back as they were written |
| `ClientLink.Transfer` | net/qizmo/client_encoder.go:44-118 | one packet over the link: a compressed packet arrives as it should exactly when its header is not all ones and both numbers are in the window, and then both ends are in sync again |
| `ClientLink.Run` | net/qizmo/client_decoder.go:34-105 | over any stream in which the packets left raw do not look compressed and the headers of the compressed ones can be restored, everything is delivered and both histories are equal at the end |
| `ClientLink.OrderedPasses` | net/qizmo/client_decoder.go:34-105 | that is so for every stream whose numbers advance by less than 8192, have bit 30 clear and are never all ones |
| `EntityDeltas.PatchRestores` | qizmo/internal/message/decoder_packetentities.go:35-43 | remapped model, flipped effects or added difference: the decoded field is the target |
| `EntityDeltas.NewFieldsRestored` | qizmo/internal/message/decoder_packetentities.go:17-47 | the masked fields of a new entity come back |
| `EntityDeltas.DeltaFieldsRestored` | qizmo/internal/message/decoder_packetentities.go:68-111 | fields and angle carries of a changed entity come back, also for angles that are not sent |
| `EntityDeltas.OriginRestored` | qizmo/internal/message/decoder_packetentities.go:49-66 | three coordinates come back from their masked bytes |
| `EntityActions.ChangeRestored` | qizmo/internal/message/decoder_packetentities.go:279-311 | for every base and target, decoding a change gives exactly the record that the encoder keeps, with the target's visible state, next carries and mask |
| `EntityActions.NewRestored` | qizmo/internal/message/decoder_packetentities.go:214-237 | for every target, decoding a new entity gives the target without history |
| `EntityPayloads.NewShowsBaseline` | qizmo/internal/message/decoder_packetentities.go:208-212 | a new entity without payload shows the baseline of its number, or nothing when there is none, and has no history |
| `EntityPayloads.NewKeepsBaseline` | qizmo/internal/message/decoder_packetentities.go:210-237 | with a payload, every field that the masks do not name is still that of the baseline |
| `EntityPayloads.BaselineIsFree` | qizmo/internal/message/encoder_packetentities.go:319-369 | of a new entity only the number is sent exactly when it looks like its baseline |
| `EntityPayloads.NewSendsDifferences` | qizmo/internal/message/encoder_packetentities.go:319-401 | the payload codes exactly the fields and coordinates that differ from the baseline |
| `EntityPayloads.ChangeSendsDifferences` | qizmo/internal/message/encoder_packetentities.go:196-308 | a change codes exactly the plain fields that differ, and the angles and coordinates that do not go on moving as they did last time |
| `EntityScripts.NumberRestored` | qizmo/internal/message/decoder_packetentities.go:185-198 | entity numbers come back from short and chunked differences |
| `EntityScripts.NewInStep` | qizmo/internal/message/decoder_packetentities.go:184-238 | a decoder at the encoder's position decodes a new entity to the planned effect |
| `EntityScripts.ChangeInStep` | qizmo/internal/message/decoder_packetentities.go:240-312 | the same for a change, for runs up to 287 |
| `EntityScripts.RemoveInStep` | qizmo/internal/message/encoder_packetentities.go:91-95 | the decoder reads a removal as planned exactly when its run is at most 63 |
| `EntityPlans.PlanPacketEntities` | qizmo/internal/message/encoder_packetentities.go:127-183 | for any two ordered lists: the plan replays from the base to records that look like the target, every action is called for, and only a new entity at the start can be out of order |
| `EntityPlans.PlanWorks` | qizmo/internal/message/encoder_packetentities.go:127-183 | the same of the plan as a function of the two lists |
| `EntityPlans.PlanEncodable` | qizmo/internal/message/encoder_packetentities.go:248-319 | a plan is accepted by the encoder exactly when it does not start with a new entity numbered up to 32 and no change has a run above 287 |
| `EntityPlans.StaysInStep` | qizmo/internal/message/encoder_packetentities.go:91-95 | the decoder follows the encoder through all actions exactly when no removal has a run above 63 |
| `EntityPlans.ScriptRestored` | qizmo/internal/message/decoder_packetentities.go:147-182 | then the decoded list is the encoder's list of records and nothing is left unread |
| `EntityPlans.LongRemovalIsLost` | qizmo/internal/message/encoder_packetentities.go:91-95 | removing only the last of 64 entities is planned as one action, which the encoder accepts and the decoder loses |
| `EntityEncoder.Encoder.EncodeNewPacketEntity` | qizmo/internal/message/encoder_packetentities.go:310-401 | fails exactly when the number is not after the running one; otherwise writes the tokens of a new entity, nothing but the number exactly when it looks like its baseline |
| `EntityEncoder.Encoder.EncodeDeltaPacketEntity` | qizmo/internal/message/encoder_packetentities.go:248-308 | fails exactly above the maximal run; otherwise writes the tokens of a change |
| `EntityDecoder.Decoder.DecodeNewEntity` | qizmo/internal/message/decoder_packetentities.go:184-238 | copies, duplicates check and new record, as the specification parses them, or the error of the first symbol that cannot be read; the new record has no history, without a payload it shows its baseline, and its number is below that of every base entity that is left |
| `EntityDecoder.Decoder.DecodeBaseEntity` | qizmo/internal/message/decoder_packetentities.go:240-312 | run, dropped-packet check, removal or change, as the specification parses them, or the error of the first symbol that cannot be read |
| `EntityDecoder.Decoder.Decode` | qizmo/internal/message/decoder_packetentities.go:147-182 | the whole loop: the end of the list, a duplicate, a dropped packet, the end of the stream, or a lost step, each exactly when the specification says so |
| `EntityPrefixes.CutScript` | qizmo/internal/message/decoder_packetentities.go:147-182 | a script of which the stream holds only the first part runs out of symbols; it is never taken for another list |
| `EntityRoundTrip.EncodeSVCPacketEntities` | qizmo/internal/message/encoder_packetentities.go:80-104 | encodes a plan, or fails exactly when one of its actions cannot be encoded where it comes up |
| `EntityRoundTrip.ThroughBytes` | qizmo/rangedec/decoder.go:128-133 | the strict decoder gets the symbols of a list, in a stream with any others around it, and all of them exactly when the last one is readable |
| `EntityRoundTrip.Exchange` | qizmo/internal/message/decoder_packetentities.go:147-182 | plan, range coding and strict replay: what is sent with short removals is decoded to the records that the encoder keeps exactly when its last symbol is readable, and ends with the end of the stream otherwise |
| `EntityRoundTrip.ExchangeAll` | qizmo/internal/message/decoder_packetentities.go:321-334 | over any sequence of ordered lists whose plans have short removals both ends keep equal records, every list shown is the one sent, and the run stops exactly at the first list that is refused or ends early |
| `EntityRoundTrip.SnapshotsAreShort` | qizmo/internal/message/encoder_packetentities.go:127-183 | snapshots of up to 63 entities numbered above 32 are such lists, and the encoder accepts every plan for them |
| `EntityRoundTrip.CountedIsSendable` | qizmo/internal/message/encoder_packetentities.go:80-104 | over rows built from counts no list of snapshots is refused |
| `EntityEarlyEnd.EndsEarly` | qizmo/rangedec/decoder.go:46-49 | taking away the only entity, over rows built from counts and with a symbol after it: sent, and cut off by the end of the stream |
| `RangeTables.CountedIsAccepted` | qizmo/rangeenc/encoder.go:96-111 | rows built from counts refuse no symbol, in any stream of such rows |
| `RemapTables.ApplyRemapSwap` | qizmo/state/remaps.go:67-83 | both tables change in place as specified |
| `RemapTables.SwapKeepsInverse` | qizmo/state/remaps.go:67-83 | a swap keeps the tables each other's inverse with 0 fixed, puts a candidate from 1 to 255 at a position from 1 to 255 and moves nothing else |
| `RemapTables.AllSwapsKeepInverse` | qizmo/state/remaps.go:96-136 | so does any sequence of swaps |
| `RemapTables.FinalPositions` | qizmo/state/remaps.go:96-136 | when no candidate is listed twice, every one ends at its own position |
| `RemapTables.BuildListRemap` | qizmo/state/remaps.go:96-136 | for any chunks and any lookup the scan ends; its table is the one that the swaps of the listed names make, each at its position, and a permutation fixing 0 |
| `RemapTables.NamesAtPositions` | qizmo/state/remaps.go:96-136 | when no index is found for two names, the table sends every index that is found to the position of its name |
| `RemapTables.NamesOfChunks` | qizmo/state/remaps.go:96-136 | the names of a list in several chunks are those of its chunks, one after the other |
| `RemapTables.ListIsJoined` | qizmo/state/remaps.go:96-136 | a scan that counts from zero gives positions to all of them, up to 255 |
| `RemapTables.ChunksSkipped` | qizmo/state/remaps.go:85-94 | a scan that counts chunks from a later index goes from the first chunk to the one after that index; it visits the whole list exactly when it counts from zero or the list is one chunk |
| `RemapTables.RemapIndex` | qizmo/state/state.go:120-143 | the search never fails on such a table and inverts it |
| `PacketWriter.Writer.HoldFor` | proxy/packetwriter.go:120-134 | extends the hold and never shortens it: afterwards it is the old one or ends when this call asks |
| `PacketWriter.Writer.Enqueue` | proxy/packetwriter.go:136-147 | appends to an open queue |
| `PacketWriter.Writer.TakeNext` | proxy/packetwriter.go:224-244 | pops only after the hold, and the oldest packet |
| `PacketWriter.Writer.CloseIfIdle` | proxy/packetwriter.go:161-176 | closes exactly an idle queue, dropping nothing |
| `PacketWriter.StepKeepsInv` | proxy/packetwriter.go:45-84 | every section of every call and of the worker keeps the invariant |
| `PacketWriter.HoldsOnlyGrow` | proxy/packetwriter.go:120-134 | no section moves a hold earlier, drops a packet at an idle close, or takes a packet during a hold |
| `PacketWriter.WrittenInOrder` | proxy/packetwriter.go:104-244 | over every interleaving, also when writes fail, the packets handed over are a prefix of the accepted ones, each once and in order, none before its deadline, a parked worker has a wake-up on its way, and those that the peer takes reach it in call order |
| `PacketWriter.HoldIsKept` | proxy/packetwriter.go:120-134 | while a hold is in force, no packet accepted later is handed over before it ends |
| `PacketWriter.DelayIsKept` | proxy/packetwriter.go:45-72 | from the moment a delay call begins, no packet accepted later is handed over before the delay has elapsed, whatever comes before and after the hold is set |
| `PacketWriter.HoldWasAsked` | proxy/packetwriter.go:120-134 | over every interleaving, a hold ends at the time plus the delay of some call, however many calls there were |
| `PacketWriter.DrainsAfterHold` | proxy/packetwriter.go:186-222 | from every reachable state without a call under way, waiting for the end of the hold and then the worker alone hand over everything |
| `PacketWriter.NoLongerThanAsked` | proxy/packetwriter.go:120-222 | from every reachable state all that was accepted can be handed over at once or at a time that some call asked for |
| `PacketWriter.Drains` | proxy/packetwriter.go:186-222 | from every reachable state with the hold over and no call under way, the worker alone hands over everything and goes, whether or not writes fail |
| `PacketWriter.WakesAreSignalled` | proxy/packetwriter.go:178-211 | over every interleaving the worker is not woken more often than it is signalled |
| `UserCommands.Codec.Encode` | demo/qwz/democmd/encode.go:15-128 | succeeds exactly for canonical payloads that do not go back to a zero impulse; a refusal leaves the state |
| `UserCommands.EncodableExactly` | demo/qwz/democmd/encode.go:15-59 | the encoder accepts exactly the payloads that a decoder could return without being sent a zero impulse |
| `UserCommands.SequenceEncodable` | demo/qwz/democmd/encode.go:15-59 | a sequence can be encoded exactly when every command is canonical and a zero impulse only ever follows a zero impulse |
| `UserCommands.SteadyIsFree` | demo/qwz/democmd/encode.go:36-77 | a command that turns as the last one did and is otherwise the same costs an empty mask |
| `UserCommands.Codec.Decode` | demo/qwz/democmd/decode.go:13-107 | the payload and next state that the items mean |
| `UserCommands.ChangesDecoded` | demo/qwz/democmd/encode.go:52-59 | decoding the changes reaches the encoder's next state exactly when a zero impulse does not have to replace a retained one |
| `UserCommands.EncodedRestored` | demo/qwz/democmd/decode.go:13-83 | whenever encoding succeeds, decoding from an equal state returns the same payload and an equal next state |
| `UserCommands.AllRestored` | demo/qwz/democmd/decode.go:13-83 | so both sides agree over every sequence of commands |
| `RecordedCommands.ThroughBytes` | qizmo/rangeenc/encoder.go:88-165 | the items of user commands, written as range-coder bytes over rows of 256 symbols and with any others around them, come back unchanged |
| `RecordedCommands.EncodeAll` | demo/qwz/democmd/encode.go:15-128 | a sequence of commands is encoded exactly when every step of it can be, to the items of each in turn |
| `RecordedCommands.DecodeAll` | demo/qwz/democmd/decode.go:13-107 | the payloads that the items mean, one command after the other |
| `RecordedCommands.Replay` | demo/qwz/democmd/decode.go:13-107 | whenever a sequence of commands can be encoded, decoding its bytes from the same start gives the sequence |
| `LobbyNames.CleanIsClean` | server/quake/lobby_name.go:69-89 | cleaning gives a name of 1 to 31 allowed bytes without outer spaces, and keeps exactly the names that are clean already |
| `LobbyNames.CleanLobbyName` | server/quake/lobby_name.go:69-89 | the loops compute it |
| `LobbyNames.CleanedFrom` | server/quake/lobby_name.go:69-89 | the cleaned name is the allowed bytes, up to 31 of them, without the spaces around them, or "unnamed" when nothing is left |
| `LobbyNames.OnlyTheseAreDropped` | server/quake/lobby_name.go:72-76 | control characters, backslashes, quotes and semicolons of either colour are dropped, and no other byte is |
| `LobbyNames.KeysAlike` | server/quake/lobby_name.go:91-101 | two names have the same key exactly when they differ in case and colour only |
| `LobbyNames.NumberedKeysDiffer` | server/quake/lobby_name.go:62-66 | names numbered differently have different keys |
| `LobbyNames.NumberedIsClean` | server/quake/lobby_name.go:62-66 | a numbered name is clean exactly when the cut does not leave a space at its end |
| `LobbyNames.SpaceAtEnd` | server/quake/lobby_name.go:53-67 | a name of 31 bytes whose second player gets a name that ends with a space |
| `LobbyNames.UniqueLobbyName` | server/quake/lobby_name.go:53-67 | ends for every name and at most 32 players; the result is free, at most 31 bytes long, and the first choice that is |
| `LobbyNames.GivenOnce` | server/quake/lobby_name.go:53-67 | that is one name only |
| `Lobby.Server.AdmitLobbyClient` | server/quake/lobby_player.go:14-27 | first free slot, next user id, and the first free form of the name; refused exactly when all slots are taken; clients stay distinct in all three exactly as long as the user id does not wrap |
| `Lobby.Server.RenameLobbyClient` | server/quake/lobby_name.go:43-51 | the other clients keep everything, the own old name does not count, names stay distinct, and the name is the first free form of the one asked for |
| `Lobby.Server.Disconnect` | server/quake/server.go:152-160 | the others keep everything and stay distinct |
| `Lobby.Server.LobbyPlayers` | server/quake/lobby_player.go:29-40 | every client in its slot |
| `Lobby.PlayerAt` | server/quake/lobby_player.go:29-40 | a slot is taken exactly by the client it belongs to |
| `Lobby.UpdateScoreboard` | server/quake/lobby_player.go:42-64 | sends the first eight updates that are due, so the difference shrinks by that many; none exactly when the board is up to date |
| `Lobby.UpdateFourTimes` | server/quake/lobby_player.go:42-64 | four calls bring any scoreboard up to date with players that stay |

## Left out

- Sockets, goroutine launch, timers, logging and file access. Time is a number given
  to the model; in the packet writer every section under a lock, every channel
  operation and every timer is one atomic step.
- The contents of `compress.dat` and of the phrase lists: rows and dictionaries are
  arbitrary inputs that meet the stated conditions.
- HuffmanCodes.GrowTree: requires counts that total less than 2^32, as the next line
  explains.
- HuffmanCodes.BuildHuffmanCodes: requires counts that total less than 2^32; above
  that the source's 32-bit sums wrap and the merge order is no longer by weight.
- The maps in which `huffmanTables` keeps codes and decoders once built: a model is
  built once here. The decoder trie is a table of nodes with indices in place of
  references.
- ClientLink.Run: both ends share one set of built tables, standing for two builds
  from the same data; names are learnt by both ends at the same place in the stream;
  what a packet that does not pass leads to is said packet by packet in
  ClientLink.Transfer.
- The splitting of extension operations out of decoded client packets, and the
  compressed server-to-client direction of the link (`net/qizmo/server_*.go`).
- EntityDecoder.Decoder.Decode: reads tokens, each with the row that coded it, and
  stops when it asks for another row or for more symbols than were written; what a
  range decoder that is out of step goes on to read is not modelled.
- EntityRoundTrip.ExchangeAll: one stream for each list, as on a link, with any symbols
  around it; the resynchronisation of the link after a list that did not arrive is not
  modelled.
- Parsing and serialising entity lists in their ordinary wire form
  (`parseFullPacketEntities`, `serializeSVCDeltaPacketEntities`), the choice of a base
  snapshot from the history, and the spare bytes of an entity record.
- The rest of the server message codec: players, sounds, effects and text.
- RecordedCommands.Replay: the commands follow each other in the stream; the time and
  mode symbols that a demo has between them are not modelled.
- UserCommands.Codec.Decode: angles are 16-bit units with an arbitrary way of
  unpacking them to bits; the floating-point search of `packedAngle` is any packing
  that finds a unit only when it unpacks to exactly the given bits.
- NetchanRuns.ReliableDelivery: runs of fewer than 2^30 packets each way; the rate
  limit is any choice of elapsed times; both ends sit behind the filter, which in the
  source only the server has, and only stale words pass it by: a repeated reliable packet
  that reaches a client loses its bit (Sequencer.RepeatedPacket).
- PacketWriter.WrittenInOrder: interleavings without `closeCLCWriter`, which drops the
  queue on purpose when a client disconnects, and with a connected peer.
- `buildTwoSymbolCumulativeRow`, `RowIndex` and the table of paired rows: they select
  or patch rows whose properties are proved for all rows.
- The container formats, per-command parsers, user interface and proxy shell: offset
  bookkeeping and handler wiring.
