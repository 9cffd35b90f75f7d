/** Both ends of the client link together, over whole streams of packets. */
module ClientLink {
  import opened Words
  import opened LinkStreams
  import opened LinkHeader
  import opened ClientMoves
  import opened ClientStrings
  import opened ClientOperations
  import opened ClientPackets
  import opened ClientHeaders
  import opened ClientPlans
  import B = BitStream
  import H = HuffmanRoundTrip
  import E = ClientEncoder
  import D = ClientDecoder

  /** Equal tables, dictionaries and histories at both ends. */
  ghost predicate InSync(e: E.Encoder, d: D.Decoder)
    reads e, d, d.sequences, e.models, d.models, set m | m in e.models :: m.trie, set m | m in d.models :: m.trie
  {
    && e.Valid() && d.Valid() && e.models == d.models
    && e.dictionary == d.dictionary && e.dictionary.NulFree()
    && e.moves == d.moves && (e.started ==> d.sequences.initialized)
  }

  /** The decoder's numbers before a packet tell the numbers of its header. */
  predicate Carried(sequence: u32, ack: u32, h: RawHeader, clcDelta: bool) {
    && !AllOnes(Header(h.sequence, h.ack, clcDelta))
    && Expandable(sequence, h.sequence) && Expandable(ack, h.ack)
  }

  /** The encoded header, if it is taken for a compressed one, expands to the
      packet's own numbers exactly when they are carried. */
  lemma HeaderCarried(sequence: u32, ack: u32, h: RawHeader, clcDelta: bool, body: seq<u8>)
    ensures var packet := CompressedHeaderBytes(h, clcDelta) + body;
            && packet[4..6] + packet[6..] == ClientHeaders.C.WordBytes(h.qport) + body
            && packet[4..6] == ClientHeaders.C.WordBytes(h.qport) && packet[6..] == body
            && Marked(WireWords(packet).0) == clcDelta
            && (Carried(sequence, ack, h, clcDelta) <==>
                  && IsCompressedPacket(packet)
                  && ExpandSequence(sequence, WireWords(packet).0, true) == h.sequence
                  && ExpandSequence(ack, WireWords(packet).1, true) == h.ack)
  {
    CompressedStart(h, clcDelta, body);
    PackedParts(h.sequence, clcDelta);
    ExpandRestores(sequence, h.sequence, clcDelta);
    ExpandRestores(ack, h.ack, true);
  }

  /** A packet of all ones is not what should be delivered. */
  lemma AllOnesIsNotDelivered(h: RawHeader, clcDelta: bool, body: seq<u8>, rest: seq<u8>)
    requires h.sequence != CONNECTIONLESS && !IsCompressedPacket(CompressedHeaderBytes(h, clcDelta) + body)
    ensures CompressedHeaderBytes(h, clcDelta) + body != RawHeaderBytes(h) + rest
  {
    var packet := CompressedHeaderBytes(h, clcDelta) + body;
    CompressedStart(h, clcDelta, body);
    PackedParts(h.sequence, clcDelta);
    PackedParts(h.ack, true);
    assert WireWords(packet) == (0xffff, 0xffff);
    assert Long(packet, 0) == CONNECTIONLESS;
    LongOfBytes(h.sequence);
    hide LongBytes;
    var delivered := RawHeaderBytes(h) + rest;
    assert delivered[..4] == LongBytes(h.sequence);
    assert Long(delivered, 0) == Long(delivered[..4], 0);
  }

  lemma PrefixDiffers(header: Header, h: RawHeader, qport: seq<u8>, got: seq<u8>, rest: seq<u8>)
    requires LongBytes(header.sequence) + LongBytes(header.ack) + qport <= got
    requires got == RawHeaderBytes(h) + rest
    ensures header.sequence == h.sequence && header.ack == h.ack
  {
    LongOfBytes(header.sequence);
    LongOfBytes(header.ack);
    LongOfBytes(h.sequence);
    LongOfBytes(h.ack);
    hide LongBytes;
    assert got[..4] == LongBytes(header.sequence) && got[4..8] == LongBytes(header.ack);
    assert got[..4] == LongBytes(h.sequence) && got[4..8] == LongBytes(h.ack);
  }

  lemma NothingKnown(models: seq<H.Model>)
    ensures H.Known(models, [])
  {
  }

  /** What a planned packet leads to at both ends. */
  lemma PlannedPacket(st: EncoderState, packet: seq<u8>)
    requires st.dictionary.WellFormed() && st.dictionary.NulFree() && PlanOf(st, packet).Some?
    ensures ReadRawHeader(packet).Some? && |packet| >= 10
    ensures Arrivable(PlanOf(st, packet).value.setting, Operations(packet))
    ensures var plan, h := PlanOf(st, packet).value, ReadRawHeader(packet).value;
            var arrived := AllArrived(plan.setting, Operations(packet), h.ack);
            && st.started && After(st, packet).started && After(st, packet).dictionary == st.dictionary
            && h.sequence != CONNECTIONLESS
            && ParsePacket(st.dictionary, st.moves, h.sequence, h.ack, plan.clcDelta, plan.items)
               == Parsed((plan.setting.delta, arrived), [])
            && After(st, packet).moves == Commit(st.moves, arrived, Masked(h.sequence), First(plan.setting.delta))
            && Delivered(st, packet) == RawHeaderBytes(h) + AllBytes(arrived)
            && RawHeaderBytes(h) == LongBytes(h.sequence) + LongBytes(h.ack) + ClientHeaders.C.WordBytes(h.qport)
  {
    PlanFacts(st, packet);
    PlanRestored(st, packet);
    var plan, h := PlanOf(st, packet).value, ReadRawHeader(packet).value;
    hide ItemsFrom, ParsePacket, ParseAll, AnyFolded, ArrivedFrom, AllWellFormed, Arrivable, Operations, Commit,
         LongBytes;
    HistoriesAgree(plan.setting, st.moves, Operations(packet), h.ack);
  }

  /** What a raw packet leads to. */
  lemma RawPacket(st: EncoderState, packet: seq<u8>)
    requires st.dictionary.WellFormed() && PlanOf(st, packet).None?
    ensures After(st, packet).dictionary == st.dictionary
    ensures ReadRawHeader(packet).None? ==> After(st, packet) == st
    ensures ReadRawHeader(packet).Some? ==>
              After(st, packet).started && After(st, packet).moves
              == Commit(st.moves, Operations(packet), Masked(ReadRawHeader(packet).value.sequence), 0)
  {
    hide PlanOf, Commit, Operations;
  }

  /** One packet over the link. A raw packet arrives as it is unless it looks like
      a compressed one; a compressed packet arrives as it should exactly when its
      header is carried. Then both ends agree again. */
  method Transfer(e: E.Encoder, d: D.Decoder, packet: seq<u8>) returns (got: Option<seq<u8>>)
    requires InSync(e, d)
    modifies e, d, d.sequences
    ensures e.State() == After(old(e.State()), packet) && e.Valid() && d.Valid()
    ensures PlanOf(old(e.State()), packet).None? && !IsCompressedPacket(packet) ==>
              && got == Some(packet) && InSync(e, d)
              && (ReadRawHeader(packet).Some? ==>
                    d.sequences.sequence == ReadRawHeader(packet).value.sequence
                    && d.sequences.ack == ReadRawHeader(packet).value.ack && d.sequences.initialized)
              && (ReadRawHeader(packet).None? ==>
                    d.sequences.sequence == old(d.sequences.sequence) && d.sequences.ack == old(d.sequences.ack)
                    && d.sequences.initialized == old(d.sequences.initialized))
    ensures PlanOf(old(e.State()), packet).Some? ==>
              var plan := PlanOf(old(e.State()), packet).value;
              && ReadRawHeader(packet).Some?
              && var h := ReadRawHeader(packet).value;
              && (got == Some(Delivered(old(e.State()), packet)) <==>
                    old(Carried(d.sequences.sequence, d.sequences.ack, h, plan.clcDelta)))
              && (got == Some(Delivered(old(e.State()), packet)) ==>
                    InSync(e, d) && d.sequences.sequence == h.sequence && d.sequences.ack == h.ack
                      && d.sequences.initialized)
  {
    hide PlanOf, ParsePacket, Commit, H.AllBits, B.Stream, IsCompressedPacket, Carried, ExpandSequence, LongBytes,
         After, CompressedHeaderBytes, Operations, AllArrived, Arrivable, Tracked, H.Known, ReadRawHeader, WireWords,
         RawHeaderBytes;
    ghost var st := e.State();
    var wire := e.Encode(packet);
    ghost var plan, h, items := PlanOf(st, packet), ReadRawHeader(packet), [];
    if plan.None? {
      RawPacket(st, packet);
      NothingKnown(d.models);
    } else {
      items := plan.value.items;
      PlannedPacket(st, packet);
      assert wire == CompressedHeaderBytes(h.value, plan.value.clcDelta) + wire[6..];
      HeaderCarried(d.sequences.sequence, d.sequences.ack, h.value, plan.value.clcDelta, wire[6..]);
    }
    got := d.Decode(wire, items);
    if plan.Some? {
      ghost var rest := AllBytes(AllArrived(plan.value.setting, Operations(packet), h.value.ack));
      if !IsCompressedPacket(wire) {
        AllOnesIsNotDelivered(h.value, plan.value.clcDelta, wire[6..], rest);
      } else if got == Some(Delivered(st, packet)) {
        PrefixDiffers(old(d.ExpandedHeader(wire)), h.value, wire[4..6], got.value, rest);
      }
    }
  }

  /** A step of the link: a packet, the switch to compression, or player names
      learnt at both ends. */
  datatype Event = Send(packet: seq<u8>) | Enable | Learn(dictionary: Dictionary)

  predicate GoodDictionary(d: Dictionary) {
    d.WellFormed() && d.NulFree()
  }

  predicate GoodEvents(events: seq<Event>) {
    forall i :: 0 <= i < |events| && events[i].Learn? ==> GoodDictionary(events[i].dictionary)
  }

  /** The encoder before anything is sent. */
  function StartState(dictionary: Dictionary): EncoderState {
    EncoderState(dictionary, false, false, 0, EmptyHistory())
  }

  function StateAfter(dictionary: Dictionary, events: seq<Event>): (st: EncoderState)
    requires GoodDictionary(dictionary) && GoodEvents(events)
    ensures GoodDictionary(st.dictionary)
  {
    if events == [] then StartState(dictionary)
    else
      var n := |events| - 1;
      assert forall i :: 0 <= i < n ==> events[..n][i] == events[i];
      var before := StateAfter(dictionary, events[..n]);
      match events[n]
      case Send(packet) => AfterKeepsDictionary(before, packet); After(before, packet)
      case Enable => before.(enabled := true)
      case Learn(names) => before.(dictionary := names)
  }

  lemma AfterKeepsDictionary(st: EncoderState, packet: seq<u8>)
    requires st.dictionary.WellFormed()
    ensures After(st, packet).dictionary == st.dictionary
  {
  }

  /** The header of the last packet that had one. */
  function LastHeader(events: seq<Event>): Option<RawHeader> {
    if events == [] then None
    else
      var n := |events| - 1;
      if events[n].Send? && ReadRawHeader(events[n].packet).Some? then ReadRawHeader(events[n].packet)
      else LastHeader(events[..n])
  }

  /** Less than 8192 ahead, in the 31-bit range. */
  predicate Ahead(previous: u32, sequence: u32) {
    (sequence % 0x8000_0000 - previous % 0x8000_0000) % 0x8000_0000 < 0x2000
  }

  /** A packet that the encoder in state `st` leaves raw does not look compressed,
      and the header of one that it compresses is carried. */
  predicate Passes(last: Option<RawHeader>, st: EncoderState, packet: seq<u8>)
    requires st.dictionary.WellFormed()
  {
    match PlanOf(st, packet)
    case None => !IsCompressedPacket(packet)
    case Some(plan) =>
      last.Some? && ReadRawHeader(packet).Some?
      && Carried(last.value.sequence, last.value.ack, ReadRawHeader(packet).value, plan.clcDelta)
  }

  /** Sequence numbers and acknowledgements advance by less than 8192, bit 30 is
      clear, and the header does not look like a connectionless one. */
  predicate InOrder(last: Option<RawHeader>, packet: seq<u8>) {
    && !IsCompressedPacket(packet)
    && (ReadRawHeader(packet).Some? ==>
          var h := ReadRawHeader(packet).value;
          && !AllOnes(Header(h.sequence, h.ack, true))
          && (last.Some? ==> Ahead(last.value.sequence, h.sequence) && Ahead(last.value.ack, h.ack)))
  }

  /** Packets in order pass, whatever the encoder makes of them. */
  lemma InOrderPasses(last: Option<RawHeader>, st: EncoderState, packet: seq<u8>)
    requires InOrder(last, packet) && st.dictionary.WellFormed() && st.dictionary.NulFree()
              && (st.started ==> last.Some?)
    ensures Passes(last, st, packet)
  {
    hide PlanOf, Expandable, IsCompressedPacket, ReadRawHeader, Ahead;
    if PlanOf(st, packet).Some? {
      PlannedIsStarted(st, packet);
      var h := ReadRawHeader(packet).value;
      AheadIsCarried(last.value.sequence, h.sequence);
      AheadIsCarried(last.value.ack, h.ack);
    }
  }

  lemma PlannedIsStarted(st: EncoderState, packet: seq<u8>)
    requires st.dictionary.WellFormed() && st.dictionary.NulFree() && PlanOf(st, packet).Some?
    ensures st.started && ReadRawHeader(packet).Some?
  {
    PlannedPacket(st, packet);
  }

  lemma AheadIsCarried(previous: u32, sequence: u32)
    requires Ahead(previous, sequence)
    ensures Expandable(previous, sequence)
  {
    AheadIsExpandable(previous, sequence);
  }

  /** The decoder remembers the last header. */
  ghost predicate Remembers(d: D.Decoder, last: Option<RawHeader>)
    reads d, d.sequences
  {
    && (d.sequences.initialized <==> last.Some?)
    && (last.Some? ==> d.sequences.sequence == last.value.sequence && d.sequences.ack == last.value.ack)
  }

  /** One step of a link. */
  method Step(e: E.Encoder, d: D.Decoder, event: Event, ghost last: Option<RawHeader>) returns (got: seq<u8>)
    requires InSync(e, d) && Remembers(d, last) && (e.started ==> last.Some?)
    requires event.Send? ==> Passes(last, e.State(), event.packet)
    requires event.Learn? ==> GoodDictionary(event.dictionary)
    modifies e, d, d.sequences
    ensures InSync(e, d)
    ensures match event
            case Send(packet) =>
              && e.State() == After(old(e.State()), packet) && got == Delivered(old(e.State()), packet)
              && (if ReadRawHeader(packet).Some? then Remembers(d, ReadRawHeader(packet)) else Remembers(d, last))
              && (e.started ==> last.Some? || ReadRawHeader(packet).Some?)
            case Enable => got == [] && e.State() == old(e.State()).(enabled := true) && Remembers(d, last)
            case Learn(names) => got == [] && e.State() == old(e.State()).(dictionary := names) && Remembers(d, last)
  {
    hide PlanOf, After, AllArrived, Arrivable, Commit, IsCompressedPacket, Carried, ReadRawHeader;
    got := [];
    match event {
      case Enable => e.Enable();
      case Learn(names) => e.dictionary, d.dictionary := names, names;
      case Send(packet) =>
        ghost var st := e.State();
        if PlanOf(st, packet).Some? {
          PlannedPacket(st, packet);
        } else {
          RawPacket(st, packet);
        }
        var received := Transfer(e, d, packet);
        got := received.value;
    }
  }

  /** Every packet passes where it comes up. */
  predicate AllPass(dictionary: Dictionary, events: seq<Event>)
    requires GoodDictionary(dictionary) && GoodEvents(events)
  {
    forall i :: 0 <= i < |events| && events[i].Send? ==>
      (assert forall k :: 0 <= k < i ==> events[..i][k] == events[k];
       Passes(LastHeader(events[..i]), StateAfter(dictionary, events[..i]), events[i].packet))
  }

  predicate Ordered(events: seq<Event>) {
    forall i :: 0 <= i < |events| && events[i].Send? ==> InOrder(LastHeader(events[..i]), events[i].packet)
  }

  /** The encoder has started exactly when a packet with a header has been sent. */
  lemma {:induction false} StartedByHeader(dictionary: Dictionary, events: seq<Event>, i: nat)
    requires GoodDictionary(dictionary) && GoodEvents(events) && i <= |events|
    ensures GoodEvents(events[..i])
    ensures StateAfter(dictionary, events[..i]).started ==> LastHeader(events[..i]).Some?
  {
    assert forall k :: 0 <= k < i ==> events[..i][k] == events[k];
    if i > 0 {
      StartedByHeader(dictionary, events, i - 1);
      NextState(dictionary, events, i - 1);
      if events[i - 1].Send? {
        StartsWithHeader(StateAfter(dictionary, events[..i - 1]), events[i - 1].packet);
      }
      hide StateAfter, LastHeader, After, ReadRawHeader, GoodEvents;
    }
  }

  lemma StartsWithHeader(st: EncoderState, packet: seq<u8>)
    requires st.dictionary.WellFormed()
    ensures After(st, packet).started ==> st.started || ReadRawHeader(packet).Some?
  {
  }

  /** In a stream in order all packets pass. */
  lemma OrderedPasses(dictionary: Dictionary, events: seq<Event>)
    requires GoodDictionary(dictionary) && GoodEvents(events) && Ordered(events)
    ensures AllPass(dictionary, events)
  {
    hide StateAfter, LastHeader, Passes, InOrder;
    forall i | 0 <= i < |events| && events[i].Send?
      ensures GoodEvents(events[..i])
              && Passes(LastHeader(events[..i]), StateAfter(dictionary, events[..i]), events[i].packet)
    {
      StartedByHeader(dictionary, events, i);
      assert InOrder(LastHeader(events[..i]), events[i].packet);
      InOrderPasses(LastHeader(events[..i]), StateAfter(dictionary, events[..i]), events[i].packet);
    }
  }

  /** What a link that starts with this dictionary delivers at step `i`. */
  function DeliveredAt(dictionary: Dictionary, events: seq<Event>, i: nat): seq<u8>
    requires GoodDictionary(dictionary) && GoodEvents(events) && i < |events|
  {
    assert forall k :: 0 <= k < i ==> events[..i][k] == events[k];
    if events[i].Send? then Delivered(StateAfter(dictionary, events[..i]), events[i].packet) else []
  }

  lemma NextState(dictionary: Dictionary, events: seq<Event>, i: nat)
    requires GoodDictionary(dictionary) && GoodEvents(events) && i < |events|
    ensures GoodEvents(events[..i]) && GoodEvents(events[..i + 1])
    ensures var st, next := StateAfter(dictionary, events[..i]), StateAfter(dictionary, events[..i + 1]);
            match events[i]
            case Send(packet) => next == After(st, packet)
            case Enable => next == st.(enabled := true)
            case Learn(names) => next == st.(dictionary := names)
    ensures LastHeader(events[..i + 1])
            == (if events[i].Send? && ReadRawHeader(events[i].packet).Some? then ReadRawHeader(events[i].packet)
                else LastHeader(events[..i]))
  {
    hide After, ReadRawHeader;
    assert forall k :: 0 <= k < i ==> events[..i][k] == events[k];
    assert forall k :: 0 <= k <= i ==> events[..i + 1][k] == events[k];
    assert events[..i + 1][..i] == events[..i];
  }

  /** Both ends after the first `i` steps. */
  ghost predicate Linked(e: E.Encoder, d: D.Decoder, dictionary: Dictionary, events: seq<Event>, i: nat)
    requires GoodDictionary(dictionary) && GoodEvents(events) && i <= |events|
    reads e, d, d.sequences, e.models, d.models, set m | m in e.models :: m.trie, set m | m in d.models :: m.trie
  {
    assert forall k :: 0 <= k < i ==> events[..i][k] == events[k];
    && InSync(e, d) && Remembers(d, LastHeader(events[..i])) && (e.started ==> LastHeader(events[..i]).Some?)
    && e.State() == StateAfter(dictionary, events[..i])
  }

  method StepAt(e: E.Encoder, d: D.Decoder, dictionary: Dictionary, events: seq<Event>, i: nat) returns (got: seq<u8>)
    requires GoodDictionary(dictionary) && GoodEvents(events) && AllPass(dictionary, events) && i < |events|
    requires Linked(e, d, dictionary, events, i)
    modifies e, d, d.sequences
    ensures Linked(e, d, dictionary, events, i + 1) && got == DeliveredAt(dictionary, events, i)
  {
    hide StateAfter, After, LastHeader, ReadRawHeader, Passes, InSync, Delivered, GoodDictionary;
    NextState(dictionary, events, i);
    got := Step(e, d, events[i], LastHeader(events[..i]));
  }

  /** All steps, one after the other. */
  method DeliverAll(e: E.Encoder, d: D.Decoder, dictionary: Dictionary, events: seq<Event>) returns (got: seq<seq<u8>>)
    requires GoodDictionary(dictionary) && GoodEvents(events) && AllPass(dictionary, events)
    requires Linked(e, d, dictionary, events, 0)
    modifies e, d, d.sequences
    ensures Linked(e, d, dictionary, events, |events|)
    ensures |got| == |events| && forall i :: 0 <= i < |events| ==> got[i] == DeliveredAt(dictionary, events, i)
  {
    hide GoodDictionary, GoodEvents, AllPass, Linked, DeliveredAt;
    got := [];
    for i := 0 to |events|
      invariant |got| == i && Linked(e, d, dictionary, events, i)
      invariant forall k :: 0 <= k < i ==> got[k] == DeliveredAt(dictionary, events, k)
    {
      var received := StepAt(e, d, dictionary, events, i);
      got := got + [received];
    }
  }

  /** A whole stream of packets, some raw and some compressed: when all of them pass,
      everything is delivered, and both histories are equal at the end. */
  method Run(rows: seq<seq<u32>>, dictionary: Dictionary, events: seq<Event>)
    returns (got: seq<seq<u8>>, e: E.Encoder, d: D.Decoder)
    requires |rows| == MODELS && forall i :: 0 <= i < |rows| ==> H.UsableRow(rows[i])
    requires GoodDictionary(dictionary) && GoodEvents(events) && AllPass(dictionary, events)
    ensures |got| == |events| && forall i :: 0 <= i < |events| ==> got[i] == DeliveredAt(dictionary, events, i)
    ensures e.moves == d.moves && e.State() == StateAfter(dictionary, events)
  {
    hide H.UsableRow, GoodDictionary, GoodEvents, AllPass, Linked, DeliveredAt, E.Encoder.State, StateAfter;
    e, d := Connect(rows, dictionary);
    Beginning(e, d, dictionary, events);
    got := DeliverAll(e, d, dictionary, events);
    Ending(e, d, dictionary, events);
  }

  lemma Ending(e: E.Encoder, d: D.Decoder, dictionary: Dictionary, events: seq<Event>)
    requires GoodDictionary(dictionary) && GoodEvents(events) && Linked(e, d, dictionary, events, |events|)
    ensures e.moves == d.moves && e.State() == StateAfter(dictionary, events)
  {
    assert events[..|events|] == events;
  }

  /** Two fresh ends with the same tables and dictionaries. */
  method Connect(rows: seq<seq<u32>>, dictionary: Dictionary) returns (e: E.Encoder, d: D.Decoder)
    requires |rows| == MODELS && forall i :: 0 <= i < |rows| ==> H.UsableRow(rows[i])
    requires GoodDictionary(dictionary)
    ensures fresh(e) && fresh(d) && fresh(d.sequences) && InSync(e, d) && Remembers(d, None)
    ensures e.State() == StartState(dictionary)
  {
    hide H.UsableRow;
    var models := BuildModels(rows);
    e := new E.Encoder(models, dictionary);
    d := new D.Decoder(models, dictionary);
  }

  lemma Beginning(e: E.Encoder, d: D.Decoder, dictionary: Dictionary, events: seq<Event>)
    requires GoodDictionary(dictionary) && GoodEvents(events)
    requires InSync(e, d) && Remembers(d, None) && e.State() == StartState(dictionary)
    ensures Linked(e, d, dictionary, events, 0)
  {
    hide InSync;
  }

  method BuildModels(rows: seq<seq<u32>>) returns (models: seq<H.Model>)
    requires |rows| == MODELS && forall i :: 0 <= i < |rows| ==> H.UsableRow(rows[i])
    ensures |models| == MODELS && H.AllValid(models)
    ensures forall m :: m in models ==> fresh(m) && fresh(m.trie)
  {
    hide H.UsableRow;
    models := [];
    for m := 0 to |rows|
      invariant |models| == m && H.AllValid(models)
      invariant forall k :: k in models ==> fresh(k) && fresh(k.trie)
    {
      var model := new H.Model(rows[m]);
      models := models + [model];
    }
  }
}
