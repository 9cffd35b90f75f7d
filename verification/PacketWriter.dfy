/** The held packet queue and its worker, one atomic section at a time. */
module PacketWriter {
  import opened Words

  /** `token` is the one element that the wake channel can hold. */
  datatype Queue = Queue(packets: seq<seq<u8>>, holdUntil: int, closed: bool, token: bool)

  const NEW_QUEUE: Queue := Queue([], 0, false, false)

  /** What `next` tells the worker. */
  datatype Next = Pop(packet: seq<u8>) | Wait(until: int) | Nothing | Closed

  function Held(q: Queue, now: int, delay: int): Queue {
    if delay <= 0 || q.closed || now + delay <= q.holdUntil then q else q.(holdUntil := now + delay)
  }

  function Enqueued(q: Queue, packet: seq<u8>): Queue {
    if q.closed then q else q.(packets := q.packets + [packet])
  }

  function NextOf(q: Queue, now: int): Next {
    if q.closed then Closed
    else if now < q.holdUntil then Wait(q.holdUntil)
    else if q.packets == [] then Nothing
    else Pop(q.packets[0])
  }

  function Popped(q: Queue, now: int): Queue {
    if NextOf(q, now).Pop? then q.(packets := q.packets[1..]) else q
  }

  function Idle(q: Queue, now: int): bool {
    q.closed || (q.packets == [] && q.holdUntil <= now)
  }

  /** The object that the sections change, each under its lock. */
  class Writer {
    var queue: seq<seq<u8>>
    var holdUntil: int
    var closed: bool
    var token: bool

    function State(): Queue
      reads this
    {
      Queue(queue, holdUntil, closed, token)
    }

    constructor ()
      ensures State() == NEW_QUEUE
    {
      queue, holdUntil, closed, token := [], 0, false, false;
    }

    /** Extends the hold, and never shortens it. */
    method HoldFor(now: int, delay: int)
      modifies `holdUntil
      ensures State() == Held(old(State()), now, delay)
      ensures holdUntil >= old(holdUntil) && (!closed && delay > 0 ==> holdUntil >= now + delay)
      ensures holdUntil == old(holdUntil) || (!closed && delay > 0 && holdUntil == now + delay)
    {
      if delay <= 0 {
        return;
      }
      if !closed {
        var until := now + delay;
        if until > holdUntil {
          holdUntil := until;
        }
      }
    }

    method Enqueue(packet: seq<u8>)
      modifies `queue
      ensures State() == Enqueued(old(State()), packet)
      ensures queue == (if closed then old(queue) else old(queue) + [packet])
    {
      if closed {
        return;
      }
      queue := queue + [packet];
    }

    /** Never blocks: a second token is not kept. */
    method Signal()
      modifies `token
      ensures State() == old(State()).(token := true)
    {
      token := true;
    }

    method TakeNext(now: int) returns (next: Next)
      modifies `queue
      ensures next == NextOf(old(State()), now) && State() == Popped(old(State()), now)
      ensures next.Pop? ==> !closed && holdUntil <= now && old(queue) == [next.packet] + queue
      ensures !next.Pop? ==> queue == old(queue) && (next == Closed <==> closed)
      ensures next.Wait? ==> now < next.until == holdUntil
      ensures next.Nothing? ==> holdUntil <= now && queue == []
    {
      if closed {
        return Closed;
      }
      if now < holdUntil {
        return Wait(holdUntil);
      }
      if queue == [] {
        return Nothing;
      }
      next := Pop(queue[0]);
      queue := queue[1..];
    }

    /** Closes an idle queue; nothing is dropped that way. */
    method CloseIfIdle(now: int) returns (done: bool)
      modifies `closed, `queue
      ensures done <==> Idle(old(State()), now)
      ensures done ==> closed && (!old(closed) ==> old(queue) == [])
      ensures !done ==> State() == old(State())
    {
      if closed {
        return true;
      }
      if queue != [] || now < holdUntil {
        return false;
      }
      closed, queue := true, [];
      done := true;
    }
  }

  // The client, its worker and all callers, as they interleave.

  /** Where the worker is. It is gone when there is no writer. */
  datatype Worker = Gone | AtNext | Writing(packet: seq<u8>) | AtIdle | Parked | Timed(until: int)

  /** The call that holds the client's lock over several sections, if any. */
  datatype Caller = Outside | Enqueuing(packet: seq<u8>) | Holding(delay: int) | Signalling

  /** A packet given to the client, and until when it was to be held. */
  datatype Accepted = Accepted(packet: seq<u8>, deadline: int)

  /** A packet handed to the peer, when, and whether the peer took it. A failure is
      reported, and the packet is not tried again. */
  datatype Delivered = Delivered(packet: seq<u8>, at: int, taken: bool)

  datatype System = System(now: int, writer: Option<Queue>, worker: Worker, caller: Caller,
                           accepted: seq<Accepted>, written: seq<Delivered>)

  datatype Action = Tick(duration: nat)
                  | Call(packet: seq<u8>, taken: bool) | Delay(delay: int) | Append | Hold | Signal
                  | Take | Write(taken: bool) | TryClose | Wake | Fire | WakeTimed

  predicate ByWorker(a: Action) {
    a.Take? || a.Write? || a.TryClose? || a.Wake? || a.Fire? || a.WakeTimed?
  }

  predicate Enabled(s: System, a: Action) {
    match a
    case Tick(_) => true
    case Call(_, _) => s.caller == Outside
    case Delay(_) => s.caller == Outside
    case Append => s.caller.Enqueuing? && s.writer.Some?
    case Hold => s.caller.Holding? && s.writer.Some?
    case Signal => s.caller == Signalling && s.writer.Some?
    case Take => s.worker == AtNext && s.writer.Some?
    case Write(_) => s.worker.Writing? && s.caller == Outside
    case TryClose => s.worker == AtIdle && s.caller == Outside && s.writer.Some?
    case Wake => s.worker == Parked && s.writer.Some? && s.writer.value.token
    case Fire => s.worker.Timed? && s.worker.until <= s.now
    case WakeTimed => s.worker.Timed? && s.writer.Some? && s.writer.value.token
  }

  function Later(a: int, b: int): int {
    if a < b then b else a
  }

  /** One section. A packet counts as accepted when its call gets the lock; whether
      the peer takes it matters when it is handed over at once. */
  function Perform(s: System, a: Action): System
    requires Enabled(s, a)
  {
    match a
    case Tick(duration) => s.(now := s.now + duration)
    case Call(packet, taken) =>
      (match s.writer
       case None =>
         s.(accepted := s.accepted + [Accepted(packet, s.now)],
            written := s.written + [Delivered(packet, s.now, taken)])
       case Some(q) =>
         s.(accepted := s.accepted + [Accepted(packet, Later(s.now, q.holdUntil))], caller := Enqueuing(packet)))
    case Delay(delay) =>
      if delay <= 0 then s
      else if s.writer.None? then s.(writer := Some(NEW_QUEUE), worker := AtNext, caller := Holding(delay))
      else s.(caller := Holding(delay))
    case Append => s.(writer := Some(Enqueued(s.writer.value, s.caller.packet)), caller := Signalling)
    case Hold => s.(writer := Some(Held(s.writer.value, s.now, s.caller.delay)), caller := Signalling)
    case Signal => s.(writer := Some(s.writer.value.(token := true)), caller := Outside)
    case Take =>
      var q := s.writer.value;
      (match NextOf(q, s.now)
       case Closed => s.(worker := Gone)
       case Wait(until) => s.(worker := Timed(until))
       case Nothing => s.(worker := AtIdle)
       case Pop(packet) => s.(writer := Some(Popped(q, s.now)), worker := Writing(packet)))
    case Write(taken) => s.(written := s.written + [Delivered(s.worker.packet, s.now, taken)], worker := AtNext)
    case TryClose =>
      if Idle(s.writer.value, s.now) then s.(writer := None, worker := Gone) else s.(worker := Parked)
    case Wake => s.(writer := Some(s.writer.value.(token := false)), worker := AtNext)
    case Fire => s.(worker := AtNext)
    case WakeTimed => s.(writer := Some(s.writer.value.(token := false)), worker := AtNext)
  }

  function AcceptedPackets(s: System): (packets: seq<seq<u8>>)
    ensures |packets| == |s.accepted|
  {
    seq(|s.accepted|, i requires 0 <= i < |s.accepted| => s.accepted[i].packet)
  }

  function WrittenPackets(s: System): (packets: seq<seq<u8>>)
    ensures |packets| == |s.written|
  {
    seq(|s.written|, i requires 0 <= i < |s.written| => s.written[i].packet)
  }

  function InFlight(s: System): seq<seq<u8>> {
    if s.worker.Writing? then [s.worker.packet] else []
  }

  function Waiting(s: System): seq<seq<u8>> {
    (if s.writer.Some? then s.writer.value.packets else [])
    + (if s.caller.Enqueuing? then [s.caller.packet] else [])
  }

  /** There is a worker exactly as long as there is a writer, which is open. */
  predicate Staffed(s: System) {
    && (s.writer.None? <==> s.worker == Gone)
    && (s.writer.None? ==> s.caller == Outside)
    && (s.writer.Some? ==> !s.writer.value.closed)
  }

  /** Every accepted packet is written, in flight or waiting, in this order. */
  predicate Conserved(s: System) {
    AcceptedPackets(s) == WrittenPackets(s) + InFlight(s) + Waiting(s)
  }

  /** No packet is written, or even taken, before its deadline; those that wait are
      covered by the current hold. */
  predicate Punctual(s: System) {
    && |s.written| + |InFlight(s)| <= |s.accepted|
    && (forall i :: 0 <= i < |s.written| ==> s.accepted[i].deadline <= s.written[i].at)
    && (s.worker.Writing? ==> s.accepted[|s.written|].deadline <= s.now)
    && (forall i :: |s.written| + |InFlight(s)| <= i < |s.accepted| ==>
          s.writer.Some? && s.accepted[i].deadline <= Later(s.now, s.writer.value.holdUntil))
  }

  /** A worker that parks has a wake-up on its way. */
  predicate Wakeable(s: System) {
    && (s.worker == Parked ==> s.writer.Some? && (s.writer.value.token || s.caller == Signalling))
    && (s.worker == AtIdle && s.writer.Some? && !Idle(s.writer.value, s.now) ==>
          s.writer.value.token || s.caller == Signalling)
    && (s.worker.Timed? ==> s.writer.Some? && s.worker.until <= s.writer.value.holdUntil)
  }

  predicate Inv(s: System) {
    Staffed(s) && Conserved(s) && Punctual(s) && Wakeable(s)
  }

  const INITIAL: System := System(0, None, Gone, Outside, [], [])

  lemma InitialInv()
    ensures Inv(INITIAL)
  {
  }

  lemma StepStaffed(s: System, a: Action)
    requires Enabled(s, a) && Staffed(s)
    ensures Staffed(Perform(s, a))
  {
  }

  lemma CallConserves(s: System, packet: seq<u8>, taken: bool)
    requires s.caller == Outside && Staffed(s) && Conserved(s)
    ensures Conserved(Perform(s, Call(packet, taken)))
  {
    var t := Perform(s, Call(packet, taken));
    assert AcceptedPackets(t) == AcceptedPackets(s) + [packet];
    if s.writer.None? {
      assert WrittenPackets(t) == WrittenPackets(s) + [packet];
    } else {
      assert WrittenPackets(t) == WrittenPackets(s) && Waiting(t) == Waiting(s) + [packet];
    }
  }

  lemma WriteConserves(s: System, taken: bool)
    requires Enabled(s, Write(taken)) && Conserved(s)
    ensures Conserved(Perform(s, Write(taken)))
  {
    var t := Perform(s, Write(taken));
    assert AcceptedPackets(t) == AcceptedPackets(s) && Waiting(t) == Waiting(s);
    assert WrittenPackets(t) == WrittenPackets(s) + InFlight(s) && InFlight(t) == [];
  }

  lemma StepConserved(s: System, a: Action)
    requires Enabled(s, a) && Staffed(s) && Conserved(s)
    ensures Conserved(Perform(s, a))
  {
    if a.Call? {
      CallConserves(s, a.packet, a.taken);
    } else if a.Write? {
      WriteConserves(s, a.taken);
    } else {
      StepMovesOne(s, a);
      hide InFlight, Waiting, Perform;
      SameLog(s, Perform(s, a));
    }
  }

  lemma SameLog(s: System, t: System)
    requires t.accepted == s.accepted && t.written == s.written && InFlight(t) + Waiting(t) == InFlight(s) + Waiting(s)
    ensures Conserved(s) ==> Conserved(t)
  {
    hide InFlight, Waiting;
    assert WrittenPackets(s) + InFlight(s) + Waiting(s) == WrittenPackets(s) + (InFlight(s) + Waiting(s));
    assert WrittenPackets(t) + InFlight(t) + Waiting(t) == WrittenPackets(t) + (InFlight(t) + Waiting(t));
  }

  /** Apart from accepting and writing, sections only move packets along. */
  lemma StepMovesOne(s: System, a: Action)
    requires Enabled(s, a) && Staffed(s) && !a.Call? && !a.Write?
    ensures var t := Perform(s, a);
            && t.accepted == s.accepted && t.written == s.written
            && InFlight(t) + Waiting(t) == InFlight(s) + Waiting(s)
  {
    if a.Take? {
      assert s.writer.value.packets != [] ==>
             s.writer.value.packets == [s.writer.value.packets[0]] + s.writer.value.packets[1..];
    }
  }

  lemma StepPunctual(s: System, a: Action)
    requires Enabled(s, a) && Staffed(s) && Conserved(s) && Punctual(s)
    ensures Punctual(Perform(s, a))
  {
    assert |s.accepted| == |s.written| + |InFlight(s)| + |Waiting(s)|;
  }

  lemma StepWakeable(s: System, a: Action)
    requires Enabled(s, a) && Staffed(s) && Wakeable(s)
    ensures Wakeable(Perform(s, a))
  {
  }

  /** No section ever moves a hold to an earlier time while the writer lasts, none takes
      a packet during a hold, and a call without a delay does nothing. */
  lemma HoldsOnlyGrow(s: System, a: Action)
    requires Enabled(s, a) && Inv(s)
    ensures var t := Perform(s, a);
            && (s.writer.Some? && t.writer.Some? ==> s.writer.value.holdUntil <= t.writer.value.holdUntil)
            && (s.writer.Some? && t.writer.None? ==> s.writer.value.holdUntil <= s.now && Waiting(s) == [])
            && (t.worker.Writing? && !s.worker.Writing? ==> s.writer.value.holdUntil <= s.now)
            && (a.Delay? && a.delay <= 0 ==> t == s)
  {
  }

  lemma StepKeepsInv(s: System, a: Action)
    requires Enabled(s, a) && Inv(s)
    ensures Inv(Perform(s, a))
  {
    StepStaffed(s, a);
    StepConserved(s, a);
    StepPunctual(s, a);
    StepWakeable(s, a);
  }

  predicate Possible(s: System, actions: seq<Action>)
    decreases |actions|
  {
    actions == [] || (Enabled(s, actions[0]) && Possible(Perform(s, actions[0]), actions[1..]))
  }

  function After(s: System, actions: seq<Action>): System
    requires Possible(s, actions)
    decreases |actions|
  {
    if actions == [] then s else After(Perform(s, actions[0]), actions[1..])
  }

  lemma {:induction false} RunKeepsInv(s: System, actions: seq<Action>)
    requires Possible(s, actions) && Inv(s)
    ensures Inv(After(s, actions))
    decreases |actions|
  {
    if actions != [] {
      StepKeepsInv(s, actions[0]);
      RunKeepsInv(Perform(s, actions[0]), actions[1..]);
    }
  }

  lemma InvMeans(s: System)
    requires Inv(s)
    ensures WrittenPackets(s) <= AcceptedPackets(s)
    ensures s.writer.None? ==> WrittenPackets(s) == AcceptedPackets(s)
  {
    assert WrittenPackets(s) + InFlight(s) + Waiting(s) == WrittenPackets(s) + (InFlight(s) + Waiting(s));
  }

  /** What reached the peer. */
  function Reached(written: seq<Delivered>): seq<seq<u8>> {
    if written == [] then []
    else
      var n := |written| - 1;
      Reached(written[..n]) + (if written[n].taken then [written[n].packet] else [])
  }

  /** Some of the packets, in the same order and each at most once. */
  predicate Subsequence(part: seq<seq<u8>>, whole: seq<seq<u8>>)
    decreases |whole|
  {
    if whole == [] then part == []
    else
      var n := |whole| - 1;
      Subsequence(part, whole[..n])
      || (part != [] && part[|part| - 1] == whole[n] && Subsequence(part[..|part| - 1], whole[..n]))
  }

  lemma {:induction false} ReachedIsSubsequence(s: System, count: nat)
    requires count <= |s.written|
    ensures Subsequence(Reached(s.written[..count]), WrittenPackets(s)[..count])
    ensures (forall i :: 0 <= i < count ==> s.written[i].taken) ==>
              Reached(s.written[..count]) == WrittenPackets(s)[..count]
  {
    if count > 0 {
      ReachedIsSubsequence(s, count - 1);
      assert s.written[..count][..count - 1] == s.written[..count - 1];
      assert WrittenPackets(s)[..count][..count - 1] == WrittenPackets(s)[..count - 1];
      var part := Reached(s.written[..count]);
      if s.written[count - 1].taken {
        assert part[..|part| - 1] == Reached(s.written[..count - 1]);
      } else {
        assert part == Reached(s.written[..count - 1]);
      }
    }
  }

  lemma {:induction false} SubsequenceOfMore(part: seq<seq<u8>>, whole: seq<seq<u8>>, count: nat)
    requires count <= |whole| && Subsequence(part, whole[..count])
    ensures Subsequence(part, whole)
    decreases |whole|
  {
    if count == |whole| {
      assert whole[..count] == whole;
    } else {
      var n := |whole| - 1;
      assert whole[..n][..count] == whole[..count];
      SubsequenceOfMore(part, whole[..n], count);
    }
  }

  lemma ReachedMeans(s: System)
    requires WrittenPackets(s) <= AcceptedPackets(s)
    ensures Subsequence(Reached(s.written), AcceptedPackets(s))
    ensures (forall i :: 0 <= i < |s.written| ==> s.written[i].taken) ==> Reached(s.written) == WrittenPackets(s)
  {
    var count := |s.written|;
    ReachedIsSubsequence(s, count);
    assert s.written[..count] == s.written
           && WrittenPackets(s)[..count] == WrittenPackets(s) == AcceptedPackets(s)[..count];
    SubsequenceOfMore(Reached(s.written), AcceptedPackets(s), count);
  }

  /** Over every interleaving: what is written is a prefix of what was accepted, in
      the same order and each packet once, and all of it while there is no writer;
      nothing is written before its deadline; a parked worker has a wake-up on its
      way; and the peer gets those it takes, in call order and each at most once. */
  lemma WrittenInOrder(actions: seq<Action>)
    requires Possible(INITIAL, actions)
    ensures var s := After(INITIAL, actions);
            && WrittenPackets(s) <= AcceptedPackets(s)
            && (s.writer.None? ==> WrittenPackets(s) == AcceptedPackets(s))
            && Punctual(s) && Wakeable(s)
            && Subsequence(Reached(s.written), AcceptedPackets(s))
            && ((forall i :: 0 <= i < |s.written| ==> s.written[i].taken) ==> Reached(s.written) == WrittenPackets(s))
  {
    hide Possible, After, Staffed, Conserved, Punctual, Wakeable;
    InitialInv();
    RunKeepsInv(INITIAL, actions);
    InvMeans(After(INITIAL, actions));
    ReachedMeans(After(INITIAL, actions));
  }

  /** The hold is in force until `deadline`, or that time has come. */
  predicate HeldUntil(s: System, deadline: int) {
    deadline <= s.now || (s.writer.Some? && deadline <= s.writer.value.holdUntil)
  }

  lemma StepHeldUntil(s: System, a: Action, deadline: int)
    requires Enabled(s, a) && Inv(s) && HeldUntil(s, deadline)
    ensures var t := Perform(s, a);
            && HeldUntil(t, deadline) && |s.accepted| <= |t.accepted| && t.accepted[..|s.accepted|] == s.accepted
            && (forall i :: |s.accepted| <= i < |t.accepted| ==> deadline <= t.accepted[i].deadline)
  {
    HoldsOnlyGrow(s, a);
  }

  /** While a hold is in force, no packet accepted later is written before it ends,
      whatever happens in between. */
  lemma {:induction false} HoldIsKept(s: System, actions: seq<Action>, deadline: int)
    requires Possible(s, actions) && Inv(s) && HeldUntil(s, deadline)
    ensures var t := After(s, actions);
            && |s.accepted| <= |t.accepted| && t.accepted[..|s.accepted|] == s.accepted
            && (forall i :: |s.accepted| <= i < |t.accepted| ==> deadline <= t.accepted[i].deadline)
            && (forall i :: |s.accepted| <= i < |t.written| ==> deadline <= t.written[i].at)
    decreases |actions|
  {
    if actions != [] {
      var next := Perform(s, actions[0]);
      StepHeldUntil(s, actions[0], deadline);
      StepKeepsInv(s, actions[0]);
      hide Inv;
      HoldIsKept(next, actions[1..], deadline);
      var t := After(s, actions);
      assert t.accepted[..|s.accepted|] == t.accepted[..|next.accepted|][..|s.accepted|];
      forall i | |s.accepted| <= i < |t.accepted|
        ensures deadline <= t.accepted[i].deadline
      {
        if i < |next.accepted| {
          assert t.accepted[i] == t.accepted[..|next.accepted|][i];
        }
      }
      RunKeepsInv(s, actions);
      WrittenLate(t, |s.accepted|, deadline);
    } else {
      WrittenLate(s, |s.accepted|, deadline);
    }
  }

  lemma WrittenLate(t: System, from: nat, deadline: int)
    requires Inv(t) && forall i :: from <= i < |t.accepted| ==> deadline <= t.accepted[i].deadline
    ensures forall i :: from <= i < |t.written| ==> deadline <= t.written[i].at
  {
  }

  /** The section that ends a delay call puts the hold in force. */
  lemma HoldTakesEffect(s: System)
    requires Enabled(s, Hold) && Inv(s)
    ensures HeldUntil(Perform(s, Hold), s.now + s.caller.delay)
  {
  }

  lemma {:induction false} SplitRun(s: System, first: seq<Action>, second: seq<Action>)
    requires Possible(s, first + second)
    ensures Possible(s, first) && Possible(After(s, first), second)
    ensures After(s, first + second) == After(After(s, first), second)
    decreases |first|
  {
    if first == [] {
      assert first + second == second;
    } else {
      assert (first + second)[1..] == first[1..] + second;
      SplitRun(Perform(s, first[0]), first[1..], second);
    }
  }

  /** A delay call keeps the lock until its hold is set, so that nothing is accepted
      meanwhile. */
  lemma {:induction false} StillHolding(s: System, actions: seq<Action>)
    requires Possible(s, actions) && s.caller.Holding? && Hold !in actions
    ensures var t := After(s, actions);
            t.caller == s.caller && t.accepted == s.accepted && s.now <= t.now
    decreases |actions|
  {
    if actions != [] {
      assert actions[0] != Hold;
      StillHolding(Perform(s, actions[0]), actions[1..]);
    }
  }

  /** A call of `DelayCLCFor`: whatever else happens before and after it sets the
      hold, no packet accepted after the call began is written before the delay has
      elapsed since then. */
  lemma DelayIsKept(s: System, delay: int, before: seq<Action>, actions: seq<Action>)
    requires Inv(s) && delay > 0 && Hold !in before
    requires Possible(s, [Delay(delay)] + (before + ([Hold] + actions)))
    ensures var t := After(s, [Delay(delay)] + (before + ([Hold] + actions)));
            && |s.accepted| <= |t.accepted| && t.accepted[..|s.accepted|] == s.accepted
            && (forall i :: |s.accepted| <= i < |t.accepted| ==> s.now + delay <= t.accepted[i].deadline)
            && (forall i :: |s.accepted| <= i < |t.written| ==> s.now + delay <= t.written[i].at)
  {
    var later := [Hold] + actions;
    SplitRun(s, [Delay(delay)], before + later);
    assert [Delay(delay)][1..] == [] && later[1..] == actions;
    var began := Perform(s, Delay(delay));
    assert After(s, [Delay(delay)]) == began;
    SplitRun(began, before, later);
    StillHolding(began, before);
    var holding := After(began, before);
    StepKeepsInv(s, Delay(delay));
    RunKeepsInv(began, before);
    hide Inv, HeldUntil;
    HoldTakesEffect(holding);
    StepKeepsInv(holding, Hold);
    HoldIsKept(Perform(holding, Hold), actions, holding.now + delay);
  }

  /** How many sections the worker still needs when nobody calls any more. */
  function Remaining(s: System): nat {
    if s.writer.None? then 0
    else 5 * |s.writer.value.packets| + (if s.writer.value.token then 4 else 0)
         + match s.worker
           case Gone => 0
           case Parked => 0
           case AtIdle => 1
           case AtNext => 2
           case Writing(_) => 3
           case Timed(_) => 3
  }

  /** The section that the worker performs next. */
  function WorkerAction(s: System, taken: bool): (a: Action)
    requires s.worker != Gone
    ensures ByWorker(a)
  {
    match s.worker
    case AtNext => Take
    case Writing(_) => Write(taken)
    case AtIdle => TryClose
    case Parked => Wake
    case Timed(_) => Fire
  }

  lemma WorkerAdvances(s: System, taken: bool)
    requires Inv(s) && s.caller == Outside && s.writer.Some? && s.writer.value.holdUntil <= s.now
    ensures s.worker != Gone && Enabled(s, WorkerAction(s, taken))
    ensures var t := Perform(s, WorkerAction(s, taken));
            && Remaining(t) < Remaining(s) && t.caller == Outside && t.accepted == s.accepted && t.now == s.now
            && (t.writer.Some? ==> t.writer.value.holdUntil <= t.now)
  {
  }

  /** Nothing gets stuck, whether or not the peer takes its packets: once the hold is
      over and no call is under way, the worker alone hands over everything that was
      accepted and then goes. */
  lemma {:induction false} Drains(s: System, taken: bool) returns (actions: seq<Action>)
    requires Inv(s) && s.caller == Outside && (s.writer.Some? ==> s.writer.value.holdUntil <= s.now)
    ensures Possible(s, actions) && forall i :: 0 <= i < |actions| ==> ByWorker(actions[i])
    ensures var t := After(s, actions);
            t.worker == Gone && t.accepted == s.accepted && t.now == s.now && WrittenPackets(t) == AcceptedPackets(s)
    decreases Remaining(s)
  {
    if s.writer.None? {
      actions := [];
      assert WrittenPackets(s) + InFlight(s) + Waiting(s) == WrittenPackets(s);
    } else {
      WorkerAdvances(s, taken);
      StepKeepsInv(s, WorkerAction(s, taken));
      var later := Drains(Perform(s, WorkerAction(s, taken)), taken);
      actions := [WorkerAction(s, taken)] + later;
      assert actions[1..] == later;
    }
  }

  /** The times until which the calls of a run ask to hold. */
  function Asked(s: System, actions: seq<Action>): set<int>
    requires Possible(s, actions)
    decreases |actions|
  {
    if actions == [] then {}
    else
      (if actions[0].Hold? then {s.now + s.caller.delay} else {}) + Asked(Perform(s, actions[0]), actions[1..])
  }

  predicate AskedOr(q: Option<Queue>, asked: set<int>, until: int) {
    q.Some? ==> q.value.holdUntil in asked || q.value.holdUntil == until
  }

  /** A hold ends when some call asked it to, however many calls there were. */
  lemma {:induction false} HoldWasAsked(s: System, actions: seq<Action>)
    requires Possible(s, actions)
    ensures var t := After(s, actions);
            AskedOr(t.writer, Asked(s, actions) + {0}, if s.writer.Some? then s.writer.value.holdUntil else 0)
    decreases |actions|
  {
    if actions != [] {
      var next := Perform(s, actions[0]);
      HoldWasAsked(next, actions[1..]);
      StepHold(s, actions[0]);
    }
  }

  lemma StepHold(s: System, a: Action)
    requires Enabled(s, a)
    ensures var t := Perform(s, a);
            AskedOr(t.writer, if a.Hold? then {s.now + s.caller.delay} else {},
                    if s.writer.Some? then s.writer.value.holdUntil else 0)
  {
  }

  /** The hold in force, if there is one. */
  function HeldTo(s: System): int {
    if s.writer.Some? then Later(s.now, s.writer.value.holdUntil) else s.now
  }

  /** Once the time of the hold has passed, the worker hands over everything, and this
      takes no further time. */
  lemma DrainsAfterHold(s: System, taken: bool) returns (actions: seq<Action>)
    requires Inv(s) && s.caller == Outside
    ensures actions != [] && actions[0] == Tick(HeldTo(s) - s.now)
    ensures Possible(s, actions) && forall i :: 1 <= i < |actions| ==> ByWorker(actions[i])
    ensures var t := After(s, actions);
            t.worker == Gone && t.now == HeldTo(s) && WrittenPackets(t) == AcceptedPackets(s)
  {
    var tick := Tick(HeldTo(s) - s.now);
    StepKeepsInv(s, tick);
    var later := Drains(Perform(s, tick), taken);
    actions := [tick] + later;
    assert actions[1..] == later;
    assert AcceptedPackets(Perform(s, tick)) == AcceptedPackets(s);
  }

  /** From every reachable state: when nobody calls any more, everything accepted is
      handed over at once or at a time that some call asked for, and not later. */
  lemma NoLongerThanAsked(actions: seq<Action>, taken: bool) returns (more: seq<Action>)
    requires Possible(INITIAL, actions) && After(INITIAL, actions).caller == Outside
    ensures Possible(After(INITIAL, actions), more)
    ensures var s := After(INITIAL, actions);
            var t := After(s, more);
            && t.worker == Gone && WrittenPackets(t) == AcceptedPackets(s)
            && (t.now == s.now || t.now in Asked(INITIAL, actions))
  {
    hide Possible, After, Inv, Asked;
    var s := After(INITIAL, actions);
    InitialInv();
    RunKeepsInv(INITIAL, actions);
    more := DrainsAfterHold(s, taken);
    HoldWasAsked(INITIAL, actions);
    TimeOnlyGrows(INITIAL, actions);
  }

  lemma {:induction false} TimeOnlyGrows(s: System, actions: seq<Action>)
    requires Possible(s, actions)
    ensures s.now <= After(s, actions).now
    decreases |actions|
  {
    if actions != [] {
      TimeOnlyGrows(Perform(s, actions[0]), actions[1..]);
    }
  }

  function Token(s: System): nat {
    if s.writer.Some? && s.writer.value.token then 1 else 0
  }

  function Signals(actions: seq<Action>): nat {
    if actions == [] then 0 else (if actions[0].Signal? then 1 else 0) + Signals(actions[1..])
  }

  function Wakes(actions: seq<Action>): nat {
    if actions == [] then 0 else (if actions[0].Wake? || actions[0].WakeTimed? then 1 else 0) + Wakes(actions[1..])
  }

  /** The worker is not woken more often than it is signalled: during a hold it sleeps. */
  lemma {:induction false} WakesAreSignalled(s: System, actions: seq<Action>)
    requires Possible(s, actions)
    ensures Wakes(actions) + Token(After(s, actions)) <= Signals(actions) + Token(s)
    decreases |actions|
  {
    if actions != [] {
      WakesAreSignalled(Perform(s, actions[0]), actions[1..]);
    }
  }
}
