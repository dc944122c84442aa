/** Every interleaving of the two sides of the ring behaves as a bounded first-in
    first-out queue of messages. */
module RingRuns {
  import opened Words
  import opened Ring

  datatype System = System(ring: Ring, prod: Producer, cons: Consumer)

  /** The scheduler's choice: the producer moves (with the data of the call it would
      begin), or the consumer moves. */
  datatype Choice = Producing(data: seq<u8>) | Consuming

  ghost predicate SystemOk(s: System) {
    WellFormed(s.ring) && ProducerOk(s.prod) && ConsumerOk(s.cons)
  }

  function Next(s: System, c: Choice): (res: (System, Event))
    requires SystemOk(s)
    ensures SystemOk(res.0)
  {
    match c
    case Producing(data) =>
      var (r, p, e) := Produce(s.ring, s.prod, data);
      (System(r, p, s.cons), e)
    case Consuming =>
      var (r, k, e) := Consume(s.ring, s.cons);
      (System(r, s.prod, k), e)
  }

  function Trace(s: System, schedule: seq<Choice>): seq<Event>
    requires SystemOk(s)
    decreases |schedule|
  {
    if schedule == [] then []
    else
      var (s', e) := Next(s, schedule[0]);
      [e] + Trace(s', schedule[1..])
  }

  function Final(s: System, schedule: seq<Choice>): (s': System)
    requires SystemOk(s)
    ensures SystemOk(s')
    decreases |schedule|
  {
    if schedule == [] then s else Final(Next(s, schedule[0]).0, schedule[1..])
  }

  /** An empty ring whose four indices all stand at `start`; `new` has `start == 0`,
      and a start near `2^64` makes every wrap reachable. */
  function Empty(queue: seq<Packet>, start: nat): System {
    System(Ring(queue, Wrap(start), Wrap(start), Wrap(start), Wrap(start)), SendIdle, RecvIdle)
  }

  function Initial(start: nat): (s: System)
    ensures SystemOk(s)
  {
    Empty(seq(CAPACITY, i => Packet(seq(MAX_PACKET_LEN, j => 0), 0)), start)
  }

  // ---- The abstract queue ----

  /** Pending messages and the data of the send call in progress, if any. */
  datatype Fifo = Fifo(pending: seq<seq<u8>>, calling: Option<seq<u8>>)

  ghost predicate FifoStep(q: Fifo, e: Event, q': Fifo) {
    match e
    case Internal => q' == q
    case SendCalled(data) => q.calling.None? && q' == q.(calling := Some(data))
    case Sent =>
      && |q.pending| < CAPACITY && q.calling.Some?
      && q' == Fifo(q.pending + [Truncated(q.calling.value)], None)
    case SendFull => |q.pending| == CAPACITY && q.calling.Some? && q' == q.(calling := None)
    case Received(pkt) => q.pending != [] && Holds(pkt, q.pending[0]) && q' == q.(pending := q.pending[1..])
    case RecvEmpty => q.pending == [] && q' == q
  }

  ghost predicate FifoAccepts(q: Fifo, events: seq<Event>)
    decreases |events|
  {
    events == [] || exists q' :: FifoStep(q, events[0], q') && FifoAccepts(q', events[1..])
  }

  // ---- The invariant ----

  /** What each program counter has already established, over the abstract indices
      and the call in progress. */
  ghost predicate Inv(s: System, a: Abs, calling: Option<seq<u8>>) {
    && SystemOk(s)
    && Represents(s.ring, a)
    && ProducerInv(s, a, calling)
    && ConsumerInv(s, a)
  }

  ghost predicate ProducerInv(s: System, a: Abs, calling: Option<seq<u8>>)
    requires WellFormed(s.ring)
  {
    var slot := s.ring.queue[a.tail % CAPACITY];
    match s.prod
    case SendIdle => calling.None?
    case SendLoadHead(tail, msg) =>
      tail == Wrap(a.tail) && calling.Some? && msg == Truncated(calling.value)
    case SendCopy(tail, msg, copied) =>
      && tail == Wrap(a.tail) && calling.Some? && msg == Truncated(calling.value)
      && a.tail < a.cachedHead + CAPACITY
      && copied <= |msg| && slot.data[..copied] == msg[..copied]
    case SendPublish(tail, msg) =>
      && tail == Wrap(a.tail) && calling.Some? && msg == Truncated(calling.value)
      && a.tail < a.cachedHead + CAPACITY && Holds(slot, msg)
  }

  ghost predicate ConsumerInv(s: System, a: Abs)
    requires WellFormed(s.ring)
  {
    var slot := s.ring.queue[a.head % CAPACITY];
    match s.cons
    case RecvIdle => true
    case RecvLoadTail(head) => head == Wrap(a.head)
    case RecvCopy(head, buf) => head == Wrap(a.head) && a.head < a.cachedTail && buf <= slot.data
    case RecvPublish(head, pkt) => head == Wrap(a.head) && a.head < a.cachedTail && pkt == slot
  }

  /** The slot the producer is filling is never one the consumer may read: neither
      the one under its head nor any other pending one. */
  lemma WriterAvoidsPending(s: System, a: Abs, calling: Option<seq<u8>>, i: nat)
    requires Inv(s, a, calling)
    requires s.prod.SendCopy? || s.prod.SendPublish?
    requires a.head <= i < a.tail
    ensures Slot(s.prod.tail) != Slot(Wrap(i))
  {
    SlotOfWrapped(a.tail);
    SlotOfWrapped(i);
    SlotsDistinct(i, a.tail);
  }

  lemma InitialInv(start: nat)
    ensures Inv(Initial(start), Abs(start, start, start, start, []), None)
  {
  }

  lemma ProducerStep(s: System, a: Abs, calling: Option<seq<u8>>, data: seq<u8>)
    returns (a': Abs, calling': Option<seq<u8>>)
    requires Inv(s, a, calling)
    ensures Inv(Next(s, Producing(data)).0, a', calling')
    ensures FifoStep(Fifo(a.pending, calling), Next(s, Producing(data)).1, Fifo(a'.pending, calling'))
    ensures a'.head == a.head && a'.cachedTail == a.cachedTail
    ensures a.tail <= a'.tail && a.cachedHead <= a'.cachedHead
  {
    hide Wrap, Slot;
    var (s', e) := Next(s, Producing(data));
    a', calling' := a, calling;
    WrappedTestsAreExact(s.ring, a);
    SlotOfWrapped(a.tail);
    match s.prod
    case SendIdle =>
      calling' := Some(data);
    case SendLoadHead(tail, msg) =>
      a' := a.(cachedHead := a.head);
      if e == SendFull {
        calling' := None;
      }
    case SendCopy(tail, msg, copied) =>
      var slot := a.tail % CAPACITY;
      FreeSlotUpdate(s.ring, a, s'.ring.queue[slot]);
      assert s'.ring.queue == s.ring.queue[slot := s'.ring.queue[slot]];
      ReadSlotStable(s, a, calling);
      var d, d' := s.ring.queue[slot].data, s'.ring.queue[slot].data;
      if copied < |msg| {
        assert d'[..copied + 1] == d[..copied] + [msg[copied]];
        assert msg[..copied + 1] == msg[..copied] + [msg[copied]];
      } else {
        assert msg[..copied] == msg;
      }
    case SendPublish(tail, msg) =>
      PublishTail(s.ring, a, msg);
      a' := a.(tail := a.tail + 1, pending := a.pending + [msg]);
      calling' := None;
  }

  /** While the producer writes, the slot under the consumer's head is another one. */
  lemma ReadSlotStable(s: System, a: Abs, calling: Option<seq<u8>>)
    requires Inv(s, a, calling) && a.tail < a.cachedHead + CAPACITY
    ensures s.cons.RecvCopy? || s.cons.RecvPublish? ==> a.head % CAPACITY != a.tail % CAPACITY
  {
    if a.head < a.cachedTail {
      SlotsDistinct(a.head, a.tail);
    }
  }

  lemma ConsumerStep(s: System, a: Abs, calling: Option<seq<u8>>) returns (a': Abs)
    requires Inv(s, a, calling)
    ensures Inv(Next(s, Consuming).0, a', calling)
    ensures FifoStep(Fifo(a.pending, calling), Next(s, Consuming).1, Fifo(a'.pending, calling))
    ensures a'.tail == a.tail && a'.cachedHead == a.cachedHead
    ensures a.head <= a'.head && a.cachedTail <= a'.cachedTail
  {
    hide Wrap, Slot;
    var (s', e) := Next(s, Consuming);
    a' := a;
    WrappedTestsAreExact(s.ring, a);
    SlotOfWrapped(a.head);
    match s.cons
    case RecvIdle =>
    case RecvLoadTail(head) =>
      a' := a.(cachedTail := a.tail);
    case RecvCopy(head, buf) =>
      if |buf| == MAX_PACKET_LEN {
        assert buf == s.ring.queue[a.head % CAPACITY].data;
      }
    case RecvPublish(head, pkt) =>
      PublishHead(s.ring, a);
      assert Holds(s.ring.queue[(a.head + 0) % CAPACITY], a.pending[0]);
      a' := a.(head := a.head + 1, pending := a.pending[1..]);
  }

  /** Every step keeps `cachedHead <= head <= cachedTail <= tail <= cachedHead + 16`
      with the 64-bit indices their truncations, moves no index back, and is a step
      of the queue. */
  lemma StepSimulates(s: System, a: Abs, calling: Option<seq<u8>>, c: Choice)
    returns (a': Abs, calling': Option<seq<u8>>)
    requires Inv(s, a, calling)
    ensures Inv(Next(s, c).0, a', calling')
    ensures FifoStep(Fifo(a.pending, calling), Next(s, c).1, Fifo(a'.pending, calling'))
    ensures a.cachedHead <= a'.cachedHead && a.head <= a'.head
    ensures a.cachedTail <= a'.cachedTail && a.tail <= a'.tail
    ensures a'.cachedHead <= a'.head <= a'.cachedTail <= a'.tail <= a'.head + CAPACITY
  {
    match c
    case Producing(data) => a', calling' := ProducerStep(s, a, calling, data);
    case Consuming =>
      a' := ConsumerStep(s, a, calling);
      calling' := calling;
  }

  // ---- Whole runs ----

  lemma {:induction false} RunRefines(s: System, a: Abs, calling: Option<seq<u8>>, schedule: seq<Choice>)
    returns (a': Abs, calling': Option<seq<u8>>)
    requires Inv(s, a, calling)
    ensures Inv(Final(s, schedule), a', calling')
    ensures FifoAccepts(Fifo(a.pending, calling), Trace(s, schedule))
    decreases |schedule|
  {
    if schedule == [] {
      a', calling' := a, calling;
    } else {
      var a1, calling1 := StepSimulates(s, a, calling, schedule[0]);
      var (s1, e) := Next(s, schedule[0]);
      a', calling' := RunRefines(s1, a1, calling1, schedule[1..]);
      var t := Trace(s, schedule);
      assert t[0] == e && t[1..] == Trace(s1, schedule[1..]);
      assert FifoStep(Fifo(a.pending, calling), t[0], Fifo(a1.pending, calling1));
      assert FifoAccepts(Fifo(a1.pending, calling1), t[1..]);
    }
  }

  /** Every interleaving of `send` and `recv` steps, from an empty ring at any index,
      produces a history of the sixteen-place queue: a send fails only while sixteen
      messages are pending, a receive comes back empty only while none is. */
  lemma RingRefinesFifo(start: nat, schedule: seq<Choice>)
    ensures FifoAccepts(Fifo([], None), Trace(Initial(start), schedule))
  {
    InitialInv(start);
    var a, calling := RunRefines(Initial(start), Abs(start, start, start, start, []), None, schedule);
  }

  /** The data of the calls that returned true, cut to a packet, in order. */
  function SentOf(calling: Option<seq<u8>>, events: seq<Event>): seq<seq<u8>>
    decreases |events|
  {
    if events == [] then []
    else
      match events[0]
      case SendCalled(data) => SentOf(Some(data), events[1..])
      case Sent => (if calling.Some? then [Truncated(calling.value)] else []) + SentOf(None, events[1..])
      case SendFull => SentOf(None, events[1..])
      case _ => SentOf(calling, events[1..])
  }

  function ReceivedOf(events: seq<Event>): seq<Packet> {
    if events == [] then []
    else (if events[0].Received? then [events[0].pkt] else []) + ReceivedOf(events[1..])
  }

  lemma {:induction false} AcceptedIsPrefix(q: Fifo, events: seq<Event>)
    requires FifoAccepts(q, events)
    ensures |ReceivedOf(events)| <= |q.pending + SentOf(q.calling, events)|
    ensures forall i :: 0 <= i < |ReceivedOf(events)| ==>
              Holds(ReceivedOf(events)[i], (q.pending + SentOf(q.calling, events))[i])
    decreases |events|
  {
    if events != [] {
      var q' :| FifoStep(q, events[0], q') && FifoAccepts(q', events[1..]);
      AcceptedIsPrefix(q', events[1..]);
      var sent' := SentOf(q'.calling, events[1..]);
      if events[0].Sent? {
        assert q.pending + ([Truncated(q.calling.value)] + sent') == q'.pending + sent';
      } else if events[0].Received? {
        assert q.pending + sent' == [q.pending[0]] + (q'.pending + sent');
      }
    }
  }

  /** In every run the packets received so far carry, in order, the first messages
      sent, each the first `min(len, 1518)` bytes of its caller's data. */
  lemma ReceivedIsPrefixOfSent(start: nat, schedule: seq<Choice>)
    ensures var t := Trace(Initial(start), schedule);
            && |ReceivedOf(t)| <= |SentOf(None, t)|
            && forall i :: 0 <= i < |ReceivedOf(t)| ==> Holds(ReceivedOf(t)[i], SentOf(None, t)[i])
  {
    RingRefinesFifo(start, schedule);
    var t := Trace(Initial(start), schedule);
    AcceptedIsPrefix(Fifo([], None), t);
    assert [] + SentOf(None, t) == SentOf(None, t);
  }

  /** The other half of the fullness and emptiness tests: when the index is loaded
      while the queue is full (or empty), the call reports it. */
  lemma LoadsDecideFullAndEmpty(s: System, a: Abs, calling: Option<seq<u8>>)
    requires Inv(s, a, calling)
    ensures s.prod.SendLoadHead? ==> (Next(s, Producing([])).1 == SendFull <==> |a.pending| == CAPACITY)
    ensures s.cons.RecvLoadTail? ==> (Next(s, Consuming).1 == RecvEmpty <==> a.pending == [])
  {
    WrappedTestsAreExact(s.ring, a);
  }
}
