/** The single-producer single-consumer ring of `channel.rs`.

    `Produce` and `Consume` are the two sides of the ring as program-counter steps:
    each step makes at most one access to shared memory, and the packet copies go
    byte by byte. `SendAll` and `RecvAll` are the same two operations carried out
    without interruption. */
module Ring {
  import opened Words
  import Bits

  const CAPACITY: nat := 16
  const MASK: nat := 15
  const MAX_PACKET_LEN: nat := 1518

  datatype Packet = Packet(data: seq<u8>, len: nat)

  /** The fields of `UnidirectionalChannel`; `tail` and `cachedHead` are written by
      the producer only, `head` and `cachedTail` by the consumer only. */
  datatype Ring = Ring(queue: seq<Packet>, tail: u64, cachedHead: u64, head: u64, cachedTail: u64)

  ghost predicate WellFormed(r: Ring) {
    && |r.queue| == CAPACITY
    && forall i :: 0 <= i < CAPACITY ==> |r.queue[i].data| == MAX_PACKET_LEN
  }

  /** The slot of an index: `idx & CHANNEL_QUEUE_MASK`. */
  function Slot(index: u64): (s: nat)
    ensures s == index % CAPACITY
  {
    assert Bits.And(index, 15) == index % 16 by {
      Bits.AndLowMask(index, 4);
      Bits.Powers();
    }
    Bits.And(index, MASK)
  }

  function Truncated(data: seq<u8>): (msg: seq<u8>)
    ensures |msg| <= MAX_PACKET_LEN && msg <= data
    ensures |msg| == |data| || |msg| == MAX_PACKET_LEN
  {
    if |data| <= MAX_PACKET_LEN then data else data[..MAX_PACKET_LEN]
  }

  // ---- Program-counter steps ----

  datatype Producer =
    | SendIdle
    | SendLoadHead(tail: u64, msg: seq<u8>)
    | SendCopy(tail: u64, msg: seq<u8>, copied: nat)
    | SendPublish(tail: u64, msg: seq<u8>)

  datatype Consumer =
    | RecvIdle
    | RecvLoadTail(head: u64)
    | RecvCopy(head: u64, buf: seq<u8>)
    | RecvPublish(head: u64, pkt: Packet)

  /** What a step lets its caller see. */
  datatype Event =
    | Internal
    | SendCalled(data: seq<u8>)
    | Sent
    | SendFull
    | Received(pkt: Packet)
    | RecvEmpty

  function SetByte(r: Ring, slot: nat, k: nat, b: u8): (r': Ring)
    requires WellFormed(r) && slot < CAPACITY && k < MAX_PACKET_LEN
    ensures WellFormed(r')
  {
    r.(queue := r.queue[slot := r.queue[slot].(data := r.queue[slot].data[k := b])])
  }

  function SetLen(r: Ring, slot: nat, len: nat): (r': Ring)
    requires WellFormed(r) && slot < CAPACITY
    ensures WellFormed(r')
  {
    r.(queue := r.queue[slot := r.queue[slot].(len := len)])
  }

  ghost predicate ProducerOk(p: Producer) {
    match p
    case SendIdle => true
    case SendLoadHead(_, msg) => |msg| <= MAX_PACKET_LEN
    case SendCopy(_, msg, copied) => copied <= |msg| <= MAX_PACKET_LEN
    case SendPublish(_, msg) => |msg| <= MAX_PACKET_LEN
  }

  ghost predicate ConsumerOk(c: Consumer) {
    c.RecvCopy? ==> |c.buf| <= MAX_PACKET_LEN
  }

  /** One step of `send`; `data` is looked at only when a new call begins. */
  function Produce(r: Ring, p: Producer, data: seq<u8>): (res: (Ring, Producer, Event))
    requires WellFormed(r) && ProducerOk(p)
    ensures WellFormed(res.0) && ProducerOk(res.1)
    ensures res.0.head == r.head && res.0.cachedTail == r.cachedTail
  {
    match p
    case SendIdle =>
      var msg := Truncated(data);
      if Wrap(r.tail - r.cachedHead) >= CAPACITY
      then (r, SendLoadHead(r.tail, msg), SendCalled(data))
      else (r, SendCopy(r.tail, msg, 0), SendCalled(data))
    case SendLoadHead(tail, msg) =>
      var r' := r.(cachedHead := r.head);
      if Wrap(tail - r.head) >= CAPACITY
      then (r', SendIdle, SendFull)
      else (r', SendCopy(tail, msg, 0), Internal)
    case SendCopy(tail, msg, copied) =>
      if copied < |msg|
      then (SetByte(r, Slot(tail), copied, msg[copied]), SendCopy(tail, msg, copied + 1), Internal)
      else (SetLen(r, Slot(tail), |msg|), SendPublish(tail, msg), Internal)
    case SendPublish(tail, msg) =>
      (r.(tail := Wrap(tail + 1)), SendIdle, Sent)
  }

  /** One step of `recv`. */
  function Consume(r: Ring, c: Consumer): (res: (Ring, Consumer, Event))
    requires WellFormed(r) && ConsumerOk(c)
    ensures WellFormed(res.0) && ConsumerOk(res.1)
    ensures res.0.queue == r.queue && res.0.tail == r.tail && res.0.cachedHead == r.cachedHead
  {
    match c
    case RecvIdle =>
      if r.head == r.cachedTail
      then (r, RecvLoadTail(r.head), Internal)
      else (r, RecvCopy(r.head, []), Internal)
    case RecvLoadTail(head) =>
      var r' := r.(cachedTail := r.tail);
      if head == r.tail
      then (r', RecvIdle, RecvEmpty)
      else (r', RecvCopy(head, []), Internal)
    case RecvCopy(head, buf) =>
      var slot := r.queue[Slot(head)];
      if |buf| < MAX_PACKET_LEN
      then (r, RecvCopy(head, buf + [slot.data[|buf|]]), Internal)
      else (r, RecvPublish(head, Packet(buf, slot.len)), Internal)
    case RecvPublish(head, pkt) =>
      (r.(head := Wrap(head + 1)), RecvIdle, Received(pkt))
  }

  // ---- Abstract indices ----

  /** The never-wrapping indices behind the four 64-bit ones, and the messages
      between `head` and `tail`. */
  datatype Abs = Abs(cachedHead: nat, head: nat, cachedTail: nat, tail: nat, pending: seq<seq<u8>>)

  /** A packet carries a message: its length and its first `len` bytes. Bytes past
      the length are whatever the slot held before. */
  predicate Holds(p: Packet, msg: seq<u8>) {
    p.len == |msg| <= |p.data| && p.data[..|msg|] == msg
  }

  ghost predicate Represents(r: Ring, a: Abs) {
    && WellFormed(r)
    && a.cachedHead <= a.head <= a.cachedTail <= a.tail <= a.cachedHead + CAPACITY
    && r.cachedHead == Wrap(a.cachedHead) && r.head == Wrap(a.head)
    && r.cachedTail == Wrap(a.cachedTail) && r.tail == Wrap(a.tail)
    && |a.pending| == a.tail - a.head
    && forall j :: 0 <= j < |a.pending| ==> Holds(r.queue[(a.head + j) % CAPACITY], a.pending[j])
  }

  lemma AddSixteens(r: nat, k: nat)
    ensures (r + 16 * k) % 16 == r % 16
  {
  }

  lemma SlotOfWrapped(i: nat)
    ensures Slot(Wrap(i)) == i % CAPACITY
  {
    hide Slot;
    AddSixteens(Wrap(i), 0x1000_0000_0000_0000 * (i / 0x1_0000_0000_0000_0000));
  }

  /** Two indices less than a capacity apart never share a slot. */
  lemma SlotsDistinct(i: nat, j: nat)
    requires i < j < i + CAPACITY
    ensures i % CAPACITY != j % CAPACITY
  {
  }

  /** The wrapped tests of `send` and `recv` decide fullness and emptiness exactly,
      on the cached and on the true indices. */
  lemma WrappedTestsAreExact(r: Ring, a: Abs)
    requires Represents(r, a)
    ensures Wrap(r.tail - r.cachedHead) >= CAPACITY <==> a.tail == a.cachedHead + CAPACITY
    ensures Wrap(r.tail - r.head) >= CAPACITY <==> a.tail == a.head + CAPACITY
    ensures r.head == r.cachedTail <==> a.head == a.cachedTail
    ensures r.head == r.tail <==> a.pending == []
  {
    WrapSub(a.tail, a.cachedHead);
    WrapSub(a.tail, a.head);
    WrapInjective(a.cachedTail, a.head);
    WrapInjective(a.tail, a.head);
  }

  /** A change of the slot at `tail`, on a ring that is not full, leaves every pending
      message in place. */
  lemma FreeSlotUpdate(r: Ring, a: Abs, p: Packet)
    requires Represents(r, a) && a.tail < a.cachedHead + CAPACITY && |p.data| == MAX_PACKET_LEN
    ensures Represents(r.(queue := r.queue[a.tail % CAPACITY := p]), a)
  {
    var q := r.queue[a.tail % CAPACITY := p];
    forall j | 0 <= j < |a.pending| ensures Holds(q[(a.head + j) % CAPACITY], a.pending[j]) {
      SlotsDistinct(a.head + j, a.tail);
    }
  }

  /** Publishing `tail + 1` after the slot holds `msg` appends `msg`. */
  lemma PublishTail(r: Ring, a: Abs, msg: seq<u8>)
    requires Represents(r, a) && a.tail < a.cachedHead + CAPACITY
    requires Holds(r.queue[a.tail % CAPACITY], msg)
    ensures Represents(r.(tail := Wrap(r.tail + 1)), a.(tail := a.tail + 1, pending := a.pending + [msg]))
  {
    WrapAdd(a.tail, 1);
  }

  lemma PublishHead(r: Ring, a: Abs)
    requires Represents(r, a) && a.head < a.cachedTail
    ensures |a.pending| > 0
    ensures Represents(r.(head := Wrap(r.head + 1)), a.(head := a.head + 1, pending := a.pending[1..]))
  {
    WrapAdd(a.head, 1);
    var a' := a.(head := a.head + 1, pending := a.pending[1..]);
    forall j | 0 <= j < |a'.pending| ensures Holds(r.queue[(a'.head + j) % CAPACITY], a'.pending[j]) {
      assert a.pending[j + 1] == a'.pending[j];
      assert Holds(r.queue[(a.head + (j + 1)) % CAPACITY], a.pending[j + 1]);
      assert a'.head + j == a.head + (j + 1);
    }
  }

  // ---- Uninterrupted operations ----

  /** `copy_from_slice` into the front of a slot, then the length. */
  function Filled(p: Packet, msg: seq<u8>): (p': Packet)
    requires |msg| <= |p.data|
    ensures |p'.data| == |p.data| && Holds(p', msg)
    ensures p'.data[|msg|..] == p.data[|msg|..]
  {
    Packet(msg + p.data[|msg|..], |msg|)
  }

  function SendAll(r: Ring, data: seq<u8>): (res: (Ring, bool))
    requires WellFormed(r)
    ensures WellFormed(res.0)
  {
    var near := Wrap(r.tail - r.cachedHead) < CAPACITY;
    var r1 := if near then r else r.(cachedHead := r.head);
    if !near && Wrap(r.tail - r.head) >= CAPACITY then (r1, false)
    else
      var slot := Slot(r.tail);
      (r1.(queue := r1.queue[slot := Filled(r1.queue[slot], Truncated(data))], tail := Wrap(r.tail + 1)), true)
  }

  function RecvAll(r: Ring): (res: (Ring, Option<Packet>))
    requires WellFormed(r)
    ensures WellFormed(res.0)
  {
    var stale := r.head == r.cachedTail;
    var r1 := if stale then r.(cachedTail := r.tail) else r;
    if stale && r.head == r.tail then (r1, None)
    else (r1.(head := Wrap(r.head + 1)), Some(r1.queue[Slot(r.head)]))
  }

  /** An uninterrupted `send` succeeds exactly when fewer than sixteen messages are
      pending, and then appends the truncated data. */
  lemma SendAllAppends(r: Ring, a: Abs, data: seq<u8>) returns (a': Abs)
    requires Represents(r, a)
    ensures SendAll(r, data).1 <==> |a.pending| < CAPACITY
    ensures Represents(SendAll(r, data).0, a')
    ensures a'.head == a.head && a'.cachedTail == a.cachedTail
    ensures a'.cachedHead == a.cachedHead || a'.cachedHead == a.head
    ensures a'.pending == if |a.pending| < CAPACITY then a.pending + [Truncated(data)] else a.pending
    ensures a'.tail == if |a.pending| < CAPACITY then a.tail + 1 else a.tail
  {
    hide Truncated, Holds, Slot, Filled;
    WrappedTestsAreExact(r, a);
    var near := a.tail < a.cachedHead + CAPACITY;
    a' := if near then a else a.(cachedHead := a.head);
    var r1 := if near then r else r.(cachedHead := r.head);
    assert Represents(r1, a');
    if |a.pending| < CAPACITY {
      SlotOfWrapped(a.tail);
      var slot := a.tail % CAPACITY;
      var p := Filled(r1.queue[slot], Truncated(data));
      FreeSlotUpdate(r1, a', p);
      var r2 := r1.(queue := r1.queue[slot := p]);
      PublishTail(r2, a', Truncated(data));
      a' := a'.(tail := a'.tail + 1, pending := a'.pending + [Truncated(data)]);
    }
  }

  /** An uninterrupted `recv` returns the oldest pending message, and returns
      nothing exactly when there is none. */
  lemma RecvAllTakes(r: Ring, a: Abs) returns (a': Abs)
    requires Represents(r, a)
    ensures RecvAll(r).1.Some? <==> a.pending != []
    ensures a.pending != [] ==> Holds(RecvAll(r).1.value, a.pending[0])
    ensures Represents(RecvAll(r).0, a')
    ensures a'.tail == a.tail && a'.cachedHead == a.cachedHead
    ensures a'.pending == if a.pending == [] then [] else a.pending[1..]
    ensures a'.head == if a.pending == [] then a.head else a.head + 1
  {
    WrappedTestsAreExact(r, a);
    var stale := a.head == a.cachedTail;
    a' := if stale then a.(cachedTail := a.tail) else a;
    var r1 := if stale then r.(cachedTail := r.tail) else r;
    assert Represents(r1, a');
    if a.pending != [] {
      SlotOfWrapped(a.head);
      assert Holds(r.queue[(a.head + 0) % CAPACITY], a.pending[0]);
      PublishHead(r1, a');
      a' := a'.(head := a'.head + 1, pending := a'.pending[1..]);
    }
  }

  // ---- Private caches of any value ----

  /** A queue by its 64-bit indices alone, whatever the two caches hold. */
  ghost predicate Queued(r: Ring, head: nat, pending: seq<seq<u8>>) {
    Represents(r.(cachedHead := Wrap(head), cachedTail := Wrap(head)),
               Abs(head, head, head, head + |pending|, pending))
  }

  /** A cached head that cannot mislead the sender: if it leaves room, there is room. On
      an empty queue this holds of every value. */
  predicate HeadTrusted(cachedHead: u64, head: nat, n: nat) {
    Wrap(head + n - cachedHead) < CAPACITY ==> n <= Wrap(head + n - cachedHead)
  }

  /** A cached tail that lies between the head and the tail. */
  predicate TailTrusted(cachedTail: u64, head: nat, n: nat) {
    Wrap(cachedTail - head) <= n
  }

  lemma RepresentsQueued(r: Ring, a: Abs)
    requires Represents(r, a)
    ensures Queued(r, a.head, a.pending)
    ensures HeadTrusted(r.cachedHead, a.head, |a.pending|) && TailTrusted(r.cachedTail, a.head, |a.pending|)
  {
    hide Holds, Wrap;
    WrapTruncates(a.tail, a.cachedHead);
    WrapSmall(a.tail - a.cachedHead);
    WrapTruncates(a.cachedTail, a.head);
    WrapSmall(a.cachedTail - a.head);
  }

  /** A send whose cached head can be trusted is the queue's append, and leaves a cached
      head that can be trusted. */
  lemma SendQueued(r: Ring, head: nat, pending: seq<seq<u8>>, data: seq<u8>)
    requires WellFormed(r) && Queued(r, head, pending) && HeadTrusted(r.cachedHead, head, |pending|)
    ensures var (r', ok) := SendAll(r, data);
            var pending' := if |pending| < CAPACITY then pending + [Truncated(data)] else pending;
            && (ok <==> |pending| < CAPACITY)
            && Queued(r', head, pending') && HeadTrusted(r'.cachedHead, head, |pending'|)
            && r'.cachedTail == r.cachedTail
  {
    hide Represents, SendAll, HeadTrusted, TailTrusted, Truncated, Wrap, Slot, Filled;
    var r0, a := r.(cachedHead := Wrap(head), cachedTail := Wrap(head)), Abs(head, head, head, head + |pending|, pending);
    var a' := SendAllAppends(r0, a, data);
    QueuedIndices(r, head, pending);
    SentCache(r, head, |pending|, data);
    SentCache(r0, head, |pending|, data);
  }

  lemma QueuedIndices(r: Ring, head: nat, pending: seq<seq<u8>>)
    requires Queued(r, head, pending)
    ensures |pending| <= CAPACITY && r.head == Wrap(head) && r.tail == Wrap(head + |pending|)
    ensures HeadTrusted(Wrap(head), head, |pending|) && TailTrusted(Wrap(head), head, |pending|)
  {
    hide Holds, Wrap;
    WrapTruncates(head + |pending|, head);
    WrapTruncates(head, head);
    WrapSmall(|pending|);
    WrapSmall(0);
  }

  /** What a send makes of its cached head, by the true number pending. */
  lemma SentCache(r: Ring, head: nat, n: nat, data: seq<u8>)
    requires WellFormed(r) && n <= CAPACITY && HeadTrusted(r.cachedHead, head, n)
    requires r.head == Wrap(head) && r.tail == Wrap(head + n)
    ensures var (r', ok) := SendAll(r, data);
            && (ok <==> n < CAPACITY)
            && HeadTrusted(r'.cachedHead, head, if ok then n + 1 else n)
            && (r'.cachedHead == r.cachedHead || r'.cachedHead == Wrap(head))
            && r' == (if ok then r.(queue := r.queue[Slot(r.tail) := Filled(r.queue[Slot(r.tail)], Truncated(data))],
                                    tail := Wrap(r.tail + 1))
                      else r).(cachedHead := r'.cachedHead)
  {
    hide Slot, Truncated, Filled, Wrap;
    WrapTruncates(head + n, r.cachedHead);
    WrapTruncates(head + n, Wrap(head));
    WrapTruncates(head + n, head);
    WrapTruncates(head + n + 1, head);
    WrapSmall(n);
    WrapSmall(n + 1);
    WrapStep(head + n - r.cachedHead);
  }

  /** A receive by its cached tail, which may hold anything: it takes the oldest message
      if there is one. If there is none it comes back empty only when the cached tail
      equals the head; otherwise it takes a packet that was never sent. */
  lemma RecvQueued(r: Ring, head: nat, pending: seq<seq<u8>>)
    requires WellFormed(r) && Queued(r, head, pending)
    ensures var (r', pkt) := RecvAll(r);
            && (pkt.Some? <==> pending != [] || r.cachedTail != Wrap(head))
            && (pending != [] ==> Holds(pkt.value, pending[0]) && Queued(r', head + 1, pending[1..]))
            && (pending == [] && pkt.None? ==> Queued(r', head, []))
            && (pending == [] && pkt.Some? ==> r'.head == Wrap(r'.tail + 1))
  {
    hide Holds;
    var r0, a := r.(cachedHead := Wrap(head), cachedTail := Wrap(head)), Abs(head, head, head, head + |pending|, pending);
    QueuedIndices(r, head, pending);
    var a' := RecvAllTakes(r0, a);
    if pending != [] {
      WrapInjective(head + |pending|, head);
      RepresentsQueued(RecvAll(r0).0, a');
    }
    hide Represents, Slot;
  }

  /** A cached tail that can be trusted makes the receive exact, and stays so. */
  lemma RecvKeepsTail(r: Ring, head: nat, pending: seq<seq<u8>>)
    requires WellFormed(r) && Queued(r, head, pending) && TailTrusted(r.cachedTail, head, |pending|)
    ensures var (r', pkt) := RecvAll(r);
            && (pkt.Some? <==> pending != [])
            && (if pkt.Some? then TailTrusted(r'.cachedTail, head + 1, |pending| - 1) else TailTrusted(r'.cachedTail, head, 0))
  {
    hide Represents, Slot, Holds, Wrap;
    QueuedIndices(r, head, pending);
    RecvQueued(r, head, pending);
    WrapTruncates(head, head);
    WrapTruncates(r.cachedTail, head);
    WrapTruncates(head + |pending|, head + 1);
    WrapStep(r.cachedTail - head);
    WrapZero(r.cachedTail, head);
    WrapSmall(0);
    if pending != [] { WrapSmall(|pending| - 1); }
  }

  // ---- The steps of one side alone compose to the uninterrupted operation ----

  /** The producer running alone until its call returns. */
  function ProduceToEnd(r: Ring, p: Producer): (res: (Ring, bool))
    requires WellFormed(r) && ProducerOk(p) && !p.SendIdle?
    decreases match p case SendLoadHead(_, msg) => |msg| + 3 case SendCopy(_, msg, k) => |msg| - k + 2 case _ => 0
  {
    var (r', p', e) := Produce(r, p, []);
    if p'.SendIdle? then (r', e.Sent?) else ProduceToEnd(r', p')
  }

  lemma {:induction false} CopyToEnd(r: Ring, tail: u64, msg: seq<u8>, k: nat)
    requires WellFormed(r) && k <= |msg| <= MAX_PACKET_LEN
    requires r.queue[Slot(tail)].data[..k] == msg[..k]
    ensures ProduceToEnd(r, SendCopy(tail, msg, k)) ==
            (r.(queue := r.queue[Slot(tail) := Filled(r.queue[Slot(tail)], msg)], tail := Wrap(tail + 1)), true)
    decreases |msg| - k
  {
    var slot := Slot(tail);
    var (r', p', e) := Produce(r, SendCopy(tail, msg, k), []);
    if k < |msg| {
      var d, d' := r.queue[slot].data, r'.queue[slot].data;
      assert d'[..k + 1] == d'[..k] + [d'[k]] && d'[..k] == d[..k];
      assert msg[..k + 1] == msg[..k] + [msg[k]];
      CopyToEnd(r', tail, msg, k + 1);
      assert d'[|msg|..] == d[|msg|..];
      assert r'.queue[slot := Filled(r'.queue[slot], msg)] == r.queue[slot := Filled(r.queue[slot], msg)];
    } else {
      var d := r.queue[slot].data;
      assert msg[..k] == msg && d == d[..k] + d[k..];
      assert Filled(r.queue[slot], msg) == Packet(d, |msg|);
      assert ProduceToEnd(r', p') == (r'.(tail := Wrap(tail + 1)), true);
    }
  }

  /** Running the steps of `send` without interruption is `SendAll`. */
  lemma SendStepsAreSendAll(r: Ring, data: seq<u8>)
    requires WellFormed(r)
    ensures var (r', p', e) := Produce(r, SendIdle, data);
            ProduceToEnd(r', p') == SendAll(r, data)
  {
    var msg := Truncated(data);
    var (r', p', e) := Produce(r, SendIdle, data);
    if p'.SendLoadHead? {
      var (r'', p'', e') := Produce(r', p', []);
      if p''.SendCopy? {
        CopyToEnd(r'', r.tail, msg, 0);
      }
    } else {
      CopyToEnd(r', r.tail, msg, 0);
    }
  }

  function ConsumeToEnd(r: Ring, c: Consumer): (res: (Ring, Option<Packet>))
    requires WellFormed(r) && ConsumerOk(c) && !c.RecvIdle?
    decreases match c case RecvLoadTail(_) => MAX_PACKET_LEN + 3 case RecvCopy(_, buf) => MAX_PACKET_LEN - |buf| + 2 case _ => 0
  {
    var (r', c', e) := Consume(r, c);
    if c'.RecvIdle? then (r', if e.Received? then Some(e.pkt) else None) else ConsumeToEnd(r', c')
  }

  lemma {:induction false} ReadToEnd(r: Ring, head: u64, buf: seq<u8>)
    requires WellFormed(r) && buf <= r.queue[Slot(head)].data
    ensures ConsumeToEnd(r, RecvCopy(head, buf)) == (r.(head := Wrap(head + 1)), Some(r.queue[Slot(head)]))
    decreases MAX_PACKET_LEN - |buf|
  {
    var (r', c', e) := Consume(r, RecvCopy(head, buf));
    if |buf| < MAX_PACKET_LEN {
      ReadToEnd(r, head, c'.buf);
    } else {
      assert buf == r.queue[Slot(head)].data;
      assert ConsumeToEnd(r', c') == (r.(head := Wrap(head + 1)), Some(c'.pkt));
    }
  }

  /** Running the steps of `recv` without interruption is `RecvAll`. */
  lemma RecvStepsAreRecvAll(r: Ring)
    requires WellFormed(r)
    ensures var (r', c', e) := Consume(r, RecvIdle);
            ConsumeToEnd(r', c') == RecvAll(r)
  {
    var (r', c', e) := Consume(r, RecvIdle);
    if c'.RecvLoadTail? {
      var (r'', c'', e') := Consume(r', c');
      if c''.RecvCopy? {
        ReadToEnd(r'', r.head, []);
      }
    } else {
      ReadToEnd(r', r.head, []);
    }
  }
}
