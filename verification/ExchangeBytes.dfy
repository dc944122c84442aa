/** The counter exchange on the raw bytes of the shared region: every access is an
    8-byte little-endian load or store at a fixed offset, and the runs are exactly
    those of `Exchange`. */
module ExchangeBytes {
  import opened Words
  import opened Ring
  import opened IpcLayout
  import opened Exchange
  import opened ExchangeRuns

  datatype ByteWorld = ByteWorld(mem: Bytes, g0: Guest, g1: Guest)

  function ByteNext(b: ByteWorld, c: Choice): (b': ByteWorld)
    requires |b.mem| >= IPC_SIZE && c.id < 2
    ensures |b'.mem| == |b.mem|
  {
    var g := if c.id == 0 then b.g0 else b.g1;
    var acc := AccessOf(c.id, g, c.tsc);
    var mem := if acc.Write? then Store(b.mem, acc.f, acc.v) else b.mem;
    var g' := After(c.id, g, if acc.Read? then Load(b.mem, acc.f) else 0);
    if c.id == 0 then ByteWorld(mem, g', b.g1) else ByteWorld(mem, b.g0, g')
  }

  function ByteRun(b: ByteWorld, schedule: seq<Choice>): (b': ByteWorld)
    requires |b.mem| >= IPC_SIZE && ValidSchedule(schedule)
    ensures |b'.mem| == |b.mem|
    decreases |schedule|
  {
    if schedule == [] then b else ByteRun(ByteNext(b, schedule[0]), schedule[1..])
  }

  ghost function FieldSet(): (s: set<Field>)
    ensures forall f :: f in s <==> ValidField(f)
  {
    (set c: nat | c < 2 :: Tail(c)) + (set c: nat | c < 2 :: Head(c))
    + (set c: nat, i: nat | c < 2 && i < CAPACITY :: SlotValue(c, i))
    + (set c: nat, i: nat | c < 2 && i < CAPACITY :: SlotLen(c, i))
    + (set w: nat | w < 5 :: Heartbeat(w))
  }

  /** The fields read out of the bytes. */
  ghost function CellsOf(mem: Bytes): (cells: Cells)
    requires |mem| >= IPC_SIZE
    ensures AllFields(cells)
    ensures forall f :: f in cells <==> ValidField(f)
    ensures forall f :: f in cells ==> cells[f] == Load(mem, f)
  {
    map f | f in FieldSet() :: Load(mem, f)
  }

  ghost function WorldOf(b: ByteWorld): World
    requires |b.mem| >= IPC_SIZE
  {
    World(CellsOf(b.mem), b.g0, b.g1)
  }

  lemma StoreUpdatesCell(mem: Bytes, f: Field, v: u64)
    requires |mem| >= IPC_SIZE && ValidField(f)
    ensures CellsOf(Store(mem, f, v)) == CellsOf(mem)[f := v]
  {
    hide CellsOf, Load, Store;
    var cells, cells' := CellsOf(mem), CellsOf(Store(mem, f, v));
    forall g | ValidField(g) ensures cells'[g] == cells[f := v][g] {
      StoreChangesOneField(mem, f, v, g);
    }
  }

  /** A step on the bytes is the step of the exchange. */
  lemma ByteStepSimulates(b: ByteWorld, c: Choice)
    requires |b.mem| >= IPC_SIZE && c.id < 2
    ensures WorldOf(ByteNext(b, c)) == Next(WorldOf(b), c)
  {
    hide AccessOf, After, CellsOf, Load, Store;
    var g := if c.id == 0 then b.g0 else b.g1;
    var acc := AccessOf(c.id, g, c.tsc);
    if acc.Write? {
      StoreUpdatesCell(b.mem, acc.f, acc.v);
    }
  }

  lemma {:induction false} ByteRunSimulates(b: ByteWorld, log: Log, schedule: seq<Choice>)
    requires |b.mem| >= IPC_SIZE && ValidSchedule(schedule)
    ensures Run(WorldOf(b), log, schedule).0 == WorldOf(ByteRun(b, schedule))
    decreases |schedule|
  {
    if schedule != [] {
      ByteStepSimulates(b, schedule[0]);
      ByteRunSimulates(ByteNext(b, schedule[0]), Record(log, WorldOf(b), schedule[0]), schedule[1..]);
    }
  }

  /** The region as the hypervisor initialises it, and fresh guests. */
  ghost predicate FreshRegion(b: ByteWorld) {
    && |b.mem| >= IPC_SIZE && b.g0 == FRESH && b.g1 == FRESH
    && forall c :: 0 <= c < 2 ==> Load(b.mem, Tail(c)) == 0 && Load(b.mem, Head(c)) == 0
  }

  /** On the bytes of the shared region, in every run: the two heartbeat counters
      hold the guests' last published counts, which differ by at most one once both
      are written, and neither channel holds more than one message. */
  lemma HeartbeatsInLockstep(b: ByteWorld, schedule: seq<Choice>)
    requires FreshRegion(b) && ValidSchedule(schedule)
    ensures var mem, log := ByteRun(b, schedule).mem, Run(WorldOf(b), NOTHING, schedule).1;
            var n1, n2 := |log.published0|, |log.published1|;
            && n1 - 1 <= n2 <= n1 + 1
            && (n1 > 0 ==> Load(mem, Heartbeat(1)) == Wrap(n1 - 1))
            && (n2 > 0 ==> Load(mem, Heartbeat(3)) == Wrap(n2 - 1))
            && Wrap(Load(mem, Tail(0)) as int - Load(mem, Head(0)) as int) <= 1
            && Wrap(Load(mem, Tail(1)) as int - Load(mem, Head(1)) as int) <= 1
  {
    hide Load, CellsOf, Run, Wrap, ByteRun, WorldOf, Initial, FreshRegion;
    assert |b.mem| >= IPC_SIZE by { FreshIsInitial(b); }
    FreshIsInitial(b);
    ByteRunSimulates(b, NOTHING, schedule);
    PublishedCountsWithinOne(WorldOf(b), schedule);
    CellsRead(ByteRun(b, schedule));
  }

  lemma FreshIsInitial(b: ByteWorld)
    requires FreshRegion(b)
    ensures |b.mem| >= IPC_SIZE && Initial(WorldOf(b))
  {
    hide Load;
    assert ValidField(Tail(0)) && ValidField(Head(0)) && ValidField(Tail(1)) && ValidField(Head(1));
  }

  /** The cells the exchange publishes, read from the bytes. */
  lemma CellsRead(b: ByteWorld)
    requires |b.mem| >= IPC_SIZE
    ensures var cells := WorldOf(b).cells;
            && Tail(0) in cells && Head(0) in cells && Tail(1) in cells && Head(1) in cells
            && Heartbeat(1) in cells && Heartbeat(3) in cells
            && cells[Tail(0)] == Load(b.mem, Tail(0)) && cells[Head(0)] == Load(b.mem, Head(0))
            && cells[Tail(1)] == Load(b.mem, Tail(1)) && cells[Head(1)] == Load(b.mem, Head(1))
            && cells[Heartbeat(1)] == Load(b.mem, Heartbeat(1)) && cells[Heartbeat(3)] == Load(b.mem, Heartbeat(3))
  {
    hide Load;
    assert ValidField(Tail(0)) && ValidField(Head(0)) && ValidField(Tail(1)) && ValidField(Head(1));
    assert ValidField(Heartbeat(1)) && ValidField(Heartbeat(3));
  }

  // ---- The guests' steps compose to the ring operations ----

  /** Guest `id` running alone from `pc` for `n` steps. */
  function Alone(b: ByteWorld, id: nat, n: nat): (b': ByteWorld)
    requires |b.mem| >= IPC_SIZE && id < 2
    ensures |b'.mem| == |b.mem|
    decreases n
  {
    if n == 0 then b else Alone(ByteNext(b, Choice(id, 0)), id, n - 1)
  }

  /** The stores of an uninterrupted send by a guest are the ring's `send` of the
      eight counter bytes, on the channel the guest sends on. */
  lemma StoresAreRingSend(mem: Bytes, id: nat, tail: u64, val: u64, ch: u64, ct: u64)
    requires |mem| >= IPC_SIZE && id < 2 && tail == Load(mem, Tail(id))
    ensures var m1 := Store(mem, SlotValue(id, Slot(tail)), val);
            var m2 := Store(m1, SlotLen(id, Slot(tail)), 8);
            var m3 := Store(m2, Tail(id), Wrap(tail + 1));
            var r, base := RingAt(mem, id * CHANNEL_SLOT_SIZE, ch, ct), id * CHANNEL_SLOT_SIZE;
            RingAt(m3, base, ch, ct)
            == r.(queue := r.queue[Slot(tail) := Filled(r.queue[Slot(tail)], ToLe64(val))], tail := Wrap(tail + 1))
  {
    hide Slot, Wrap, Store, RingAt, ToLe64, Load;
    var m1 := Store(mem, SlotValue(id, Slot(tail)), val);
    var m2 := Store(m1, SlotLen(id, Slot(tail)), 8);
    ValueStored(mem, id, Slot(tail), val, ch, ct);
    LenStored(m1, id, Slot(tail), ch, ct);
    TailStored(m2, id, Wrap(tail + 1), ch, ct);
  }

  lemma ValueStored(mem: Bytes, id: nat, slot: nat, val: u64, ch: u64, ct: u64)
    requires |mem| >= IPC_SIZE && id < 2 && slot < CAPACITY
    ensures var r := RingAt(mem, id * CHANNEL_SLOT_SIZE, ch, ct);
            RingAt(Store(mem, SlotValue(id, slot), val), id * CHANNEL_SLOT_SIZE, ch, ct)
            == r.(queue := r.queue[slot := r.queue[slot].(data := ToLe64(val) + r.queue[slot].data[8..])])
  {
    hide RingAt, PacketAt;
    StoreData(mem, id * CHANNEL_SLOT_SIZE, slot, ToLe64(val), ch, ct);
    PacketOfRing(mem, id * CHANNEL_SLOT_SIZE, slot, ch, ct);
  }

  lemma LenStored(mem: Bytes, id: nat, slot: nat, ch: u64, ct: u64)
    requires |mem| >= IPC_SIZE && id < 2 && slot < CAPACITY
    ensures var r := RingAt(mem, id * CHANNEL_SLOT_SIZE, ch, ct);
            RingAt(Store(mem, SlotLen(id, slot), 8), id * CHANNEL_SLOT_SIZE, ch, ct)
            == r.(queue := r.queue[slot := r.queue[slot].(len := 8)])
  {
    hide RingAt, PacketAt;
    StoreLen(mem, id * CHANNEL_SLOT_SIZE, slot, 8, ch, ct);
    PacketOfRing(mem, id * CHANNEL_SLOT_SIZE, slot, ch, ct);
  }

  lemma TailStored(mem: Bytes, id: nat, tail: u64, ch: u64, ct: u64)
    requires |mem| >= IPC_SIZE && id < 2
    ensures RingAt(Store(mem, Tail(id), tail), id * CHANNEL_SLOT_SIZE, ch, ct)
            == RingAt(mem, id * CHANNEL_SLOT_SIZE, ch, ct).(tail := tail)
  {
    hide RingAt, PacketAt;
    StoreTail(mem, id * CHANNEL_SLOT_SIZE, tail, ch, ct);
  }

  lemma PacketOfRing(m: Bytes, base: nat, slot: nat, ch: u64, ct: u64)
    requires base + CHANNEL_SLOT_SIZE <= |m| && slot < CAPACITY
    ensures RingAt(m, base, ch, ct).queue[slot] == PacketAt(m, base, slot)
  {
  }

  lemma HeadStored(mem: Bytes, c: nat, head: u64, ch: u64, ct: u64)
    requires |mem| >= IPC_SIZE && c < 2
    ensures RingAt(Store(mem, Head(c), head), c * CHANNEL_SLOT_SIZE, ch, ct)
            == RingAt(mem, c * CHANNEL_SLOT_SIZE, ch, ct).(head := head)
  {
    hide RingAt, PacketAt;
    StoreHead(mem, c * CHANNEL_SLOT_SIZE, head, ch, ct);
  }

  /** What the loads of a guest find is the ring's own. */
  lemma LoadsOfRing(mem: Bytes, c: nat, slot: nat, ch: u64, ct: u64)
    requires |mem| >= IPC_SIZE && c < 2 && slot < CAPACITY
    ensures var r := RingAt(mem, c * CHANNEL_SLOT_SIZE, ch, ct);
            && Load(mem, Head(c)) == r.head && Load(mem, Tail(c)) == r.tail
            && r.cachedHead == ch && r.cachedTail == ct && WellFormed(r)
            && Load(mem, SlotValue(c, slot)) == FromLe64(r.queue[slot].data[..8])
            && (forall x: u64 :: RingAt(mem, c * CHANNEL_SLOT_SIZE, x, ct) == r.(cachedHead := x))
            && (forall x: u64 :: RingAt(mem, c * CHANNEL_SLOT_SIZE, ch, x) == r.(cachedTail := x))
  {
    hide FromLe64;
    var at := SlotAddress(c * CHANNEL_SLOT_SIZE, slot);
    assert mem[at..at + MAX_PACKET_LEN][..8] == mem[at..at + 8];
  }

  function GuestIn(b: ByteWorld, id: nat): Guest { if id == 0 then b.g0 else b.g1 }

  function With(b: ByteWorld, id: nat, mem: Bytes, g: Guest): ByteWorld {
    if id == 0 then ByteWorld(mem, g, b.g1) else ByteWorld(mem, b.g0, g)
  }

  lemma OneAlone(b: ByteWorld, id: nat, n: nat)
    requires |b.mem| >= IPC_SIZE && id < 2
    ensures Alone(b, id, n + 1) == Alone(ByteNext(b, Choice(id, 0)), id, n) && Alone(b, id, 0) == b
  {
  }

  // ---- Sending ----

  /** The three stores, and where a guest goes after them. */
  lemma StoresAlone(b: ByteWorld, id: nat, tail: u64)
    requires |b.mem| >= IPC_SIZE && id < 2 && GuestIn(b, id).pc == PutValue(tail)
    ensures var g := GuestIn(b, id);
            var m1 := Store(b.mem, SlotValue(id, Slot(tail)), g.counter);
            var m2 := Store(m1, SlotLen(id, Slot(tail)), 8);
            Alone(b, id, 3) == With(b, id, Store(m2, Tail(id), Wrap(tail + 1)),
                                    g.(pc := if id == 0 then GetHead else PutCount))
  {
    hide Slot, Wrap, Load, Store, Alone;
    var g := GuestIn(b, id);
    var m1 := Store(b.mem, SlotValue(id, Slot(tail)), g.counter);
    var m2 := Store(m1, SlotLen(id, Slot(tail)), 8);
    var b1 := ByteNext(b, Choice(id, 0));
    assert b1 == With(b, id, m1, g.(pc := PutLen(tail)));
    var b2 := ByteNext(b1, Choice(id, 0));
    assert b2 == With(b, id, m2, g.(pc := PutTail(tail)));
    OneAlone(b, id, 2);
    OneAlone(b1, id, 1);
    OneAlone(b2, id, 0);
    OneAlone(ByteNext(b2, Choice(id, 0)), id, 0);
  }

  /** How many steps a send takes a guest that runs alone: with room by the cached head,
      with room found by loading the head, or with the ring full. */
  function SendSteps(r: Ring): nat {
    if Wrap(r.tail - r.cachedHead) < CAPACITY then 4 else if Wrap(r.tail - r.head) < CAPACITY then 5 else 2
  }

  /** After `n` steps alone from `b` guest `id` has completed the ring's send. */
  ghost predicate Sent(b: ByteWorld, id: nat, ct: u64, n: nat)
    requires |b.mem| >= IPC_SIZE && id < 2
  {
    var g, base, b' := GuestIn(b, id), id * CHANNEL_SLOT_SIZE, Alone(b, id, n);
    var g' := GuestIn(b', id);
    var ok := g'.pc != LoadTail;
    && (RingAt(b'.mem, base, g'.cachedHead, ct), ok) == SendAll(RingAt(b.mem, base, g.cachedHead, ct), ToLe64(g.counter))
    && b' == With(b, id, b'.mem,
                  g.(cachedHead := g'.cachedHead,
                     pc := if !ok then LoadTail else if id == 0 then GetHead else PutCount))
    && (!ok ==> b'.mem == b.mem)
  }

  lemma SendWithRoom(b: ByteWorld, id: nat, ct: u64)
    requires |b.mem| >= IPC_SIZE && id < 2 && GuestIn(b, id).pc.LoadTail?
    requires Wrap(Load(b.mem, Tail(id)) as int - GuestIn(b, id).cachedHead as int) < CAPACITY
    ensures Sent(b, id, ct, 4)
  {
    hide Slot, Wrap, Load, Store, Alone, RingAt, ToLe64, Filled;
    var g, tail := GuestIn(b, id), Load(b.mem, Tail(id));
    LoadsOfRing(b.mem, id, 0, g.cachedHead, ct);
    EightBytes(g.counter);
    var b1 := ByteNext(b, Choice(id, 0));
    assert b1 == With(b, id, b.mem, g.(pc := PutValue(tail)));
    OneAlone(b, id, 3);
    StoresAlone(b1, id, tail);
    StoresAreRingSend(b.mem, id, tail, g.counter, g.cachedHead, ct);
  }

  lemma SendAfterRefresh(b: ByteWorld, id: nat, ct: u64)
    requires |b.mem| >= IPC_SIZE && id < 2 && GuestIn(b, id).pc.LoadTail?
    requires Wrap(Load(b.mem, Tail(id)) as int - GuestIn(b, id).cachedHead as int) >= CAPACITY
    requires Wrap(Load(b.mem, Tail(id)) as int - Load(b.mem, Head(id)) as int) < CAPACITY
    ensures Sent(b, id, ct, 5)
  {
    hide Slot, Wrap, Load, Store, Alone, RingAt, ToLe64, Filled;
    var g, tail, head := GuestIn(b, id), Load(b.mem, Tail(id)), Load(b.mem, Head(id));
    LoadsOfRing(b.mem, id, 0, g.cachedHead, ct);
    EightBytes(g.counter);
    var b1 := ByteNext(b, Choice(id, 0));
    assert b1 == With(b, id, b.mem, g.(pc := LoadHead(tail)));
    var b2 := ByteNext(b1, Choice(id, 0));
    assert b2 == With(b, id, b.mem, g.(cachedHead := head, pc := PutValue(tail)));
    OneAlone(b, id, 4);
    OneAlone(b1, id, 3);
    StoresAlone(b2, id, tail);
    StoresAreRingSend(b.mem, id, tail, g.counter, head, ct);
  }

  lemma SendWhenFull(b: ByteWorld, id: nat, ct: u64)
    requires |b.mem| >= IPC_SIZE && id < 2 && GuestIn(b, id).pc.LoadTail?
    requires Wrap(Load(b.mem, Tail(id)) as int - GuestIn(b, id).cachedHead as int) >= CAPACITY
    requires Wrap(Load(b.mem, Tail(id)) as int - Load(b.mem, Head(id)) as int) >= CAPACITY
    ensures Sent(b, id, ct, 2)
  {
    hide Slot, Wrap, Load, Store, Alone, RingAt, ToLe64, Filled;
    var g, tail, head := GuestIn(b, id), Load(b.mem, Tail(id)), Load(b.mem, Head(id));
    LoadsOfRing(b.mem, id, 0, g.cachedHead, ct);
    var b1 := ByteNext(b, Choice(id, 0));
    assert b1 == With(b, id, b.mem, g.(pc := LoadHead(tail)));
    var b2 := ByteNext(b1, Choice(id, 0));
    assert b2 == With(b, id, b.mem, g.(cachedHead := head, pc := LoadTail));
    OneAlone(b, id, 1);
    OneAlone(b1, id, 0);
    OneAlone(b2, id, 0);
  }

  /** A send by a guest that runs alone is the ring's `send` of its counter, on every
      branch; a full ring brings it back to try again with the region untouched. */
  lemma SendStepsAreRingSend(b: ByteWorld, id: nat, ct: u64)
    requires |b.mem| >= IPC_SIZE && id < 2 && GuestIn(b, id).pc.LoadTail?
    ensures Sent(b, id, ct, SendSteps(RingAt(b.mem, id * CHANNEL_SLOT_SIZE, GuestIn(b, id).cachedHead, ct)))
  {
    hide Wrap, Load, RingAt, Sent;
    var g := GuestIn(b, id);
    var r := RingAt(b.mem, id * CHANNEL_SLOT_SIZE, g.cachedHead, ct);
    LoadsOfRing(b.mem, id, 0, g.cachedHead, ct);
    if Wrap(r.tail - r.cachedHead) < CAPACITY {
      SendWithRoom(b, id, ct);
    } else if Wrap(r.tail - r.head) < CAPACITY {
      SendAfterRefresh(b, id, ct);
    } else {
      SendWhenFull(b, id, ct);
    }
  }

  lemma EightBytes(v: u64)
    ensures Truncated(ToLe64(v)) == ToLe64(v)
  {
    hide ToLe64;
  }

  // ---- Receiving ----

  function RecvSteps(r: Ring): nat {
    if r.head != r.cachedTail then 3 else if r.head != r.tail then 4 else 2
  }

  /** A receive by a guest that runs alone is the ring's `recv` on the other channel, on
      every branch: the guest goes on with the counter in the packet taken, or comes back
      to poll. */
  lemma RecvStepsAreRingRecv(b: ByteWorld, id: nat, ch: u64)
    requires |b.mem| >= IPC_SIZE && id < 2 && GuestIn(b, id).pc.GetHead?
    ensures var g, base := GuestIn(b, id), (1 - id) * CHANNEL_SLOT_SIZE;
            var r := RingAt(b.mem, base, ch, g.cachedTail);
            var (r', pkt) := RecvAll(r);
            var b' := Alone(b, id, RecvSteps(r));
            var ct := r'.cachedTail;
            && RingAt(b'.mem, base, ch, ct) == r'
            && b' == With(b, id, b'.mem,
                          match pkt
                          case None => g.(cachedTail := ct)
                          case Some(p) => Received(id, g, FromLe64(p.data[..8])).(cachedTail := ct))
            && (pkt.None? ==> b'.mem == b.mem)
  {
    hide Slot, Wrap, Load, Store, Alone, RingAt, FromLe64;
    var g, base, c := GuestIn(b, id), (1 - id) * CHANNEL_SLOT_SIZE, Choice(id, 0);
    var r := RingAt(b.mem, base, ch, g.cachedTail);
    LoadsOfRing(b.mem, 1 - id, Slot(Load(b.mem, Head(1 - id))), ch, g.cachedTail);
    var b1 := ByteNext(b, c);
    if r.head != r.cachedTail {
      assert b1 == With(b, id, b.mem, g.(pc := GetValue(r.head)));
      OneAlone(b, id, 2);
      TakeAlone(b1, id, r.head);
      HeadStored(b.mem, 1 - id, Wrap(r.head + 1), ch, g.cachedTail);
    } else {
      assert b1 == With(b, id, b.mem, g.(pc := GetTail(r.head)));
      var b2 := ByteNext(b1, c);
      if r.head != r.tail {
        assert b2 == With(b, id, b.mem, g.(cachedTail := r.tail, pc := GetValue(r.head)));
        OneAlone(b, id, 3);
        OneAlone(b1, id, 2);
        TakeAlone(b2, id, r.head);
        HeadStored(b.mem, 1 - id, Wrap(r.head + 1), ch, r.tail);
      } else {
        assert b2 == With(b, id, b.mem, g.(cachedTail := r.tail));
        OneAlone(b, id, 1);
        OneAlone(b1, id, 0);
        OneAlone(b2, id, 0);
      }
    }
  }

  /** What a guest does with a counter it received: VM1 compares it with its own, VM2
      takes it over to echo it. */
  function Received(id: nat, g: Guest, v: u64): Guest {
    if id == 0 then g.(pc := if v == g.counter then PutCount else GetHead) else g.(counter := v, pc := LoadTail)
  }

  lemma TakeAlone(b: ByteWorld, id: nat, head: u64)
    requires |b.mem| >= IPC_SIZE && id < 2 && GuestIn(b, id).pc == GetValue(head)
    ensures var v := Load(b.mem, SlotValue(1 - id, Slot(head)));
            Alone(b, id, 2) == With(b, id, Store(b.mem, Head(1 - id), Wrap(head + 1)), Received(id, GuestIn(b, id), v))
  {
    hide Slot, Wrap, Load, Store, Alone;
    var g, v := GuestIn(b, id), Load(b.mem, SlotValue(1 - id, Slot(head)));
    var b1 := ByteNext(b, Choice(id, 0));
    assert b1 == With(b, id, b.mem, g.(pc := PutHead(head, v)));
    OneAlone(b, id, 1);
    OneAlone(b1, id, 0);
    OneAlone(ByteNext(b1, Choice(id, 0)), id, 0);
  }
}
