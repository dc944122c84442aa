/** The endless counter exchange of the two guests: VM1 posts a counter on channel 0
    and waits for its echo on channel 1; VM2 echoes every counter it receives.

    A guest is a program counter and its private registers. Each step makes exactly
    one access to the shared region: `AccessOf` names it, `After` continues with the
    value loaded. */
module Exchange {
  import opened Words
  import opened Ring
  import opened IpcLayout

  datatype Pc =
    | Start
    | LoadTail
    | LoadHead(tail: u64)
    | PutValue(tail: u64)
    | PutLen(tail: u64)
    | PutTail(tail: u64)
    | GetHead
    | GetTail(head: u64)
    | GetValue(head: u64)
    | PutHead(head: u64, val: u64)
    | PutCount
    | PutTsc

  datatype Guest = Guest(pc: Pc, counter: u64, cachedHead: u64, cachedTail: u64)

  datatype Access = Read(f: Field) | Write(f: Field, v: u64)

  /** VM1 is guest 0 and VM2 guest 1; each sends on the channel of its own number. */
  function AccessOf(id: nat, g: Guest, tsc: u64): (acc: Access)
    requires id < 2
    ensures ValidField(acc.f)
  {
    match g.pc
    case Start => Write(Heartbeat(0), HEARTBEAT_MAGIC)
    case LoadTail => Read(Tail(id))
    case LoadHead(_) => Read(Head(id))
    case PutValue(t) => Write(SlotValue(id, Slot(t)), g.counter)
    case PutLen(t) => Write(SlotLen(id, Slot(t)), 8)
    case PutTail(t) => Write(Tail(id), Wrap(t + 1))
    case GetHead => Read(Head(1 - id))
    case GetTail(_) => Read(Tail(1 - id))
    case GetValue(h) => Read(SlotValue(1 - id, Slot(h)))
    case PutHead(h, _) => Write(Head(1 - id), Wrap(h + 1))
    case PutCount => Write(Heartbeat(1 + 2 * id), g.counter)
    case PutTsc => Write(Heartbeat(2 + 2 * id), tsc)
  }

  function After(id: nat, g: Guest, loaded: u64): Guest
    requires id < 2
  {
    match g.pc
    case Start => g.(pc := if id == 0 then LoadTail else GetHead)
    case LoadTail =>
      g.(pc := if Wrap(loaded - g.cachedHead) >= CAPACITY then LoadHead(loaded) else PutValue(loaded))
    case LoadHead(t) =>
      g.(cachedHead := loaded, pc := if Wrap(t - loaded) >= CAPACITY then LoadTail else PutValue(t))
    case PutValue(t) => g.(pc := PutLen(t))
    case PutLen(t) => g.(pc := PutTail(t))
    case PutTail(_) => g.(pc := if id == 0 then GetHead else PutCount)
    case GetHead => g.(pc := if loaded == g.cachedTail then GetTail(loaded) else GetValue(loaded))
    case GetTail(h) => g.(cachedTail := loaded, pc := if h == loaded then GetHead else GetValue(h))
    case GetValue(h) => g.(pc := PutHead(h, loaded))
    case PutHead(_, v) =>
      if id == 0 then g.(pc := if v == g.counter then PutCount else GetHead)
      else g.(counter := v, pc := LoadTail)
    case PutCount => g.(pc := PutTsc)
    case PutTsc => if id == 0 then g.(counter := Wrap(g.counter + 1), pc := LoadTail) else g.(pc := GetHead)
  }

  type Cells = map<Field, u64>

  ghost predicate AllFields(cells: Cells) {
    forall f :: ValidField(f) ==> f in cells
  }

  datatype World = World(cells: Cells, g0: Guest, g1: Guest)

  /** The scheduler picks the guest that moves and the time stamp it would read. */
  datatype Choice = Choice(id: nat, tsc: u64)

  function GuestOf(w: World, id: nat): Guest {
    if id == 0 then w.g0 else w.g1
  }

  function Next(w: World, c: Choice): (w': World)
    requires AllFields(w.cells) && c.id < 2
    ensures AllFields(w'.cells)
  {
    var g := GuestOf(w, c.id);
    var acc := AccessOf(c.id, g, c.tsc);
    var cells := if acc.Write? then w.cells[acc.f := acc.v] else w.cells;
    var g' := After(c.id, g, if acc.Read? then w.cells[acc.f] else 0);
    if c.id == 0 then World(cells, g', w.g1) else World(cells, w.g0, g')
  }

  const FRESH: Guest := Guest(Start, 0, 0, 0)

  /** The region as `init_ipc_at_hpa` leaves it and fresh guest caches. */
  ghost predicate Initial(w: World) {
    && AllFields(w.cells) && w.g0 == FRESH && w.g1 == FRESH
    && forall c :: 0 <= c < 2 ==> w.cells[Tail(c)] == 0 && w.cells[Head(c)] == 0
  }

  // ---- The invariant ----

  predicate Sending(pc: Pc) { pc.LoadTail? || pc.LoadHead? || pc.PutValue? || pc.PutLen? || pc.PutTail? }
  predicate Receiving(pc: Pc) { pc.GetHead? || pc.GetTail? || pc.GetValue? || pc.PutHead? }
  predicate Publishing(pc: Pc) { pc.PutCount? || pc.PutTsc? }

  /** Rounds completed by each guest, and the true values behind the cached heads. */
  datatype Progress = Progress(n0: nat, f0: nat, n1: nat, f1: nat)

  function Sent0(w: World, p: Progress): nat {
    if Receiving(w.g0.pc) || Publishing(w.g0.pc) then p.n0 + 1 else p.n0
  }

  function Acked(w: World, p: Progress): nat {
    if Publishing(w.g0.pc) then p.n0 + 1 else p.n0
  }

  function Delivered(w: World, p: Progress): nat {
    if Sending(w.g1.pc) || Publishing(w.g1.pc) then p.n1 + 1 else p.n1
  }

  function Echoed(w: World, p: Progress): nat {
    if Publishing(w.g1.pc) then p.n1 + 1 else p.n1
  }

  /** How often each guest has published its count. */
  function Published0(w: World, p: Progress): nat { if w.g0.pc.PutTsc? then p.n0 + 1 else p.n0 }
  function Published1(w: World, p: Progress): nat { if w.g1.pc.PutTsc? then p.n1 + 1 else p.n1 }

  /** The true indices of both channels and the publication counts. */
  datatype Indices = Indices(sent0: nat, delivered: nat, echoed: nat, acked: nat, pub0: nat, pub1: nat)

  function IndicesOf(w: World, p: Progress): Indices {
    Indices(Sent0(w, p), Delivered(w, p), Echoed(w, p), Acked(w, p), Published0(w, p), Published1(w, p))
  }

  /** The four indices form a chain one message long. */
  predicate Lockstep(i: Indices) {
    i.sent0 - 1 <= i.acked <= i.echoed <= i.delivered <= i.sent0
  }

  ghost predicate CellsInv(cells: Cells, i: Indices) {
    && AllFields(cells)
    && cells[Tail(0)] == Wrap(i.sent0) && cells[Head(0)] == Wrap(i.delivered)
    && cells[Tail(1)] == Wrap(i.echoed) && cells[Head(1)] == Wrap(i.acked)
    && (i.delivered < i.sent0 ==> cells[SlotValue(0, i.delivered % CAPACITY)] == Wrap(i.delivered))
    && (i.acked < i.echoed ==> cells[SlotValue(1, i.acked % CAPACITY)] == Wrap(i.acked))
    && (i.pub0 > 0 ==> cells[Heartbeat(1)] == Wrap(i.pub0 - 1))
    && (i.pub1 > 0 ==> cells[Heartbeat(3)] == Wrap(i.pub1 - 1))
  }

  /** The registers of a guest that is in round `n`. */
  ghost predicate GuestInv(cells: Cells, id: nat, g: Guest, n: nat, f: nat, other: nat)
    requires id < 2 && AllFields(cells)
  {
    && g.cachedHead == Wrap(f) && f <= n <= f + CAPACITY
    && (g.pc.Start? ==> n == 0)
    && (id == 0 || Sending(g.pc) || Publishing(g.pc) ==> g.counter == Wrap(n))
    && g.cachedTail == Wrap(
         if id == 0
         then if g.pc.GetValue? || g.pc.PutHead? || Publishing(g.pc) then n + 1 else n
         else if g.pc.Start? || g.pc.GetHead? || g.pc.GetTail? then n else n + 1)
    && match g.pc
       case LoadHead(t) => t == Wrap(n) && n == f + CAPACITY
       case PutValue(t) => t == Wrap(n) && n < f + CAPACITY
       case PutLen(t) => t == Wrap(n) && n < f + CAPACITY && cells[SlotValue(id, n % CAPACITY)] == Wrap(n)
       case PutTail(t) => t == Wrap(n) && n < f + CAPACITY && cells[SlotValue(id, n % CAPACITY)] == Wrap(n)
       case GetHead => id == 0 ==> n < f + CAPACITY
       case GetTail(h) => h == Wrap(n) && (id == 0 ==> n < f + CAPACITY)
       case GetValue(h) => h == Wrap(n) && other == n + 1 && (id == 0 ==> n < f + CAPACITY)
       case PutHead(h, v) => h == Wrap(n) && v == Wrap(n) && other == n + 1 && (id == 0 ==> n < f + CAPACITY)
       case PutCount => n < f + CAPACITY
       case PutTsc => n < f + CAPACITY
       case _ => true
  }

  ghost predicate Inv(w: World, p: Progress) {
    && CellsInv(w.cells, IndicesOf(w, p))
    && Lockstep(IndicesOf(w, p))
    && GuestInv(w.cells, 0, w.g0, p.n0, p.f0, Echoed(w, p))
    && GuestInv(w.cells, 1, w.g1, p.n1, p.f1, Sent0(w, p))
  }

  lemma InitialInv(w: World)
    requires Initial(w)
    ensures Inv(w, Progress(0, 0, 0, 0))
  {
  }

  /** How one step of guest `id` moves the auxiliary counts. */
  function Advance(w: World, p: Progress, id: nat): Progress {
    if id == 0 then
      if w.g0.pc.LoadHead? then p.(f0 := Delivered(w, p))
      else if w.g0.pc.PutTsc? then p.(n0 := p.n0 + 1) else p
    else
      if w.g1.pc.LoadHead? then p.(f1 := Acked(w, p))
      else if w.g1.pc.PutTsc? then p.(n1 := p.n1 + 1) else p
  }

  lemma WrapFacts(n: nat, f: nat)
    requires f <= n <= f + CAPACITY
    ensures Wrap(Wrap(n) - Wrap(f)) == n - f
    ensures Wrap(Wrap(n) - Wrap(n)) == 0
    ensures Wrap(Wrap(n) + 1) == Wrap(n + 1)
    ensures Wrap(n) != Wrap(n + 1)
    ensures Slot(Wrap(n)) == n % CAPACITY
  {
    WrapSub(n, f);
    WrapSub(n, n);
    WrapAdd(n, 1);
    WrapInjective(n + 1, n);
    SlotOfWrapped(n);
  }

  // ---- The six kinds of store, on the indices they move ----

  lemma StoreValue(cells: Cells, i: Indices, id: nat, n: nat)
    requires CellsInv(cells, i) && id < 2
    requires if id == 0 then n == i.delivered == i.sent0 else n == i.acked == i.echoed
    ensures CellsInv(cells[SlotValue(id, n % CAPACITY) := Wrap(n)], i)
  {
  }

  lemma StoreTail0(cells: Cells, i: Indices)
    requires CellsInv(cells, i) && i.delivered == i.sent0
    requires cells[SlotValue(0, i.sent0 % CAPACITY)] == Wrap(i.sent0)
    ensures CellsInv(cells[Tail(0) := Wrap(i.sent0 + 1)], i.(sent0 := i.sent0 + 1))
  {
  }

  lemma StoreTail1(cells: Cells, i: Indices)
    requires CellsInv(cells, i) && i.acked == i.echoed
    requires cells[SlotValue(1, i.echoed % CAPACITY)] == Wrap(i.echoed)
    ensures CellsInv(cells[Tail(1) := Wrap(i.echoed + 1)], i.(echoed := i.echoed + 1))
  {
  }

  lemma StoreHead0(cells: Cells, i: Indices)
    requires CellsInv(cells, i) && i.sent0 == i.delivered + 1
    ensures CellsInv(cells[Head(0) := Wrap(i.delivered + 1)], i.(delivered := i.delivered + 1))
  {
  }

  lemma StoreHead1(cells: Cells, i: Indices)
    requires CellsInv(cells, i) && i.echoed == i.acked + 1
    ensures CellsInv(cells[Head(1) := Wrap(i.acked + 1)], i.(acked := i.acked + 1))
  {
  }

  lemma StoreCount(cells: Cells, i: Indices, id: nat)
    requires CellsInv(cells, i) && id < 2
    ensures id == 0 ==> CellsInv(cells[Heartbeat(1) := Wrap(i.pub0)], i.(pub0 := i.pub0 + 1))
    ensures id == 1 ==> CellsInv(cells[Heartbeat(3) := Wrap(i.pub1)], i.(pub1 := i.pub1 + 1))
  {
  }

  /** The fields the invariant does not speak of. */
  lemma StoreElsewhere(cells: Cells, i: Indices, f: Field, v: u64)
    requires CellsInv(cells, i) && (f.SlotLen? || f in {Heartbeat(0), Heartbeat(2), Heartbeat(4)})
    ensures CellsInv(cells[f := v], i)
  {
  }

  // ---- Steps of VM1 ----

  lemma Vm1Indices(w: World, p: Progress, tsc: u64)
    requires Inv(w, p)
    ensures var i := IndicesOf(w, p);
            IndicesOf(Next(w, Choice(0, tsc)), Advance(w, p, 0)) ==
            match w.g0.pc
            case PutTail(_) => i.(sent0 := i.sent0 + 1)
            case PutHead(_, _) => i.(acked := i.acked + 1)
            case PutCount => i.(pub0 := i.pub0 + 1)
            case _ => i
  {
    hide Wrap, Slot, CellsInv;
    WrapFacts(p.n0, p.f0);
  }

  /** The one cell a step changes, named by the round number. */
  lemma Vm1Write(w: World, p: Progress, tsc: u64)
    requires Inv(w, p)
    ensures Next(w, Choice(0, tsc)).cells ==
            match w.g0.pc
            case Start => w.cells[Heartbeat(0) := HEARTBEAT_MAGIC]
            case PutValue(_) => w.cells[SlotValue(0, p.n0 % CAPACITY) := Wrap(p.n0)]
            case PutLen(_) => w.cells[SlotLen(0, p.n0 % CAPACITY) := 8]
            case PutTail(_) => w.cells[Tail(0) := Wrap(p.n0 + 1)]
            case PutHead(_, _) => w.cells[Head(1) := Wrap(p.n0 + 1)]
            case PutCount => w.cells[Heartbeat(1) := Wrap(p.n0)]
            case PutTsc => w.cells[Heartbeat(2) := tsc]
            case _ => w.cells
  {
    hide Wrap, Slot, CellsInv;
    WrapFacts(p.n0, p.f0);
  }

  /** What VM1's next store can count on. */
  lemma Vm1Ready(w: World, p: Progress)
    requires Inv(w, p)
    ensures var i := IndicesOf(w, p);
            && CellsInv(w.cells, i) && Lockstep(i)
            && match w.g0.pc
               case PutValue(_) => p.n0 == i.delivered == i.sent0
               case PutTail(_) => p.n0 == i.delivered == i.acked == i.sent0
                                  && SlotValue(0, p.n0 % CAPACITY) in w.cells
                                  && w.cells[SlotValue(0, p.n0 % CAPACITY)] == Wrap(p.n0)
               case PutHead(_, _) => p.n0 == i.acked && i.echoed == i.acked + 1
               case PutCount => p.n0 == i.pub0
               case _ => true
  {
    hide Wrap, Slot;
  }

  lemma Vm1Cells(w: World, p: Progress, tsc: u64)
    requires Inv(w, p)
    ensures var w', p' := Next(w, Choice(0, tsc)), Advance(w, p, 0);
            CellsInv(w'.cells, IndicesOf(w', p')) && Lockstep(IndicesOf(w', p'))
  {
    hide Wrap, Slot, CellsInv, Inv, IndicesOf, Next, Advance;
    Vm1Ready(w, p);
    Vm1Indices(w, p, tsc);
    Vm1Write(w, p, tsc);
    var i := IndicesOf(w, p);
    match w.g0.pc
    case Start => StoreElsewhere(w.cells, i, Heartbeat(0), HEARTBEAT_MAGIC);
    case PutValue(_) => StoreValue(w.cells, i, 0, p.n0);
    case PutLen(_) => StoreElsewhere(w.cells, i, SlotLen(0, p.n0 % CAPACITY), 8);
    case PutTail(_) => StoreTail0(w.cells, i);
    case PutHead(_, _) => StoreHead1(w.cells, i);
    case PutCount => StoreCount(w.cells, i, 0);
    case PutTsc => StoreElsewhere(w.cells, i, Heartbeat(2), tsc);
    case _ =>
  }

  lemma Vm1OwnReceiving(w: World, p: Progress, tsc: u64)
    requires Inv(w, p) && Receiving(w.g0.pc)
    ensures var w', p' := Next(w, Choice(0, tsc)), Advance(w, p, 0);
            GuestInv(w'.cells, 0, w'.g0, p'.n0, p'.f0, Echoed(w', p'))
  {
    hide Wrap, Slot;
    WrapFacts(p.n0, p.f0);
    match w.g0.pc
    case GetTail(_) =>
    case PutHead(_, _) =>
    case _ =>
  }

  lemma Vm1OwnOther(w: World, p: Progress, tsc: u64)
    requires Inv(w, p) && !Receiving(w.g0.pc)
    ensures var w', p' := Next(w, Choice(0, tsc)), Advance(w, p, 0);
            GuestInv(w'.cells, 0, w'.g0, p'.n0, p'.f0, Echoed(w', p'))
  {
    hide Wrap, Slot;
    WrapFacts(p.n0, p.f0);
    match w.g0.pc
    case PutTsc =>
    case LoadTail =>
    case _ =>
  }

  lemma Vm1Own(w: World, p: Progress, tsc: u64)
    requires Inv(w, p)
    ensures var w', p' := Next(w, Choice(0, tsc)), Advance(w, p, 0);
            GuestInv(w'.cells, 0, w'.g0, p'.n0, p'.f0, Echoed(w', p'))
  {
    hide GuestInv, Next, Advance, Inv;
    InvFields(w, p);
    if Receiving(w.g0.pc) { Vm1OwnReceiving(w, p, tsc); } else { Vm1OwnOther(w, p, tsc); }
  }

  lemma InvFields(w: World, p: Progress)
    requires Inv(w, p)
    ensures AllFields(w.cells)
  {
  }

  lemma Vm1Peer(w: World, p: Progress, tsc: u64)
    requires Inv(w, p)
    ensures var w', p' := Next(w, Choice(0, tsc)), Advance(w, p, 0);
            GuestInv(w'.cells, 1, w'.g1, p'.n1, p'.f1, Sent0(w', p'))
  {
    hide Wrap, Slot, CellsInv;
  }

  lemma Vm1Step(w: World, p: Progress, tsc: u64)
    requires Inv(w, p)
    ensures Inv(Next(w, Choice(0, tsc)), Advance(w, p, 0))
  {
    Vm1Cells(w, p, tsc);
    Vm1Own(w, p, tsc);
    Vm1Peer(w, p, tsc);
  }

  // ---- Steps of VM2 ----

  lemma Vm2Indices(w: World, p: Progress, tsc: u64)
    requires Inv(w, p)
    ensures var i := IndicesOf(w, p);
            IndicesOf(Next(w, Choice(1, tsc)), Advance(w, p, 1)) ==
            match w.g1.pc
            case PutTail(_) => i.(echoed := i.echoed + 1)
            case PutHead(_, _) => i.(delivered := i.delivered + 1)
            case PutCount => i.(pub1 := i.pub1 + 1)
            case _ => i
  {
    hide Wrap, Slot, CellsInv;
    WrapFacts(p.n1, p.f1);
  }

  /** The one cell a step changes, named by the round number. */
  lemma Vm2Write(w: World, p: Progress, tsc: u64)
    requires Inv(w, p)
    ensures Next(w, Choice(1, tsc)).cells ==
            match w.g1.pc
            case Start => w.cells[Heartbeat(0) := HEARTBEAT_MAGIC]
            case PutValue(_) => w.cells[SlotValue(1, p.n1 % CAPACITY) := Wrap(p.n1)]
            case PutLen(_) => w.cells[SlotLen(1, p.n1 % CAPACITY) := 8]
            case PutTail(_) => w.cells[Tail(1) := Wrap(p.n1 + 1)]
            case PutHead(_, _) => w.cells[Head(0) := Wrap(p.n1 + 1)]
            case PutCount => w.cells[Heartbeat(3) := Wrap(p.n1)]
            case PutTsc => w.cells[Heartbeat(4) := tsc]
            case _ => w.cells
  {
    hide Wrap, Slot, CellsInv;
    WrapFacts(p.n1, p.f1);
  }

  /** What VM2's next store can count on. */
  lemma Vm2Ready(w: World, p: Progress)
    requires Inv(w, p)
    ensures var i := IndicesOf(w, p);
            && CellsInv(w.cells, i) && Lockstep(i)
            && match w.g1.pc
               case PutValue(_) => p.n1 == i.acked == i.echoed
               case PutTail(_) => p.n1 == i.acked == i.echoed && i.delivered == p.n1 + 1
                                  && SlotValue(1, p.n1 % CAPACITY) in w.cells
                                  && w.cells[SlotValue(1, p.n1 % CAPACITY)] == Wrap(p.n1)
               case PutHead(_, _) => p.n1 == i.delivered && i.sent0 == i.delivered + 1
               case PutCount => p.n1 == i.pub1
               case _ => true
  {
    hide Wrap, Slot;
  }

  lemma Vm2Cells(w: World, p: Progress, tsc: u64)
    requires Inv(w, p)
    ensures var w', p' := Next(w, Choice(1, tsc)), Advance(w, p, 1);
            CellsInv(w'.cells, IndicesOf(w', p')) && Lockstep(IndicesOf(w', p'))
  {
    hide Wrap, Slot, CellsInv, Inv, IndicesOf, Next, Advance;
    Vm2Ready(w, p);
    Vm2Indices(w, p, tsc);
    Vm2Write(w, p, tsc);
    var i := IndicesOf(w, p);
    match w.g1.pc
    case Start => StoreElsewhere(w.cells, i, Heartbeat(0), HEARTBEAT_MAGIC);
    case PutValue(_) => StoreValue(w.cells, i, 1, p.n1);
    case PutLen(_) => StoreElsewhere(w.cells, i, SlotLen(1, p.n1 % CAPACITY), 8);
    case PutTail(_) => StoreTail1(w.cells, i);
    case PutHead(_, _) => StoreHead0(w.cells, i);
    case PutCount => StoreCount(w.cells, i, 1);
    case PutTsc => StoreElsewhere(w.cells, i, Heartbeat(4), tsc);
    case _ =>
  }

  lemma Vm2OwnReceiving(w: World, p: Progress, tsc: u64)
    requires Inv(w, p) && Receiving(w.g1.pc)
    ensures var w', p' := Next(w, Choice(1, tsc)), Advance(w, p, 1);
            GuestInv(w'.cells, 1, w'.g1, p'.n1, p'.f1, Sent0(w', p'))
  {
    hide Wrap, Slot;
    WrapFacts(p.n1, p.f1);
    match w.g1.pc
    case GetTail(_) =>
    case PutHead(_, _) =>
    case _ =>
  }

  lemma Vm2OwnOther(w: World, p: Progress, tsc: u64)
    requires Inv(w, p) && !Receiving(w.g1.pc)
    ensures var w', p' := Next(w, Choice(1, tsc)), Advance(w, p, 1);
            GuestInv(w'.cells, 1, w'.g1, p'.n1, p'.f1, Sent0(w', p'))
  {
    hide Wrap, Slot;
    WrapFacts(p.n1, p.f1);
    match w.g1.pc
    case PutTsc =>
    case LoadTail =>
    case _ =>
  }

  lemma Vm2Own(w: World, p: Progress, tsc: u64)
    requires Inv(w, p)
    ensures var w', p' := Next(w, Choice(1, tsc)), Advance(w, p, 1);
            GuestInv(w'.cells, 1, w'.g1, p'.n1, p'.f1, Sent0(w', p'))
  {
    hide GuestInv, Next, Advance, Inv;
    InvFields(w, p);
    if Receiving(w.g1.pc) { Vm2OwnReceiving(w, p, tsc); } else { Vm2OwnOther(w, p, tsc); }
  }

  lemma Vm2Peer(w: World, p: Progress, tsc: u64)
    requires Inv(w, p)
    ensures var w', p' := Next(w, Choice(1, tsc)), Advance(w, p, 1);
            GuestInv(w'.cells, 0, w'.g0, p'.n0, p'.f0, Echoed(w', p'))
  {
    hide Wrap, Slot, CellsInv;
  }

  lemma Vm2Step(w: World, p: Progress, tsc: u64)
    requires Inv(w, p)
    ensures Inv(Next(w, Choice(1, tsc)), Advance(w, p, 1))
  {
    Vm2Cells(w, p, tsc);
    Vm2Own(w, p, tsc);
    Vm2Peer(w, p, tsc);
  }
}
