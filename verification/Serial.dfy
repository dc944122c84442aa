/** The UART line lock shared by two cores, step by step, and the per-core buffer that
    collects a guest's characters into lines. */
module Serial {
  import opened Words

  const CR: u8 := 13
  const LF: u8 := 10

  // ---- What a core does with the line ----

  /** `Begin` and `End` bracket `serial_with_lock`; `Host` is one byte written by a host
      print; `Guest` is a full guest line handed over by `guest_putchar_line`. `Switch` is
      the move to the core's own stack, by which alone `pcpu_id` tells the cores apart. */
  datatype Op = Begin | End | Host(b: u8) | Guest(vm: u8, line: seq<u8>) | Switch

  /** `Emit` holds the bytes still to be written and whether the line ends after them. */
  datatype Pc =
    | Idle
    | LoadOwner(op: Op)
    | Cas(op: Op)
    | StoreOwner(op: Op)
    | Emit(bytes: seq<u8>, release: bool)
    | ClearOwner
    | ClearLock

  /** `id` is what `pcpu_id` answers on this core: 0 on the boot processor, and 0 on the
      other core too until it runs on its own stack. `open` says whether the operations
      begun so far leave the core inside a line. */
  datatype Core = Core(todo: seq<Op>, pc: Pc, id: nat, open: bool)

  /** One byte on the UART: who wrote it, and how often the lock had been released. */
  datatype Written = Written(core: nat, byte: u8, turn: nat)

  /** `owner` is `None` for `usize::MAX`. */
  datatype Uart = Uart(lock: bool, owner: Option<nat>, cores: seq<Core>, turn: nat, log: seq<Written>)

  /** Which core moves, and a free bit: whether a compare-exchange fails spuriously, or
      what the tag and line-start flags say. */
  datatype Choice = Choice(i: nat, bit: bool)

  function HostBytes(id: nat, b: u8, tagged: bool): seq<u8> {
    if b == LF then [CR, LF]
    else if b == CR then []
    else (if tagged then [0x5B, 0x43, (0x30 + id) % 0x100, 0x5D, 0x20] else []) + [b]
  }

  /** A carriage return before every line feed. */
  function Escaped(line: seq<u8>): seq<u8> {
    if line == [] then []
    else (if line[0] == LF then [CR, LF] else [line[0]]) + Escaped(line[1..])
  }

  function GuestBytes(id: nat, vm: u8, line: seq<u8>): seq<u8> {
    [0x5B, 0x56, 0x4D, 0x30 + (if vm < 9 then vm else 9), 0x2F, 0x43, (0x30 + id) % 0x100, 0x5D, 0x20]
    + Escaped(line) + [CR, LF]
  }

  /** Where a core goes once it takes itself for the owner. */
  function Owned(id: nat, op: Op, tagged: bool): Pc {
    match op
    case Host(b) => Emit(HostBytes(id, b, tagged), b == LF)
    case Guest(vm, line) => Emit(GuestBytes(id, vm, line), true)
    case _ => Idle
  }

  /** Whether an operation leaves the core inside a line: it has asked for the line, or
      written to it, since it last ended one. */
  function OpenAfter(op: Op, open: bool): bool {
    match op
    case Begin => true
    case End => false
    case Host(b) => b != LF
    case Guest(_, _) => false
    case Switch => open
  }

  predicate WellFormed(u: Uart) { |u.cores| == 2 }

  function At(u: Uart, i: nat, pc: Pc): Uart
    requires WellFormed(u) && i < 2
  {
    u.(cores := u.cores[i := u.cores[i].(pc := pc)])
  }

  /** Taking up the next operation. */
  function Begun(u: Uart, i: nat): Core
    requires WellFormed(u) && i < 2 && u.cores[i].todo != []
  {
    var me := u.cores[i];
    var op := me.todo[0];
    var pc := if op.End? then (if u.owner == Some(me.id) then ClearOwner else Idle)
              else if op.Switch? then Idle else LoadOwner(op);
    Core(me.todo[1..], pc, if op.Switch? then i else me.id, OpenAfter(op, me.open))
  }

  function Step(u: Uart, c: Choice): (v: Uart)
    requires WellFormed(u) && c.i < 2
    ensures WellFormed(v)
  {
    var i, me := c.i, u.cores[c.i];
    match me.pc
    case Idle => if me.todo == [] then u else u.(cores := u.cores[i := Begun(u, i)])
    case LoadOwner(op) => At(u, i, if u.owner == Some(me.id) then Owned(me.id, op, c.bit) else Cas(op))
    case Cas(op) => if u.lock || c.bit then u else At(u, i, StoreOwner(op)).(lock := true)
    case StoreOwner(op) => At(u, i, Owned(me.id, op, c.bit)).(owner := Some(me.id))
    case Emit(bytes, release) =>
      if bytes == [] then At(u, i, if release then ClearOwner else Idle)
      else At(u, i, Emit(bytes[1..], release)).(log := u.log + [Written(i, bytes[0], u.turn)])
    case ClearOwner => At(u, i, ClearLock).(owner := None)
    case ClearLock => At(u, i, Idle).(lock := false, turn := u.turn + 1)
  }

  predicate OnTwoCores(schedule: seq<Choice>) { forall k | 0 <= k < |schedule| :: schedule[k].i < 2 }

  function Run(u: Uart, schedule: seq<Choice>): (v: Uart)
    requires WellFormed(u) && OnTwoCores(schedule)
    ensures WellFormed(v)
    decreases |schedule|
  {
    if schedule == [] then u else Run(Step(u, schedule[0]), schedule[1..])
  }

  function Start(p0: seq<Op>, p1: seq<Op>): Uart {
    Uart(false, None, [Core(p0, Idle, 0, false), Core(p1, Idle, 0, false)], 0, [])
  }

  // ---- Programs ----

  predicate Emits(op: Op) { op.Guest? || (op.Host? && op.b != CR) }

  /** The program puts some byte on the UART. */
  predicate Writes(ops: seq<Op>) { ops != [] && (Emits(ops[0]) || Writes(ops[1..])) }

  /** It does so before its core switches to its own stack. */
  predicate WritesEarly(ops: seq<Op>) { ops != [] && !ops[0].Switch? && (Emits(ops[0]) || WritesEarly(ops[1..])) }

  /** Before the switch it neither writes nor ends a closure. */
  predicate QuietEarly(ops: seq<Op>) {
    ops != [] && !ops[0].Switch? ==> !Emits(ops[0]) && !ops[0].End? && QuietEarly(ops[1..])
  }

  /** Closures are bracketed, `depth` of them are open, and each has ended its last line
      by the time it ends. */
  predicate EndsItsLines(ops: seq<Op>, depth: nat, open: bool) {
    ops != [] ==>
      && (ops[0].End? ==> depth > 0 && !open)
      && EndsItsLines(ops[1..], if ops[0].Begin? then depth + 1 else if ops[0].End? then depth - 1 else depth,
                      OpenAfter(ops[0], open))
  }

  /** In such a program a closure that ends before the switch has written before it. */
  lemma {:induction false} QuietOrWrites(ops: seq<Op>, depth: nat, open: bool)
    requires EndsItsLines(ops, depth, open) && (depth > 0 ==> open)
    ensures QuietEarly(ops) <==> !WritesEarly(ops)
    decreases |ops|
  {
    if ops != [] && !ops[0].Switch? && !Emits(ops[0]) && !ops[0].End? {
      QuietOrWrites(ops[1..], if ops[0].Begin? then depth + 1 else depth, OpenAfter(ops[0], open));
    }
  }

  // ---- Mutual exclusion, when the other core is quiet until its switch ----

  /** The core may write: it is the recorded owner, or has the lock under an id of its own. */
  predicate Owns(u: Uart, i: nat)
    requires WellFormed(u) && i < 2
  {
    u.owner == Some(i) || (u.cores[i].id == i && (u.cores[i].pc.StoreOwner? || u.cores[i].pc.ClearLock?))
  }

  /** Core 1 has taken the lock and is about to record the boot processor's id. */
  predicate Lends(u: Uart)
    requires WellFormed(u)
  {
    u.cores[1].id == 0 && u.cores[1].pc.StoreOwner?
  }

  predicate CoreInv(u: Uart, i: nat)
    requires WellFormed(u) && i < 2
  {
    match u.cores[i].pc
    case Emit(_, _) => u.owner == Some(i)
    case ClearOwner => u.owner == Some(i)
    case StoreOwner(_) => u.owner == None
    case ClearLock => u.owner == None
    case _ => true
  }

  predicate QuietOp(op: Op) { op == Begin || op == Host(CR) }

  /** Core 1 before its switch. */
  predicate QuietCore(u: Uart)
    requires WellFormed(u)
  {
    && QuietEarly(u.cores[1].todo)
    && match u.cores[1].pc
       case Idle => true
       case LoadOwner(op) => QuietOp(op)
       case Cas(op) => QuietOp(op)
       case StoreOwner(op) => QuietOp(op) && u.owner == None
       case Emit(bytes, release) => bytes == [] && !release
       case ClearOwner => false
       case ClearLock => false
  }

  predicate Excl(u: Uart)
    requires WellFormed(u)
  {
    && u.cores[0].id == 0 && u.cores[1].id < 2
    && CoreInv(u, 0) && (if u.cores[1].id == 1 then CoreInv(u, 1) else QuietCore(u))
    && (u.owner.Some? ==> u.owner.value < 2 && (u.owner.value == 1 ==> u.cores[1].id == 1))
    && !(Owns(u, 0) && Owns(u, 1)) && !(Lends(u) && (Owns(u, 0) || Owns(u, 1)))
    && (u.lock <==> Owns(u, 0) || Owns(u, 1) || Lends(u))
  }

  lemma OwnedShape(id: nat, op: Op, tagged: bool)
    ensures Owned(id, op, tagged).Idle? || Owned(id, op, tagged).Emit?
    ensures QuietOp(op) ==> Owned(id, op, tagged) == (if op.Begin? then Idle else Emit([], false))
  {
  }

  lemma StepKeepsExcl(u: Uart, c: Choice)
    requires WellFormed(u) && c.i < 2 && Excl(u)
    ensures Excl(Step(u, c))
  {
    hide Owned;
    match u.cores[c.i].pc
    case LoadOwner(op) => OwnedShape(u.cores[c.i].id, op, c.bit);
    case StoreOwner(op) => OwnedShape(u.cores[c.i].id, op, c.bit);
    case _ =>
  }

  /** Bytes written in one turn of the lock come from one core, and turns follow one
      another. */
  predicate TurnsWhole(log: seq<Written>) {
    forall k | 0 <= k < |log| - 1 ::
      log[k].turn <= log[k + 1].turn && (log[k].turn == log[k + 1].turn ==> log[k].core == log[k + 1].core)
  }

  /** The writer of the present turn, if any, may still write. */
  predicate LastOwns(u: Uart)
    requires WellFormed(u)
  {
    u.log != [] ==>
      var w := u.log[|u.log| - 1];
      w.core < 2 && w.turn <= u.turn && (w.turn == u.turn ==> Owns(u, w.core))
  }

  predicate TurnInv(u: Uart)
    requires WellFormed(u)
  {
    Excl(u) && TurnsWhole(u.log) && LastOwns(u)
  }

  lemma StepKeepsWriters(u: Uart, c: Choice)
    requires WellFormed(u) && c.i < 2 && TurnInv(u)
    ensures TurnsWhole(Step(u, c).log) && LastOwns(Step(u, c))
  {
    hide Owned, QuietEarly;
    if u.cores[c.i].pc.Emit? && u.cores[c.i].pc.bytes != [] {
      OneMoreByte(u, c);
    } else {
      assert Step(u, c).log == u.log;
    }
  }

  lemma OneMoreByte(u: Uart, c: Choice)
    requires WellFormed(u) && c.i < 2 && TurnInv(u)
    requires u.cores[c.i].pc.Emit? && u.cores[c.i].pc.bytes != []
    ensures TurnsWhole(Step(u, c).log) && LastOwns(Step(u, c))
  {
    hide QuietEarly;
  }

  lemma StepKeepsTurns(u: Uart, c: Choice)
    requires WellFormed(u) && c.i < 2 && TurnInv(u)
    ensures TurnInv(Step(u, c))
  {
    hide Step, Excl, TurnsWhole, LastOwns;
    StepKeepsExcl(u, c);
    StepKeepsWriters(u, c);
  }

  // ---- Lines ----

  /** The core wrote the last byte, and it ended no line. */
  predicate MidLine(log: seq<Written>, i: nat) {
    log != [] && log[|log| - 1].core == i && log[|log| - 1].byte != LF
  }

  /** A core is in the middle of a line only while its operations leave it inside one. */
  ghost predicate LineInv(u: Uart, i: nat)
    requires WellFormed(u) && i < 2
  {
    var me := u.cores[i];
    && (exists depth: nat :: EndsItsLines(me.todo, depth, me.open))
    && match me.pc
       case Idle => !me.open ==> !MidLine(u.log, i)
       case LoadOwner(op) => Acquires(op, me.open)
       case Cas(op) => Acquires(op, me.open)
       case StoreOwner(op) => Acquires(op, me.open)
       case Emit(bytes, release) =>
         && release == !me.open
         && (release ==> if bytes == [] then !MidLine(u.log, i) else bytes[|bytes| - 1] == LF)
       case ClearOwner => !me.open && !MidLine(u.log, i)
       case ClearLock => !me.open && !MidLine(u.log, i)
  }

  predicate Acquires(op: Op, open: bool) { !op.End? && !op.Switch? && open == OpenAfter(op, open) }

  /** Consecutive bytes come from one core unless a line feed separates them. */
  predicate LinesWhole(log: seq<Written>) {
    forall k | 0 <= k < |log| - 1 :: log[k].core == log[k + 1].core || log[k].byte == LF
  }

  predicate LineOwns(u: Uart)
    requires WellFormed(u)
  {
    && (u.log != [] ==> u.log[|u.log| - 1].core < 2)
    && (MidLine(u.log, 0) ==> Owns(u, 0)) && (MidLine(u.log, 1) ==> Owns(u, 1))
  }

  ghost predicate Inv(u: Uart)
    requires WellFormed(u)
  {
    Excl(u) && LineInv(u, 0) && LineInv(u, 1) && LinesWhole(u.log) && LineOwns(u)
  }

  lemma OwnedLine(id: nat, op: Op, tagged: bool, open: bool)
    requires Acquires(op, open)
    ensures var pc := Owned(id, op, tagged);
            && (pc.Idle? || pc.Emit?)
            && (pc.Idle? ==> open)
            && (pc.Emit? ==> pc.release == !open)
            && (pc.Emit? && pc.release ==> pc.bytes != [] && pc.bytes[|pc.bytes| - 1] == LF)
  {
    if op.Guest? {
      var body := GuestBytes(id, op.vm, op.line);
      assert body[|body| - 1] == [CR, LF][1];
    }
  }

  lemma MoverKeepsLine(u: Uart, c: Choice)
    requires WellFormed(u) && c.i < 2 && LineInv(u, c.i)
    ensures LineInv(Step(u, c), c.i)
  {
    hide HostBytes, GuestBytes, Owned, EndsItsLines, OpenAfter;
    match u.cores[c.i].pc
    case Idle => NextOperation(u, c);
    case LoadOwner(op) => OwnedLine(u.cores[c.i].id, op, c.bit, u.cores[c.i].open);
    case StoreOwner(op) => OwnedLine(u.cores[c.i].id, op, c.bit, u.cores[c.i].open);
    case _ =>
  }

  lemma NextOperation(u: Uart, c: Choice)
    requires WellFormed(u) && c.i < 2 && u.cores[c.i].pc.Idle? && LineInv(u, c.i)
    ensures LineInv(Step(u, c), c.i)
  {
    var me := u.cores[c.i];
    var depth: nat :| EndsItsLines(me.todo, depth, me.open);
    if me.todo != [] {
      var op := me.todo[0];
      var next := if op.Begin? then depth + 1 else if op.End? then depth - 1 else depth;
      assert EndsItsLines(me.todo[1..], next, OpenAfter(op, me.open));
    }
  }

  lemma OtherKeepsLine(u: Uart, c: Choice)
    requires WellFormed(u) && c.i < 2 && LineInv(u, 1 - c.i)
    ensures LineInv(Step(u, c), 1 - c.i)
  {
    hide HostBytes, GuestBytes, Owned, EndsItsLines, OpenAfter;
  }

  lemma StepKeepsLog(u: Uart, c: Choice)
    requires WellFormed(u) && c.i < 2 && Inv(u)
    ensures LinesWhole(Step(u, c).log) && LineOwns(Step(u, c))
  {
    hide HostBytes, GuestBytes, Owned, EndsItsLines, OpenAfter, QuietEarly;
    if u.cores[c.i].pc.Emit? && u.cores[c.i].pc.bytes != [] {
      OneMoreOfTheLine(u, c);
    } else {
      assert Step(u, c).log == u.log;
    }
  }

  lemma OneMoreOfTheLine(u: Uart, c: Choice)
    requires WellFormed(u) && c.i < 2 && Inv(u)
    requires u.cores[c.i].pc.Emit? && u.cores[c.i].pc.bytes != []
    ensures LinesWhole(Step(u, c).log) && LineOwns(Step(u, c))
  {
    hide EndsItsLines, OpenAfter, QuietEarly;
  }

  lemma StepKeepsInv(u: Uart, c: Choice)
    requires WellFormed(u) && c.i < 2 && Inv(u)
    ensures Inv(Step(u, c))
  {
    hide Step, Excl, LineInv, LinesWhole, LineOwns;
    StepKeepsExcl(u, c);
    MoverKeepsLine(u, c);
    OtherKeepsLine(u, c);
    StepKeepsLog(u, c);
    assert c.i == 0 || c.i == 1;
  }

  // ---- Whole runs ----

  lemma {:induction false} RunKeepsTurns(u: Uart, schedule: seq<Choice>)
    requires WellFormed(u) && OnTwoCores(schedule) && TurnInv(u)
    ensures TurnInv(Run(u, schedule))
    decreases |schedule|
  {
    hide Step, TurnInv;
    if schedule != [] {
      StepKeepsTurns(u, schedule[0]);
      RunKeepsTurns(Step(u, schedule[0]), schedule[1..]);
    }
  }

  lemma {:induction false} RunKeepsInv(u: Uart, schedule: seq<Choice>)
    requires WellFormed(u) && OnTwoCores(schedule) && Inv(u)
    ensures Inv(Run(u, schedule))
    decreases |schedule|
  {
    hide Step, Inv;
    if schedule != [] {
      StepKeepsInv(u, schedule[0]);
      RunKeepsInv(Step(u, schedule[0]), schedule[1..]);
    }
  }

  /** If core 1 neither writes nor ends a closure before its switch: a recorded owner has
      the lock, no other core may write meanwhile, and only the owner writes. */
  lemma OwnerHoldsTheLock(p0: seq<Op>, p1: seq<Op>, schedule: seq<Choice>, i: nat)
    requires OnTwoCores(schedule) && i < 2 && QuietEarly(p1)
    ensures var u := Run(Start(p0, p1), schedule);
            && (u.owner == Some(i) ==> u.lock && Owns(u, i) && !Owns(u, 1 - i))
            && (u.cores[i].pc.Emit? && u.cores[i].pc.bytes != [] ==> u.owner == Some(i))
  {
    RunKeepsTurns(Start(p0, p1), schedule);
  }

  /** Under the same condition two bytes written between the same two releases of the lock
      come from the same core. */
  lemma CoresMixOnlyAtReleases(p0: seq<Op>, p1: seq<Op>, schedule: seq<Choice>, j: nat, k: nat)
    requires OnTwoCores(schedule) && QuietEarly(p1)
    requires j <= k < |Run(Start(p0, p1), schedule).log|
    ensures var log := Run(Start(p0, p1), schedule).log;
            log[j].turn == log[k].turn ==> log[j].core == log[k].core
  {
    RunKeepsTurns(Start(p0, p1), schedule);
    TurnsOrdered(Run(Start(p0, p1), schedule).log, j, k);
  }

  lemma {:induction false} TurnsOrdered(log: seq<Written>, j: nat, k: nat)
    requires j <= k < |log| && TurnsWhole(log)
    ensures log[j].turn <= log[k].turn
    ensures log[j].turn == log[k].turn ==> log[j].core == log[k].core
    decreases k - j
  {
    if j < k {
      TurnsOrdered(log, j, k - 1);
      assert log[k - 1].turn <= log[k - 1 + 1].turn;
    }
  }

  lemma StartInv(p0: seq<Op>, p1: seq<Op>)
    requires QuietEarly(p1) && EndsItsLines(p0, 0, false) && EndsItsLines(p1, 0, false)
    ensures Inv(Start(p0, p1))
  {
  }

  /** When both programs end their lines and core 1 is quiet until its switch, each line
      on the UART, read between line feeds, comes from one core. */
  lemma EachLineFromOneCore(p0: seq<Op>, p1: seq<Op>, schedule: seq<Choice>, j: nat, k: nat)
    requires OnTwoCores(schedule) && QuietEarly(p1) && EndsItsLines(p0, 0, false) && EndsItsLines(p1, 0, false)
    requires j <= k < |Run(Start(p0, p1), schedule).log|
    requires forall l | j <= l < k :: Run(Start(p0, p1), schedule).log[l].byte != LF
    ensures Run(Start(p0, p1), schedule).log[j].core == Run(Start(p0, p1), schedule).log[k].core
  {
    StartInv(p0, p1);
    RunKeepsInv(Start(p0, p1), schedule);
    OneCore(Run(Start(p0, p1), schedule).log, j, k);
  }

  lemma {:induction false} OneCore(log: seq<Written>, j: nat, k: nat)
    requires j <= k < |log| && LinesWhole(log)
    requires forall l | j <= l < k :: log[l].byte != LF
    ensures log[j].core == log[k].core
    decreases k - j
  {
    if j < k {
      OneCore(log, j, k - 1);
      assert log[k - 1].core == log[k - 1 + 1].core;
    }
  }

  // ---- A core that writes nothing ----

  predicate Mute(u: Uart, i: nat)
    requires WellFormed(u) && i < 2
  {
    && !Writes(u.cores[i].todo)
    && match u.cores[i].pc
       case LoadOwner(op) => !Emits(op)
       case Cas(op) => !Emits(op)
       case StoreOwner(op) => !Emits(op)
       case Emit(bytes, _) => bytes == []
       case _ => true
  }

  predicate SoleWriter(u: Uart, i: nat)
    requires WellFormed(u) && i < 2
  {
    && Mute(u, 1 - i) && TurnsWhole(u.log) && LinesWhole(u.log)
    && (forall k | 0 <= k < |u.log| :: u.log[k].core == i)
    && (u.log != [] ==> u.log[|u.log| - 1].turn <= u.turn)
  }

  lemma MuteShape(id: nat, op: Op, tagged: bool)
    requires !Emits(op)
    ensures Owned(id, op, tagged) in {Idle, Emit([], false)}
  {
  }

  lemma StepKeepsMute(u: Uart, c: Choice, j: nat)
    requires WellFormed(u) && c.i < 2 && j < 2 && Mute(u, j)
    ensures Mute(Step(u, c), j) && (c.i == j ==> Step(u, c).log == u.log)
  {
    hide Owned, Emits;
    match u.cores[c.i].pc
    case LoadOwner(op) => if c.i == j { MuteShape(u.cores[j].id, op, c.bit); }
    case StoreOwner(op) => if c.i == j { MuteShape(u.cores[j].id, op, c.bit); }
    case _ =>
  }

  lemma StepKeepsSoleWriter(u: Uart, c: Choice, i: nat)
    requires WellFormed(u) && c.i < 2 && i < 2 && SoleWriter(u, i)
    ensures SoleWriter(Step(u, c), i)
  {
    hide Mute, Step;
    StepKeepsMute(u, c, 1 - i);
    assert c.i != i ==> c.i == 1 - i;
    StepLog(u, c);
  }

  /** A step adds one byte of its core in the present turn, or none. */
  lemma StepLog(u: Uart, c: Choice)
    requires WellFormed(u) && c.i < 2
    ensures var log := Step(u, c).log;
            log == u.log || exists x: u8 :: log == u.log + [Written(c.i, x, u.turn)]
    ensures Step(u, c).turn >= u.turn
  {
    hide Owned;
  }

  lemma {:induction false} RunKeepsSoleWriter(u: Uart, schedule: seq<Choice>, i: nat)
    requires WellFormed(u) && OnTwoCores(schedule) && i < 2 && SoleWriter(u, i)
    ensures SoleWriter(Run(u, schedule), i)
    decreases |schedule|
  {
    hide Step, SoleWriter;
    if schedule != [] {
      StepKeepsSoleWriter(u, schedule[0], i);
      RunKeepsSoleWriter(Step(u, schedule[0]), schedule[1..], i);
    }
  }

  // ---- A core that writes under the boot processor's id ----

  lemma {:induction false} RunSnoc(u: Uart, schedule: seq<Choice>, c: Choice)
    requires WellFormed(u) && OnTwoCores(schedule) && c.i < 2
    ensures OnTwoCores(schedule + [c]) && Run(u, schedule + [c]) == Step(Run(u, schedule), c)
    decreases |schedule|
  {
    hide Step;
    if schedule == [] {
      assert schedule + [c] == [c];
      assert Run(Step(u, c), []) == Step(u, c);
    } else {
      assert (schedule + [c])[1..] == schedule[1..] + [c];
      RunSnoc(Step(u, schedule[0]), schedule[1..], c);
    }
  }

  /** One more step of core `i` after a schedule that reaches `u`. */
  lemma Then(start: Uart, schedule: seq<Choice>, u: Uart, i: nat) returns (longer: seq<Choice>, v: Uart)
    requires WellFormed(start) && OnTwoCores(schedule) && i < 2 && Run(start, schedule) == u
    ensures OnTwoCores(longer) && Run(start, longer) == v && WellFormed(u) && v == Step(u, Choice(i, false))
  {
    hide Run, Step;
    RunSnoc(start, schedule, Choice(i, false));
    longer, v := schedule + [Choice(i, false)], Step(u, Choice(i, false));
  }

  /** The lock is free, or recorded under the id 0. */
  predicate OpenToZero(u: Uart) { if u.lock then u.owner == Some(0) else u.owner == None }

  lemma FirstByte(op: Op)
    requires Emits(op)
    ensures Owned(0, op, false).Emit? && Owned(0, op, false).bytes != [] && Owned(0, op, false).bytes[0] != LF
  {
    if op.Guest? {
      assert GuestBytes(0, op.vm, op.line)[0] == 0x5B;
    }
  }

  /** A core whose id is 0 gets to its operation without waiting: it finds its id recorded,
      or the lock free. */
  lemma AcquiresAsZero(start: Uart, schedule: seq<Choice>, u: Uart, i: nat, op: Op)
    returns (longer: seq<Choice>, v: Uart)
    requires WellFormed(start) && OnTwoCores(schedule) && i < 2 && Run(start, schedule) == u
    requires WellFormed(u) && OpenToZero(u) && u.cores[i].id == 0 && u.cores[i].pc == LoadOwner(op)
    ensures OnTwoCores(longer) && Run(start, longer) == v
    ensures v == At(u, i, Owned(0, op, false)).(owner := Some(0), lock := true)
  {
    hide Run, Owned;
    longer, v := Then(start, schedule, u, i);
    if !u.lock {
      longer, v := Then(start, longer, v, i);
      longer, v := Then(start, longer, v, i);
    }
  }

  /** A core whose id is 0 runs alone to the first byte it writes. */
  lemma {:induction false} RunsToItsFirstByte(start: Uart, schedule: seq<Choice>, u: Uart, i: nat, depth: nat)
    returns (longer: seq<Choice>, v: Uart, x: u8)
    requires WellFormed(start) && OnTwoCores(schedule) && i < 2 && Run(start, schedule) == u
    requires WellFormed(u) && OpenToZero(u) && u.cores[i].id == 0 && u.cores[i].pc == Idle
    requires if i == 0 then Writes(u.cores[i].todo) else WritesEarly(u.cores[i].todo)
    requires EndsItsLines(u.cores[i].todo, depth, u.cores[i].open) && (depth > 0 ==> u.cores[i].open)
    ensures OnTwoCores(longer) && Run(start, longer) == v && WellFormed(v)
    ensures v.log == u.log + [Written(i, x, u.turn)] && x != LF && v.turn == u.turn
    ensures OpenToZero(v) && v.cores[1 - i] == u.cores[1 - i]
    decreases |u.cores[i].todo|
  {
    hide Run, Owned, HostBytes, GuestBytes;
    var op := u.cores[i].todo[0];
    longer, v := Then(start, schedule, u, i);
    if op.Switch? {
      longer, v, x := RunsToItsFirstByte(start, longer, v, i, depth);
    } else {
      longer, v := AcquiresAsZero(start, longer, v, i, op);
      if Emits(op) {
        FirstByte(op);
        x := v.cores[i].pc.bytes[0];
        longer, v := Then(start, longer, v, i);
      } else {
        OwnedShape(0, op, false);
        if op == Host(CR) {
          longer, v := Then(start, longer, v, i);
        }
        longer, v, x := RunsToItsFirstByte(start, longer, v, i, if op.Begin? then depth + 1 else depth);
      }
    }
  }

  /** When both write, core 1 before its switch, some schedule puts a byte of core 1 right
      after a byte of core 0, within a line and within a turn of the lock. */
  lemma EarlyWriterMixes(p0: seq<Op>, p1: seq<Op>) returns (schedule: seq<Choice>)
    requires EndsItsLines(p0, 0, false) && EndsItsLines(p1, 0, false) && Writes(p0) && WritesEarly(p1)
    ensures OnTwoCores(schedule)
    ensures !LinesWhole(Run(Start(p0, p1), schedule).log) && !TurnsWhole(Run(Start(p0, p1), schedule).log)
  {
    hide Run, Writes, WritesEarly, EndsItsLines;
    var start := Start(p0, p1);
    NothingRun(start);
    var u, x, v, y;
    schedule, u, x := RunsToItsFirstByte(start, [], start, 0, 0);
    schedule, v, y := RunsToItsFirstByte(start, schedule, u, 1, 0);
    assert v.log[0] == Written(0, x, 0) && v.log[0 + 1] == Written(1, y, 0);
  }

  lemma NothingRun(u: Uart)
    requires WellFormed(u)
    ensures Run(u, []) == u
  {
  }

  /** Every line comes from one core, and every turn of the lock, on every schedule exactly
      when core 1 writes nothing before its switch, or core 0 writes nothing at all. */
  lemma LinesWholeIff(p0: seq<Op>, p1: seq<Op>)
    requires EndsItsLines(p0, 0, false) && EndsItsLines(p1, 0, false)
    ensures (forall schedule | OnTwoCores(schedule) :: LinesWhole(Run(Start(p0, p1), schedule).log))
            <==> !WritesEarly(p1) || !Writes(p0)
    ensures (forall schedule | OnTwoCores(schedule) :: TurnsWhole(Run(Start(p0, p1), schedule).log))
            <==> !WritesEarly(p1) || !Writes(p0)
  {
    hide Run, EndsItsLines, LinesWhole, TurnsWhole, Writes, WritesEarly;
    if WritesEarly(p1) && Writes(p0) {
      var schedule := EarlyWriterMixes(p0, p1);
    } else {
      forall schedule | OnTwoCores(schedule)
        ensures LinesWhole(Run(Start(p0, p1), schedule).log) && TurnsWhole(Run(Start(p0, p1), schedule).log)
      {
        SeparateWriters(p0, p1, schedule);
      }
    }
  }

  lemma SeparateWriters(p0: seq<Op>, p1: seq<Op>, schedule: seq<Choice>)
    requires EndsItsLines(p0, 0, false) && EndsItsLines(p1, 0, false) && (!WritesEarly(p1) || !Writes(p0))
    requires OnTwoCores(schedule)
    ensures LinesWhole(Run(Start(p0, p1), schedule).log) && TurnsWhole(Run(Start(p0, p1), schedule).log)
  {
    hide Run, EndsItsLines, LinesWhole, TurnsWhole, Writes, WritesEarly;
    if !WritesEarly(p1) {
      QuietOrWrites(p1, 0, false);
      StartInv(p0, p1);
      RunKeepsInv(Start(p0, p1), schedule);
      StartTurns(p0, p1);
      RunKeepsTurns(Start(p0, p1), schedule);
    } else {
      StartSole(p0, p1);
      RunKeepsSoleWriter(Start(p0, p1), schedule, 1);
    }
  }

  lemma StartTurns(p0: seq<Op>, p1: seq<Op>)
    requires QuietEarly(p1)
    ensures TurnInv(Start(p0, p1))
  {
  }

  lemma StartSole(p0: seq<Op>, p1: seq<Op>)
    requires !Writes(p0)
    ensures SoleWriter(Start(p0, p1), 1)
  {
  }

  // ---- The program of the parked core ----

  function Print(text: seq<u8>): seq<Op> { seq(|text|, k requires 0 <= k < |text| => Host(text[k])) }

  /** The parked core announces itself with a line before it moves to its own stack. So
      whatever the boot processor prints, some schedule splits one of the two lines. */
  lemma AnnouncementCanSplitLines(p0: seq<Op>, text: seq<u8>, rest: seq<Op>) returns (schedule: seq<Choice>)
    requires EndsItsLines(p0, 0, false) && Writes(p0)
    requires text != [] && text[0] != CR && EndsItsLines(Print(text) + [Switch] + rest, 0, false)
    ensures OnTwoCores(schedule)
    ensures !LinesWhole(Run(Start(p0, Print(text) + [Switch] + rest), schedule).log)
  {
    hide EndsItsLines, Run, LinesWhole, TurnsWhole;
    assert (Print(text) + [Switch] + rest)[0] == Host(text[0]);
    schedule := EarlyWriterMixes(p0, Print(text) + [Switch] + rest);
  }

  /** The shortest case: one byte of each core, neither of them a line feed, side by side
      in one turn, though both programs end their lines. */
  lemma TwoLinesMix() returns (schedule: seq<Choice>)
    ensures OnTwoCores(schedule)
    ensures var u := Run(Start([Host(97), Host(LF)], [Host(98), Host(LF)]), schedule);
            u.log == [Written(0, 97, 0), Written(1, 98, 0)]
  {
    hide Run;
    var start := Start([Host(97), Host(LF)], [Host(98), Host(LF)]);
    NothingRun(start);
    var u;
    schedule, u := Then(start, [], start, 0);
    schedule, u := Then(start, schedule, u, 0);
    schedule, u := Then(start, schedule, u, 0);
    schedule, u := Then(start, schedule, u, 0);
    schedule, u := Then(start, schedule, u, 0);
    schedule, u := Then(start, schedule, u, 1);
    schedule, u := Then(start, schedule, u, 1);
    schedule, u := Then(start, schedule, u, 1);
  }

  // ---- Waiting ----

  /** Core 1 does nothing with the line before its switch. */
  predicate SilentEarly(ops: seq<Op>) { ops != [] ==> ops[0].Switch? }

  predicate WaitInv(u: Uart)
    requires WellFormed(u)
  {
    && Excl(u) && (u.cores[1].id == 0 ==> u.cores[1].pc.Idle? && SilentEarly(u.cores[1].todo))
    && (u.cores[0].pc.Cas? ==> u.owner != Some(0)) && (u.cores[1].pc.Cas? ==> u.owner != Some(1))
  }

  lemma StepKeepsWait(u: Uart, c: Choice)
    requires WellFormed(u) && c.i < 2 && WaitInv(u)
    ensures WaitInv(Step(u, c))
  {
    hide Owned, QuietEarly;
    StepKeepsExcl(u, c);
    match u.cores[c.i].pc
    case LoadOwner(op) => OwnedShape(u.cores[c.i].id, op, c.bit);
    case StoreOwner(op) => OwnedShape(u.cores[c.i].id, op, c.bit);
    case _ =>
  }

  lemma {:induction false} RunKeepsWait(u: Uart, schedule: seq<Choice>)
    requires WellFormed(u) && OnTwoCores(schedule) && WaitInv(u)
    ensures WaitInv(Run(u, schedule))
    decreases |schedule|
  {
    hide Step, WaitInv;
    if schedule != [] {
      StepKeepsWait(u, schedule[0]);
      RunKeepsWait(Step(u, schedule[0]), schedule[1..]);
    }
  }

  /** If core 1 does nothing with the line before its switch, no core waits for a lock it
      holds itself: its compare-exchange fails only spuriously or because the other core
      has the lock. */
  lemma NeverWaitsForItself(p0: seq<Op>, p1: seq<Op>, schedule: seq<Choice>, i: nat)
    requires OnTwoCores(schedule) && i < 2 && SilentEarly(p1)
    ensures var u := Run(Start(p0, p1), schedule);
            u.cores[i].pc.Cas? ==> !Owns(u, i) && (u.lock <==> Owns(u, 1 - i))
  {
    RunKeepsWait(Start(p0, p1), schedule);
  }

  /** A core that switches inside a line has changed its id under its own lock: its next
      print waits for that lock, and no continuation ends the wait. */
  lemma SwitchInsideLineHangs() returns (schedule: seq<Choice>)
    ensures OnTwoCores(schedule)
    ensures var u := Run(Start([], [Begin, Switch, Host(98)]), schedule);
            && u.cores[1].pc == Cas(Host(98)) && u.lock
            && forall more | OnTwoCores(more) :: Run(u, more) == u
  {
    hide Run;
    var start := Start([], [Begin, Switch, Host(98)]);
    NothingRun(start);
    var u;
    schedule, u := Then(start, [], start, 1);
    schedule, u := Then(start, schedule, u, 1);
    schedule, u := Then(start, schedule, u, 1);
    schedule, u := Then(start, schedule, u, 1);
    schedule, u := Then(start, schedule, u, 1);
    schedule, u := Then(start, schedule, u, 1);
    schedule, u := Then(start, schedule, u, 1);
    forall more | OnTwoCores(more) ensures Run(u, more) == u {
      Hangs(u, more);
    }
  }

  lemma {:induction false} Hangs(u: Uart, more: seq<Choice>)
    requires WellFormed(u) && OnTwoCores(more)
    requires u.lock && u.cores[0].pc == Idle && u.cores[0].todo == [] && u.cores[1].pc.Cas?
    ensures Run(u, more) == u
    decreases |more|
  {
    if more != [] {
      assert Step(u, more[0]) == u;
      Hangs(u, more[1..]);
    }
  }
}
