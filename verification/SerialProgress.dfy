/** That the UART line lock is given back: a core between lines holds nothing, and from
    every reachable state both cores can run their programs to the end. The second core
    does nothing on the UART before it runs on its own stack. */
module SerialProgress {
  import opened Words
  import opened Serial
  import opened SerialOutput

  // ---- The lock is held only inside a line ----

  /** The operation leaves its core inside a line. */
  predicate Opens(op: Op) { op.Begin? || (op.Host? && op.b != LF) }

  predicate OpenMatches(c: Core) {
    match c.pc
    case Idle => true
    case LoadOwner(op) => c.open == Opens(op) && !op.End? && !op.Switch?
    case Cas(op) => c.open == Opens(op) && !op.End? && !op.Switch?
    case StoreOwner(op) => c.open == Opens(op) && !op.End? && !op.Switch?
    case Emit(_, release) => c.open == !release
    case ClearOwner => !c.open
    case ClearLock => !c.open
  }

  predicate HeldInside(u: Uart, i: nat)
    requires WellFormed(u) && i < 2
  {
    OpenMatches(u.cores[i]) && (u.cores[i].pc == Idle && u.owner == Some(i) ==> u.cores[i].open)
  }

  predicate LockInv(u: Uart)
    requires WellFormed(u)
  {
    WaitInv(u) && HeldInside(u, 0) && HeldInside(u, 1)
  }

  lemma MoverStaysInside(u: Uart, c: Choice)
    requires WellFormed(u) && c.i < 2 && LockInv(u)
    ensures HeldInside(Step(u, c), c.i)
  {
    hide QuietEarly, HostBytes, GuestBytes;
  }

  lemma OtherStaysInside(u: Uart, c: Choice)
    requires WellFormed(u) && c.i < 2 && LockInv(u)
    ensures HeldInside(Step(u, c), 1 - c.i)
  {
    hide QuietEarly, Owned;
  }

  lemma StepKeepsLock(u: Uart, c: Choice)
    requires WellFormed(u) && c.i < 2 && LockInv(u)
    ensures LockInv(Step(u, c))
  {
    hide Step, WaitInv, HeldInside;
    StepKeepsWait(u, c);
    MoverStaysInside(u, c);
    OtherStaysInside(u, c);
    assert c.i == 0 || c.i == 1;
  }

  lemma {:induction false} RunKeepsLock(u: Uart, schedule: seq<Choice>)
    requires WellFormed(u) && OnTwoCores(schedule) && LockInv(u)
    ensures LockInv(Run(u, schedule))
    decreases |schedule|
  {
    hide Step, LockInv;
    if schedule != [] {
      StepKeepsLock(u, schedule[0]);
      RunKeepsLock(Step(u, schedule[0]), schedule[1..]);
    }
  }

  lemma StartsUnlocked(p0: seq<Op>, p1: seq<Op>)
    requires SilentEarly(p1)
    ensures LockInv(Start(p0, p1))
  {
  }

  /** In every run a core that is between operations and not inside a line does not have
      the lock, and when this is so of both cores it is free. */
  lemma NoLockBetweenLines(p0: seq<Op>, p1: seq<Op>, schedule: seq<Choice>, i: nat)
    requires OnTwoCores(schedule) && i < 2 && SilentEarly(p1)
    ensures var u := Run(Start(p0, p1), schedule);
            && (u.cores[i].pc == Idle && !u.cores[i].open ==> !Owns(u, i))
            && (u.cores[0].pc == u.cores[1].pc == Idle && !u.cores[0].open && !u.cores[1].open ==> !u.lock)
  {
    hide Run;
    StartsUnlocked(p0, p1);
    RunKeepsLock(Start(p0, p1), schedule);
  }

  // ---- Both programs can always be finished ----

  /** Whether the operations leave the core inside a line. */
  function OpenEnd(ops: seq<Op>, open: bool): bool
    decreases |ops|
  {
    if ops == [] then open else OpenEnd(ops[1..], OpenAfter(ops[0], open))
  }

  function Size(op: Op): nat {
    match op
    case Host(_) => 2
    case Guest(_, line) => |Escaped(line)| + 11
    case _ => 0
  }

  function PcWork(pc: Pc): nat {
    match pc
    case Idle => 0
    case LoadOwner(op) => Size(op) + 6
    case Cas(op) => Size(op) + 5
    case StoreOwner(op) => Size(op) + 4
    case Emit(bytes, _) => |bytes| + 3
    case ClearOwner => 2
    case ClearLock => 1
  }

  function TodoWork(ops: seq<Op>): nat
    decreases |ops|
  {
    if ops == [] then 0 else Size(ops[0]) + 7 + TodoWork(ops[1..])
  }

  function Work(c: Core): nat { PcWork(c.pc) + TodoWork(c.todo) }

  lemma OwnedWork(id: nat, op: Op)
    ensures PcWork(Owned(id, op, false)) <= Size(op) + 3
  {
  }

  /** A core that has the lock, or finds it free, gets on with its work. */
  lemma StepsOn(u: Uart, i: nat)
    requires WellFormed(u) && i < 2 && LockInv(u) && (u.lock ==> Owns(u, i)) && !Finished(u.cores[i])
    ensures var v := Step(u, Choice(i, false));
            && Work(v.cores[i]) < Work(u.cores[i]) && v.cores[1 - i] == u.cores[1 - i]
            && OpenEnd(v.cores[i].todo, v.cores[i].open) == OpenEnd(u.cores[i].todo, u.cores[i].open)
  {
    hide QuietEarly, Owned, Size, QuietCore, TurnsWhole;
    var me := u.cores[i];
    match me.pc
    case LoadOwner(op) => OwnedWork(me.id, op);
    case StoreOwner(op) => OwnedWork(me.id, op);
    case _ =>
  }

  /** Its steps leave the lock with it or free. */
  lemma LockStaysOurs(u: Uart, i: nat)
    requires WellFormed(u) && i < 2 && LockInv(u) && (u.lock ==> Owns(u, i))
    ensures var v := Step(u, Choice(i, false)); v.lock ==> Owns(v, i)
  {
    hide QuietEarly, Owned;
    assert LockInv(Step(u, Choice(i, false))) by { StepKeepsLock(u, Choice(i, false)); }
  }

  lemma {:induction false} RunsToTheEnd(u: Uart, i: nat) returns (more: seq<Choice>)
    requires WellFormed(u) && i < 2 && LockInv(u) && (u.lock ==> Owns(u, i))
    requires !OpenEnd(u.cores[i].todo, u.cores[i].open)
    ensures OnTwoCores(more)
    ensures var v := Run(u, more);
            LockInv(v) && Finished(v.cores[i]) && v.cores[1 - i] == u.cores[1 - i] && !v.lock
    decreases Work(u.cores[i])
  {
    hide Step, LockInv, Work;
    if Finished(u.cores[i]) {
      more := [];
      GivenBack(u, i);
    } else {
      var c := Choice(i, false);
      StepsOn(u, i);
      LockStaysOurs(u, i);
      StepKeepsLock(u, c);
      var rest := RunsToTheEnd(Step(u, c), i);
      more := [c] + rest;
      assert more[1..] == rest;
    }
  }

  lemma GivenBack(u: Uart, i: nat)
    requires WellFormed(u) && i < 2 && LockInv(u) && (u.lock ==> Owns(u, i))
    requires Finished(u.cores[i]) && !OpenEnd(u.cores[i].todo, u.cores[i].open)
    ensures !u.lock
  {
  }

  lemma EndStays(u: Uart, schedule: seq<Choice>, i: nat)
    requires WellFormed(u) && OnTwoCores(schedule) && i < 2
    ensures var v := Run(u, schedule);
            OpenEnd(v.cores[i].todo, v.cores[i].open) == OpenEnd(u.cores[i].todo, u.cores[i].open)
    decreases |schedule|
  {
    hide Step, OpenEnd;
    if schedule != [] {
      EndStep(u, schedule[0], i);
      EndStays(Step(u, schedule[0]), schedule[1..], i);
    }
  }

  lemma EndStep(u: Uart, c: Choice, i: nat)
    requires WellFormed(u) && c.i < 2 && i < 2
    ensures var v := Step(u, c);
            OpenEnd(v.cores[i].todo, v.cores[i].open) == OpenEnd(u.cores[i].todo, u.cores[i].open)
  {
    hide Owned;
  }

  lemma RunAppend(u: Uart, first: seq<Choice>, second: seq<Choice>)
    requires WellFormed(u) && OnTwoCores(first) && OnTwoCores(second)
    ensures OnTwoCores(first + second) && Run(u, first + second) == Run(Run(u, first), second)
    decreases |first|
  {
    hide Step;
    if first == [] {
      assert first + second == second;
    } else {
      assert (first + second)[1..] == first[1..] + second;
      RunAppend(Step(u, first[0]), first[1..], second);
    }
  }

  /** No interleaving gets stuck: if both programs end outside a line, then after any
      schedule some continuation finishes both, and leaves the lock free. */
  lemma BothCanFinish(p0: seq<Op>, p1: seq<Op>, schedule: seq<Choice>) returns (more: seq<Choice>)
    requires OnTwoCores(schedule) && SilentEarly(p1) && !OpenEnd(p0, false) && !OpenEnd(p1, false)
    ensures OnTwoCores(more)
    ensures var v := Run(Run(Start(p0, p1), schedule), more);
            Finished(v.cores[0]) && Finished(v.cores[1]) && !v.lock
  {
    hide Run, OpenEnd, LockInv, SilentEarly;
    var start := Start(p0, p1);
    StartsUnlocked(p0, p1);
    RunKeepsLock(start, schedule);
    EndStays(start, schedule, 0);
    EndStays(start, schedule, 1);
    var u := Run(start, schedule);
    var i := FirstToRun(u);
    var first := RunsToTheEnd(u, i);
    var second := RunsToTheEnd(Run(u, first), 1 - i);
    RunAppend(u, first, second);
    more := first + second;
  }

  /** The lock is free or some core's, and that core can go first. */
  lemma FirstToRun(u: Uart) returns (i: nat)
    requires WellFormed(u) && LockInv(u)
    ensures i < 2 && (u.lock ==> Owns(u, i))
  {
    i := if Owns(u, 1) then 1 else 0;
  }
}
