/** The host-driven packet pipeline: a frame raises VM1's receive interrupt, VM1 forwards
    it on one channel, VM2 transmits it and acknowledges on the other, and VM1 drains the
    acknowledgements. */
module Pipeline {
  import opened Words
  import opened Ring
  import opened Channel

  const BURST := 128
  const MAX_LOOPS := 10_000_000

  const FORWARDED := Ascii("[ETH-MTU-1514] Received frame on VM1 e1000 NIC -> Forwarded by vm1-app via Unidirectional Port")
  const ACK := Ascii("[ACK] Egress complete")

  // ---- The pipeline on queues ----

  /** Where every packet is: still to be taken by VM1, forwarded, acknowledged, or done.
      `queued` counts the frames delivered so far. */
  datatype Pipe = Pipe(queued: nat, rx: bool, forwarded: seq<seq<u8>>, acks: seq<seq<u8>>, completed: nat)

  function Append(queue: seq<seq<u8>>, data: seq<u8>): seq<seq<u8>> {
    if |queue| < CAPACITY then queue + [Truncated(data)] else queue
  }

  function AppendAll(queue: seq<seq<u8>>, data: seq<u8>, n: nat): seq<seq<u8>>
    decreases n
  {
    if n == 0 then queue else AppendAll(Append(queue, data), data, n - 1)
  }

  datatype Step = Deliver | Vm1 | Vm2

  function Stepped(p: Pipe, s: Step): Pipe {
    match s
    case Deliver => if p.rx then p else p.(rx := true, queued := p.queued + 1)
    case Vm1 =>
      p.(rx := p.rx && |p.forwarded| >= CAPACITY,
         forwarded := if p.rx then Append(p.forwarded, FORWARDED) else p.forwarded,
         acks := [], completed := p.completed + |p.acks|)
    case Vm2 => p.(forwarded := [], acks := AppendAll(p.acks, ACK, |p.forwarded|))
  }

  function StepAll(p: Pipe, steps: seq<Step>): Pipe
    decreases |steps|
  {
    if steps == [] then p else StepAll(Stepped(p, steps[0]), steps[1..])
  }

  function InFlight(p: Pipe): nat { (if p.rx then 1 else 0) + |p.forwarded| + |p.acks| }

  predicate Conserved(p: Pipe) {
    p.queued == InFlight(p) + p.completed && |p.forwarded| + |p.acks| <= CAPACITY
  }

  lemma AppendIs(queue: seq<seq<u8>>, data: seq<u8>)
    ensures Append(queue, data) == if |queue| < CAPACITY then queue + [Truncated(data)] else queue
  {
  }

  lemma AppendAllStep(queue: seq<seq<u8>>, data: seq<u8>, n: nat)
    ensures AppendAll(queue, data, n) == if n == 0 then queue else AppendAll(Append(queue, data), data, n - 1)
  {
  }

  lemma {:induction false} AppendAllCount(queue: seq<seq<u8>>, data: seq<u8>, n: nat)
    requires |queue| <= CAPACITY
    ensures |AppendAll(queue, data, n)| == if |queue| + n <= CAPACITY then |queue| + n else CAPACITY
    decreases n
  {
    hide Append, Truncated;
    if n > 0 {
      AppendIs(queue, data);
      AppendAllCount(Append(queue, data), data, n - 1);
    }
  }

  lemma StepConserves(p: Pipe, s: Step)
    requires Conserved(p)
    ensures Conserved(Stepped(p, s))
  {
    hide Append, AppendAll, Truncated, Ascii;
    AppendIs(p.forwarded, FORWARDED);
    AppendAllCount(p.acks, ACK, |p.forwarded|);
  }

  /** Whatever order deliveries and VM steps come in, every frame delivered is in exactly
      one place, and both rings together never hold more than one ring's worth. */
  lemma {:induction false} PacketsConserved(p: Pipe, steps: seq<Step>)
    requires Conserved(p)
    ensures Conserved(StepAll(p, steps))
    decreases |steps|
  {
    hide Conserved, Stepped;
    if steps != [] {
      StepConserves(p, steps[0]);
      PacketsConserved(Stepped(p, steps[0]), steps[1..]);
    }
  }

  /** So no acknowledgement meets a full ring: VM2's step turns each forwarded packet into
      one acknowledgement. */
  lemma NoAckIsLost(p: Pipe, steps: seq<Step>)
    requires Conserved(p)
    ensures var q := StepAll(p, steps);
            |Stepped(q, Vm2).acks| == |q.acks| + |q.forwarded|
  {
    hide Append, AppendAll, Ascii;
    PacketsConserved(p, steps);
    AppendAllCount(StepAll(p, steps).acks, ACK, |StepAll(p, steps).forwarded|);
  }

  // ---- The objects ----

  /** The part of `VirtualMachine` the pipeline uses; `rx` is the receive bit of the
      interrupt-cause register. */
  class Partition {
    const id: nat
    var rx: bool
    var active: bool
    var launched: bool

    constructor (id: nat)
      ensures this.id == id && !rx && active && !launched
    {
      this.id := id;
      rx, active, launched := false, true, false;
    }

    /** `run_vcpu_step`: the guest runs, then the host moves packets on its behalf. */
    method RunVcpuStep(c1: UnidirectionalChannel, c2: UnidirectionalChannel, ghost a1: Abs, ghost a2: Abs)
      returns (completed: nat, ghost b1: Abs, ghost b2: Abs)
      requires c1 != c2 && c1.queue != c2.queue && c1.Valid() && c2.Valid()
      requires Represents(c1.View(), a1) && Represents(c2.View(), a2)
      modifies this`rx, this`launched, c1, c1.queue, c2, c2.queue
      ensures c1.Valid() && c2.Valid() && Represents(c1.View(), b1) && Represents(c2.View(), b2)
      ensures launched == (old(launched) || active)
      ensures !active ==> b1.pending == a1.pending && b2.pending == a2.pending && completed == 0 && rx == old(rx)
      ensures active && id == 0 ==>
                && rx == (old(rx) && |a1.pending| >= CAPACITY)
                && b1.pending == (if old(rx) then Append(a1.pending, FORWARDED) else a1.pending)
                && b2.pending == [] && completed == |a2.pending|
      ensures active && id != 0 ==>
                && rx == old(rx) && completed == 0
                && b1.pending == [] && b2.pending == AppendAll(a2.pending, ACK, |a1.pending|)
    {
      hide Represents, Append, AppendAll, Ascii;
      completed, b1, b2 := 0, a1, a2;
      if active {
        launched := true;
        if id == 0 {
          b1 := Forward(c1, b1);
          completed, b2 := DrainAcks(c2, b2);
        } else {
          b1, b2 := Transmit(c1, c2, b1, b2);
        }
      }
    }

    /** VM1 takes the pending frame, once, and puts the interrupt back if the ring is full. */
    method Forward(c: UnidirectionalChannel, ghost a: Abs) returns (ghost b: Abs)
      requires c.Valid() && Represents(c.View(), a)
      modifies this`rx, c, c.queue
      ensures c.Valid() && Represents(c.View(), b)
      ensures rx == (old(rx) && |a.pending| >= CAPACITY)
      ensures b.pending == if old(rx) then Append(a.pending, FORWARDED) else a.pending
    {
      hide Represents, Truncated, Ascii, SendAll, Holds;
      b := a;
      var i := 0;
      while i < BURST
        invariant i <= BURST && c.Valid() && Represents(c.View(), b)
        invariant if i == 0 || !old(rx) then b == a && rx == old(rx)
                  else !rx && |a.pending| < CAPACITY && b.pending == Append(a.pending, FORWARDED)
      {
        i := i + 1;
        if rx {
          rx := false;
          b := SendAllAppends(c.View(), b, FORWARDED);
          var sent := c.Send(FORWARDED);
          if !sent {
            rx := true;
            break;
          }
        } else {
          break;
        }
      }
    }

    /** VM1 receives until the acknowledgement ring is empty. */
    method DrainAcks(c: UnidirectionalChannel, ghost a: Abs) returns (completed: nat, ghost b: Abs)
      requires c.Valid() && Represents(c.View(), a)
      modifies c
      ensures c.Valid() && Represents(c.View(), b)
      ensures completed == |a.pending| && b.pending == []
    {
      hide Represents, RecvAll, Holds;
      completed, b := 0, a;
      var empty := c.IsEmpty();
      while !empty
        invariant c.Valid() && Represents(c.View(), b)
        invariant empty <==> b.pending == []
        invariant completed + |b.pending| == |a.pending|
        decreases |b.pending|
      {
        b := RecvAllTakes(c.View(), b);
        var ack := c.Recv();
        if ack.None? { break; }
        completed := completed + 1;
        empty := c.IsEmpty();
      }
    }

    /** VM2 receives up to a burst of packets and acknowledges each as it goes. */
    method Transmit(c1: UnidirectionalChannel, c2: UnidirectionalChannel, ghost a1: Abs, ghost a2: Abs)
      returns (ghost b1: Abs, ghost b2: Abs)
      requires c1 != c2 && c1.queue != c2.queue && c1.Valid() && c2.Valid()
      requires Represents(c1.View(), a1) && Represents(c2.View(), a2)
      modifies c1, c2, c2.queue
      ensures c1.Valid() && c2.Valid() && Represents(c1.View(), b1) && Represents(c2.View(), b2)
      ensures b1.pending == [] && b2.pending == AppendAll(a2.pending, ACK, |a1.pending|)
    {
      RingBound(c1.View(), a1);
      hide Represents, Truncated, Append, AppendAll, Ascii, UnidirectionalChannel.View, UnidirectionalChannel.Valid;
      b1, b2 := a1, a2;
      var i := 0;
      while i < BURST
        invariant i <= BURST && c1.Valid() && c2.Valid()
        invariant Represents(c1.View(), b1) && Represents(c2.View(), b2)
        invariant |b1.pending| + i == |a1.pending|
        invariant AppendAll(b2.pending, ACK, |b1.pending|) == AppendAll(a2.pending, ACK, |a1.pending|)
      {
        AppendAllStep(b2.pending, ACK, |b1.pending|);
        var more;
        more, b1, b2 := TransmitOne(c1, c2, b1, b2);
        if !more { break; }
        i := i + 1;
      }
    }

    method TransmitOne(c1: UnidirectionalChannel, c2: UnidirectionalChannel, ghost a1: Abs, ghost a2: Abs)
      returns (more: bool, ghost b1: Abs, ghost b2: Abs)
      requires c1 != c2 && c1.queue != c2.queue && c1.Valid() && c2.Valid()
      requires Represents(c1.View(), a1) && Represents(c2.View(), a2)
      modifies c1, c2, c2.queue
      ensures c1.Valid() && c2.Valid() && Represents(c1.View(), b1) && Represents(c2.View(), b2)
      ensures more <==> a1.pending != []
      ensures b1.pending == if more then a1.pending[1..] else []
      ensures b2.pending == if more then Append(a2.pending, ACK) else a2.pending
    {
      hide Represents, Truncated, Append, Ascii, SendAll, RecvAll, Holds;
      b1, b2 := a1, a2;
      var empty := c1.IsEmpty();
      if empty { return false, b1, b2; }
      b1 := RecvAllTakes(c1.View(), b1);
      var pkt := c1.Recv();
      if pkt.None? { return false, b1, b2; }
      b2 := Acknowledge(c2, b2);
      more := true;
    }

    method Acknowledge(c: UnidirectionalChannel, ghost a: Abs) returns (ghost b: Abs)
      requires c.Valid() && Represents(c.View(), a)
      modifies c, c.queue
      ensures c.Valid() && Represents(c.View(), b) && b.pending == Append(a.pending, ACK)
    {
      hide Represents, Truncated, Append, Ascii, SendAll, Holds;
      AppendIs(a.pending, ACK);
      b := SendAllAppends(c.View(), a, ACK);
      var sent := c.Send(ACK);
    }
  }

  lemma RingBound(r: Ring, a: Abs)
    requires Represents(r, a)
    ensures |a.pending| <= CAPACITY
  {
  }

  // ---- The main loop ----

  /** `Hypervisor::run`, for any target. The loop is cut off at `MAX_LOOPS`; it completes
      exactly the target, one round trip per turn after the first, when that is enough. */
  method Run(vm1: Partition, vm2: Partition, c1: UnidirectionalChannel, c2: UnidirectionalChannel,
             ghost a1: Abs, ghost a2: Abs, target: nat)
    returns (completed: nat, loops: nat, queued: nat, ghost b1: Abs, ghost b2: Abs)
    requires vm1 != vm2 && vm1.id == 0 && vm2.id == 1 && vm1.active && vm2.active && !vm1.rx
    requires c1 != c2 && c1.queue != c2.queue && c1.Valid() && c2.Valid()
    requires Represents(c1.View(), a1) && Represents(c2.View(), a2) && a1.pending == [] && a2.pending == []
    modifies vm1, vm2, c1, c1.queue, c2, c2.queue
    ensures c1.Valid() && c2.Valid() && Represents(c1.View(), b1) && Represents(c2.View(), b2)
    ensures queued == InFlight(Pipe(queued, vm1.rx, b1.pending, b2.pending, completed)) + completed
    ensures completed == target <==> target == 0 || target + 1 <= 10_000_000
    ensures completed == target ==> loops == (if target == 0 then 0 else target + 1)
    ensures target == 100_000 ==> completed == 100_000 && loops == 100_001
    ensures completed != target ==> loops == 10_000_000 && completed == 9_999_999
  {
    hide Represents, Append, AppendAll, Ascii;
    completed, loops, queued, b1, b2 := 0, 0, 0, a1, a2;
    while completed < target && loops < MAX_LOOPS
      invariant c1.Valid() && c2.Valid() && Represents(c1.View(), b1) && Represents(c2.View(), b2)
      invariant vm1.active && vm2.active && !vm1.rx && b1.pending == []
      invariant loops <= MAX_LOOPS && (target == 0 ==> loops == 0) && queued == |b2.pending| + completed
      invariant if loops == 0 then completed == 0 && b2.pending == []
                else completed == loops - 1 && completed <= target
                     && |b2.pending| == if completed < target then 1 else 0
      decreases MAX_LOOPS - loops
    {
      loops := loops + 1;
      if !vm1.rx {
        if queued < target {
          vm1.rx := true;
          queued := queued + 1;
        }
      }
      ghost var p := Pipe(queued, vm1.rx, b1.pending, b2.pending, completed);
      AppendIs([], FORWARDED);
      AppendAllCount([], ACK, if vm1.rx then 1 else 0);
      var done1, done2;
      done1, b1, b2 := vm1.RunVcpuStep(c1, c2, b1, b2);
      assert Stepped(p, Vm1) == Pipe(queued, vm1.rx, b1.pending, b2.pending, completed + done1);
      done2, b1, b2 := vm2.RunVcpuStep(c1, c2, b1, b2);
      completed := completed + done1 + done2;
      assert Stepped(Stepped(p, Vm1), Vm2) == Pipe(queued, vm1.rx, b1.pending, b2.pending, completed);
    }
  }
}
