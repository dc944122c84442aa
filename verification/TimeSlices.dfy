/** The host's side of the alternating run: it enters the two guests in turn, decides from
    the exits of each slice whether a guest is still runnable, and runs the trials of the
    throughput ladder one after the other. */
module TimeSlices {
  import opened Words
  import opened Ring
  import opened IpcLayout
  import opened GuestOps
  import opened Throughput
  import VmExit

  const VM1_ID: nat := 0
  const VM2_ID: nat := 1

  // ---- One slice: the guest's share and the host's ----

  /** One turn of a guest on the processor: whether the hardware refuses the entry, the
      exits at which the handler resumes it (characters, CPUID), and the two exits it can
      end in, the HLT of `guest_hlt` and the shutdown call. In its first turn the guest
      also makes the exits `before`, and then `ask`, the payload-length call. */
  datatype AnyVisit = AnyVisit(refused: bool, before: seq<VmExit.Exit>, ask: VmExit.Exit, calls: seq<VmExit.Exit>,
                               hlt: VmExit.Exit, shutdown: VmExit.Exit)

  predicate WellMade(v: AnyVisit) {
    && VmExit.Stays(v.before, false) && VmExit.Stays(v.calls, false)
    && v.ask.reason % 0x10000 == 18 && v.ask.gprs[0] == 0x202
    && v.hlt.reason % 0x10000 == 12
    && v.shutdown.reason % 0x10000 == 18 && v.shutdown.gprs[0] == 0x201
  }

  const ZEROS: VmExit.Gprs := seq(VmExit.GPRS, _ => 0)

  type Visit = v: AnyVisit | WellMade(v)
    witness AnyVisit(false, [], VmExit.Exit(18, 3, 0, ZEROS[0 := 0x202]), [],
                     VmExit.Exit(12, 1, 0, ZEROS), VmExit.Exit(18, 3, 0, ZEROS[0 := 0x201]))

  /** The rest of the slice, when the guest's own code ends it in HLT or in shutdown. */
  function Exits(v: Visit, running: bool): seq<VmExit.Exit> {
    v.calls + [if running then v.hlt else v.shutdown]
  }

  /** Outside concurrent mode the guest is resumed up to its payload-length call and after
      it; the slice ends at the guest's last exit and no earlier. */
  lemma SliceEndsAtLastExit(v: Visit, running: bool)
    ensures VmExit.Stays(v.before + [v.ask], false)
    ensures !VmExit.Stays(Exits(v, running), false)
    ensures VmExit.LastExit(Exits(v, running), false) == if running then v.hlt else v.shutdown
    ensures VmExit.ExitCause(v.hlt).Halt? && VmExit.ExitCause(v.shutdown).ShutdownCall?
  {
    var exits, first := Exits(v, running), v.before + [v.ask];
    assert exits[..|v.calls|] == v.calls && first[..|v.before|] == v.before && first[..|v.before| + 1] == first;
    VmExit.StaysSnoc(exits, |v.calls|, false);
    VmExit.StaysSnoc(first, |v.before|, false);
  }

  lemma AskShape(v: Visit)
    ensures v.ask.reason % 0x10000 == 18 && v.ask.gprs[0] == 0x202
  {
  }

  /** The guest asks for the payload length: the answer is the one the host has stored. */
  method Ask(gr: VmExit.GuestRun, v: Visit) returns (len: u64)
    requires gr.Valid() && !gr.concurrent && gr.slots[0].active.Some? && !gr.View().StopRequested(0)
    modifies gr
    ensures gr.Valid() && !gr.concurrent && gr.payloadLen == old(gr.payloadLen)
    ensures gr.slots[0].active == old(gr.slots[0].active) && !gr.View().StopRequested(0) && gr.rips == old(gr.rips)
    ensures len == gr.payloadLen
  {
    hide VmExit.Stays, VmExit.LastExit, VmExit.CauseOf, VmExit.Advanced, VmExit.Answer, WellMade, Exits;
    SliceEndsAtLastExit(v, true);
    AskShape(v);
    VmExit.PayloadLenAnswer(v.ask, gr.payloadLen, false);
    var resume, answers := gr.Serve(0, v.before + [v.ask]);
    len := answers[|v.before|][0];
  }

  /** The host's share of the rest: it is told that the guest is still runnable exactly when
      the guest's code ended the slice in HLT. */
  method Leave(gr: VmExit.GuestRun, v: Visit, running: bool) returns (r: VmExit.Slice)
    requires gr.Valid() && !gr.concurrent && gr.slots[0].active.Some? && !gr.View().StopRequested(0)
    modifies gr
    ensures gr.Valid() && !gr.concurrent && gr.payloadLen == old(gr.payloadLen)
    ensures r == if running then VmExit.Runnable else VmExit.NotRunnable
    ensures var vm := old(gr.slots[0].active.value); gr.rips == old(gr.rips)[vm := gr.Rip(vm)]
  {
    hide VmExit.Stays, VmExit.LastExit, VmExit.CauseOf, VmExit.Advanced, VmExit.Answer, WellMade, Exits;
    SliceEndsAtLastExit(v, running);
    var resume, answers := gr.Serve(0, Exits(v, running));
    r := gr.EndSlice(0, false);
  }

  /** VM1's slice of round `k`, from entry to the end: in the first one it asks for the
      payload length and starts afresh with the answer. */
  method Vm1Slice(gr: VmExit.GuestRun, vm1: Vm1, mem: array<u8>, v: Visit, first: bool,
                  ghost len: nat, ghost k: nat, ghost acks: u64)
    returns (r: VmExit.Slice)
    requires gr.Valid() && !gr.concurrent && len == gr.payloadLen && 1 <= len <= MAX_PACKET_LEN && first == (k == 0)
    requires MemAt(mem[..], Moved(vm1.target, k), [], acks) && (!first ==> Vm1At(vm1, len, Moved(vm1.target, k)))
    modifies gr, vm1, mem
    ensures gr.Valid() && !gr.concurrent && gr.payloadLen == old(gr.payloadLen)
    ensures r == if v.refused then VmExit.EntryFailed
                 else if k < Bursts(vm1.target) then VmExit.Runnable else VmExit.NotRunnable
    ensures gr.rips == old(gr.rips)[0 := gr.Rip(0)]
    ensures !v.refused ==> Vm1At(vm1, len, Moved(vm1.target, k + 1))
    ensures !v.refused ==> MemAt(mem[..], Moved(vm1.target, k), Burst(vm1.target, len, k), acks)
  {
    hide MemAt, Burst, WellMade, Bursts, Payload;
    gr.BeginSlice(0, VM1_ID);
    if v.refused {
      r := gr.EndSlice(0, true);
      return;
    }
    if first {
      PayloadLenAgreed(gr.payloadLen);
      var answer := Ask(gr, v);
      vm1.Start(answer);
    }
    var running := SendBurst(vm1, mem, len, k, acks);
    r := Leave(gr, v, running);
  }

  /** VM2's slice of round `k`, likewise. */
  method Vm2Slice(gr: VmExit.GuestRun, vm2: Vm2, mem: array<u8>, v: Visit, first: bool,
                  ghost len: nat, ghost k: nat, ghost acks: u64)
    returns (r: VmExit.Slice)
    requires gr.Valid() && !gr.concurrent && len == gr.payloadLen && 1 <= len <= MAX_PACKET_LEN && first == (k == 0)
    requires MemAt(mem[..], Moved(vm2.target, k), Burst(vm2.target, len, k), acks)
    requires !first ==> Vm2At(vm2, len, Moved(vm2.target, k))
    modifies gr, vm2, mem
    ensures gr.Valid() && !gr.concurrent && gr.payloadLen == old(gr.payloadLen)
    ensures r == if v.refused then VmExit.EntryFailed
                 else if k < Bursts(vm2.target) then VmExit.Runnable else VmExit.NotRunnable
    ensures gr.rips == old(gr.rips)[1 := gr.Rip(1)]
    ensures !v.refused ==> Vm2At(vm2, len, Moved(vm2.target, k + 1)) && MemAt(mem[..], Moved(vm2.target, k + 1), [], acks)
  {
    hide MemAt, Burst, WellMade, Bursts, Payload;
    gr.BeginSlice(0, VM2_ID);
    if v.refused {
      r := gr.EndSlice(0, true);
      return;
    }
    if first {
      PayloadLenAgreed(gr.payloadLen);
      var answer := Ask(gr, v);
      vm2.Start(answer);
      assert vm2.taken == Repeat(Payload(len), 0);
    }
    var running := TakeBurst(vm2, mem, len, k, acks);
    r := Leave(gr, v, running);
  }

  // ---- The slice loop ----

  /** Both guests' visits of one round. */
  datatype RoundVisits = RoundVisits(vm1: Visit, vm2: Visit)
  {
    predicate Refused() { vm1.refused || vm2.refused }
  }

  /** The hardware refuses an entry in one of the first `n` rounds. */
  predicate AnyRefused(visits: nat -> RoundVisits, n: nat) {
    exists k: nat | k < n :: visits(k).Refused()
  }

  /** The body of the slice loop, entered with neither guest done: the host finds both
      still runnable and the next burst moved, or, everything moved, both shut down. */
  method Round(gr: VmExit.GuestRun, vm1: Vm1, vm2: Vm2, mem: array<u8>, done1: bool, done2: bool, v: RoundVisits,
               first: bool, ghost len: nat, ghost k: nat, ghost acks: u64)
    returns (failed: bool, done1': bool, done2': bool)
    requires BeforeRound(vm1, vm2, mem[..], len, k, acks) && !done1 && !done2 && first == (k == 0)
    requires gr.Valid() && !gr.concurrent && len == gr.payloadLen && 1 <= len <= MAX_PACKET_LEN
    modifies gr, vm1, vm2, mem
    ensures gr.Valid() && !gr.concurrent && gr.payloadLen == old(gr.payloadLen)
    ensures failed <==> v.Refused()
    ensures !failed ==> done1' == done2' == (k >= Bursts(vm1.target))
    ensures !failed ==> BeforeRound(vm1, vm2, mem[..], len, k + 1, acks)
  {
    hide MemAt, Vm1At, Vm2At, Burst, WellMade, Bursts, Moved;
    failed, done1', done2' := false, done1, done2;
    if !done1 {
      var r := Vm1Slice(gr, vm1, mem, v.vm1, first, len, k, acks);
      if r.EntryFailed? {
        return true, done1', done2';
      }
      done1' := r.NotRunnable?;
    }
    if !done2 {
      var r := Vm2Slice(gr, vm2, mem, v.vm2, first, len, k, acks);
      if r.EntryFailed? {
        return true, done1', done2';
      }
      done2' := r.NotRunnable?;
    }
  }

  /** The alternating slice loop succeeds exactly when `ceil(target / 16) + 1` rounds fit
      in its slice budget and the hardware refuses no entry in them; it then takes exactly
      that many, every packet has been taken, in order and with its bytes, and both indices
      the host reads back equal the target. The guests' memory may hold anything: each
      starts with the payload length the handler answers it. */
  method RunUntilBothShutdown(gr: VmExit.GuestRun, vm1: Vm1, vm2: Vm2, mem: array<u8>, visits: nat -> RoundVisits)
    returns (ok: bool, slices: nat)
    requires vm1.target == vm2.target && QueueAt(mem[..], 0, [])
    requires gr.Valid() && !gr.concurrent && 1 <= gr.payloadLen <= MAX_PACKET_LEN
    modifies gr, vm1, vm2, mem
    ensures mem.Length >= IPC_SIZE
    ensures gr.Valid() && !gr.concurrent && gr.payloadLen == old(gr.payloadLen)
    ensures ok <==> Bursts(vm1.target) + 1 <= 50_000_000 && !AnyRefused(visits, Bursts(vm1.target) + 1)
    ensures ok ==> slices == Bursts(vm1.target) + 1
    ensures ok ==> vm1.sent == vm1.target && vm2.received == vm1.target
    ensures ok ==> Read64(mem[..], TAIL_OFFSET) == vm1.target && Read64(mem[..], HEAD_OFFSET) == vm1.target
    ensures ok ==> AsSent(vm2.taken, vm1.target, gr.payloadLen)
    ensures ok ==> AckRing(mem[..]).tail == Wrap(old(AckRing(mem[..])).tail + vm1.target)
  {
    hide QueueAt, BeforeRound, AckRing, Wrap, Read64, Payload, Repeat, WellMade, Bursts, AsSent;
    ghost var len := gr.payloadLen;
    RunStarts(vm1, vm2, mem[..], len);
    var done1, done2 := false, false;
    slices := 0;
    ghost var acks := AckRing(mem[..]).tail;
    while (!done1 || !done2) && slices < MAX_SLICES
      invariant mem.Length >= IPC_SIZE && slices <= MAX_SLICES && slices <= Bursts(vm1.target) + 1
      invariant done1 == done2 == (slices == Bursts(vm1.target) + 1)
      invariant BeforeRound(vm1, vm2, mem[..], len, slices, acks)
      invariant !AnyRefused(visits, slices)
      invariant gr.Valid() && !gr.concurrent && gr.payloadLen == len
      decreases MAX_SLICES - slices
    {
      slices := slices + 1;
      var failed;
      failed, done1, done2 :=
        Round(gr, vm1, vm2, mem, done1, done2, visits(slices - 1), slices == 1, len, slices - 1, acks);
      if failed {
        return false, slices;
      }
    }
    ok := done1 && done2;
    RunEnds(vm1, vm2, mem[..], len, slices, acks);
  }

  // ---- The ladder of trials ----

  const THROUGHPUT_TARGET_PACKETS: u64 := 10_000
  const PAYLOAD_SIZES: seq<u64> := [64, 256, 512, 1024, 1514]

  /** Each trial delivers all its packets with their bytes. */
  ghost predicate Delivered(delivered: seq<seq<Bytes>>, sizes: seq<u64>, target: nat) {
    |delivered| == |sizes| && forall i | 0 <= i < |sizes| :: AsSent(delivered[i], target, TrialPayloadLen(sizes[i]))
  }

  /** One run of `target` packets fits in the budget, and no entry in it is refused. */
  predicate Completes(target: nat, visits: nat -> RoundVisits) {
    Bursts(target) + 1 <= 50_000_000 && !AnyRefused(visits, Bursts(target) + 1)
  }

  /** One trial of `run_dual_partitions`: a fresh region, guests started again in memory
      that keeps their caches, with the payload length the host answers them, the run,
      and the count check on the two indices. */
  method RunTrial(gr: VmExit.GuestRun, vm1: Vm1, vm2: Vm2, mem: array<u8>, size: u64, visits: nat -> RoundVisits,
                  name0: (u64, u64), name1: (u64, u64))
    returns (ok: bool)
    requires mem.Length >= IPC_SIZE && vm1.target == vm2.target && gr.Valid() && !gr.concurrent
    modifies gr, vm1, vm2, mem
    ensures gr.Valid() && !gr.concurrent
    ensures ok <==> Completes(vm1.target, visits)
    ensures ok ==> |vm2.taken| == vm1.target
    ensures ok ==> forall j | 0 <= j < vm1.target ::
              |vm2.taken[j]| == TrialPayloadLen(size) && forall k | 0 <= k < |vm2.taken[j]| :: vm2.taken[j][k] == k % 256
    ensures ok ==> Read64(mem[..], TAIL_OFFSET) == Read64(mem[..], HEAD_OFFSET) == vm1.target
  {
    hide QueueAt, AckRing, Wrap, Read64, Payload, Represents, RingAt, AnyRefused, WellMade;
    InitIpc(mem, name0, name1);
    FreshQueue(mem[..]);
    gr.SetTrialPayloadLen(size);
    gr.launched := gr.launched - {VM1_ID, VM2_ID};
    var slices;
    ok, slices := RunUntilBothShutdown(gr, vm1, vm2, mem, visits);
    if ok {
      var sent := Load64(mem, TAIL_OFFSET);
      var recv := Load64(mem, HEAD_OFFSET);
      if sent != vm1.target || recv != vm1.target {
        ok := false;
      }
    }
  }

  /** The trials of a ladder of sizes, one after the other. Every trial passes its count
      check and delivers its packets in order, from any memory and any guest caches,
      exactly when each run completes. */
  method RunTrials(gr: VmExit.GuestRun, vm1: Vm1, vm2: Vm2, mem: array<u8>, sizes: seq<u64>,
                   visits: nat -> nat -> RoundVisits, name0: (u64, u64), name1: (u64, u64))
    returns (ok: bool, ghost delivered: seq<seq<Bytes>>)
    requires mem.Length >= IPC_SIZE && vm1.target == vm2.target && gr.Valid() && !gr.concurrent
    modifies gr, vm1, vm2, mem
    ensures ok <==> forall i | 0 <= i < |sizes| :: Completes(vm1.target, visits(i))
    ensures ok ==> Delivered(delivered, sizes, vm1.target)
    ensures ok && sizes != [] ==> Read64(mem[..], TAIL_OFFSET) == Read64(mem[..], HEAD_OFFSET) == vm1.target
  {
    hide Read64, Completes, WellMade;
    ok, delivered := true, [];
    for i := 0 to |sizes|
      invariant gr.Valid() && !gr.concurrent
      invariant |delivered| == i && forall j | 0 <= j < i :: AsSent(delivered[j], vm1.target, TrialPayloadLen(sizes[j]))
      invariant forall j | 0 <= j < i :: Completes(vm1.target, visits(j))
      invariant i > 0 ==> Read64(mem[..], TAIL_OFFSET) == Read64(mem[..], HEAD_OFFSET) == vm1.target
    {
      var passed := RunTrial(gr, vm1, vm2, mem, sizes[i], visits(i), name0, name1);
      if !passed {
        return false, delivered;
      }
      assert AsSent(vm2.taken, vm1.target, TrialPayloadLen(sizes[i]));
      delivered := delivered + [vm2.taken];
    }
  }

  /** The configured target fits the budget: only a refused entry in its 626 rounds can
      stop a trial. */
  lemma ConfiguredTargetFits(visits: nat -> RoundVisits)
    ensures Completes(THROUGHPUT_TARGET_PACKETS, visits) <==> !AnyRefused(visits, 626)
  {
    hide AnyRefused;
  }

  /** The configured ladder: all five trials pass, with both indices the host compares at
      the target, exactly when the hardware refuses no entry. */
  method RunConfiguredLadder(gr: VmExit.GuestRun, vm1: Vm1, vm2: Vm2, mem: array<u8>,
                             visits: nat -> nat -> RoundVisits, name0: (u64, u64), name1: (u64, u64))
    returns (ok: bool, ghost delivered: seq<seq<Bytes>>)
    requires mem.Length >= IPC_SIZE && vm1.target == vm2.target == THROUGHPUT_TARGET_PACKETS
    requires gr.Valid() && !gr.concurrent
    modifies gr, vm1, vm2, mem
    ensures ok <==> forall i | 0 <= i < 5 :: !AnyRefused(visits(i), 626)
    ensures ok ==> Delivered(delivered, [64, 256, 512, 1024, 1514], 10_000)
    ensures ok ==> Read64(mem[..], TAIL_OFFSET) == Read64(mem[..], HEAD_OFFSET) == THROUGHPUT_TARGET_PACKETS
  {
    hide AnyRefused, Completes, Read64, Delivered, WellMade;
    forall i: nat ensures Completes(THROUGHPUT_TARGET_PACKETS, visits(i)) <==> !AnyRefused(visits(i), 626) {
      ConfiguredTargetFits(visits(i));
    }
    ok, delivered := RunTrials(gr, vm1, vm2, mem, PAYLOAD_SIZES, visits, name0, name1);
  }
}
