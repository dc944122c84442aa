/** The VM-exit handler: per-pCPU exit state, register patches on the saved guest
    stack, and the time slice that ends in one exit the handler does not resume. */
module VmExit {
  import opened Words
  import opened Bits
  import Throughput

  const PUTCHAR: u64 := 0x200
  const SHUTDOWN: u64 := 0x201
  const GET_PAYLOAD_LEN: u64 := 0x202

  const CPUID_EXIT := 10
  const HLT_EXIT := 12
  const VMCALL_EXIT := 18

  const GPRS := 15
  const GUEST_ENTRY: u64 := 0x1000
  const NO_RESULT: u64 := 0xFFFF_FFFF_FFFF_FFFF

  /** The guest registers as the exit stub stacks them: rax, rcx, rdx, rbx first. */
  type Gprs = s: seq<u64> | |s| == GPRS witness seq(GPRS, _ => 0)

  /** What the hardware reports at one exit, with the guest's registers. */
  datatype Exit = Exit(reason: nat, instLen: u64, rip: u64, gprs: Gprs)

  // ---- What an exit asks for ----

  datatype Cause =
    | Putchar(c: u8)
    | PayloadLen
    | ShutdownCall
    | UnknownCall
    | Halt
    | Cpuid(leaf: u64)
    | Fatal

  /** rax and rcx arrive swapped under a nested hypervisor; the handler undoes it when
      rcx holds the putchar number and rax none of the three numbers, at every exit. */
  function Oriented(rax: u64, rcx: u64): (u64, u64) {
    if rcx == PUTCHAR && rax != PUTCHAR && rax != SHUTDOWN && rax != GET_PAYLOAD_LEN
    then (rcx, rax)
    else (rax, rcx)
  }

  function CauseOf(reason: nat, rax: u64, rcx: u64): Cause {
    var (a, c) := Oriented(rax, rcx);
    if reason % 0x10000 == VMCALL_EXIT then
      if a == PUTCHAR then Putchar(c % 0x100)
      else if a == GET_PAYLOAD_LEN then PayloadLen
      else if a == SHUTDOWN then ShutdownCall
      else UnknownCall
    else if reason % 0x10000 == HLT_EXIT then Halt
    else if reason % 0x10000 == CPUID_EXIT then Cpuid(a)
    else Fatal
  }

  function ExitCause(e: Exit): Cause { CauseOf(e.reason, e.gprs[0], e.gprs[1]) }

  predicate Resumes(c: Cause, concurrent: bool) {
    match c
    case ShutdownCall => false
    case Halt => concurrent
    case Fatal => false
    case _ => true
  }

  /** The CPUID table, as eax, ebx, ecx, edx. */
  function CpuidTable(leaf: u64): (u64, u64, u64, u64) {
    if leaf == 0 then (0x1, 0x7370_7948, 0x4872_6574, 0x2020_2056)
    else if leaf == 1 then (0x8_06E9, 0, 0x200, 0x600_0000)
    else if leaf == 0x8000_0000 then (0x8000_0001, 0, 0, 0)
    else if leaf == 0x8000_0001 then (0, 0, 0, 0x2000_0000)
    else (0, 0, 0, 0)
  }

  /** The guest registers after the exit. */
  function Answer(c: Cause, gprs: Gprs, payloadLen: u64): Gprs {
    match c
    case PayloadLen => gprs[0 := payloadLen]
    case Cpuid(leaf) =>
      var (a, b, c, d) := CpuidTable(leaf);
      gprs[0 := a][1 := c][2 := d][3 := b]
    case _ => gprs
  }

  function Advanced(c: Cause, rip: u64, instLen: u64): u64 {
    if c.Fatal? then rip else Wrap(rip + (if instLen < 1 then 1 else instLen))
  }

  // ---- The two pCPUs ----

  /** One pCPU's entry of every per-pCPU static, and the guest RIP of its current VMCS. */
  datatype Slot = Slot(active: Option<nat>, stop: bool, failed: u64, savedRax: u64, savedRcx: u64,
                       cpuidPending: bool, cpuid: (u64, u64, u64, u64),
                       raxPending: bool, raxValue: u64, rip: u64)

  /** `stopRequested` is the second copy of pCPU 0's stop flag; `launched` names the VMs
      whose VCPU has been entered. */
  datatype Monitor = Monitor(bsp: Slot, ap: Slot, stopRequested: bool, payloadLen: u64, concurrent: bool,
                             releaseApOnExit: bool, bspWaiting: bool, launched: set<nat>)
  {
    function SlotOf(p: nat): Slot { if p == 0 then bsp else ap }

    function WithSlot(p: nat, s: Slot): Monitor { if p == 0 then this.(bsp := s) else this.(ap := s) }

    predicate StopRequested(p: nat) { SlotOf(p).stop || (p == 0 && stopRequested) }

    predicate NothingPending() {
      !bsp.cpuidPending && !bsp.raxPending && !ap.cpuidPending && !ap.raxPending
    }
  }

  /** What leaves the handler: whether the guest is resumed, the registers it is resumed
      with, and a character for the guest console. Without a resume there are none: the
      stub drops all fifteen, and the next entry finds the host's values in them. */
  datatype Reply = Reply(resume: bool, gprs: Option<Gprs>, console: Option<u8>)

  function Kept(resume: bool, gprs: Gprs): Option<Gprs> { if resume then Some(gprs) else None }

  /** One exit, on the slot of the pCPU it happens on. */
  function ServedSlot(s: Slot, e: Exit, concurrent: bool, payloadLen: u64): (Slot, Reply) {
    if s.active.None? then (s.(rip := e.rip, savedRax := e.gprs[0], savedRcx := e.gprs[1]), Reply(false, None, None)) else
    var c := ExitCause(e);
    var resume := Resumes(c, concurrent);
    (s.(stop := s.stop || c.ShutdownCall?,
        failed := if resume then s.failed else 0,
        savedRax := e.gprs[0], savedRcx := e.gprs[1],
        cpuid := if c.Cpuid? then CpuidTable(c.leaf) else s.cpuid,
        raxValue := if c.PayloadLen? then payloadLen else s.raxValue,
        rip := Advanced(c, e.rip, e.instLen)),
     Reply(resume, Kept(resume, Answer(c, e.gprs, payloadLen)), if c.Putchar? then Some(c.c) else None))
  }

  /** One exit on pCPU `p`: its slot, and the few flags the pCPUs share. */
  function Served(m: Monitor, p: nat, e: Exit): (Monitor, Reply) {
    var s := m.SlotOf(p);
    var (s', reply) := ServedSlot(s, e, m.concurrent, m.payloadLen);
    var n := m.WithSlot(p, s');
    if s.active.None? then (n, reply) else
    (n.(stopRequested := m.stopRequested || (p == 0 && ExitCause(e).ShutdownCall?),
        releaseApOnExit := m.releaseApOnExit && p != 0,
        bspWaiting := m.bspWaiting || (p == 0 && m.releaseApOnExit),
        launched := m.launched + {s.active.value}),
     reply)
  }

  /** How a slice ends. `Parked` is an AP whose guest has shut down: it does not return. */
  datatype Slice = EntryFailed | InGuest | Runnable | NotRunnable | Parked

  /** Every exit in the list is resumed. */
  predicate Stays(exits: seq<Exit>, concurrent: bool) {
    exits == [] || (Resumes(ExitCause(exits[0]), concurrent) && Stays(exits[1..], concurrent))
  }

  /** The first exit that is not resumed. */
  function LastExit(exits: seq<Exit>, concurrent: bool): Exit
    requires !Stays(exits, concurrent)
  {
    if Resumes(ExitCause(exits[0]), concurrent) then LastExit(exits[1..], concurrent) else exits[0]
  }

  /** The exit statics as one object, driven from either pCPU. */
  class GuestRun {
    var slots: seq<Slot>
    var stopRequested: bool
    var payloadLen: u64
    var concurrent: bool
    var releaseApOnExit: bool
    var bspWaiting: bool
    var launched: set<nat>
    /** The guest RIP each VM's VMCS holds while it is not the current one. */
    var rips: map<nat, u64>

    function Rip(vm: nat): u64 reads this { if vm in rips then rips[vm] else 0 }

    ghost predicate TwoSlots() reads this { |slots| == 2 }

    ghost function View(): Monitor
      reads this
      requires TwoSlots()
    {
      Monitor(slots[0], slots[1], stopRequested, payloadLen, concurrent, releaseApOnExit, bspWaiting, launched)
    }

    /** Between exits no register patch is outstanding on either pCPU. */
    ghost predicate Valid() reads this { TwoSlots() && View().NothingPending() }

    constructor ()
      ensures Valid() && !concurrent && !releaseApOnExit && payloadLen == 64
      ensures forall p | p == 0 || p == 1 :: !View().StopRequested(p) && View().SlotOf(p).active.None?
    {
      var s := Slot(None, false, 0, 0, 0, false, (0, 0, 0, 0), false, 0, 0);
      slots := [s, s];
      stopRequested, payloadLen, concurrent := false, 64, false;
      releaseApOnExit, bspWaiting, launched, rips := false, false, {}, map[];
    }

    method SetTrialPayloadLen(len: u64)
      modifies this`payloadLen
      ensures payloadLen == Throughput.TrialPayloadLen(len)
    {
      payloadLen := if len < 1 then 1 else len;
      if payloadLen > 1518 { payloadLen := 1518; }
    }

    method SetConcurrentMode(on: bool)
      modifies this`concurrent, this`releaseApOnExit
      ensures concurrent == on && releaseApOnExit == (on && old(releaseApOnExit))
    {
      concurrent := on;
      if !on { releaseApOnExit := false; }
    }

    method SetGuestStop(p: nat)
      requires TwoSlots() && p < 2
      modifies this`slots, this`stopRequested
      ensures TwoSlots()
      ensures slots == old(slots)[p := old(slots[p]).(stop := true)]
      ensures stopRequested == (old(stopRequested) || p == 0)
    {
      slots := slots[p := slots[p].(stop := true)];
      if p == 0 { stopRequested := true; }
    }

    method ClearGuestStop(p: nat)
      requires TwoSlots() && p < 2
      modifies this`slots, this`stopRequested
      ensures TwoSlots()
      ensures slots == old(slots)[p := old(slots[p]).(stop := false)]
      ensures stopRequested == (old(stopRequested) && p != 0)
      ensures !View().StopRequested(p)
    {
      slots := slots[p := slots[p].(stop := false)];
      if p == 0 { stopRequested := false; }
    }

    /** The first exit on pCPU 0 after arming raises the AP's release flag. */
    method ReleaseAp(p: nat)
      modifies this`releaseApOnExit, this`bspWaiting
      ensures releaseApOnExit == (old(releaseApOnExit) && p != 0)
      ensures bspWaiting == (old(bspWaiting) || (p == 0 && old(releaseApOnExit)))
    {
      if p == 0 && releaseApOnExit {
        releaseApOnExit := false;
        bspWaiting := true;
      }
    }

    /** `save_guest_gprs_for_pcpu`, before the handler and whether or not a VM is active. */
    method SaveGprs(p: nat, rax: u64, rcx: u64)
      requires TwoSlots() && p < 2
      modifies this`slots
      ensures slots == old(slots)[p := old(slots[p]).(savedRax := rax, savedRcx := rcx)]
    {
      slots := slots[p := slots[p].(savedRax := rax, savedRcx := rcx)];
    }

    /** `vmx_handle_exit`: everything but the stacked registers, which it never writes. */
    method HandleExit(p: nat, reason: nat, instLen: u64, rax: u64, rcx: u64, ghost gprs: Gprs)
      returns (resume: bool, console: Option<u8>)
      requires Valid() && p < 2 && rax == gprs[0] && rcx == gprs[1]
      modifies this`slots, this`stopRequested, this`releaseApOnExit, this`bspWaiting, this`launched
      ensures TwoSlots()
      ensures old(slots[p]).active.None? ==> !resume && console == None && View() == old(View())
      ensures old(slots[p]).active.Some? ==>
                var e := Exit(reason, instLen, old(slots[p].rip), gprs);
                Settled(View(), p, resume, gprs, console) == Served(old(View()), p, e)
    {
      hide Served, Settled, Patched, Answer, CpuidTable, CauseOf, Resumes, Advanced, Wrap, ExitCause;
      ghost var m, e := View(), Exit(reason, instLen, slots[p].rip, gprs);
      ActiveServed(m, p, e);
      console := None;
      var s := slots[p];
      if s.active.None? { return false, None; }
      launched := launched + {s.active.value};
      ReleaseAp(p);
      s := s.(savedRax := rax, savedRcx := rcx);
      var a, c := rax, rcx;
      if c == PUTCHAR && a != PUTCHAR && a != SHUTDOWN && a != GET_PAYLOAD_LEN {
        a, c := c, a;
      }
      var exitReason := reason % 0x10000;
      var next := Wrap(s.rip + (if instLen < 1 then 1 else instLen));
      var shutdown;
      s, resume, console, shutdown := Dispatch(s, exitReason, a, c, next, m, p, e);
      if shutdown {
        slots := slots[p := s];
        SetGuestStop(p);
        slots := slots[p := slots[p].(failed := 0, rip := next)];
        assert View() == HandledMonitor(m, p, HandledSlot(m, p, e), true);
        return false, None;
      }
      if !resume { s := s.(failed := 0); }
      slots := slots[p := s];
      assert View() == HandledMonitor(m, p, HandledSlot(m, p, e), false);
    }

    /** The branches of the handler by exit reason and call number. */
    method Dispatch(s: Slot, exitReason: nat, a: u64, c: u64, next: u64, ghost m: Monitor, ghost p: nat, ghost e: Exit)
      returns (s': Slot, resume: bool, console: Option<u8>, shutdown: bool)
      requires m.NothingPending() && payloadLen == m.payloadLen && concurrent == m.concurrent
      requires e.rip == m.SlotOf(p).rip && s == m.SlotOf(p).(savedRax := e.gprs[0], savedRcx := e.gprs[1])
      requires exitReason == e.reason % 0x10000 && (a, c) == Oriented(e.gprs[0], e.gprs[1])
      requires next == Wrap(e.rip + (if e.instLen < 1 then 1 else e.instLen))
      ensures (shutdown <==> ExitCause(e).ShutdownCall?) && (shutdown ==> !resume)
      ensures resume == Resumes(ExitCause(e), concurrent)
      ensures console == if ExitCause(e).Putchar? then Some(ExitCause(e).c) else None
      ensures HandledSlot(m, p, e) == if shutdown then s'.(stop := true, failed := 0, rip := next)
                                      else if resume then s' else s'.(failed := 0)
    {
      hide Served, Settled, Patched, Answer, CpuidTable, CauseOf, Resumes, Advanced, Wrap;
      CauseByBranch(e.reason, e.gprs[0], e.gprs[1], concurrent);
      NextRip(ExitCause(e), e.rip, e.instLen);
      s', resume, console, shutdown := s, false, None, false;
      if exitReason == VMCALL_EXIT {
        if a == PUTCHAR {
          console := Some(c % 0x100);
        } else if a == GET_PAYLOAD_LEN {
          s' := s.(raxValue := payloadLen, raxPending := true);
        } else if a == SHUTDOWN {
          return s, false, None, true;
        }
        s' := s'.(rip := next);
        resume := true;
      } else if exitReason == HLT_EXIT {
        s' := s.(rip := next);
        resume := concurrent;
      } else if exitReason == CPUID_EXIT {
        s' := s.(cpuid := CpuidTable(a), cpuidPending := true, rip := next);
        resume := true;
      }
    }

    /** `apply_cpuid_patch`: takes each outstanding patch once. */
    method ApplyPatch(p: nat, gprs: array<u64>)
      requires TwoSlots() && p < 2 && gprs.Length == GPRS
      modifies this`slots, gprs
      ensures TwoSlots()
      ensures View() == old(View()).WithSlot(p, old(slots[p]).(cpuidPending := false, raxPending := false))
      ensures gprs[..] == Patched(old(slots[p]), old(gprs[..]))
    {
      if slots[p].cpuidPending {
        var (a, b, c, d) := slots[p].cpuid;
        slots := slots[p := slots[p].(cpuidPending := false)];
        gprs[0] := a;
        gprs[1] := c;
        gprs[2] := d;
        gprs[3] := b;
      }
      if slots[p].raxPending {
        slots := slots[p := slots[p].(raxPending := false)];
        gprs[0] := slots[p].raxValue;
      }
    }

    /** The exit stub: stack the registers, handle, patch, and report whether to resume.
        Only a resume gives the stacked registers back to the guest. */
    method ExitStub(p: nat, reason: nat, instLen: u64, gprs: array<u64>) returns (resume: bool, console: Option<u8>)
      requires Valid() && p < 2 && gprs.Length == GPRS
      modifies this`slots, this`stopRequested, this`releaseApOnExit, this`bspWaiting, this`launched, gprs
      ensures Valid() && gprs.Length == GPRS
      ensures var e := Exit(reason, instLen, old(slots[p].rip), old(gprs[..]));
              Served(old(View()), p, e) == (View(), Reply(resume, Kept(resume, gprs[..]), console))
    {
      hide Served, Patched, Kept;
      ghost var m, e := View(), Exit(reason, instLen, slots[p].rip, gprs[..]);
      SaveGprs(p, gprs[0], gprs[1]);
      MirroredServed(m, p, e);
      resume, console := HandleExit(p, reason, instLen, gprs[0], gprs[1], gprs[..]);
      ApplyPatch(p, gprs);
    }

    /** Before a VM is entered: no stop requested, and a first entry starts at the guest's
        entry point, a later one where the VM left off, whatever ran in between. */
    method BeginSlice(p: nat, vm: nat)
      requires Valid() && p < 2
      modifies this`slots, this`stopRequested
      ensures Valid() && !View().StopRequested(p) && slots[1 - p] == old(slots[1 - p])
      ensures slots[p].active == Some(vm) && slots[p].rip == if vm in launched then Rip(vm) else 0x1000
    {
      ClearGuestStop(p);
      var rip := Rip(vm);
      if vm !in launched {
        rip := GUEST_ENTRY;
      }
      slots := slots[p := slots[p].(active := Some(vm), failed := NO_RESULT, rip := rip)];
    }

    /** The entered guest leaves at the given exits, in order, for as long as the handler
        resumes it; `answers` are the registers it is resumed with after each. */
    method Serve(p: nat, exits: seq<Exit>) returns (resume: bool, answers: seq<Gprs>)
      requires Valid() && p < 2 && slots[p].active.Some?
      modifies this`slots, this`stopRequested, this`releaseApOnExit, this`bspWaiting, this`launched
      ensures Valid() && View().SlotOf(1 - p) == old(View()).SlotOf(1 - p)
      ensures slots[p].active == old(slots[p].active)
      ensures launched == old(launched) + if exits == [] then {} else {slots[p].active.value}
      ensures resume <==> Stays(exits, concurrent)
      ensures resume ==> |answers| == |exits| && (View().StopRequested(p) <==> old(View()).StopRequested(p))
      ensures resume ==> forall k | 0 <= k < |exits| :: answers[k] == Answer(ExitCause(exits[k]), exits[k].gprs, payloadLen)
      ensures !resume ==>
                var e := LastExit(exits, concurrent);
                && (View().StopRequested(p) <==> old(View()).StopRequested(p) || ExitCause(e).ShutdownCall?)
                && slots[p].rip == Advanced(ExitCause(e), e.rip, e.instLen)
      ensures exits == [] ==> slots[p].rip == old(slots[p].rip)
    {
      hide Served, Stays, LastExit, CauseOf, Resumes, Advanced, Answer;
      NothingLeaves(concurrent);
      resume, answers := true, [];
      var k := 0;
      ghost var stop, other := View().StopRequested(p), View().SlotOf(1 - p);
      assert exits[..k] == [];
      while k < |exits| && resume
        invariant k <= |exits| && Valid()
        invariant View().SlotOf(1 - p) == other && slots[p].active == old(slots[p].active)
        invariant resume ==> |answers| == k && (View().StopRequested(p) <==> stop) && Stays(exits[..k], concurrent)
        invariant resume ==>
                    forall j | 0 <= j < k :: answers[j] == Answer(ExitCause(exits[j]), exits[j].gprs, payloadLen)
        invariant !resume ==> SliceEnded(View(), p, stop, exits, k)
        invariant launched == old(launched) + if k == 0 then {} else {slots[p].active.value}
        invariant k == 0 ==> resume && slots[p].rip == old(slots[p].rip)
        decreases |exits| - k
      {
        var e := exits[k];
        slots := slots[p := slots[p].(rip := e.rip)];
        var gprs := new u64[GPRS](i requires 0 <= i < GPRS => e.gprs[i]);
        assert gprs[..] == e.gprs;
        label Entry:
        var console;
        resume, console := ExitStub(p, e.reason, e.instLen, gprs);
        ServedActive(old@Entry(View()), p, e);
        StaysSnoc(exits, k, concurrent);
        answers := answers + [gprs[..]];
        k := k + 1;
      }
      if resume {
        assert exits[..k] == exits;
      }
    }

    /** The way out of a slice, back from the guest or from a refused entry: the VMCS keeps
        the RIP, and the failure word and the stop flag say how it ended. */
    method EndSlice(p: nat, refused: bool) returns (r: Slice)
      requires Valid() && p < 2 && slots[p].active.Some?
      modifies this`slots, this`rips
      ensures Valid() && slots == old(slots)[p := old(slots[p]).(failed := slots[p].failed)]
      ensures rips == old(rips)[old(slots[p]).active.value := old(slots[p]).rip]
      ensures r == if refused then EntryFailed
                   else if !View().StopRequested(p) then Runnable else if p == 0 then NotRunnable else Parked
    {
      rips := rips[slots[p].active.value := slots[p].rip];
      slots := slots[p := slots[p].(failed := if refused then 1 else 0)];
      if slots[p].failed != 0 {
        return EntryFailed;
      }
      var stop := slots[p].stop || (p == 0 && stopRequested);
      r := if !stop then Runnable else if p == 0 then NotRunnable else Parked;
    }

    /** `run_vcpu_once` on a guest that leaves at the given exits, in order, for as long
        as the handler resumes it. `entryFails` is the hardware refusing the entry. */
    method RunVcpuOnce(p: nat, vm: nat, entryFails: bool, exits: seq<Exit>) returns (r: Slice)
      requires Valid() && p < 2
      modifies this`slots, this`stopRequested, this`releaseApOnExit, this`bspWaiting, this`launched, this`rips
      ensures Valid() && View().SlotOf(1 - p) == old(View()).SlotOf(1 - p)
      ensures r.EntryFailed? <==> entryFails
      ensures launched == old(launched) + if entryFails || exits == [] then {} else {vm}
      ensures entryFails || exits == [] ==>
                View().SlotOf(p).rip == if vm in old(launched) then old(Rip(vm)) else 0x1000
      ensures rips == if r.InGuest? then old(rips) else old(rips)[vm := View().SlotOf(p).rip]
      ensures !entryFails && r.InGuest? <==> !entryFails && Stays(exits, old(concurrent))
      ensures r.NotRunnable? || r.Parked? <==>
              !entryFails && !Stays(exits, old(concurrent)) && ExitCause(LastExit(exits, old(concurrent))).ShutdownCall?
      ensures (r.NotRunnable? ==> p == 0) && (r.Parked? ==> p == 1)
      ensures r.Runnable? || r.NotRunnable? ==>
              var e := LastExit(exits, old(concurrent));
              View().SlotOf(p).rip == Advanced(ExitCause(e), e.rip, e.instLen)
    {
      hide Served, Stays, LastExit, CauseOf, Resumes, Advanced, Answer;
      BeginSlice(p, vm);
      if !entryFails {
        var resume, answers := Serve(p, exits);
        if resume {
          return InGuest;
        }
      }
      r := EndSlice(p, entryFails);
    }
  }

  /** pCPU `p`'s slot when the handler returns, its patch still outstanding. */
  ghost function HandledSlot(m: Monitor, p: nat, e: Exit): Slot {
    var c := ExitCause(e);
    m.SlotOf(p).(stop := m.SlotOf(p).stop || c.ShutdownCall?,
                 failed := if Resumes(c, m.concurrent) then m.SlotOf(p).failed else 0,
                 savedRax := e.gprs[0], savedRcx := e.gprs[1],
                 cpuidPending := c.Cpuid?,
                 cpuid := if c.Cpuid? then CpuidTable(c.leaf) else m.SlotOf(p).cpuid,
                 raxPending := c.PayloadLen?,
                 raxValue := if c.PayloadLen? then m.payloadLen else m.SlotOf(p).raxValue,
                 rip := Advanced(c, e.rip, e.instLen))
  }

  ghost function HandledMonitor(m: Monitor, p: nat, s: Slot, shutdown: bool): Monitor
    requires m.SlotOf(p).active.Some?
  {
    m.WithSlot(p, s).(stopRequested := m.stopRequested || (p == 0 && shutdown),
                      releaseApOnExit := m.releaseApOnExit && p != 0,
                      bspWaiting := m.bspWaiting || (p == 0 && m.releaseApOnExit),
                      launched := m.launched + {m.SlotOf(p).active.value})
  }

  /** Mirroring rax and rcx first makes no difference to what the stub does as a whole. */
  lemma MirroredServed(m: Monitor, p: nat, e: Exit)
    requires m.NothingPending() && e.rip == m.SlotOf(p).rip
    ensures var m' := m.WithSlot(p, m.SlotOf(p).(savedRax := e.gprs[0], savedRcx := e.gprs[1]));
            && Served(m', p, e) == Served(m, p, e) && Served(m, p, e).0.NothingPending()
            && (m.SlotOf(p).active.None? ==> Served(m, p, e) == Settled(m', p, false, e.gprs, None))
  {
    hide CauseOf, Resumes, Advanced, Answer, CpuidTable, ExitCause;
  }

  lemma ActiveServed(m: Monitor, p: nat, e: Exit)
    requires m.NothingPending()
    ensures m.SlotOf(p).active.Some? ==>
              var c := ExitCause(e);
              Served(m, p, e) ==
              Settled(HandledMonitor(m, p, HandledSlot(m, p, e), c.ShutdownCall?),
                      p, Resumes(c, m.concurrent), e.gprs, if c.Putchar? then Some(c.c) else None)
  {
    hide CauseOf, Resumes, CpuidTable, Advanced;
  }

  lemma CauseByBranch(reason: nat, rax: u64, rcx: u64, concurrent: bool)
    ensures var (a, c) := Oriented(rax, rcx);
            var k := CauseOf(reason, rax, rcx);
            && (k.Putchar? <==> reason % 0x10000 == VMCALL_EXIT && a == PUTCHAR)
            && (k.Putchar? ==> k.c == c % 0x100)
            && (k.PayloadLen? <==> reason % 0x10000 == VMCALL_EXIT && a == GET_PAYLOAD_LEN)
            && (k.ShutdownCall? <==> reason % 0x10000 == VMCALL_EXIT && a == SHUTDOWN)
            && (k.Halt? <==> reason % 0x10000 == HLT_EXIT)
            && (k.Cpuid? <==> reason % 0x10000 == CPUID_EXIT)
            && (k.Cpuid? ==> k.leaf == a)
            && (k.Fatal? <==> reason % 0x10000 !in {VMCALL_EXIT, HLT_EXIT, CPUID_EXIT})
            && (Resumes(k, concurrent) <==> !k.ShutdownCall? && !k.Fatal? && (k.Halt? ==> concurrent))
  {
  }

  lemma NextRip(c: Cause, rip: u64, instLen: u64)
    ensures c.Fatal? ==> Advanced(c, rip, instLen) == rip
    ensures !c.Fatal? ==>
              Advanced(c, rip, instLen) == Wrap(rip + (if instLen < 1 then 1 else instLen))
  {
  }

  ghost function Patched(s: Slot, gprs: Gprs): Gprs {
    var g := if s.cpuidPending
             then gprs[0 := s.cpuid.0][1 := s.cpuid.2][2 := s.cpuid.3][3 := s.cpuid.1] else gprs;
    if s.raxPending then g[0 := s.raxValue] else g
  }

  /** What remains once the outstanding patches of pCPU `p` are taken. */
  ghost function Settled(m: Monitor, p: nat, resume: bool, gprs: Gprs, console: Option<u8>): (Monitor, Reply) {
    var s := m.SlotOf(p);
    (m.WithSlot(p, s.(cpuidPending := false, raxPending := false)), Reply(resume, Kept(resume, Patched(s, gprs)), console))
  }

  // ---- Slices ----

  /** The `k`-th exit is the first not resumed, and its effects are the slice's result. */
  ghost predicate SliceEnded(m: Monitor, p: nat, stop: bool, exits: seq<Exit>, k: nat) {
    && 0 < k <= |exits|
    && !Stays(exits, m.concurrent) && LastExit(exits, m.concurrent) == exits[k - 1]
    && var c := ExitCause(exits[k - 1]);
    && (m.StopRequested(p) <==> stop || c.ShutdownCall?)
    && m.SlotOf(p).rip == Advanced(c, exits[k - 1].rip, exits[k - 1].instLen)
  }

  lemma NothingLeaves(concurrent: bool)
    ensures Stays([], concurrent)
  {
  }

  lemma {:induction false} StaysSnoc(exits: seq<Exit>, k: nat, concurrent: bool)
    requires k < |exits| && Stays(exits[..k], concurrent)
    ensures Stays(exits[..k + 1], concurrent) <==> Resumes(ExitCause(exits[k]), concurrent)
    ensures !Resumes(ExitCause(exits[k]), concurrent) ==>
              !Stays(exits, concurrent) && LastExit(exits, concurrent) == exits[k]
  {
    hide Resumes, CauseOf, ExitCause;
    if k == 0 {
      assert exits[..1] == [exits[0]] && exits[..1][1..] == [];
      assert Stays([], concurrent);
    } else {
      assert exits[..k][1..] == exits[1..][..k - 1] && exits[..k + 1][1..] == exits[1..][..k];
      StaysSnoc(exits[1..], k - 1, concurrent);
    }
  }

  /** What a slice needs to know of one exit. */
  lemma ServedActive(m: Monitor, p: nat, e: Exit)
    requires p < 2 && m.SlotOf(p).active.Some?
    ensures var (n, r) := Served(m, p, e);
            var c := ExitCause(e);
            && r.resume == Resumes(c, m.concurrent) && (r.resume ==> !c.ShutdownCall?)
            && (r.resume ==> r.gprs == Some(Answer(c, e.gprs, m.payloadLen)))
            && (n.StopRequested(p) <==> m.StopRequested(p) || c.ShutdownCall?)
            && n.SlotOf(p).rip == Advanced(c, e.rip, e.instLen)
            && n.SlotOf(p).active == m.SlotOf(p).active && n.launched == m.launched + {m.SlotOf(p).active.value}
            && n.SlotOf(1 - p) == m.SlotOf(1 - p)
            && n.concurrent == m.concurrent && n.payloadLen == m.payloadLen
  {
    hide CauseOf, Advanced, Answer, CpuidTable;
  }

  // ---- What one exit may change ----

  /** In a guest that is resumed, a register changes only where the guest asked: rax for
      the payload length, rax to rbx for CPUID. */
  lemma ExitTouchesOnlyAnswers(m: Monitor, p: nat, e: Exit, k: nat)
    requires k < GPRS && Served(m, p, e).1.resume && Served(m, p, e).1.gprs.value[k] != e.gprs[k]
    ensures (ExitCause(e).PayloadLen? && k == 0) || (ExitCause(e).Cpuid? && k < 4)
  {
    hide CauseOf, CpuidTable;
  }

  /** A guest that is not resumed loses its registers: two exits with one cause end alike
      whatever the registers were, down to the two mirrored words, so what a guest
      carries from one slice to the next it must keep in memory. */
  lemma YieldLosesRegisters(m: Monitor, p: nat, e: Exit, other: Gprs)
    requires m.SlotOf(p).active.Some?
    requires !Resumes(ExitCause(e), m.concurrent) && ExitCause(e.(gprs := other)) == ExitCause(e)
    ensures var (n, r) := Served(m, p, e);
            var (n', r') := Served(m, p, e.(gprs := other));
            && r == r' && !r.resume && r.gprs == None
            && n' == n.WithSlot(p, n.SlotOf(p).(savedRax := other[0], savedRcx := other[1]))
  {
    hide ServedSlot, ExitCause;
    SlotLosesRegisters(m.SlotOf(p), e, m.concurrent, m.payloadLen, other);
  }

  lemma SlotLosesRegisters(s: Slot, e: Exit, concurrent: bool, payloadLen: u64, other: Gprs)
    requires s.active.Some?
    requires !Resumes(ExitCause(e), concurrent) && ExitCause(e.(gprs := other)) == ExitCause(e)
    ensures var (t, r) := ServedSlot(s, e, concurrent, payloadLen);
            var (t', r') := ServedSlot(s, e.(gprs := other), concurrent, payloadLen);
            r == r' && !r.resume && r.gprs == None && t' == t.(savedRax := other[0], savedRcx := other[1])
  {
    hide Resumes, Advanced, Answer, CpuidTable, ExitCause;
  }

  /** RIP moves past the instruction exactly at VMCALL, HLT and CPUID. */
  lemma RipAdvancesOnce(m: Monitor, p: nat, e: Exit)
    requires m.SlotOf(p).active.Some?
    ensures var rip := Served(m, p, e).0.SlotOf(p).rip;
            var moved := e.reason % 0x10000 in {18, 12, 10};
            && (rip != e.rip <==> moved)
            && (moved ==> rip == Wrap(e.rip + (if e.instLen == 0 then 1 else e.instLen)))
  {
    hide Answer, Resumes, CpuidTable;
    assert ExitCause(e).Fatal? <==> e.reason % 0x10000 !in {18, 12, 10};
  }

  /** The payload length is answered in rax, and no other register changes. */
  lemma PayloadLenAnswered(m: Monitor, p: nat, e: Exit)
    requires m.SlotOf(p).active.Some? && e.reason % 0x10000 == 18 && e.gprs[0] == 0x202
    ensures Served(m, p, e).1 == Reply(true, Some([m.payloadLen] + e.gprs[1..]), None)
  {
    hide Advanced, Answer, CauseOf, Resumes;
    PayloadLenAnswer(e, m.payloadLen, m.concurrent);
  }

  lemma PayloadLenAnswer(e: Exit, payloadLen: u64, concurrent: bool)
    requires e.reason % 0x10000 == 18 && e.gprs[0] == 0x202
    ensures Answer(ExitCause(e), e.gprs, payloadLen) == [payloadLen] + e.gprs[1..]
    ensures Resumes(ExitCause(e), concurrent) && ExitCause(e).PayloadLen?
  {
    assert e.gprs[0 := payloadLen] == [payloadLen] + e.gprs[1..];
  }

  /** Every hypercall, by its number in rax: a character is printed, shutdown ends the slice
      with the stop flag up, and a number the handler does not know changes nothing. With
      the putchar number in rcx instead, the character is in rax. */
  lemma HypercallEffects(m: Monitor, p: nat, e: Exit)
    requires m.SlotOf(p).active.Some? && e.reason % 0x10000 == 18
    ensures var (n, r) := Served(m, p, e);
            var rax, rcx := e.gprs[0], e.gprs[1];
            if rax == 0x200 then r == Reply(true, Some(e.gprs), Some(rcx % 0x100))
            else if rax == 0x201 then r == Reply(false, None, None) && n.StopRequested(p)
            else if rax == 0x202 then r == Reply(true, Some(e.gprs[0 := m.payloadLen]), None)
            else r == Reply(true, Some(e.gprs), if rcx == 0x200 then Some(rax % 0x100) else None)
    ensures e.gprs[0] != 0x201 ==> (Served(m, p, e).0.StopRequested(p) <==> m.StopRequested(p))
  {
    hide Advanced, CpuidTable;
  }

  /** HLT resumes the guest exactly in concurrent mode; any exit but VMCALL, HLT and CPUID
      ends the slice. */
  lemma OtherExits(m: Monitor, p: nat, e: Exit)
    requires m.SlotOf(p).active.Some? && e.reason % 0x10000 !in {10, 18}
    ensures var resume := e.reason % 0x10000 == 12 && m.concurrent;
            Served(m, p, e).1 == Reply(resume, if resume then Some(e.gprs) else None, None)
  {
    hide Advanced, CpuidTable;
  }

  /** A character reaches the console whichever way round the registers arrive. */
  lemma PutcharEitherWay(reason: nat, c: u8)
    requires reason % 0x10000 == VMCALL_EXIT
    ensures CauseOf(reason, PUTCHAR, c) == CauseOf(reason, c, PUTCHAR) == Putchar(c)
  {
  }

  function Le32(s: string): nat
    requires |s| == 4
  {
    s[0] as int + 0x100 * (s[1] as int) + 0x1_0000 * (s[2] as int) + 0x100_0000 * (s[3] as int)
  }

  /** The table's leaves: the highest leaf of each range, the vendor text in EBX, ECX and
      EDX, and the feature bits. CPUID gives the vendor text in EBX, EDX, ECX (SDM Vol. 2A),
      so a guest reads "HypsV   terH". */
  lemma CpuidLeaves()
    ensures CpuidTable(0) == (1, Le32("Hyps"), Le32("terH"), Le32("V   "))
    ensures CpuidTable(1) == (0x806E9, 0, Pow2(9), Pow2(25) + Pow2(26))
    ensures CpuidTable(0x8000_0000) == (0x8000_0001, 0, 0, 0)
    ensures CpuidTable(0x8000_0001) == (0, 0, 0, Pow2(29))
    ensures forall leaf: u64 | leaf !in {0, 1, 0x8000_0000, 0x8000_0001} :: CpuidTable(leaf) == (0, 0, 0, 0)
  {
    SmallPowers();
    Powers();
    hide Pow2;
    PowAdd(24, 1);
    PowAdd(24, 2);
    PowAdd(21, 8);
  }

  predicate AnswersLeaf(gprs: Gprs, leaf: u64) { (gprs[0], gprs[3], gprs[1], gprs[2]) == CpuidTable(leaf) }

  /** CPUID selects its leaf by EAX. The handler undoes the swap at CPUID exits too, and
      looks the leaf up by all of rax, so the answer is right exactly when the leaf is
      not one of the four in the table or rcx does not hold the putchar number and the
      upper half of rax is clear. */
  lemma CpuidAnswersLeafIff(m: Monitor, p: nat, e: Exit)
    requires m.SlotOf(p).active.Some? && e.reason % 0x10000 == CPUID_EXIT
    ensures Served(m, p, e).1.resume
    ensures var eax := e.gprs[0] % 0x1_0000_0000;
            AnswersLeaf(Served(m, p, e).1.gprs.value, eax) <==>
            (eax in {0, 1, 0x8000_0000, 0x8000_0001} ==> e.gprs[0] == eax && e.gprs[1] != PUTCHAR)
  {
    hide Advanced;
  }

  /** An input of each kind that gets the wrong answer for leaf 1. */
  lemma CpuidWrongAnswers(m: Monitor, p: nat, rip: u64) returns (swapped: Exit, wide: Exit)
    requires m.SlotOf(p).active.Some?
    ensures swapped.gprs[0] == 1 && swapped.gprs[1] == PUTCHAR && wide.gprs[0] == 0x1_0000_0001 && wide.gprs[1] == 0
    ensures var (n, r) := Served(m, p, swapped); r.resume && !AnswersLeaf(r.gprs.value, 1)
    ensures var (n, r) := Served(m, p, wide); r.resume && !AnswersLeaf(r.gprs.value, 1)
  {
    hide Served, AnswersLeaf;
    var rest := seq(GPRS - 2, _ => 0);
    swapped := Exit(CPUID_EXIT, 2, rip, [1, PUTCHAR] + rest);
    wide := Exit(CPUID_EXIT, 2, rip, [0x1_0000_0001, 0] + rest);
    CpuidAnswersLeafIff(m, p, swapped);
    CpuidAnswersLeafIff(m, p, wide);
  }

  // ---- Any sequence of exits on the two pCPUs ----

  datatype Event = Event(p: nat, exit: Exit)

  function Serve(m: Monitor, events: seq<Event>): Monitor
    decreases |events|
  {
    if events == [] then m else Serve(Served(m, events[0].p, events[0].exit).0, events[1..])
  }

  /** The replies pCPU `p` gives. */
  function Replies(m: Monitor, p: nat, events: seq<Event>): seq<Reply>
    decreases |events|
  {
    if events == [] then [] else
    var (n, r) := Served(m, events[0].p, events[0].exit);
    (if events[0].p == p then [r] else []) + Replies(n, p, events[1..])
  }

  function Only(p: nat, events: seq<Event>): seq<Event>
    decreases |events|
  {
    if events == [] then [] else
    (if events[0].p == p then [events[0]] else []) + Only(p, events[1..])
  }

  predicate OnTwoPcpus(events: seq<Event>) { forall k | 0 <= k < |events| :: events[k].p < 2 }

  /** The part of the state pCPU `p` depends on. */
  ghost predicate Alike(m: Monitor, n: Monitor, p: nat) {
    && m.SlotOf(p) == n.SlotOf(p) && m.concurrent == n.concurrent && m.payloadLen == n.payloadLen
    && (p == 0 ==> m.stopRequested == n.stopRequested)
  }

  lemma ServedAlike(m: Monitor, n: Monitor, p: nat, e: Exit)
    requires p < 2 && Alike(m, n, p)
    ensures Alike(Served(m, p, e).0, Served(n, p, e).0, p) && Served(m, p, e).1 == Served(n, p, e).1
  {
    hide ServedSlot, ExitCause;
  }

  lemma ServedElsewhere(m: Monitor, n: Monitor, p: nat, e: Exit)
    requires p < 2 && Alike(m, n, p)
    ensures Alike(Served(m, 1 - p, e).0, n, p)
  {
    hide ServedSlot, ExitCause;
  }

  /** However the exits of the two pCPUs interleave, each pCPU ends in the state it would
      reach alone and gives its guest the same answers. */
  lemma {:induction false} PcpusDoNotInterfere(m: Monitor, n: Monitor, p: nat, events: seq<Event>)
    requires p < 2 && OnTwoPcpus(events) && Alike(m, n, p)
    ensures Alike(Serve(m, events), Serve(n, Only(p, events)), p)
    ensures Replies(m, p, events) == Replies(n, p, Only(p, events))
    decreases |events|
  {
    hide Served, Alike;
    if events != [] {
      var e := events[0].exit;
      if events[0].p == p {
        ServedAlike(m, n, p, e);
        assert Only(p, events)[1..] == Only(p, events[1..]);
        PcpusDoNotInterfere(Served(m, p, e).0, Served(n, p, e).0, p, events[1..]);
      } else {
        assert events[0].p == 1 - p && Only(p, events) == Only(p, events[1..]);
        ServedElsewhere(m, n, p, e);
        PcpusDoNotInterfere(Served(m, 1 - p, e).0, n, p, events[1..]);
      }
    }
  }

  predicate AnyShutdown(p: nat, events: seq<Event>) {
    exists k | 0 <= k < |events| :: events[k].p == p && ExitCause(events[k].exit).ShutdownCall?
  }

  /** A stop flag comes up exactly when its own guest calls shutdown. */
  lemma {:induction false} StopFlagRecordsShutdown(m: Monitor, p: nat, events: seq<Event>)
    requires p < 2 && OnTwoPcpus(events) && m.SlotOf(p).active.Some?
    ensures Serve(m, events).StopRequested(p) <==> m.StopRequested(p) || AnyShutdown(p, events)
    decreases |events|
  {
    hide Served, ExitCause;
    if events != [] {
      var e, rest := events[0], events[1..];
      var n := Served(m, e.p, e.exit).0;
      if e.p == p {
        ServedActive(m, p, e.exit);
      } else {
        ServedElsewhere(m, m, p, e.exit);
        assert n.StopRequested(p) == m.StopRequested(p);
      }
      StopFlagRecordsShutdown(n, p, rest);
      assert forall k | 0 <= k < |rest| :: rest[k] == events[k + 1];
      assert AnyShutdown(p, events) <==> (e.p == p && ExitCause(e.exit).ShutdownCall?) || AnyShutdown(p, rest);
    }
  }

  predicate AnyExitOf(p: nat, events: seq<Event>) { exists k | 0 <= k < |events| :: events[k].p == p }

  /** An armed release fires at the first exit of the boot processor's guest, once. */
  lemma {:induction false} ReleaseFiresAtFirstExit(m: Monitor, events: seq<Event>)
    requires OnTwoPcpus(events) && m.bsp.active.Some?
    ensures var n, exits := Serve(m, events), AnyExitOf(0, events);
            && (n.releaseApOnExit <==> m.releaseApOnExit && !exits)
            && (n.bspWaiting <==> m.bspWaiting || (m.releaseApOnExit && exits))
    decreases |events|
  {
    hide Served, ServedSlot, ExitCause;
    if events != [] {
      var e, rest := events[0], events[1..];
      ReleaseAtExit(m, e.p, e.exit);
      ReleaseFiresAtFirstExit(Served(m, e.p, e.exit).0, rest);
      assert forall k | 0 <= k < |rest| :: rest[k] == events[k + 1];
      assert AnyExitOf(0, events) <==> e.p == 0 || AnyExitOf(0, rest);
    }
  }

  lemma ReleaseAtExit(m: Monitor, p: nat, e: Exit)
    requires p < 2 && m.bsp.active.Some?
    ensures var n := Served(m, p, e).0;
            && n.bsp.active == m.bsp.active
            && n.releaseApOnExit == (m.releaseApOnExit && p != 0)
            && n.bspWaiting == (m.bspWaiting || (p == 0 && m.releaseApOnExit))
  {
    hide ExitCause, Resumes, Answer, Advanced, CpuidTable;
  }
}
