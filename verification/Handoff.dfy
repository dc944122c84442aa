/** The hand-off of VM2 from the boot processor (BSP) to an application processor
    (AP): atomic flags set by one side and polled with a bounded spin by the other.

    Every step is one flag access by one core, in any interleaving; every time-out and
    every firmware outcome is a free choice. Two APs are modelled, because the firmware
    and the INIT-SIPI path each name the AP they start. */
module Handoff {

  datatype Flags = Flags(ready: bool, run: bool, waiting: bool, done: bool, ok: bool, ept: bool)

  /** `run_concurrent_both`, with `start_ap_via_mp_services` and `bringup_ap` inlined.
      `Prepare(k)` is the k-th of the five stores of `prepare_ap_context`. */
  datatype Bsp =
    | SetEpt
    | ClearDone
    | ClearOk
    | ClearWaiting
    | SetRun
    | TryFirmware
    | FirmwarePrepare(k: nat)
    | FirmwareSetRun
    | FirmwareStart
    | FirmwareWait
    | RecheckReady
    | WaitAgain
    | BarePrepare(k: nat)
    | ProbeNested
    | SendSipi
    | SipiWait
    | ReleaseAp
    | RunVm1Alone
    | FallBack
    | RunBoth
    | EndedAlone
    | EndedBoth

  /** `ap_uefi_procedure` and `run_vm2_on_ap`. */
  datatype Ap =
    | Off
    | Entry
    | WaitRun
    | CheckEpt
    | WaitBsp
    | GiveUp
    | Setup
    | RunVm2
    | MarkOk
    | MarkDone
    | Stopped(gaveUp: bool)

  /** `firmwareAp` is the AP the firmware dispatches; INIT-SIPI always targets AP 0.
      The last three fields record which cores have run VM2. */
  datatype State = State(flags: Flags, bsp: Bsp, ap0: Ap, ap1: Ap, firmwareAp: nat,
                         bspRan: bool, ap0Ran: bool, ap1Ran: bool)

  datatype Core = BspCore | ApCore(i: nat)

  /** Which core moves, and how its next time-out or firmware call turns out. */
  datatype Choice = Choice(core: Core, yes: bool)

  function Prepared(f: Flags, k: nat): Flags {
    match k
    case 0 => f.(ready := false)
    case 1 => f.(run := false)
    case 2 => f.(waiting := false)
    case 3 => f.(done := false)
    case _ => f.(ok := false)
  }

  function Started(s: State, i: nat): State {
    if i == 0 then s.(ap0 := Entry) else s.(ap1 := Entry)
  }

  function ApOf(s: State, i: nat): Ap { if i == 0 then s.ap0 else s.ap1 }

  function BspStep(s: State, yes: bool): State {
    var f := s.flags;
    match s.bsp
    case SetEpt => s.(flags := f.(ept := true), bsp := ClearDone)
    case ClearDone => s.(flags := f.(done := false), bsp := ClearOk)
    case ClearOk => s.(flags := f.(ok := false), bsp := ClearWaiting)
    case ClearWaiting => s.(flags := f.(waiting := false), bsp := SetRun)
    case SetRun => s.(flags := f.(run := true), bsp := TryFirmware)
    case TryFirmware => s.(bsp := if yes then FirmwarePrepare(0) else BarePrepare(0))
    case FirmwarePrepare(k) =>
      s.(flags := Prepared(f, k), bsp := if k < 4 then FirmwarePrepare(k + 1) else FirmwareSetRun)
    case FirmwareSetRun => s.(flags := f.(run := true), bsp := FirmwareStart)
    case FirmwareStart =>
      if yes then Started(s, s.firmwareAp).(bsp := FirmwareWait) else s.(bsp := BarePrepare(0))
    case FirmwareWait => s.(bsp := if f.ready then RecheckReady else if yes then BarePrepare(0) else FirmwareWait)
    case RecheckReady => s.(bsp := if f.ready then ReleaseAp else WaitAgain)
    case WaitAgain => s.(bsp := if f.ready then ReleaseAp else if yes then FallBack else WaitAgain)
    case BarePrepare(k) =>
      s.(flags := Prepared(f, k), bsp := if k < 4 then BarePrepare(k + 1) else ProbeNested)
    case ProbeNested => s.(bsp := if yes then FallBack else SendSipi)
    case SendSipi => Started(s, 0).(bsp := SipiWait)
    case SipiWait => s.(bsp := if f.ready then ReleaseAp else if yes then FallBack else SipiWait)
    case ReleaseAp => s.(flags := f.(waiting := true), bsp := RunVm1Alone)
    case RunVm1Alone => s.(bsp := if yes then EndedAlone else RunVm1Alone)
    case FallBack => s.(bsp := RunBoth)
    case RunBoth => s.(bsp := if yes then EndedBoth else RunBoth, bspRan := true)
    case EndedAlone => s
    case EndedBoth => s
  }

  function ApNext(f: Flags, a: Ap, yes: bool): (Flags, Ap) {
    match a
    case Off => (f, Off)
    case Entry => (f.(ready := true), WaitRun)
    case WaitRun => (f, if f.run then WaitBsp else if yes then CheckEpt else WaitRun)
    case CheckEpt => (f, if f.ept then WaitBsp else GiveUp)
    case WaitBsp => (f, if f.waiting then Setup else if yes then GiveUp else WaitBsp)
    case GiveUp => (f.(done := true), Stopped(true))
    case Setup => (f, if yes then RunVm2 else MarkDone)
    case RunVm2 => (f, if yes then MarkOk else MarkDone)
    case MarkOk => (f.(ok := true), MarkDone)
    case MarkDone => (f.(done := true), Stopped(false))
    case Stopped(g) => (f, Stopped(g))
  }

  function Next(s: State, c: Choice): State {
    match c.core
    case BspCore => BspStep(s, c.yes)
    case ApCore(i) =>
      if i == 0 then
        var (f, a) := ApNext(s.flags, s.ap0, c.yes);
        s.(flags := f, ap0 := a, ap0Ran := s.ap0Ran || s.ap0.RunVm2?)
      else
        var (f, a) := ApNext(s.flags, s.ap1, c.yes);
        s.(flags := f, ap1 := a, ap1Ran := s.ap1Ran || s.ap1.RunVm2?)
  }

  function Run(s: State, schedule: seq<Choice>): State
    decreases |schedule|
  {
    if schedule == [] then s else Run(Next(s, schedule[0]), schedule[1..])
  }

  /** The call begins with both APs off; the flags may hold anything. */
  predicate Initial(s: State) {
    && s.bsp == SetEpt && s.ap0 == Off && s.ap1 == Off && s.firmwareAp < 2
    && !s.bspRan && !s.ap0Ran && !s.ap1Ran
  }

  // ---- The invariant ----

  predicate BeforeClear(b: Bsp) { b.SetEpt? || b.ClearDone? || b.ClearOk? || b.ClearWaiting? }

  predicate AlonePath(b: Bsp) { b.RunVm1Alone? || b.EndedAlone? }

  predicate BothPath(b: Bsp) { b.FallBack? || b.RunBoth? || b.EndedBoth? }

  /** An AP that has got past its wait for the BSP. */
  predicate PastGate(a: Ap) { a.Setup? || a.RunVm2? || a.MarkOk? || a.MarkDone? || a == Stopped(false) }

  predicate Inv(s: State) {
    && s.firmwareAp < 2
    && (BeforeClear(s.bsp) ==> s.ap0.Off? && s.ap1.Off?)
    && (!BeforeClear(s.bsp) && s.flags.waiting ==> AlonePath(s.bsp))
    && (PastGate(s.ap0) || PastGate(s.ap1) ==> AlonePath(s.bsp))
    && (s.ap0Ran || s.ap1Ran ==> AlonePath(s.bsp))
    && (s.bspRan ==> BothPath(s.bsp))
    && (s.firmwareAp == 0 ==> s.ap1.Off? && !s.ap1Ran)
  }

  lemma BspKeepsInv(s: State, yes: bool)
    requires Inv(s)
    ensures Inv(BspStep(s, yes)) && BspStep(s, yes).firmwareAp == s.firmwareAp
  {
    hide Prepared;
    match s.bsp
    case FirmwarePrepare(k) => PreparedKeepsGate(s.flags, k);
    case BarePrepare(k) => PreparedKeepsGate(s.flags, k);
    case _ =>
  }

  lemma PreparedKeepsGate(f: Flags, k: nat)
    ensures Prepared(f, k).waiting ==> f.waiting
  {
  }

  /** An AP never raises the release flag, and passes its gate only when it is raised. */
  lemma ApRespectsGate(f: Flags, a: Ap, yes: bool)
    ensures ApNext(f, a, yes).0.waiting == f.waiting
    ensures PastGate(ApNext(f, a, yes).1) ==> PastGate(a) || f.waiting
    ensures ApNext(f, a, yes).1.Off? <==> a.Off?
  {
  }

  lemma ApKeepsInv(s: State, i: nat, yes: bool)
    requires Inv(s)
    ensures Inv(Next(s, Choice(ApCore(i), yes))) && Next(s, Choice(ApCore(i), yes)).firmwareAp == s.firmwareAp
  {
    hide ApNext, BspStep;
    ApRespectsGate(s.flags, s.ap0, yes);
    ApRespectsGate(s.flags, s.ap1, yes);
  }

  lemma StepInv(s: State, c: Choice)
    requires Inv(s)
    ensures Inv(Next(s, c)) && Next(s, c).firmwareAp == s.firmwareAp
  {
    hide Inv, BspStep, ApNext;
    match c.core
    case BspCore => BspKeepsInv(s, c.yes);
    case ApCore(i) => ApKeepsInv(s, i, c.yes);
  }

  lemma {:induction false} RunInv(s: State, schedule: seq<Choice>)
    requires Inv(s)
    ensures Inv(Run(s, schedule)) && Run(s, schedule).firmwareAp == s.firmwareAp
    decreases |schedule|
  {
    hide Inv, Next;
    if schedule != [] {
      StepInv(s, schedule[0]);
      RunInv(Next(s, schedule[0]), schedule[1..]);
    }
  }

  /** In every interleaving the BSP and the APs never both run VM2. */
  lemma Vm2RunsOnOneSide(s: State, schedule: seq<Choice>)
    requires Initial(s)
    ensures var r := Run(s, schedule); !(r.bspRan && (r.ap0Ran || r.ap1Ran))
  {
    RunInv(s, schedule);
  }

  // ---- Two application processors ----

  lemma {:induction false} RunSnoc(s: State, schedule: seq<Choice>, c: Choice)
    ensures Run(s, schedule + [c]) == Next(Run(s, schedule), c)
    decreases |schedule|
  {
    hide Next;
    if schedule == [] {
      assert schedule + [c] == [c];
      assert Run(Next(s, c), []) == Next(s, c);
    } else {
      assert (schedule + [c])[1..] == schedule[1..] + [c];
      RunSnoc(Next(s, schedule[0]), schedule[1..], c);
    }
  }

  /** One more step after a schedule that reaches `r`. */
  lemma Then(s: State, schedule: seq<Choice>, r: State, core: Core, yes: bool)
    returns (longer: seq<Choice>, next: State)
    requires Run(s, schedule) == r
    ensures Run(s, longer) == next && next == Next(r, Choice(core, yes))
  {
    hide Run, Next;
    RunSnoc(s, schedule, Choice(core, yes));
    longer, next := schedule + [Choice(core, yes)], Next(r, Choice(core, yes));
  }

  /** The five stores of `prepare_ap_context`, on either path. */
  lemma {:induction false} ThenPrepare(s: State, schedule: seq<Choice>, r: State, k: nat)
    returns (longer: seq<Choice>, next: State)
    requires Run(s, schedule) == r && k <= 4
    requires r.bsp == FirmwarePrepare(k) || r.bsp == BarePrepare(k)
    ensures Run(s, longer) == next
    ensures next == r.(flags := next.flags, bsp := if r.bsp.FirmwarePrepare? then FirmwareSetRun else ProbeNested)
    ensures next.flags.ept == r.flags.ept
    ensures next.flags.ready == (k > 0 && r.flags.ready)
    ensures next.flags.run == (k > 1 && r.flags.run)
    decreases 4 - k
  {
    hide Run;
    longer, next := Then(s, schedule, r, BspCore, true);
    if k < 4 {
      longer, next := ThenPrepare(s, longer, next, k + 1);
    }
  }

  lemma RunNothing(s: State)
    ensures Run(s, []) == s
  {
  }

  lemma UpToFirmware(s: State) returns (x: seq<Choice>, q: State)
    requires Initial(s)
    ensures Run(s, x) == q && q == s.(flags := q.flags, bsp := TryFirmware) && q.flags.ept
  {
    hide Run;
    RunNothing(s);
    x, q := Then(s, [], s, BspCore, true);
    x, q := Then(s, x, q, BspCore, true);
    x, q := Then(s, x, q, BspCore, true);
    x, q := Then(s, x, q, BspCore, true);
    x, q := Then(s, x, q, BspCore, true);
  }

  /** The firmware dispatches AP 1, and the BSP stops waiting before it reports. */
  lemma FirmwareTimesOut(s: State) returns (x: seq<Choice>, q: State)
    requires Initial(s) && s.firmwareAp == 1
    ensures Run(s, x) == q && q == s.(flags := q.flags, bsp := BarePrepare(0), ap1 := Entry) && q.flags.ept
  {
    hide Run, Prepared, ApNext;
    x, q := UpToFirmware(s);
    x, q := Then(s, x, q, BspCore, true);
    x, q := ThenPrepare(s, x, q, 0);
    x, q := Then(s, x, q, BspCore, true);
    x, q := Then(s, x, q, BspCore, true);
    x, q := Then(s, x, q, BspCore, true);
  }

  /** INIT-SIPI then starts AP 0 as well. */
  lemma BothApsStarted(s: State) returns (x: seq<Choice>, q: State)
    requires Initial(s) && s.firmwareAp == 1
    ensures Run(s, x) == q
    ensures q == s.(flags := q.flags, bsp := SipiWait, ap0 := Entry, ap1 := Entry)
    ensures q.flags.ept && !q.flags.run
  {
    hide Run, Prepared, ApNext;
    x, q := FirmwareTimesOut(s);
    x, q := ThenPrepare(s, x, q, 0);
    x, q := Then(s, x, q, BspCore, false);
    x, q := Then(s, x, q, BspCore, true);
  }

  /** A released AP that found the run flag cleared still gets to VM2 by its time-out. */
  lemma ReleasedApRunsVm2(s: State, schedule: seq<Choice>, r: State, i: nat)
    returns (x: seq<Choice>, q: State)
    requires Run(s, schedule) == r && i < 2
    requires ApOf(r, i) == WaitRun && !r.flags.run && r.flags.ept && r.flags.waiting
    ensures Run(s, x) == q && q.flags == r.flags
    ensures if i == 0 then q.ap0Ran && q.ap1 == r.ap1 else q.ap1Ran && q.ap0Ran == r.ap0Ran
  {
    hide Run;
    x, q := Then(s, schedule, r, ApCore(i), true);
    x, q := Then(s, x, q, ApCore(i), true);
    x, q := Then(s, x, q, ApCore(i), true);
    x, q := Then(s, x, q, ApCore(i), true);
    x, q := Then(s, x, q, ApCore(i), true);
  }

  lemma TwoApsCanRunVm2(s: State) returns (x: seq<Choice>)
    requires Initial(s) && s.firmwareAp == 1
    ensures Run(s, x).ap0Ran && Run(s, x).ap1Ran
  {
    hide Run;
    var q: State;
    x, q := BothApsStarted(s);
    x, q := Then(s, x, q, ApCore(0), true);
    x, q := Then(s, x, q, ApCore(1), true);
    x, q := Then(s, x, q, BspCore, true);
    x, q := Then(s, x, q, BspCore, true);
    x, q := ReleasedApRunsVm2(s, x, q, 0);
    x, q := ReleasedApRunsVm2(s, x, q, 1);
  }

  function CoresThatRanVm2(s: State): nat {
    (if s.bspRan then 1 else 0) + (if s.ap0Ran then 1 else 0) + (if s.ap1Ran then 1 else 0)
  }

  lemma Vm2RunsOnOneCore(s: State, schedule: seq<Choice>)
    requires Initial(s) && s.firmwareAp == 0
    ensures CoresThatRanVm2(Run(s, schedule)) <= 1
  {
    RunInv(s, schedule);
  }

  /** VM2 is confined to one core in every run exactly when the firmware and INIT-SIPI
      name the same AP: otherwise a late firmware AP and the INIT-SIPI AP are both
      released by the one flag. */
  lemma Vm2RunsOnOneCoreIff(s: State)
    requires Initial(s)
    ensures (forall schedule :: CoresThatRanVm2(Run(s, schedule)) <= 1) <==> s.firmwareAp == 0
  {
    hide Run, Inv;
    if s.firmwareAp == 0 {
      forall schedule ensures CoresThatRanVm2(Run(s, schedule)) <= 1 {
        Vm2RunsOnOneCore(s, schedule);
      }
    } else {
      var x := TwoApsCanRunVm2(s);
      assert CoresThatRanVm2(Run(s, x)) > 1;
    }
  }

  /** An AP runs VM2 only after the release flag, and the BSP sets that flag only on the
      path where it runs VM1 alone. */
  lemma ReleaseOnlyWhenAlone(s: State, schedule: seq<Choice>)
    requires Initial(s)
    ensures var r := Run(s, schedule);
            && (PastGate(r.ap0) || PastGate(r.ap1) ==> AlonePath(r.bsp))
            && (!BeforeClear(r.bsp) && r.flags.waiting ==> AlonePath(r.bsp))
  {
    RunInv(s, schedule);
  }

  // ---- A late AP ----

  /** The AP's remaining time-outs before it gives up. */
  function Patience(a: Ap): nat {
    match a
    case Entry => 5
    case WaitRun => 4
    case CheckEpt => 3
    case WaitBsp => 2
    case GiveUp => 1
    case _ => 0
  }

  /** Steps of an AP in a schedule in which its poll times out. */
  function Timeouts(schedule: seq<Choice>, i: nat): nat {
    if schedule == [] then 0
    else (if schedule[0].core == ApCore(i) && schedule[0].yes then 1 else 0) + Timeouts(schedule[1..], i)
  }

  lemma {:induction false} LateApGivesUp(s: State, schedule: seq<Choice>, i: nat)
    requires Inv(s) && BothPath(s.bsp) && i < 2
    requires Timeouts(schedule, i) >= Patience(ApOf(s, i))
    ensures ApOf(Run(s, schedule), i) in {Off, Stopped(true)}
    ensures BothPath(Run(s, schedule).bsp)
    decreases |schedule|
  {
    if schedule != [] {
      StepInv(s, schedule[0]);
      LateApGivesUp(Next(s, schedule[0]), schedule[1..], i);
    }
  }

  /** After the BSP has fallen back to running both guests, an AP that arrives late, at
      whatever point it is, ends by giving up and never runs VM2. */
  lemma LateApAfterFallback(s: State, before: seq<Choice>, after: seq<Choice>, i: nat)
    requires Initial(s) && i < 2
    requires BothPath(Run(s, before).bsp)
    requires Timeouts(after, i) >= 5
    ensures ApOf(Run(Run(s, before), after), i) in {Off, Stopped(true)}
    ensures !Run(Run(s, before), after).ap0Ran && !Run(Run(s, before), after).ap1Ran
  {
    RunInv(s, before);
    LateApGivesUp(Run(s, before), after, i);
    RunInv(Run(s, before), after);
  }
}
