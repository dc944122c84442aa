/** That the hand-off of VM2 succeeds whenever it can: why the boot processor (BSP) falls
    back, that a wait which finds the application processor (AP) ready releases it, and
    that a released AP gets to VM2. */
module HandoffProgress {
  import opened Handoff

  // ---- Why the boot processor falls back ----

  /** The two refusals: a last wait that times out with the ready flag down, and the probe
      that finds INIT-SIPI unusable. */
  predicate Refuses(s: State, c: Choice) {
    && c == Choice(BspCore, true)
    && (s.bsp.ProbeNested? || ((s.bsp.WaitAgain? || s.bsp.SipiWait?) && !s.flags.ready))
  }

  predicate RefusedDuring(s: State, schedule: seq<Choice>)
    decreases |schedule|
  {
    schedule != [] && (Refuses(s, schedule[0]) || RefusedDuring(Next(s, schedule[0]), schedule[1..]))
  }

  /** In every run the BSP falls back exactly when one of the two refuses. */
  lemma {:induction false} FallsBackIffRefused(s: State, schedule: seq<Choice>)
    requires !BothPath(s.bsp)
    ensures BothPath(Run(s, schedule).bsp) <==> RefusedDuring(s, schedule)
    decreases |schedule|
  {
    hide ApNext, Prepared;
    if schedule != [] {
      var next := Next(s, schedule[0]);
      if BothPath(next.bsp) {
        FallenStays(next, schedule[1..]);
      } else {
        FallsBackIffRefused(next, schedule[1..]);
      }
    }
  }

  lemma {:induction false} FallenStays(s: State, schedule: seq<Choice>)
    requires BothPath(s.bsp)
    ensures BothPath(Run(s, schedule).bsp)
    decreases |schedule|
  {
    hide ApNext, Prepared;
    if schedule != [] {
      FallenStays(Next(s, schedule[0]), schedule[1..]);
    }
  }

  /** A BSP that has fallen back runs VM2 itself, within two steps of its own. */
  lemma {:induction false} FallenRunsVm2(s: State, schedule: seq<Choice>)
    requires BothPath(s.bsp) && (s.bsp.EndedBoth? ==> s.bspRan)
    requires BspMoves(schedule) >= if s.bsp.FallBack? then 2 else 1
    ensures Run(s, schedule).bspRan
    decreases |schedule|
  {
    hide ApNext, Prepared;
    if s.bspRan {
      RanStays(s, schedule);
    } else if Next(s, schedule[0]).bspRan {
      RanStays(Next(s, schedule[0]), schedule[1..]);
    } else {
      FallenRunsVm2(Next(s, schedule[0]), schedule[1..]);
    }
  }

  lemma {:induction false} RanStays(s: State, schedule: seq<Choice>)
    requires s.bspRan
    ensures Run(s, schedule).bspRan
    decreases |schedule|
  {
    hide ApNext, Prepared;
    if schedule != [] {
      RanStays(Next(s, schedule[0]), schedule[1..]);
    }
  }

  // ---- A wait that finds the ready flag ----

  function BspMoves(schedule: seq<Choice>): nat {
    if schedule == [] then 0 else (if schedule[0].core.BspCore? then 1 else 0) + BspMoves(schedule[1..])
  }

  predicate Waits(b: Bsp) { b.FirmwareWait? || b.RecheckReady? || b.WaitAgain? || b.SipiWait? }

  /** The AP is ready while the BSP waits, or the BSP is past its wait. */
  predicate Releasing(s: State) {
    (Waits(s.bsp) && s.flags.ready) || s.bsp.ReleaseAp? || (AlonePath(s.bsp) && s.flags.waiting)
  }

  /** Steps of the BSP until it runs VM1 alone. */
  function ToAlone(b: Bsp): nat {
    if b.FirmwareWait? then 3 else if Waits(b) then 2 else if b.ReleaseAp? then 1 else 0
  }

  lemma ReleasingStep(s: State, c: Choice)
    requires Releasing(s)
    ensures Releasing(Next(s, c)) && ToAlone(Next(s, c).bsp) <= ToAlone(s.bsp)
    ensures Next(s, c).flags.run == s.flags.run && Next(s, c).flags.ept == s.flags.ept
    ensures c.core.BspCore? && ToAlone(s.bsp) > 0 ==> ToAlone(Next(s, c).bsp) < ToAlone(s.bsp)
  {
    hide ApNext, BspStep;
    ApKeepsReady(s.flags, s.ap0, c.yes);
    ApKeepsReady(s.flags, s.ap1, c.yes);
    match c.core
    case BspCore => ReleasingBsp(s, c.yes);
    case ApCore(_) =>
  }

  lemma ReleasingBsp(s: State, yes: bool)
    requires Releasing(s)
    ensures var n := BspStep(s, yes);
            && Releasing(n) && n.flags.run == s.flags.run && n.flags.ept == s.flags.ept
            && (ToAlone(n.bsp) < ToAlone(s.bsp) || ToAlone(n.bsp) == ToAlone(s.bsp) == 0)
  {
    hide Prepared;
  }

  /** An AP lowers none of the flags it is waited for or released by. */
  lemma ApKeepsReady(f: Flags, a: Ap, yes: bool)
    ensures var g := ApNext(f, a, yes).0;
            (f.ready ==> g.ready) && g.waiting == f.waiting && g.run == f.run && g.ept == f.ept
  {
  }

  /** A BSP whose wait finds the ready flag, on the firmware path and on the INIT-SIPI path,
      has after three steps of its own raised the release flag and runs VM1 alone. */
  lemma {:induction false} ReadyBspReleases(s: State, schedule: seq<Choice>)
    requires Releasing(s) && BspMoves(schedule) >= ToAlone(s.bsp)
    ensures Releasing(Run(s, schedule)) && AlonePath(Run(s, schedule).bsp) && Run(s, schedule).flags.waiting
    decreases |schedule|
  {
    hide Next, Releasing, ToAlone;
    if schedule != [] {
      ReleasingStep(s, schedule[0]);
      ReadyBspReleases(Next(s, schedule[0]), schedule[1..]);
    } else {
      assert Run(s, schedule) == s;
      NoStepsLeft(s);
    }
  }

  lemma NoStepsLeft(s: State)
    requires Releasing(s) && ToAlone(s.bsp) == 0
    ensures AlonePath(s.bsp) && s.flags.waiting
  {
  }

  // ---- A released AP ----

  /** The choices made at the AP's own steps, in order. */
  function ChoicesOf(schedule: seq<Choice>, i: nat): seq<bool> {
    if schedule == [] then []
    else (if schedule[0].core == ApCore(i) then [schedule[0].yes] else []) + ChoicesOf(schedule[1..], i)
  }

  predicate NamesTwoAps(schedule: seq<Choice>) {
    forall k | 0 <= k < |schedule| :: schedule[k].core.ApCore? ==> schedule[k].core.i < 2
  }

  /** The AP has been started and has not given up. */
  predicate Hopeful(a: Ap) { !a.Off? && !a.GiveUp? && a != Stopped(true) }

  function Hurdles(a: Ap): nat {
    match a
    case Entry => 4
    case WaitRun => 3
    case CheckEpt => 2
    case WaitBsp => 1
    case _ => 0
  }

  predicate Released(s: State, i: nat) {
    AlonePath(s.bsp) && s.flags.waiting && s.flags.ept && Hopeful(ApOf(s, i))
  }

  lemma ReleasedStep(s: State, c: Choice, i: nat)
    requires i < 2 && Released(s, i) && (c.core.ApCore? ==> c.core.i < 2)
    ensures var n := Next(s, c);
            && Released(n, i) && n.flags.run == s.flags.run && Hurdles(ApOf(n, i)) <= Hurdles(ApOf(s, i))
            && (c.core == ApCore(i) && (s.flags.run || c.yes) && Hurdles(ApOf(s, i)) > 0 ==>
                  Hurdles(ApOf(n, i)) < Hurdles(ApOf(s, i)))
  {
    hide ApNext, BspStep;
    AloneStays(s, c.yes);
    ApKeepsReady(s.flags, s.ap0, c.yes);
    ApKeepsReady(s.flags, s.ap1, c.yes);
    HopefulMove(s.flags, ApOf(s, i), c.yes);
  }

  lemma AloneStays(s: State, yes: bool)
    requires AlonePath(s.bsp)
    ensures BspStep(s, yes) == s.(bsp := BspStep(s, yes).bsp) && AlonePath(BspStep(s, yes).bsp)
  {
  }

  lemma HopefulMove(f: Flags, a: Ap, yes: bool)
    requires f.waiting && f.ept && Hopeful(a)
    ensures var b := ApNext(f, a, yes).1;
            && Hopeful(b) && Hurdles(b) <= Hurdles(a)
            && ((f.run || yes) && Hurdles(a) > 0 ==> Hurdles(b) < Hurdles(a))
  {
  }

  /** A released AP that has not given up passes its gate: within four steps of its own if
      the run flag is up, as the firmware path leaves it, and within four time-outs if it is
      down, as INIT-SIPI leaves it. */
  lemma {:induction false} ReleasedApPasses(s: State, schedule: seq<Choice>, i: nat)
    requires i < 2 && NamesTwoAps(schedule) && Released(s, i)
    requires (if s.flags.run then |ChoicesOf(schedule, i)| else Timeouts(schedule, i)) >= Hurdles(ApOf(s, i))
    ensures PastGate(ApOf(Run(s, schedule), i)) && Released(Run(s, schedule), i)
    decreases |schedule|
  {
    hide Next, Released, Hurdles;
    if schedule != [] {
      ReleasedStep(s, schedule[0], i);
      assert forall k | 0 <= k < |schedule[1..]| :: schedule[1..][k] == schedule[k + 1];
      ReleasedApPasses(Next(s, schedule[0]), schedule[1..], i);
    } else {
      NoHurdlesLeft(s, i);
    }
  }

  lemma NoHurdlesLeft(s: State, i: nat)
    requires Released(s, i) && Hurdles(ApOf(s, i)) == 0
    ensures PastGate(ApOf(s, i))
  {
  }

  predicate RanVm2(s: State, i: nat) { if i == 0 then s.ap0Ran else s.ap1Ran }

  /** Past the gate the AP runs VM2 exactly when its set-up succeeds, which is the choice
      at its next step. */
  lemma {:induction false} SetUpApRunsVm2(s: State, schedule: seq<Choice>, i: nat)
    requires i < 2 && NamesTwoAps(schedule) && AlonePath(s.bsp) && !RanVm2(s, i)
    requires ApOf(s, i).Setup? || ApOf(s, i).RunVm2?
    requires |ChoicesOf(schedule, i)| >= if ApOf(s, i).Setup? then 2 else 1
    ensures RanVm2(Run(s, schedule), i) <==> ApOf(s, i).RunVm2? || ChoicesOf(schedule, i)[0]
    decreases |schedule|
  {
    hide Prepared;
    assert forall k | 0 <= k < |schedule[1..]| :: schedule[1..][k] == schedule[k + 1];
    var n := Next(s, schedule[0]);
    if schedule[0].core != ApCore(i) {
      SetUpApRunsVm2(n, schedule[1..], i);
    } else if ApOf(s, i).RunVm2? {
      FinishedStays(n, schedule[1..], i);
    } else if schedule[0].yes {
      SetUpApRunsVm2(n, schedule[1..], i);
    } else {
      FinishedStays(n, schedule[1..], i);
    }
  }

  /** Whether VM2 has run on an AP that has left it, or never got to it, is settled. */
  lemma {:induction false} FinishedStays(s: State, schedule: seq<Choice>, i: nat)
    requires i < 2 && NamesTwoAps(schedule) && AlonePath(s.bsp)
    requires ApOf(s, i).MarkOk? || ApOf(s, i).MarkDone? || ApOf(s, i) == Stopped(false)
    ensures RanVm2(Run(s, schedule), i) == RanVm2(s, i)
    decreases |schedule|
  {
    hide Prepared;
    if schedule != [] {
      assert forall k | 0 <= k < |schedule[1..]| :: schedule[1..][k] == schedule[k + 1];
      FinishedStays(Next(s, schedule[0]), schedule[1..], i);
    }
  }

  // ---- What the flags mean on the way ----

  predicate ApsOff(s: State) { s.ap0.Off? && s.ap1.Off? }

  /** No AP has been started yet. */
  predicate Starting(b: Bsp) {
    BeforeClear(b) || b.SetRun? || b.TryFirmware? || b.FirmwarePrepare? || b.FirmwareSetRun? || b.FirmwareStart?
  }

  predicate CheckedIn(a: Ap) { !a.Off? && !a.Entry? }

  const ALL_DOWN := Flags(false, false, false, false, false, true)

  /** The first `k` stores of a preparation are done. */
  predicate Lowered(f: Flags, k: nat) {
    && (k > 0 ==> !f.ready) && (k > 1 ==> !f.run) && (k > 2 ==> !f.waiting) && (k > 3 ==> !f.done)
  }

  /** The flags at each point of the BSP: before it has started an AP as its own stores
      leave them; while it waits for the firmware's AP the run flag is up, and the ready
      flag is that AP's; on the INIT-SIPI path the run flag is down. */
  predicate FlagInv(s: State) {
    var f := s.flags;
    && s.firmwareAp < 2
    && match s.bsp
       case SetEpt => ApsOff(s)
       case ClearDone => ApsOff(s) && f.ept
       case ClearOk => ApsOff(s) && f.ept && !f.done
       case ClearWaiting => ApsOff(s) && f.ept && !f.done && !f.ok
       case SetRun => ApsOff(s) && f.ept && !f.done && !f.ok && !f.waiting
       case TryFirmware => ApsOff(s) && f == ALL_DOWN.(ready := f.ready, run := true)
       case FirmwarePrepare(k) => ApsOff(s) && f.ept && Lowered(f, k)
       case FirmwareSetRun => ApsOff(s) && f == ALL_DOWN
       case FirmwareStart => ApsOff(s) && f == ALL_DOWN.(run := true)
       case FirmwareWait | RecheckReady | WaitAgain =>
         && f.ept && f.run && ApOf(s, 1 - s.firmwareAp).Off? && !ApOf(s, s.firmwareAp).Off?
         && (f.ready ==> CheckedIn(ApOf(s, s.firmwareAp)))
       case BarePrepare(k) => f.ept && (k > 1 ==> !f.run) && (ApsOff(s) ==> Lowered(f, k))
       case ProbeNested | SendSipi => f.ept && !f.run && (ApsOff(s) ==> f == ALL_DOWN)
       case SipiWait => f.ept && !f.run && !s.ap0.Off?
       case ReleaseAp | RunVm1Alone | EndedAlone => f.ept && f.ready && !ApsOff(s)
       case _ => f.ept
  }

  lemma PreparedLowers(f: Flags, k: nat)
    ensures Lowered(f, 0)
    ensures var g := Prepared(f, k);
            && g.ept == f.ept && (k > 0 && !f.run ==> !g.run) && (k == 1 ==> !g.run)
            && (Lowered(f, k) ==> Lowered(g, k + 1)) && (Lowered(f, k) && k >= 4 && f.ept ==> g == ALL_DOWN)
  {
  }

  lemma PreparingKeepsFlags(s: State, yes: bool)
    requires FlagInv(s) && (s.bsp.FirmwarePrepare? || s.bsp.BarePrepare?)
    ensures FlagInv(BspStep(s, yes))
  {
    hide Prepared, Lowered, CheckedIn;
    PreparedLowers(s.flags, s.bsp.k);
  }

  lemma StartingKeepsFlags(s: State, yes: bool)
    requires FlagInv(s) && Starting(s.bsp) && !BeforeClear(s.bsp) && !s.bsp.FirmwarePrepare?
    ensures FlagInv(BspStep(s, yes))
  {
    hide Prepared, Lowered, CheckedIn;
    PreparedLowers(s.flags, 0);
  }

  lemma ClearingKeepsFlags(s: State, yes: bool)
    requires FlagInv(s) && BeforeClear(s.bsp)
    ensures FlagInv(BspStep(s, yes))
  {
    hide Prepared, Lowered, CheckedIn;
  }

  lemma WaitingKeepsFlags(s: State, yes: bool)
    requires FlagInv(s) && (s.bsp.FirmwareWait? || s.bsp.RecheckReady? || s.bsp.WaitAgain?)
    ensures FlagInv(BspStep(s, yes))
  {
    hide Prepared, Lowered, CheckedIn;
    PreparedLowers(s.flags, 0);
  }

  lemma BareKeepsFlags(s: State, yes: bool)
    requires FlagInv(s) && (s.bsp.ProbeNested? || s.bsp.SendSipi? || s.bsp.SipiWait? || s.bsp.ReleaseAp?)
    ensures FlagInv(BspStep(s, yes))
  {
    hide Prepared, Lowered, CheckedIn;
  }

  lemma RunningKeepsFlags(s: State, yes: bool)
    requires FlagInv(s) && (AlonePath(s.bsp) || BothPath(s.bsp))
    ensures FlagInv(BspStep(s, yes))
  {
    hide Prepared, Lowered, CheckedIn;
  }

  lemma BspKeepsFlags(s: State, yes: bool)
    requires FlagInv(s)
    ensures FlagInv(BspStep(s, yes))
  {
    hide FlagInv, BspStep;
    if s.bsp.FirmwarePrepare? || s.bsp.BarePrepare? {
      PreparingKeepsFlags(s, yes);
    } else if BeforeClear(s.bsp) {
      ClearingKeepsFlags(s, yes);
    } else if Starting(s.bsp) {
      StartingKeepsFlags(s, yes);
    } else if Waits(s.bsp) && !s.bsp.SipiWait? {
      WaitingKeepsFlags(s, yes);
    } else if AlonePath(s.bsp) || BothPath(s.bsp) {
      RunningKeepsFlags(s, yes);
    } else {
      BareKeepsFlags(s, yes);
    }
  }

  lemma ApEffect(f: Flags, a: Ap, yes: bool)
    ensures var (g, b) := ApNext(f, a, yes);
            && g.waiting == f.waiting && g.run == f.run && g.ept == f.ept && (f.ready ==> g.ready)
            && (g.ready ==> f.ready || CheckedIn(b)) && (CheckedIn(a) ==> CheckedIn(b))
            && (a.Off? <==> b.Off?) && (a.Off? ==> g == f)
  {
    match a
    case Entry =>
    case _ =>
  }

  lemma ApKeepsFlags(s: State, i: nat, yes: bool)
    requires FlagInv(s)
    ensures FlagInv(Next(s, Choice(ApCore(i), yes)))
  {
    hide ApNext, CheckedIn, Lowered, BspStep;
    if i == 0 {
      ApEffect(s.flags, s.ap0, yes);
    } else {
      ApEffect(s.flags, s.ap1, yes);
    }
  }

  lemma {:induction false} RunKeepsFlags(s: State, schedule: seq<Choice>)
    requires FlagInv(s)
    ensures FlagInv(Run(s, schedule))
    decreases |schedule|
  {
    hide FlagInv, BspStep, ApNext;
    if schedule != [] {
      match schedule[0].core {
        case BspCore => BspKeepsFlags(s, schedule[0].yes);
        case ApCore(i) => ApKeepsFlags(s, i, schedule[0].yes);
      }
      RunKeepsFlags(Next(s, schedule[0]), schedule[1..]);
    }
  }

  /** In every reachable state: while the BSP waits for the firmware's AP the run flag is
      up, and a raised ready flag is that AP's own; while it waits after INIT-SIPI the run
      flag is down, so that AP goes on by its time-out and the EPT address. The BSP releases
      only after it has found the ready flag, with an AP started. */
  lemma WaitsMeanWhatTheySay(s: State, schedule: seq<Choice>)
    requires Initial(s)
    ensures var u := Run(s, schedule);
            && (Waits(u.bsp) ==> u.flags.ept && u.flags.run == !u.bsp.SipiWait?)
            && (Waits(u.bsp) && !u.bsp.SipiWait? && u.flags.ready ==> CheckedIn(ApOf(u, s.firmwareAp)))
            && (u.bsp.ReleaseAp? || AlonePath(u.bsp) ==> u.flags.ready && !ApsOff(u))
            && (u.bsp.FirmwareStart? ==> u.flags == ALL_DOWN.(run := true))
            && (u.bsp.ProbeNested? && ApsOff(u) ==> u.flags == ALL_DOWN)
  {
    RunKeepsFlags(s, schedule);
    hide Run;
    RunInv(s, schedule);
  }

  /** The whole hand-off, from any start, over any interleaving: once a wait of the BSP
      finds the ready flag, three steps of the BSP put VM1 alone on it, and an AP that has
      not given up by then passes its gate, within four of its own steps after the firmware
      path and within four of its time-outs after INIT-SIPI. */
  lemma HandOffSucceeds(s: State, before: seq<Choice>, first: seq<Choice>, second: seq<Choice>, i: nat)
    requires Initial(s) && i < 2 && NamesTwoAps(second)
    requires Waits(Run(s, before).bsp) && Run(s, before).flags.ready && BspMoves(first) >= 3
    requires Hopeful(ApOf(Run(Run(s, before), first), i))
    requires (if Run(s, before).bsp.SipiWait? then Timeouts(second, i) else |ChoicesOf(second, i)|) >= 4
    ensures AlonePath(Run(Run(s, before), first).bsp)
    ensures var r := Run(Run(Run(s, before), first), second);
            AlonePath(r.bsp) && r.flags.waiting && PastGate(ApOf(r, i))
  {
    var u := Run(s, before);
    WaitsMeanWhatTheySay(s, before);
    assert FlagInv(u) by { RunKeepsFlags(s, before); }
    hide Run, FlagInv;
    ReadyBspReleases(u, first);
    RunFlagStays(u, first);
    var v := Run(u, first);
    assert Hurdles(ApOf(v, i)) <= 4;
    ReleasedApPasses(v, second, i);
  }

  lemma {:induction false} RunFlagStays(s: State, schedule: seq<Choice>)
    requires Releasing(s)
    ensures Run(s, schedule).flags.run == s.flags.run && Run(s, schedule).flags.ept == s.flags.ept
    decreases |schedule|
  {
    hide Next, Releasing;
    if schedule != [] {
      ReleasingStep(s, schedule[0]);
      RunFlagStays(Next(s, schedule[0]), schedule[1..]);
    }
  }

  lemma FirmwareStarts(s: State) returns (x: seq<Choice>, q: State)
    requires Initial(s)
    ensures Run(s, x) == q && q.bsp == FirmwareStart && q.flags.ept && q.firmwareAp == s.firmwareAp
  {
    hide Run, Prepared, ApNext;
    x, q := UpToFirmware(s);
    x, q := Then(s, x, q, BspCore, true);
    x, q := ThenPrepare(s, x, q, 0);
    x, q := Then(s, x, q, BspCore, true);
  }

  lemma FirmwareApChecksIn(s: State) returns (x: seq<Choice>, q: State)
    requires Initial(s)
    ensures Run(s, x) == q && q.bsp == FirmwareWait && q.flags.ept && q.flags.ready
    ensures ApOf(q, s.firmwareAp) == WaitRun
  {
    hide Run, Prepared;
    x, q := FirmwareStarts(s);
    x, q := Then(s, x, q, BspCore, true);
    if s.firmwareAp == 0 {
      x, q := Then(s, x, q, ApCore(0), true);
    } else {
      x, q := Then(s, x, q, ApCore(1), true);
    }
  }

  lemma FirmwareReleases(s: State) returns (x: seq<Choice>, q: State)
    requires Initial(s)
    ensures Run(s, x) == q && q.bsp == RunVm1Alone && q.flags.ept && q.flags.waiting
    ensures ApOf(q, s.firmwareAp) == WaitRun
  {
    hide Run, Prepared, ApNext;
    x, q := FirmwareApChecksIn(s);
    x, q := Then(s, x, q, BspCore, true);
    x, q := Then(s, x, q, BspCore, true);
    x, q := Then(s, x, q, BspCore, true);
  }

  lemma InitSipiReleases(s: State) returns (x: seq<Choice>, q: State)
    requires Initial(s)
    ensures Run(s, x) == q && q.bsp == RunVm1Alone && q.flags.ept && q.flags.waiting && ApOf(q, 0) == WaitRun
  {
    hide Run, Prepared;
    x, q := UpToFirmware(s);
    x, q := Then(s, x, q, BspCore, false);
    x, q := ThenPrepare(s, x, q, 0);
    x, q := Then(s, x, q, BspCore, false);
    x, q := Then(s, x, q, BspCore, true);
    x, q := Then(s, x, q, ApCore(0), true);
    x, q := Then(s, x, q, BspCore, true);
    x, q := Then(s, x, q, BspCore, true);
  }

  /** On either path some run puts VM1 alone on the BSP and VM2 on the started AP. */
  lemma HandOffCanSucceed(s: State, firmware: bool) returns (x: seq<Choice>)
    requires Initial(s)
    ensures var r := Run(s, x); r.bsp == RunVm1Alone && RanVm2(r, if firmware then s.firmwareAp else 0)
  {
    hide Run;
    var q: State;
    if firmware {
      x, q := FirmwareReleases(s);
      x, q := GetsToVm2(s, x, q, s.firmwareAp);
    } else {
      x, q := InitSipiReleases(s);
      x, q := GetsToVm2(s, x, q, 0);
    }
  }

  lemma GetsToVm2(s: State, schedule: seq<Choice>, r: State, i: nat) returns (x: seq<Choice>, q: State)
    requires Run(s, schedule) == r && i < 2 && r.bsp == RunVm1Alone && r.flags.ept && r.flags.waiting
    requires ApOf(r, i) == WaitRun
    ensures Run(s, x) == q && q.bsp == r.bsp && RanVm2(q, i)
  {
    hide Run;
    x, q := Then(s, schedule, r, ApCore(i), true);
    if !r.flags.run {
      x, q := Then(s, x, q, ApCore(i), true);
    }
    x, q := Then(s, x, q, ApCore(i), true);
    x, q := Then(s, x, q, ApCore(i), true);
    x, q := Then(s, x, q, ApCore(i), true);
  }

  // ---- What the AP reports ----

  predicate GivingUp(s: State, i: nat) {
    && (AlonePath(s.bsp) || BothPath(s.bsp))
    && (ApOf(s, i) == GiveUp || (ApOf(s, i) == Stopped(true) && s.flags.done))
  }

  lemma GivingUpStep(s: State, c: Choice, i: nat)
    requires i < 2 && (c.core.ApCore? ==> c.core.i < 2) && GivingUp(s, i)
    ensures GivingUp(Next(s, c), i) && (c.core == ApCore(i) ==> ApOf(Next(s, c), i) == Stopped(true))
    ensures ApOf(s, i) == Stopped(true) ==> ApOf(Next(s, c), i) == Stopped(true)
  {
    hide BspStep, ApNext;
    match c.core
    case BspCore => SettledStays(s, c.yes);
    case ApCore(k) =>
      LeavingMove(s.flags, ApOf(s, k), c.yes);
      if k != i {
        assert ApOf(Next(s, c), i) == ApOf(s, i);
      }
  }

  lemma SettledStays(s: State, yes: bool)
    requires AlonePath(s.bsp) || BothPath(s.bsp)
    ensures var n := BspStep(s, yes);
            && n.flags == s.flags && n.ap0 == s.ap0 && n.ap1 == s.ap1
            && (AlonePath(n.bsp) || BothPath(n.bsp))
  {
  }

  /** An AP that gives up reports that it is done, whichever path the BSP has taken. */
  lemma {:induction false} GivingUpIsReported(s: State, schedule: seq<Choice>, i: nat)
    requires i < 2 && NamesTwoAps(schedule) && GivingUp(s, i)
    requires ApOf(s, i) == GiveUp ==> ChoicesOf(schedule, i) != []
    ensures ApOf(Run(s, schedule), i) == Stopped(true) && Run(s, schedule).flags.done
    decreases |schedule|
  {
    hide Next;
    if schedule != [] {
      assert forall k | 0 <= k < |schedule[1..]| :: schedule[1..][k] == schedule[k + 1];
      GivingUpStep(s, schedule[0], i);
      GivingUpIsReported(Next(s, schedule[0]), schedule[1..], i);
    }
  }

  predicate Leaving(s: State, i: nat, clean: bool) {
    && AlonePath(s.bsp)
    && match ApOf(s, i)
       case MarkOk => true
       case MarkDone => clean ==> s.flags.ok
       case Stopped(gaveUp) => !gaveUp && s.flags.done && (clean ==> s.flags.ok)
       case _ => false
  }

  function StepsToStop(a: Ap): nat { if a.RunVm2? then 3 else if a.MarkOk? then 2 else if a.MarkDone? then 1 else 0 }

  lemma {:induction false} LeavingReports(s: State, schedule: seq<Choice>, i: nat, clean: bool)
    requires i < 2 && NamesTwoAps(schedule) && Leaving(s, i, clean)
    requires |ChoicesOf(schedule, i)| >= StepsToStop(ApOf(s, i))
    ensures var r := Run(s, schedule);
            ApOf(r, i) == Stopped(false) && r.flags.done && (clean ==> r.flags.ok)
    decreases |schedule|
  {
    hide Next, Leaving, StepsToStop;
    if schedule != [] {
      assert forall k | 0 <= k < |schedule[1..]| :: schedule[1..][k] == schedule[k + 1];
      LeavingStep(s, schedule[0], i, clean);
      LeavingReports(Next(s, schedule[0]), schedule[1..], i, clean);
    } else {
      LeftStopped(s, i, clean);
    }
  }

  lemma LeavingStep(s: State, c: Choice, i: nat, clean: bool)
    requires i < 2 && (c.core.ApCore? ==> c.core.i < 2) && Leaving(s, i, clean)
    ensures Leaving(Next(s, c), i, clean)
    ensures StepsToStop(ApOf(Next(s, c), i)) <= StepsToStop(ApOf(s, i))
    ensures c.core == ApCore(i) && StepsToStop(ApOf(s, i)) > 0 ==>
              StepsToStop(ApOf(Next(s, c), i)) < StepsToStop(ApOf(s, i))
  {
    hide BspStep, ApNext;
    match c.core
    case BspCore => AloneStays(s, c.yes);
    case ApCore(k) =>
      LeavingMove(s.flags, ApOf(s, k), c.yes);
      if k != i {
        assert ApOf(Next(s, c), i) == ApOf(s, i);
      }
  }

  lemma LeavingMove(f: Flags, a: Ap, yes: bool)
    ensures var (g, b) := ApNext(f, a, yes);
            && (f.done ==> g.done) && (f.ok ==> g.ok)
            && (a.MarkOk? ==> b == MarkDone && g.ok) && (a.MarkDone? ==> b == Stopped(false) && g.done)
            && (a.GiveUp? ==> b == Stopped(true) && g.done) && (a.Stopped? ==> b == a)
  {
  }

  lemma LeftStopped(s: State, i: nat, clean: bool)
    requires Leaving(s, i, clean) && StepsToStop(ApOf(s, i)) == 0
    ensures ApOf(s, i) == Stopped(false) && s.flags.done && (clean ==> s.flags.ok)
  {
  }

  /** Within three of its own steps after it enters VM2 the AP reports that it is done, and
      that VM2 ended cleanly if it did. */
  lemma {:induction false} EndOfVm2IsReported(s: State, schedule: seq<Choice>, i: nat)
    requires i < 2 && NamesTwoAps(schedule) && AlonePath(s.bsp)
    requires ApOf(s, i).RunVm2? && |ChoicesOf(schedule, i)| >= 3
    ensures var r := Run(s, schedule);
            ApOf(r, i) == Stopped(false) && r.flags.done && (ChoicesOf(schedule, i)[0] ==> r.flags.ok)
    decreases |schedule|
  {
    hide Prepared;
    assert forall k | 0 <= k < |schedule[1..]| :: schedule[1..][k] == schedule[k + 1];
    var n := Next(s, schedule[0]);
    if schedule[0].core == ApCore(i) {
      LeavingReports(n, schedule[1..], i, schedule[0].yes);
    } else {
      EndOfVm2IsReported(n, schedule[1..], i);
    }
  }
}
