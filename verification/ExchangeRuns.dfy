/** Whole runs of the counter exchange: lockstep, bounded progress, and the same
    runs on the raw bytes of the shared region. */
module ExchangeRuns {
  import opened Words
  import opened Ring
  import opened IpcLayout
  import opened Exchange

  // ---- What a run does, recorded ----

  /** Values posted on channel 0, delivered to VM2, echoed on channel 1, acknowledged
      to VM1, and published by each guest. */
  datatype Log = Log(posted: seq<u64>, delivered: seq<u64>, echoed: seq<u64>, acked: seq<u64>,
                     published0: seq<u64>, published1: seq<u64>)

  const NOTHING: Log := Log([], [], [], [], [], [])

  function Record(log: Log, w: World, c: Choice): Log
    requires AllFields(w.cells) && c.id < 2
  {
    var g := GuestOf(w, c.id);
    match g.pc
    case PutTail(t) =>
      assert ValidField(SlotValue(c.id, Slot(t)));
      var v := w.cells[SlotValue(c.id, Slot(t))];
      if c.id == 0 then log.(posted := log.posted + [v]) else log.(echoed := log.echoed + [v])
    case PutHead(_, v) =>
      if c.id == 0 then log.(acked := log.acked + [v]) else log.(delivered := log.delivered + [v])
    case PutCount =>
      if c.id == 0 then log.(published0 := log.published0 + [g.counter])
      else log.(published1 := log.published1 + [g.counter])
    case _ => log
  }

  predicate ValidSchedule(schedule: seq<Choice>) {
    forall k :: 0 <= k < |schedule| ==> schedule[k].id < 2
  }

  function Run(w: World, log: Log, schedule: seq<Choice>): (res: (World, Log))
    requires AllFields(w.cells) && ValidSchedule(schedule)
    ensures AllFields(res.0.cells)
    decreases |schedule|
  {
    if schedule == [] then (w, log)
    else Run(Next(w, schedule[0]), Record(log, w, schedule[0]), schedule[1..])
  }

  /** `0, 1, 2, ...` as 64-bit counters. */
  function CountUp(n: nat): (s: seq<u64>)
    ensures |s| == n && forall k :: 0 <= k < n ==> s[k] == Wrap(k)
  {
    seq(n, k requires 0 <= k < n => Wrap(k))
  }

  lemma CountUpNext(n: nat)
    ensures CountUp(n + 1) == CountUp(n) + [Wrap(n)]
  {
  }

  ghost predicate LogInv(log: Log, i: Indices) {
    && log.posted == CountUp(i.sent0) && log.delivered == CountUp(i.delivered)
    && log.echoed == CountUp(i.echoed) && log.acked == CountUp(i.acked)
    && log.published0 == CountUp(i.pub0) && log.published1 == CountUp(i.pub1)
  }

  /** What a step of VM1 records, by the true indices. */
  lemma Vm1Record(w: World, log: Log, p: Progress, tsc: u64)
    requires Inv(w, p)
    ensures var i := IndicesOf(w, p);
            Record(log, w, Choice(0, tsc)) ==
            match w.g0.pc
            case PutTail(_) => log.(posted := log.posted + [Wrap(i.sent0)])
            case PutHead(_, _) => log.(acked := log.acked + [Wrap(i.acked)])
            case PutCount => log.(published0 := log.published0 + [Wrap(i.pub0)])
            case _ => log
  {
    hide Wrap, Slot, CellsInv;
    WrapFacts(p.n0, p.f0);
  }

  lemma Vm2Record(w: World, log: Log, p: Progress, tsc: u64)
    requires Inv(w, p)
    ensures var i := IndicesOf(w, p);
            Record(log, w, Choice(1, tsc)) ==
            match w.g1.pc
            case PutTail(_) => log.(echoed := log.echoed + [Wrap(i.echoed)])
            case PutHead(_, _) => log.(delivered := log.delivered + [Wrap(i.delivered)])
            case PutCount => log.(published1 := log.published1 + [Wrap(i.pub1)])
            case _ => log
  {
    hide Wrap, Slot, CellsInv;
    WrapFacts(p.n1, p.f1);
  }

  lemma Vm1Log(w: World, log: Log, p: Progress, tsc: u64)
    requires Inv(w, p) && LogInv(log, IndicesOf(w, p))
    ensures LogInv(Record(log, w, Choice(0, tsc)), IndicesOf(Next(w, Choice(0, tsc)), Advance(w, p, 0)))
  {
    hide Wrap, Slot, CellsInv, GuestInv, Inv, IndicesOf, Next, Record, Advance, CountUp;
    var i := IndicesOf(w, p);
    Vm1Indices(w, p, tsc);
    Vm1Record(w, log, p, tsc);
    CountUpNext(i.sent0);
    CountUpNext(i.acked);
    CountUpNext(i.pub0);
  }

  lemma Vm2Log(w: World, log: Log, p: Progress, tsc: u64)
    requires Inv(w, p) && LogInv(log, IndicesOf(w, p))
    ensures LogInv(Record(log, w, Choice(1, tsc)), IndicesOf(Next(w, Choice(1, tsc)), Advance(w, p, 1)))
  {
    hide Wrap, Slot, CellsInv, GuestInv, Inv, IndicesOf, Next, Record, Advance, CountUp;
    var i := IndicesOf(w, p);
    Vm2Indices(w, p, tsc);
    Vm2Record(w, log, p, tsc);
    CountUpNext(i.echoed);
    CountUpNext(i.delivered);
    CountUpNext(i.pub1);
  }

  lemma StepLog(w: World, log: Log, p: Progress, c: Choice)
    requires Inv(w, p) && LogInv(log, IndicesOf(w, p)) && c.id < 2
    ensures LogInv(Record(log, w, c), IndicesOf(Next(w, c), Advance(w, p, c.id)))
  {
    hide Inv, LogInv, IndicesOf, Next, Record, Advance;
    assert c == Choice(c.id, c.tsc);
    if c.id == 0 {
      Vm1Log(w, log, p, c.tsc);
    } else {
      Vm2Log(w, log, p, c.tsc);
    }
  }

  lemma StepInv(w: World, p: Progress, c: Choice)
    requires Inv(w, p) && c.id < 2
    ensures Inv(Next(w, c), Advance(w, p, c.id))
  {
    hide Inv, Next, Advance;
    if c.id == 0 {
      Vm1Step(w, p, c.tsc);
    } else {
      Vm2Step(w, p, c.tsc);
    }
  }

  lemma {:induction false} RunInv(w: World, log: Log, p: Progress, schedule: seq<Choice>) returns (p': Progress)
    requires Inv(w, p) && LogInv(log, IndicesOf(w, p)) && ValidSchedule(schedule)
    ensures var (w', log') := Run(w, log, schedule);
            Inv(w', p') && LogInv(log', IndicesOf(w', p'))
    decreases |schedule|
  {
    hide Inv, LogInv, IndicesOf, Next, Record, Advance;
    InvFields(w, p);
    if schedule == [] {
      p' := p;
    } else {
      StepInv(w, p, schedule[0]);
      StepLog(w, log, p, schedule[0]);
      p' := RunInv(Next(w, schedule[0]), Record(log, w, schedule[0]),
                   Advance(w, p, schedule[0].id), schedule[1..]);
    }
  }

  lemma InitialRun(w: World, schedule: seq<Choice>) returns (p: Progress)
    requires Initial(w) && ValidSchedule(schedule)
    ensures var (w', log) := Run(w, NOTHING, schedule);
            Inv(w', p) && LogInv(log, IndicesOf(w', p))
  {
    InitialInv(w);
    p := RunInv(w, NOTHING, Progress(0, 0, 0, 0), schedule);
  }

  /** In every run each counter is posted, delivered, echoed and acknowledged exactly
      once and in order, and each stage is at most one message behind the one before. */
  lemma CountersInLockstep(w: World, schedule: seq<Choice>)
    requires Initial(w) && ValidSchedule(schedule)
    ensures var log := Run(w, NOTHING, schedule).1;
            && log.posted == CountUp(|log.posted|) && log.delivered == CountUp(|log.delivered|)
            && log.echoed == CountUp(|log.echoed|) && log.acked == CountUp(|log.acked|)
            && |log.posted| - 1 <= |log.acked| <= |log.echoed| <= |log.delivered| <= |log.posted|
  {
    var p := InitialRun(w, schedule);
  }

  lemma PublishedApart(w: World, p: Progress)
    requires Lockstep(IndicesOf(w, p))
    ensures Published0(w, p) - 1 <= Published1(w, p) <= Published0(w, p) + 1
    ensures IndicesOf(w, p).pub0 == Published0(w, p) && IndicesOf(w, p).pub1 == Published1(w, p)
  {
  }

  /** How many messages a channel holds, by its 64-bit indices. */
  function Held(cells: Cells, channel: nat): u64
    requires Tail(channel) in cells && Head(channel) in cells
  {
    Wrap(cells[Tail(channel)] as int - cells[Head(channel)] as int)
  }

  /** The shared region in every reachable state: each channel holds at most one
      message, and the two published counts, once written, are one apart or equal. */
  lemma PublishedCountsWithinOne(w: World, schedule: seq<Choice>)
    requires Initial(w) && ValidSchedule(schedule)
    ensures var (w', log) := Run(w, NOTHING, schedule);
            && Held(w'.cells, 0) <= 1 && Held(w'.cells, 1) <= 1
            && |log.published0| - 1 <= |log.published1| <= |log.published0| + 1
            && (log.published0 != [] ==> w'.cells[Heartbeat(1)] == Wrap(|log.published0| - 1))
            && (log.published1 != [] ==> w'.cells[Heartbeat(3)] == Wrap(|log.published1| - 1))
  {
    hide Run, GuestInv, Wrap, IndicesOf;
    var p := InitialRun(w, schedule);
    var w' := Run(w, NOTHING, schedule).0;
    var i := IndicesOf(w', p);
    PublishedApart(w', p);
    WrapSub(i.sent0, i.delivered);
    WrapSub(i.echoed, i.acked);
  }

  // ---- Progress ----

  /** A guest polling a channel that is empty. */
  ghost predicate Spinning(w: World, id: nat)
    requires id < 2 && AllFields(w.cells)
  {
    assert ValidField(Tail(1 - id)) && ValidField(Head(1 - id));
    var pc := GuestOf(w, id).pc;
    (pc.GetHead? || pc.GetTail?) && w.cells[Tail(1 - id)] == w.cells[Head(1 - id)]
  }

  /** Steps VM1 still has to make until it publishes. */
  ghost function Rank0(w: World): nat
    requires AllFields(w.cells)
  {
    match w.g0.pc
    case Start => 11
    case PutTsc => 11
    case LoadTail => 10
    case LoadHead(_) => 9
    case PutValue(_) => 8
    case PutLen(_) => 7
    case PutTail(_) => 6
    case GetHead => 5
    case GetTail(_) => if Spinning(w, 0) then 5 else 4
    case GetValue(_) => 3
    case PutHead(_, _) => 2
    case PutCount => 1
  }

  /** Steps VM2 still has to make in its current round. */
  ghost function Rank1(w: World): nat
    requires AllFields(w.cells)
  {
    match w.g1.pc
    case Start => 12
    case GetHead => 11
    case GetTail(_) => if Spinning(w, 1) then 11 else 10
    case GetValue(_) => 9
    case PutHead(_, _) => 8
    case LoadTail => 7
    case LoadHead(_) => 6
    case PutValue(_) => 5
    case PutLen(_) => 4
    case PutTail(_) => 3
    case PutCount => 2
    case PutTsc => 1
  }

  /** Work left until VM1's next publication: its own steps, and VM2's up to the end
      of the round of the counter being exchanged. */
  ghost function Measure(w: World, p: Progress): int
    requires AllFields(w.cells)
  {
    Rank0(w) + Rank1(w) + 11 * (Published0(w, p) - p.n1)
  }

  lemma MeasureBounds(w: World, p: Progress)
    requires Inv(w, p)
    ensures 0 <= Measure(w, p) <= 34
  {
    SpinningIsEmpty(w, p);
  }

  lemma SpinningIsEmpty(w: World, p: Progress)
    requires Inv(w, p)
    ensures Spinning(w, 0) <==> (w.g0.pc.GetHead? || w.g0.pc.GetTail?) && Acked(w, p) == Echoed(w, p)
    ensures Spinning(w, 1) <==> (w.g1.pc.GetHead? || w.g1.pc.GetTail?) && Delivered(w, p) == Sent0(w, p)
  {
    var i := IndicesOf(w, p);
    WrapInjective(i.echoed, i.acked);
    WrapInjective(i.sent0, i.delivered);
  }

  /** No reachable state is a deadlock: some guest can do more than poll. */
  lemma SomeGuestProgresses(w: World, p: Progress)
    requires Inv(w, p)
    ensures !Spinning(w, 0) || !Spinning(w, 1)
  {
    SpinningIsEmpty(w, p);
  }

  /** A step of VM1 never adds to the work VM2 has left. */
  lemma PeerRank0(w: World, p: Progress, tsc: u64)
    requires Inv(w, p)
    ensures Rank1(Next(w, Choice(0, tsc))) <= Rank1(w)
    ensures Spinning(w, 0) ==> Rank1(Next(w, Choice(0, tsc))) == Rank1(w)
  {
    hide Wrap, Slot;
    Vm1Step(w, p, tsc);
    Vm1Indices(w, p, tsc);
    SpinningIsEmpty(w, p);
    SpinningIsEmpty(Next(w, Choice(0, tsc)), Advance(w, p, 0));
    hide CellsInv, GuestInv, Spinning;
  }

  lemma OwnRank0(w: World, p: Progress, tsc: u64)
    requires Inv(w, p) && !w.g0.pc.PutCount?
    ensures var w' := Next(w, Choice(0, tsc));
            if Spinning(w, 0) then Rank0(w') == Rank0(w)
            else Rank0(w') < Rank0(w)
  {
    hide Wrap, Slot;
    Vm1Step(w, p, tsc);
    Vm1Indices(w, p, tsc);
    WrapFacts(p.n0, p.f0);
    SpinningIsEmpty(w, p);
    SpinningIsEmpty(Next(w, Choice(0, tsc)), Advance(w, p, 0));
    hide CellsInv, Spinning;
  }

  lemma MeasureStep0(w: World, p: Progress, tsc: u64)
    requires Inv(w, p) && !w.g0.pc.PutCount?
    ensures var w', p' := Next(w, Choice(0, tsc)), Advance(w, p, 0);
            if Spinning(w, 0) then Measure(w', p') == Measure(w, p) else Measure(w', p') < Measure(w, p)
  {
    PeerRank0(w, p, tsc);
    OwnRank0(w, p, tsc);
    Vm1Indices(w, p, tsc);
    hide Wrap, Slot, Rank0, Rank1, Spinning, CellsInv, GuestInv, AccessOf;
  }

  /** A step of VM2 never adds to the work VM1 has left. */
  lemma PeerRank1(w: World, p: Progress, tsc: u64)
    requires Inv(w, p)
    ensures Rank0(Next(w, Choice(1, tsc))) <= Rank0(w)
    ensures Spinning(w, 1) ==> Rank0(Next(w, Choice(1, tsc))) == Rank0(w)
  {
    hide Wrap, Slot;
    Vm2Step(w, p, tsc);
    Vm2Indices(w, p, tsc);
    SpinningIsEmpty(w, p);
    SpinningIsEmpty(Next(w, Choice(1, tsc)), Advance(w, p, 1));
    hide CellsInv, GuestInv, Spinning;
  }

  lemma OwnRank1Receiving(w: World, p: Progress, tsc: u64)
    requires Inv(w, p) && Receiving(w.g1.pc)
    ensures var w' := Next(w, Choice(1, tsc));
            if Spinning(w, 1) then Rank1(w') == Rank1(w)
            else Rank1(w') - 11 * (Advance(w, p, 1).n1 - p.n1) < Rank1(w)
  {
    hide Wrap, Slot;
    Vm2Step(w, p, tsc);
    Vm2Indices(w, p, tsc);
    WrapFacts(p.n1, p.f1);
    SpinningIsEmpty(w, p);
    SpinningIsEmpty(Next(w, Choice(1, tsc)), Advance(w, p, 1));
    hide CellsInv, Spinning;
  }

  lemma OwnRank1(w: World, p: Progress, tsc: u64)
    requires Inv(w, p)
    ensures var w' := Next(w, Choice(1, tsc));
            if Spinning(w, 1) then Rank1(w') == Rank1(w)
            else Rank1(w') - 11 * (Advance(w, p, 1).n1 - p.n1) < Rank1(w)
  {
    hide Wrap, Slot;
    if Receiving(w.g1.pc) {
      OwnRank1Receiving(w, p, tsc);
    } else {
      WrapFacts(p.n1, p.f1);
      SpinningIsEmpty(w, p);
    }
    hide CellsInv, Spinning;
  }

  lemma MeasureStep1(w: World, p: Progress, tsc: u64)
    requires Inv(w, p)
    ensures var w', p' := Next(w, Choice(1, tsc)), Advance(w, p, 1);
            if Spinning(w, 1) then Measure(w', p') == Measure(w, p) else Measure(w', p') < Measure(w, p)
  {
    PeerRank1(w, p, tsc);
    OwnRank1(w, p, tsc);
    Vm2Indices(w, p, tsc);
    hide Wrap, Slot, Rank0, Rank1, Spinning, CellsInv, GuestInv, AccessOf;
  }

  /** Steps of a run that are not polling of an empty channel. */
  ghost function WorkDone(w: World, schedule: seq<Choice>): nat
    requires AllFields(w.cells) && ValidSchedule(schedule)
    decreases |schedule|
  {
    if schedule == [] then 0
    else (if Spinning(w, schedule[0].id) then 0 else 1) + WorkDone(Next(w, schedule[0]), schedule[1..])
  }

  lemma RecordedPublication(w: World, log: Log, c: Choice)
    requires AllFields(w.cells) && c.id < 2
    ensures |Record(log, w, c).published0| ==
            if c.id == 0 && w.g0.pc.PutCount? then |log.published0| + 1 else |log.published0|
  {
  }

  lemma WorkStep(w: World, p: Progress, c: Choice)
    requires Inv(w, p) && c.id < 2 && !(c.id == 0 && w.g0.pc.PutCount?)
    ensures Measure(Next(w, c), Advance(w, p, c.id)) + (if Spinning(w, c.id) then 0 else 1) <= Measure(w, p)
  {
    hide Next, Advance, Measure, Spinning, GuestInv, CellsInv, Inv, IndicesOf, Rank0, Rank1;
    if c.id == 0 {
      MeasureStep0(w, p, c.tsc);
    } else {
      MeasureStep1(w, p, c.tsc);
    }
  }

  lemma {:induction false} WorkIsBounded(w: World, log: Log, p: Progress, schedule: seq<Choice>)
    requires Inv(w, p) && ValidSchedule(schedule)
    requires |Run(w, log, schedule).1.published0| <= |log.published0|
    ensures WorkDone(w, schedule) <= Measure(w, p)
    decreases |schedule|
  {
    MeasureBounds(w, p);
    if schedule != [] {
      var c := schedule[0];
      PublishedGrows(Next(w, c), Record(log, w, c), schedule[1..]);
      RecordedPublication(w, log, c);
      hide Next, Advance, Measure, Spinning, Record, GuestInv, CellsInv, IndicesOf;
      StepInv(w, p, c);
      WorkStep(w, p, c);
      WorkIsBounded(Next(w, c), Record(log, w, c), Advance(w, p, c.id), schedule[1..]);
    }
  }

  lemma {:induction false} PublishedGrows(w: World, log: Log, schedule: seq<Choice>)
    requires AllFields(w.cells) && ValidSchedule(schedule)
    ensures |log.published0| <= |Run(w, log, schedule).1.published0|
    decreases |schedule|
  {
    if schedule != [] {
      PublishedGrows(Next(w, schedule[0]), Record(log, w, schedule[0]), schedule[1..]);
    }
  }

  function RunWorld(w: World, schedule: seq<Choice>): (w': World)
    requires AllFields(w.cells) && ValidSchedule(schedule)
    ensures AllFields(w'.cells)
  {
    Run(w, NOTHING, schedule).0
  }

  /** From any reachable state, a continuation in which the guests make more than 34
      steps other than polling an empty channel publishes VM1's next counter. */
  lemma PublishesWithin34(w: World, before: seq<Choice>, after: seq<Choice>)
    requires Initial(w) && ValidSchedule(before) && ValidSchedule(after)
    requires WorkDone(RunWorld(w, before), after) > 34
    ensures Run(RunWorld(w, before), NOTHING, after).1.published0 != []
  {
    var p := InitialRun(w, before);
    var w' := RunWorld(w, before);
    if Run(w', NOTHING, after).1.published0 == [] {
      WorkIsBounded(w', NOTHING, p, after);
      MeasureBounds(w', p);
    }
  }

  // ---- Fair schedules ----

  function Flatten(segments: seq<seq<Choice>>): seq<Choice> {
    if segments == [] then [] else segments[0] + Flatten(segments[1..])
  }

  /** Both guests take a step in every segment. */
  predicate Fair(segments: seq<seq<Choice>>) {
    forall k | 0 <= k < |segments| ::
      ValidSchedule(segments[k]) && Moves(segments[k], 0) && Moves(segments[k], 1)
  }

  predicate Moves(segment: seq<Choice>, id: nat) { exists j | 0 <= j < |segment| :: segment[j].id == id }

  /** Polling an empty channel leaves the region and the other guest as they were. */
  lemma PollChangesNothing(w: World, c: Choice)
    requires AllFields(w.cells) && c.id < 2 && Spinning(w, c.id)
    ensures Next(w, c).cells == w.cells && GuestOf(Next(w, c), 1 - c.id) == GuestOf(w, 1 - c.id)
    ensures Spinning(Next(w, c), 1 - c.id) <==> Spinning(w, 1 - c.id)
  {
    hide Wrap, Slot;
  }

  /** A guest that is not polling gets to its step: until then either the other does
      work or nothing changes. */
  lemma {:induction false} SegmentWorks(w: World, segment: seq<Choice>, id: nat)
    requires AllFields(w.cells) && ValidSchedule(segment) && id < 2 && !Spinning(w, id) && Moves(segment, id)
    ensures WorkDone(w, segment) >= 1
    decreases |segment|
  {
    hide Next, Spinning;
    var c, rest := segment[0], segment[1..];
    if Spinning(w, c.id) {
      PollChangesNothing(w, c);
      assert c.id == 1 - id;
      MovesLater(segment, id);
      SegmentWorks(Next(w, c), rest, id);
    }
  }

  lemma MovesLater(segment: seq<Choice>, id: nat)
    requires segment != [] && Moves(segment, id) && segment[0].id != id
    ensures Moves(segment[1..], id)
  {
    var j :| 0 <= j < |segment| && segment[j].id == id;
    assert segment[1..][j - 1].id == id;
  }

  lemma {:induction false} WorkAppends(w: World, a: seq<Choice>, b: seq<Choice>)
    requires AllFields(w.cells) && ValidSchedule(a) && ValidSchedule(b)
    ensures ValidSchedule(a + b)
    ensures WorkDone(w, a + b) == WorkDone(w, a) + WorkDone(RunWorld(w, a), b)
    decreases |a|
  {
    hide Next, Spinning, Record;
    if a == [] {
      assert a + b == b;
    } else {
      assert (a + b)[1..] == a[1..] + b && (a + b)[0] == a[0];
      WorkAppends(Next(w, a[0]), a[1..], b);
      LogDoesNotMatter(Next(w, a[0]), Record(NOTHING, w, a[0]), NOTHING, a[1..]);
    }
  }

  lemma {:induction false} LogDoesNotMatter(w: World, log: Log, log': Log, schedule: seq<Choice>)
    requires AllFields(w.cells) && ValidSchedule(schedule)
    ensures Run(w, log, schedule).0 == Run(w, log', schedule).0
    decreases |schedule|
  {
    hide Next, Record;
    if schedule != [] {
      LogDoesNotMatter(Next(w, schedule[0]), Record(log, w, schedule[0]), Record(log', w, schedule[0]), schedule[1..]);
    }
  }

  lemma {:induction false} RunKeepsInv(w: World, p: Progress, schedule: seq<Choice>) returns (p': Progress)
    requires Inv(w, p) && ValidSchedule(schedule) && AllFields(w.cells)
    ensures Inv(RunWorld(w, schedule), p')
    decreases |schedule|
  {
    hide Inv, Next, Advance, Record;
    if schedule == [] {
      p' := p;
    } else {
      StepInv(w, p, schedule[0]);
      p' := RunKeepsInv(Next(w, schedule[0]), Advance(w, p, schedule[0].id), schedule[1..]);
      LogDoesNotMatter(Next(w, schedule[0]), Record(NOTHING, w, schedule[0]), NOTHING, schedule[1..]);
    }
  }

  lemma {:induction false} FairWork(w: World, p: Progress, segments: seq<seq<Choice>>)
    requires Inv(w, p) && AllFields(w.cells) && Fair(segments)
    ensures ValidSchedule(Flatten(segments))
    ensures WorkDone(w, Flatten(segments)) >= |segments|
    decreases |segments|
  {
    hide Inv, Spinning, WorkDone, RunWorld, Moves;
    if segments != [] {
      var first, rest := segments[0], segments[1..];
      SomeGuestProgresses(w, p);
      if Spinning(w, 0) { SegmentWorks(w, first, 1); } else { SegmentWorks(w, first, 0); }
      var p' := RunKeepsInv(w, p, first);
      assert Fair(rest) by {
        assert forall k | 0 <= k < |rest| :: rest[k] == segments[k + 1];
      }
      FairWork(RunWorld(w, first), p', rest);
      WorkAppends(w, first, Flatten(rest));
    }
  }

  /** Fairness is enough: from any reachable state, a continuation that falls into 35
      segments, each with a step of both guests, publishes VM1's next counter. */
  lemma FairRunsPublish(w: World, before: seq<Choice>, segments: seq<seq<Choice>>)
    requires Initial(w) && ValidSchedule(before) && Fair(segments) && |segments| >= 35
    ensures ValidSchedule(Flatten(segments))
    ensures Run(RunWorld(w, before), NOTHING, Flatten(segments)).1.published0 != []
  {
    hide Inv, WorkDone, Run, Fair;
    var p := InitialRun(w, before);
    assert RunWorld(w, before) == Run(w, NOTHING, before).0;
    FairWork(RunWorld(w, before), p, segments);
    PublishesWithin34(w, before, Flatten(segments));
  }
}
