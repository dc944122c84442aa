/** What each core puts on the UART, in every interleaving: the text of its operations, in
    program order and byte by byte. */
module SerialOutput {
  import opened Words
  import opened Serial

  // ---- What a program says ----

  function Digit(n: nat): seq<u8> { [(0x30 + n) % 0x100] }

  /** What one operation puts on the UART on a core whose `pcpu_id` is `id`, with or without
      a tag. */
  function Text(op: Op, id: nat, tagged: bool): seq<u8> {
    match Owned(id, op, tagged)
    case Emit(bytes, _) => bytes
    case _ => []
  }

  function IdAfter(op: Op, i: nat, id: nat): nat { if op.Switch? then i else id }

  /** What a program says, operation by operation; `tags` tells where a tag stands. */
  function Spoken(ops: seq<Op>, tags: seq<bool>, i: nat, id: nat): seq<u8>
    requires |tags| >= |ops|
    decreases |ops|
  {
    if ops == [] then []
    else Text(ops[0], id, tags[0]) + Spoken(ops[1..], tags[1..], i, IdAfter(ops[0], i, id))
  }

  /** The bytes of core `i` in the log. */
  function Output(log: seq<Written>, i: nat): seq<u8>
    decreases |log|
  {
    if log == [] then []
    else Output(log[..|log| - 1], i) + (if log[|log| - 1].core == i then [log[|log| - 1].byte] else [])
  }

  // ---- What a core still has to say ----

  predicate Holds(pc: Pc) { pc.LoadOwner? || pc.Cas? || pc.StoreOwner? }

  /** Operations whose text is not settled yet. */
  function Unsaid(c: Core): nat { |c.todo| + if Holds(c.pc) then 1 else 0 }

  /** What a core has yet to write. */
  function Left(c: Core, tags: seq<bool>, i: nat): seq<u8>
    requires |tags| >= Unsaid(c)
  {
    if Holds(c.pc) then Text(c.pc.op, c.id, tags[0]) + Spoken(c.todo, tags[1..], i, IdAfter(c.pc.op, i, c.id))
    else (if c.pc.Emit? then c.pc.bytes else []) + Spoken(c.todo, tags, i, c.id)
  }

  /** A held operation is none that changes the core's id. */
  predicate Plain(c: Core) { Holds(c.pc) ==> !c.pc.op.Switch? && !c.pc.op.End? }

  predicate PlainCores(u: Uart)
    requires WellFormed(u)
  {
    Plain(u.cores[0]) && Plain(u.cores[1])
  }

  lemma StepKeepsPlain(u: Uart, c: Choice)
    requires WellFormed(u) && PlainCores(u) && c.i < 2
    ensures PlainCores(Step(u, c))
  {
    hide Owned;
    OwnedIsSettled(u.cores[c.i], c.bit);
  }

  lemma OwnedIsSettled(c: Core, bit: bool)
    ensures Holds(c.pc) ==> !Holds(Owned(c.id, c.pc.op, bit))
  {
  }

  /** The byte a core writes at its next step, if any. */
  function Says(c: Core): seq<u8> { if c.pc.Emit? && c.pc.bytes != [] then [c.pc.bytes[0]] else [] }

  predicate NoTags(tags: seq<bool>) { forall k | 0 <= k < |tags| :: !tags[k] }

  /** A step of core `i` moves text from what it has left to the log, and nothing else;
      `tags'` are the tags after the step. */
  lemma StepSays(u: Uart, c: Choice, i: nat, tags': seq<bool>) returns (tags: seq<bool>)
    requires WellFormed(u) && PlainCores(u) && c.i < 2 && i < 2 && |tags'| == Unsaid(Step(u, c).cores[i])
    ensures |tags| == Unsaid(u.cores[i])
    ensures Output(Step(u, c).log, i) + Left(Step(u, c).cores[i], tags', i) == Output(u.log, i) + Left(u.cores[i], tags, i)
    ensures NoTags(tags') && (c.i == i ==> !c.bit) ==> NoTags(tags)
  {
    hide Left, Owned;
    OutputGrows(u, c, i);
    if c.i != i {
      tags := tags';
    } else {
      hide Step, Output;
      tags := MoverSays(u, c, tags');
      assert (Output(u.log, i) + Says(u.cores[i])) + Left(Step(u, c).cores[i], tags', i)
          == Output(u.log, i) + (Says(u.cores[i]) + Left(Step(u, c).cores[i], tags', i));
    }
  }

  lemma MoverSays(u: Uart, c: Choice, tags': seq<bool>) returns (tags: seq<bool>)
    requires WellFormed(u) && PlainCores(u) && c.i < 2 && |tags'| == Unsaid(Step(u, c).cores[c.i])
    ensures |tags| == Unsaid(u.cores[c.i])
    ensures Left(u.cores[c.i], tags, c.i) == Says(u.cores[c.i]) + Left(Step(u, c).cores[c.i], tags', c.i)
    ensures NoTags(tags') && !c.bit ==> NoTags(tags)
  {
    var me := u.cores[c.i];
    if me.pc.Idle? && me.todo != [] {
      tags := TakesUp(u, c, tags');
    } else if me.pc.StoreOwner? || (me.pc.LoadOwner? && u.owner == Some(me.id)) {
      tags := [c.bit] + tags';
      Settles(u, c, tags');
    } else {
      tags := tags';
      Goes(u, c, tags');
    }
  }

  /** Taking up an operation leaves its text unsettled, or it has none. */
  lemma TakesUp(u: Uart, c: Choice, tags': seq<bool>) returns (tags: seq<bool>)
    requires WellFormed(u) && c.i < 2 && u.cores[c.i].pc.Idle? && u.cores[c.i].todo != []
    requires |tags'| == Unsaid(Step(u, c).cores[c.i])
    ensures |tags| == Unsaid(u.cores[c.i])
    ensures Left(u.cores[c.i], tags, c.i) == Left(Step(u, c).cores[c.i], tags', c.i)
    ensures NoTags(tags') ==> NoTags(tags)
  {
    hide Text;
    var me := u.cores[c.i];
    var op := me.todo[0];
    if op.End? || op.Switch? {
      tags := [false] + tags';
      SilentText(op, me.id, false);
      assert tags[1..] == tags';
    } else {
      tags := tags';
    }
  }

  lemma Goes(u: Uart, c: Choice, tags: seq<bool>)
    requires WellFormed(u) && c.i < 2 && |tags| == Unsaid(Step(u, c).cores[c.i])
    requires var me := u.cores[c.i];
             && (me.pc.Idle? ==> me.todo == []) && !me.pc.StoreOwner?
             && (me.pc.LoadOwner? ==> u.owner != Some(me.id))
    ensures |tags| == Unsaid(u.cores[c.i])
    ensures Left(u.cores[c.i], tags, c.i) == Says(u.cores[c.i]) + Left(Step(u, c).cores[c.i], tags, c.i)
  {
    hide Text, Spoken;
    var me := u.cores[c.i];
    if me.pc.Emit? && me.pc.bytes != [] {
      assert me.pc.bytes == [me.pc.bytes[0]] + me.pc.bytes[1..];
    }
  }

  /** Only a core that writes adds to the log, one byte, under its own name. */
  lemma OutputGrows(u: Uart, c: Choice, i: nat)
    requires WellFormed(u) && c.i < 2
    ensures Output(Step(u, c).log, i) == Output(u.log, i) + if c.i == i then Says(u.cores[c.i]) else []
    ensures i < 2 && c.i != i ==> Step(u, c).cores[i] == u.cores[i]
  {
    hide Owned;
    var me := u.cores[c.i];
    if me.pc.Emit? && me.pc.bytes != [] {
      assert Step(u, c).log[..|u.log|] == u.log;
    } else {
      assert Step(u, c).log == u.log;
    }
  }

  lemma SilentText(op: Op, id: nat, tagged: bool)
    requires op.End? || op.Switch?
    ensures Text(op, id, tagged) == []
  {
  }

  /** An operation whose text is settled: what the core then has to write is that text. */
  lemma Settles(u: Uart, c: Choice, tags': seq<bool>)
    requires WellFormed(u) && c.i < 2 && Plain(u.cores[c.i])
    requires u.cores[c.i].pc.StoreOwner? || (u.cores[c.i].pc.LoadOwner? && u.owner == Some(u.cores[c.i].id))
    requires |tags'| == Unsaid(Step(u, c).cores[c.i])
    ensures |[c.bit] + tags'| == Unsaid(u.cores[c.i])
    ensures Left(Step(u, c).cores[c.i], tags', c.i) == Left(u.cores[c.i], [c.bit] + tags', c.i)
  {
    assert ([c.bit] + tags')[1..] == tags';
  }

  /** Over a whole run core `i` writes a prefix of what it has left, and has the rest left. */
  lemma {:induction false} RunSays(u: Uart, schedule: seq<Choice>, i: nat) returns (tags: seq<bool>, tags': seq<bool>)
    requires WellFormed(u) && PlainCores(u) && OnTwoCores(schedule) && i < 2
    ensures |tags| == Unsaid(u.cores[i]) && |tags'| == Unsaid(Run(u, schedule).cores[i])
    ensures Output(Run(u, schedule).log, i) + Left(Run(u, schedule).cores[i], tags', i)
            == Output(u.log, i) + Left(u.cores[i], tags, i)
    ensures Untagged(schedule, i) ==> NoTags(tags)
    decreases |schedule|
  {
    hide Step, Left, Output, PlainCores;
    if schedule == [] {
      tags' := seq(Unsaid(u.cores[i]), _ => false);
      tags := tags';
    } else {
      StepKeepsPlain(u, schedule[0]);
      assert Untagged(schedule, i) ==> Untagged(schedule[1..], i) by {
        assert forall k | 0 <= k < |schedule[1..]| :: schedule[1..][k] == schedule[k + 1];
      }
      var between;
      between, tags' := RunSays(Step(u, schedule[0]), schedule[1..], i);
      tags := StepSays(u, schedule[0], i, between);
    }
  }

  /** The tag and line-start flags ask for no tag at the steps of core `i`. */
  predicate Untagged(schedule: seq<Choice>, i: nat) {
    forall k | 0 <= k < |schedule| :: schedule[k].i == i ==> !schedule[k].bit
  }

  /** The core is through with its program. */
  predicate Finished(c: Core) { c.pc == Idle && c.todo == [] }

  function Program(p0: seq<Op>, p1: seq<Op>, i: nat): seq<Op> { if i == 0 then p0 else p1 }

  /** In every interleaving of any two programs, the bytes of a core on the UART are a prefix
      of what its program says, in program order without gap or repeat, and all of it once
      the core is through. */
  lemma OutputIsWhatTheProgramSays(p0: seq<Op>, p1: seq<Op>, schedule: seq<Choice>, i: nat) returns (tags: seq<bool>)
    requires OnTwoCores(schedule) && i < 2
    ensures var u, p := Run(Start(p0, p1), schedule), Program(p0, p1, i);
            && |tags| == |p| && (Untagged(schedule, i) ==> NoTags(tags))
            && Output(u.log, i) <= Spoken(p, tags, i, 0)
            && (Finished(u.cores[i]) ==> Output(u.log, i) == Spoken(p, tags, i, 0))
  {
    hide Run, Spoken, Text, Left, Unsaid;
    var tags';
    var start := Start(p0, p1);
    Fresh(start.cores[i]);
    tags, tags' := RunSays(start, schedule, i);
    FreshLeft(start.cores[i], tags, i);
    assert start.cores[i] == Core(Program(p0, p1, i), Idle, 0, false);
    assert Output(start.log, i) + Spoken(Program(p0, p1, i), tags, i, 0) == Spoken(Program(p0, p1, i), tags, i, 0);
    var c := Run(start, schedule).cores[i];
    if Finished(c) {
      Fresh(c);
      FreshLeft(c, tags', i);
    }
  }

  lemma Fresh(c: Core)
    requires c.pc == Idle
    ensures Unsaid(c) == |c.todo|
  {
  }

  lemma FreshLeft(c: Core, tags: seq<bool>, i: nat)
    requires c.pc == Idle && |tags| == |c.todo|
    ensures Unsaid(c) == |tags| && Left(c, tags, i) == Spoken(c.todo, tags, i, c.id)
    ensures c.todo == [] ==> Spoken(c.todo, tags, i, c.id) == []
  {
  }

  // ---- The text of prints and guest lines ----

  /** Printed text as the terminal gets it: line feeds become CR LF, and CRs are dropped. */
  function OnWire(text: seq<u8>): seq<u8> {
    if text == [] then []
    else (if text[0] == 10 then [13, 10] else if text[0] == 13 then [] else [text[0]]) + OnWire(text[1..])
  }

  predicate Unbroken(text: seq<u8>) { 10 !in text && 13 !in text }

  lemma {:induction false} UnbrokenOnWire(text: seq<u8>)
    requires Unbroken(text)
    ensures OnWire(text) == text && OnWire(text + [10]) == text + [13, 10]
  {
    hide Unbroken;
    if text == [] {
      assert text + [10] == [10] && [10][1..] == [] && OnWire([]) == [];
    } else {
      UnbrokenTail(text);
      UnbrokenOnWire(text[1..]);
      assert (text + [10])[1..] == text[1..] + [10] && (text + [10])[0] == text[0];
      assert text == [text[0]] + text[1..];
      assert [text[0]] + (text[1..] + [13, 10]) == text + [13, 10];
    }
  }

  lemma UnbrokenTail(text: seq<u8>)
    requires Unbroken(text) && text != []
    ensures text[0] != 10 && text[0] != 13 && Unbroken(text[1..])
  {
  }

  lemma {:induction false} PrintSays(text: seq<u8>, tags: seq<bool>, i: nat, id: nat)
    requires |tags| == |text| && NoTags(tags)
    ensures |Print(text)| == |text| && Spoken(Print(text), tags, i, id) == OnWire(text)
    decreases |text|
  {
    hide Text, NoTags;
    if text != [] {
      assert Print(text)[1..] == Print(text[1..]) && Print(text)[0] == Host(text[0]);
      assert !tags[0] && NoTags(tags[1..]) by { NoTagsTail(tags); }
      PrintSays(text[1..], tags[1..], i, id);
      HostText(text[0], id);
    }
  }

  lemma NoTagsTail(tags: seq<bool>)
    requires NoTags(tags) && tags != []
    ensures !tags[0] && NoTags(tags[1..])
  {
  }

  lemma HostText(b: u8, id: nat)
    ensures Text(Host(b), id, false) == if b == 10 then [13, 10] else if b == 13 then [] else [b]
  {
  }

  /** A print without tags puts exactly its text on the UART, line feeds as CR LF, whatever
      the other core does; text without line breaks is put as it is. */
  lemma UntaggedPrint(p0: seq<Op>, p1: seq<Op>, schedule: seq<Choice>, i: nat, text: seq<u8>)
    requires OnTwoCores(schedule) && i < 2 && Untagged(schedule, i) && Program(p0, p1, i) == Print(text)
    ensures var u := Run(Start(p0, p1), schedule);
            && Output(u.log, i) <= OnWire(text) && (Finished(u.cores[i]) ==> Output(u.log, i) == OnWire(text))
            && (Unbroken(text) ==> OnWire(text) == text && OnWire(text + [10]) == text + [13, 10])
  {
    hide Run, OnWire;
    var tags := OutputIsWhatTheProgramSays(p0, p1, schedule, i);
    PrintSays(text, tags, i, 0);
    if Unbroken(text) {
      UnbrokenOnWire(text);
    }
  }

  /** A tagged byte stands behind `[Cn] `. */
  lemma TagSays(b: u8, i: nat, id: nat)
    requires Unbroken([b])
    ensures Spoken([Host(b)], [true], i, id) == Ascii("[C") + Digit(id) + Ascii("] ") + [b]
  {
    assert b in [b];
    assert [Host(b)][1..] == [] && Spoken([], [true][1..], i, id) == [];
  }

  function GuestLineText(vm: u8, line: seq<u8>, id: nat): seq<u8> {
    Ascii("[VM") + Digit(if vm < 9 then vm else 9) + Ascii("/C") + Digit(id) + Ascii("] ") + line + [13, 10]
  }

  lemma {:induction false} EscapedPlain(line: seq<u8>)
    requires 10 !in line
    ensures Escaped(line) == line
  {
    if line != [] {
      assert line[0] in line && (forall b | b in line[1..] :: b in line);
      EscapedPlain(line[1..]);
      assert line == [line[0]] + line[1..];
    }
  }

  /** A handed-over guest line is said as its tag, the line, CR and LF. */
  lemma GuestSays(vm: u8, line: seq<u8>, id: nat, tagged: bool)
    requires 10 !in line
    ensures Owned(id, Guest(vm, line), tagged) == Emit(GuestLineText(vm, line, id), true)
  {
    EscapedPlain(line);
  }

  // ---- A guest line stands together ----

  /** Who wrote which byte. */
  function Trace(log: seq<Written>): seq<(nat, u8)> {
    seq(|log|, k requires 0 <= k < |log| => (log[k].core, log[k].byte))
  }

  function By(i: nat, bytes: seq<u8>): seq<(nat, u8)> {
    seq(|bytes|, k requires 0 <= k < |bytes| => (i, bytes[k]))
  }

  /** The bytes stand next to each other in the log, all from core `i`. */
  ghost predicate Stands(log: seq<Written>, i: nat, bytes: seq<u8>) { exists k: nat :: StandsAt(log, i, bytes, k) }

  predicate StandsAt(log: seq<Written>, i: nat, bytes: seq<u8>, k: nat) {
    k + |bytes| <= |log| && Trace(log)[k..k + |bytes|] == By(i, bytes)
  }

  lemma WriterIsAlone(u: Uart, i: nat)
    requires WellFormed(u) && i < 2 && TurnInv(u) && Says(u.cores[i]) != []
    ensures Says(u.cores[1 - i]) == []
  {
    hide TurnsWhole, LastOwns, QuietEarly;
  }

  lemma LogGrows(u: Uart, c: Choice)
    requires WellFormed(u) && c.i < 2
    ensures Trace(Step(u, c).log) == Trace(u.log) + By(c.i, Says(u.cores[c.i]))
  {
    hide Owned;
  }

  lemma {:induction false} RunGrows(u: Uart, schedule: seq<Choice>)
    requires WellFormed(u) && OnTwoCores(schedule)
    ensures Trace(u.log) <= Trace(Run(u, schedule).log)
    decreases |schedule|
  {
    hide Step, Trace, By, Says;
    if schedule != [] {
      LogGrows(u, schedule[0]);
      RunGrows(Step(u, schedule[0]), schedule[1..]);
    }
  }

  /** Once a core has begun to write an operation's bytes, they follow each other on the
      UART: a later log ends within them, or holds them whole. */
  lemma {:induction false} EmitStandsTogether(u: Uart, schedule: seq<Choice>, i: nat)
    requires WellFormed(u) && OnTwoCores(schedule) && i < 2 && TurnInv(u) && u.cores[i].pc.Emit?
    ensures var r, bytes := Run(u, schedule), u.cores[i].pc.bytes;
            || Trace(u.log) + By(i, bytes) <= Trace(r.log)
            || (r.cores[i].pc.Emit? && r.cores[i].todo == u.cores[i].todo)
    decreases |schedule|
  {
    hide Step, TurnInv, Trace, By;
    var me := u.cores[i];
    if me.pc.bytes == [] {
      RunGrows(u, schedule);
      assert By(i, []) == [] by { NoBytes(i); }
      assert Trace(u.log) + [] == Trace(u.log);
    } else if schedule != [] {
      var c, next := schedule[0], Step(u, schedule[0]);
      StepKeepsTurns(u, c);
      LogGrows(u, c);
      EmitSteps(u, c, i);
      EmitStandsTogether(next, schedule[1..], i);
      if c.i == i {
        ByteByByte(i, me.pc.bytes);
        assert Trace(u.log) + By(i, me.pc.bytes) == (Trace(u.log) + By(i, [me.pc.bytes[0]])) + By(i, me.pc.bytes[1..]);
      } else {
        WriterIsAlone(u, i);
        NoBytes(c.i);
        assert Trace(u.log) + [] == Trace(u.log);
      }
    }
  }

  lemma NoBytes(i: nat)
    ensures By(i, []) == []
  {
  }

  lemma ByteByByte(i: nat, bytes: seq<u8>)
    requires bytes != []
    ensures By(i, bytes) == By(i, [bytes[0]]) + By(i, bytes[1..])
  {
  }

  lemma EmitSteps(u: Uart, c: Choice, i: nat)
    requires WellFormed(u) && c.i < 2 && i < 2 && u.cores[i].pc.Emit? && u.cores[i].pc.bytes != []
    ensures var me, n := u.cores[i], Step(u, c).cores[i];
            && n.todo == me.todo && n.pc.Emit?
            && n.pc.bytes == if c.i == i then me.pc.bytes[1..] else me.pc.bytes
  {
    hide Owned;
  }

  /** The core's id after some operations. */
  function IdThrough(ops: seq<Op>, i: nat, id: nat): nat
    decreases |ops|
  {
    if ops == [] then id else IdThrough(ops[1..], i, IdAfter(ops[0], i, id))
  }

  /** The guest line is still to come, `rest` after it, and the core's id will then be `id`. */
  predicate Coming(c: Core, i: nat, op: Op, rest: seq<Op>, id: nat) {
    || (Holds(c.pc) && c.pc.op == op && c.todo == rest && c.id == id)
    || (|c.todo| > |rest|
        && var k := |c.todo| - |rest| - 1;
        c.todo[k] == op && c.todo[k + 1..] == rest && IdThrough(c.todo[..k], i, c.id) == id)
  }

  lemma ComingStep(u: Uart, c: Choice, i: nat, vm: u8, line: seq<u8>, rest: seq<Op>, id: nat)
    requires WellFormed(u) && c.i < 2 && i < 2 && 10 !in line
    requires Coming(u.cores[i], i, Guest(vm, line), rest, id)
    ensures var n := Step(u, c).cores[i];
            || Coming(n, i, Guest(vm, line), rest, id)
            || (n.pc == Emit(GuestLineText(vm, line, id), true) && n.todo == rest)
  {
    hide Owned, GuestLineText, Coming, IdThrough;
    var me, op := u.cores[i], Guest(vm, line);
    if c.i != i {
      OutputGrows(u, c, i);
    } else if me.pc == Idle {
      NotHeld(me, i, op, rest, id);
      TakenUp(u, i, op, rest, id);
    } else if |me.todo| > |rest| {
      InBetween(u, c);
      NotHeld(me, i, op, rest, id);
      NotHeld(Step(u, c).cores[i], i, op, rest, id);
    } else {
      Held(me, i, op, rest, id);
      HeldStep(u, c, vm, line);
      Held(Step(u, c).cores[i], i, op, rest, id);
    }
  }

  lemma NotHeld(c: Core, i: nat, op: Op, rest: seq<Op>, id: nat)
    ensures |c.todo| > |rest| ==>
              var k := |c.todo| - |rest| - 1;
              Coming(c, i, op, rest, id) <==>
              c.todo[k] == op && c.todo[k + 1..] == rest && IdThrough(c.todo[..k], i, c.id) == id
    ensures |c.todo| <= |rest| && !Holds(c.pc) ==> !Coming(c, i, op, rest, id)
  {
  }

  lemma Held(c: Core, i: nat, op: Op, rest: seq<Op>, id: nat)
    requires |c.todo| <= |rest|
    ensures Coming(c, i, op, rest, id) <==> Holds(c.pc) && c.pc.op == op && c.todo == rest && c.id == id
  {
  }

  lemma InBetween(u: Uart, c: Choice)
    requires WellFormed(u) && c.i < 2 && u.cores[c.i].pc != Idle
    ensures Step(u, c).cores[c.i].todo == u.cores[c.i].todo && Step(u, c).cores[c.i].id == u.cores[c.i].id
  {
    hide Owned;
  }

  lemma HeldStep(u: Uart, c: Choice, vm: u8, line: seq<u8>)
    requires WellFormed(u) && c.i < 2 && 10 !in line
    requires Holds(u.cores[c.i].pc) && u.cores[c.i].pc.op == Guest(vm, line)
    ensures var me, n := u.cores[c.i], Step(u, c).cores[c.i];
            && n.todo == me.todo && n.id == me.id
            && ((Holds(n.pc) && n.pc.op == Guest(vm, line)) || n.pc == Emit(GuestLineText(vm, line, me.id), true))
  {
    hide Owned, GuestLineText;
    GuestSays(vm, line, u.cores[c.i].id, c.bit);
  }

  lemma TakenUp(u: Uart, i: nat, op: Op, rest: seq<Op>, id: nat)
    requires WellFormed(u) && i < 2 && op.Guest? && |u.cores[i].todo| > |rest|
    requires u.cores[i].pc == Idle && Coming(u.cores[i], i, op, rest, id)
    ensures Coming(Begun(u, i), i, op, rest, id)
  {
    var todo := u.cores[i].todo;
    var k := |todo| - |rest| - 1;
    if k > 0 {
      assert todo[..k][1..] == todo[1..][..k - 1] && todo[..k][0] == todo[0];
      assert todo[1..][k..] == todo[k + 1..];
    } else {
      assert todo[..0] == [] && IdThrough([], i, u.cores[i].id) == u.cores[i].id;
    }
  }

  /** The core is past the operation that `rest` follows. */
  predicate Past(c: Core, rest: seq<Op>) { |c.todo| < |rest| || (|c.todo| == |rest| && c.pc == Idle) }

  lemma {:induction false} ComingLineStands(u: Uart, schedule: seq<Choice>, i: nat, vm: u8, line: seq<u8>, rest: seq<Op>,
                                            id: nat)
    requires WellFormed(u) && OnTwoCores(schedule) && i < 2 && TurnInv(u) && 10 !in line
    requires Coming(u.cores[i], i, Guest(vm, line), rest, id)
    ensures var r := Run(u, schedule);
            Past(r.cores[i], rest) ==> Stands(r.log, i, GuestLineText(vm, line, id))
    decreases |schedule|
  {
    hide Step, TurnInv, Trace, By, GuestLineText, Coming, Stands;
    if schedule == [] {
      assert !Past(u.cores[i], rest) by { NotPast(u.cores[i], i, Guest(vm, line), rest, id); }
    } else {
      var next := Step(u, schedule[0]);
      StepKeepsTurns(u, schedule[0]);
      ComingStep(u, schedule[0], i, vm, line, rest, id);
      if Coming(next.cores[i], i, Guest(vm, line), rest, id) {
        ComingLineStands(next, schedule[1..], i, vm, line, rest, id);
      } else {
        EmitStandsTogether(next, schedule[1..], i);
        var r := Run(next, schedule[1..]);
        if Past(r.cores[i], rest) {
          StandsHere(next.log, r.log, i, GuestLineText(vm, line, id));
        }
      }
    }
  }

  lemma NotPast(c: Core, i: nat, op: Op, rest: seq<Op>, id: nat)
    requires Coming(c, i, op, rest, id)
    ensures !Past(c, rest)
  {
  }

  lemma StandsHere(before: seq<Written>, log: seq<Written>, i: nat, bytes: seq<u8>)
    requires Trace(before) + By(i, bytes) <= Trace(log)
    ensures Stands(log, i, bytes)
  {
    assert |Trace(before)| == |before| && |By(i, bytes)| == |bytes| && |Trace(log)| == |log|;
    assert Trace(log)[|before|..|before| + |bytes|] == (Trace(before) + By(i, bytes))[|before|..];
    assert StandsAt(log, i, bytes, |before|);
  }

  /** If core 1 neither writes nor ends a closure before its switch, then on every schedule,
      once a core is past a guest line, the line's tag, its text, CR and LF stand next to
      each other on the UART. */
  lemma GuestLineStandsTogether(p0: seq<Op>, p1: seq<Op>, schedule: seq<Choice>, i: nat,
                                before: seq<Op>, vm: u8, line: seq<u8>, rest: seq<Op>)
    requires OnTwoCores(schedule) && i < 2 && QuietEarly(p1) && 10 !in line
    requires Program(p0, p1, i) == before + [Guest(vm, line)] + rest
    ensures var u := Run(Start(p0, p1), schedule);
            Past(u.cores[i], rest) ==> Stands(u.log, i, GuestLineText(vm, line, IdThrough(before, i, 0)))
  {
    hide Run, Past, Stands, GuestLineText, QuietEarly, TurnInv;
    StartTurns(p0, p1);
    var todo := before + [Guest(vm, line)] + rest;
    assert todo[..|before|] == before && todo[|before| + 1..] == rest && todo[|before|] == Guest(vm, line);
    assert Start(p0, p1).cores[i] == Core(todo, Idle, 0, false);
    ComingLineStands(Start(p0, p1), schedule, i, vm, line, rest, IdThrough(before, i, 0));
  }
}
