/** The per-core buffer that collects a guest's characters and hands them to the UART a
    line at a time. */
module GuestLine {
  import opened Words
  import opened Serial

  const CAPACITY := 160

  predicate NoBreaks(s: seq<u8>) { CR !in s && LF !in s }

  /** One character: the buffered line afterwards, and the line handed over, if any. The
      buffer is handed over at a line feed, and at any character once it holds 159. */
  function Kept(line: seq<u8>, c: u8): (seq<u8>, Option<seq<u8>>) {
    if c == LF then ([], Some(line))
    else if |line| + 1 >= CAPACITY then (if c == CR then [] else [c], Some(line))
    else (if c == CR then line else line + [c], None)
  }

  class LineBuffer {
    var buffer: array<u8>
    var len: nat

    ghost predicate Valid()
      reads this, buffer
    {
      buffer.Length == CAPACITY && len <= CAPACITY - 1 && NoBreaks(buffer[..len])
    }

    ghost function Contents(): seq<u8>
      reads this, buffer
      requires Valid()
    {
      buffer[..len]
    }

    constructor ()
      ensures Valid() && fresh(buffer) && Contents() == []
    {
      buffer := new u8[CAPACITY](_ => 0);
      len := 0;
    }

    /** `guest_putchar_line` on core `i`: the bytes it puts on the UART. */
    method Putchar(i: nat, vm: u8, c: u8) returns (uart: seq<u8>)
      requires Valid()
      modifies this`len, buffer
      ensures Valid()
      ensures Contents() == Kept(old(Contents()), c).0
      ensures uart == match Kept(old(Contents()), c).1
                      case None => []
                      case Some(line) => GuestBytes(i, vm, line)
    {
      if c == LF || len + 1 >= CAPACITY {
        uart := GuestBytes(i, vm, buffer[..len]);
        len := 0;
        if c != LF && c != CR {
          buffer[0] := c;
          len := 1;
        }
        return;
      }
      uart := [];
      if c == CR { return; }
      buffer[len] := c;
      len := len + 1;
      assert buffer[..len] == old(Contents()) + [c];
    }
  }

  // ---- A whole stream of characters ----

  /** A character put by the guest of VM `vm` on this core. Guests that take turns on one
      core share its buffer. */
  datatype Put = Put(vm: u8, c: u8)

  /** A line handed over, under the tag of the guest whose character sent it off. */
  datatype Tagged = Tagged(vm: u8, line: seq<u8>)

  /** The buffered line and the lines handed over after `s`, from `line`. */
  function Fed(line: seq<u8>, s: seq<Put>): (seq<u8>, seq<Tagged>)
    decreases |s|
  {
    if s == [] then (line, []) else
    var (l, out) := Kept(line, s[0].c);
    var (rest, lines) := Fed(l, s[1..]);
    (rest, (if out.Some? then [Tagged(s[0].vm, out.value)] else []) + lines)
  }

  function Printable(s: seq<Put>): seq<u8> {
    if s == [] then [] else (if s[0].c == CR || s[0].c == LF then [] else [s[0].c]) + Printable(s[1..])
  }

  function Concat(lines: seq<Tagged>): seq<u8> {
    if lines == [] then [] else lines[0].line + Concat(lines[1..])
  }

  function Handed(out: Option<seq<u8>>): seq<u8> { if out.Some? then out.value else [] }

  lemma KeptConserves(line: seq<u8>, c: u8)
    ensures Handed(Kept(line, c).1) + Kept(line, c).0 == line + (if c == CR || c == LF then [] else [c])
  {
  }

  lemma ConcatOf(vm: u8, out: Option<seq<u8>>, lines: seq<Tagged>)
    ensures Concat((if out.Some? then [Tagged(vm, out.value)] else []) + lines) == Handed(out) + Concat(lines)
  {
    if out.Some? {
      assert ([Tagged(vm, out.value)] + lines)[1..] == lines;
    } else {
      assert [] + lines == lines;
    }
  }

  /** Nothing is lost, duplicated or reordered: what was handed over, followed by what is
      still buffered, is the input without carriage returns and line feeds. */
  lemma {:induction false} NothingLost(line: seq<u8>, s: seq<Put>)
    ensures Concat(Fed(line, s).1) + Fed(line, s).0 == line + Printable(s)
    decreases |s|
  {
    hide Kept, Handed;
    if s == [] {
      assert Concat([]) + line == line + [];
    } else {
      var (l, out) := Kept(line, s[0].c);
      var (rest, lines) := Fed(l, s[1..]);
      var one := if s[0].c == CR || s[0].c == LF then [] else [s[0].c];
      NothingLost(l, s[1..]);
      KeptConserves(line, s[0].c);
      ConcatOf(s[0].vm, out, lines);
      Regroup(Handed(out), Concat(lines), rest, l, Printable(s[1..]), line, one);
    }
  }

  lemma Regroup(handed: seq<u8>, lines: seq<u8>, rest: seq<u8>, l: seq<u8>, p: seq<u8>, line: seq<u8>, one: seq<u8>)
    requires lines + rest == l + p && handed + l == line + one
    ensures (handed + lines) + rest == line + (one + p)
  {
    assert (handed + lines) + rest == handed + (lines + rest);
    assert handed + (l + p) == (handed + l) + p;
    assert (line + one) + p == line + (one + p);
  }

  /** The buffer never holds a carriage return or a line feed, nor more than 159 bytes,
      and neither does any line handed over. */
  lemma {:induction false} LinesBounded(line: seq<u8>, s: seq<Put>, k: nat)
    requires NoBreaks(line) && |line| <= 159
    ensures NoBreaks(Fed(line, s).0) && |Fed(line, s).0| <= 159
    ensures k < |Fed(line, s).1| ==> NoBreaks(Fed(line, s).1[k].line) && |Fed(line, s).1[k].line| <= 159
    decreases |s|
  {
    if s != [] {
      var (l, out) := Kept(line, s[0].c);
      LinesBounded(l, s[1..], if out.Some? && k > 0 then k - 1 else k);
    }
  }

  // ---- The guests' own lines ----

  /** The line each guest has begun. */
  type Begun = map<u8, seq<u8>>

  function Part(b: Begun, vm: u8): seq<u8> { if vm in b then b[vm] else [] }

  /** What the guests meant: each its own lines, of any length, under its own tag. */
  function Own(b: Begun, s: seq<Put>): (Begun, seq<Tagged>)
    decreases |s|
  {
    if s == [] then (b, []) else
    var vm, c := s[0].vm, s[0].c;
    if c == LF then
      var (rest, lines) := Own(b[vm := []], s[1..]);
      (rest, [Tagged(vm, Part(b, vm))] + lines)
    else Own(if c == CR then b else b[vm := Part(b, vm) + [c]], s[1..])
  }

  /** The buffer is the begun line of one guest, and no other guest has begun one. */
  predicate Sole(b: Begun, line: seq<u8>, vm: u8) {
    Part(b, vm) == line && forall v: u8 :: v != vm ==> Part(b, v) == []
  }

  predicate Below(b: Begun, n: nat) { forall v: u8 :: |Part(b, v)| < n }

  /** The lines handed over are the guests' own, and what is buffered is one guest's. */
  ghost predicate Faithful(b: Begun, line: seq<u8>, s: seq<Put>) {
    Fed(line, s).1 == Own(b, s).1 && exists vm: u8 :: Sole(Own(b, s).0, Fed(line, s).0, vm)
  }

  /** No line grows past 159 characters: at 159 only a line feed may follow. */
  predicate Fits(line: seq<u8>, s: seq<Put>)
    decreases |s|
  {
    s != [] ==> (s[0].c == LF || |line| < 159) && Fits(Kept(line, s[0].c).0, s[1..])
  }

  /** Another guest's character or line feed never finds anything in the buffer; `vm` is
      the guest that wrote what `line` holds. */
  predicate TurnsClean(line: seq<u8>, vm: u8, s: seq<Put>)
    decreases |s|
  {
    s != [] ==>
      if s[0].c == CR then TurnsClean(Kept(line, CR).0, vm, s[1..])
      else (line == [] || s[0].vm == vm) && TurnsClean(Kept(line, s[0].c).0, s[0].vm, s[1..])
  }

  function Feeds(s: seq<Put>): nat {
    if s == [] then 0 else (if s[0].c == LF then 1 else 0) + Feeds(s[1..])
  }

  lemma {:induction false} LineCounts(line: seq<u8>, b: Begun, s: seq<Put>)
    ensures |Fed(line, s).1| >= Feeds(s) == |Own(b, s).1|
    decreases |s|
  {
    if s != [] {
      var vm, c := s[0].vm, s[0].c;
      LineCounts(Kept(line, c).0, if c == LF then b[vm := []] else if c == CR then b else b[vm := Part(b, vm) + [c]], s[1..]);
    }
  }

  /** A line cut off at 159 characters is one line too many. */
  lemma CutLineShows(line: seq<u8>, b: Begun, s: seq<Put>)
    requires s != [] && s[0].c != LF && |line| >= CAPACITY - 1
    ensures !Faithful(b, line, s)
  {
    hide Sole;
    var vm, c := s[0].vm, s[0].c;
    LineCounts(Kept(line, c).0, if c == CR then b else b[vm := Part(b, vm) + [c]], s[1..]);
    assert |Fed(line, s).1| == 1 + |Fed(Kept(line, c).0, s[1..]).1|;
  }

  /** Once two guests' characters are in the buffer together, it is longer than any line
      begun, and the difference shows: in the next line handed over, or in what is left. */
  lemma {:induction false} MixtureShows(line: seq<u8>, b: Begun, s: seq<Put>)
    requires Below(b, |line|)
    ensures !Faithful(b, line, s)
    decreases |s|
  {
    if s == [] {
    } else if s[0].c != LF && |line| >= CAPACITY - 1 {
      CutLineShows(line, b, s);
    } else if s[0].c == LF {
      HeadsDiffer(line, b, s);
    } else {
      var vm, c := s[0].vm, s[0].c;
      var b' := if c == CR then b else b[vm := Part(b, vm) + [c]];
      forall v: u8 ensures |Part(b', v)| < |Kept(line, c).0| {
        assert |Part(b, v)| < |line|;
      }
      MixtureShows(Kept(line, c).0, b', s[1..]);
      OneCharacter(line, b, s);
    }
  }

  lemma HeadsDiffer(line: seq<u8>, b: Begun, s: seq<Put>)
    requires s != [] && s[0].c == LF && Part(b, s[0].vm) != line
    ensures !Faithful(b, line, s)
  {
    hide Sole;
    assert Fed(line, s).1[0].line == line && Own(b, s).1[0].line == Part(b, s[0].vm);
  }

  /** A character that is only buffered changes neither list of lines. */
  lemma OneCharacter(line: seq<u8>, b: Begun, s: seq<Put>)
    requires s != [] && s[0].c != LF && |line| < CAPACITY - 1
    ensures var b' := if s[0].c == CR then b else b[s[0].vm := Part(b, s[0].vm) + [s[0].c]];
            Faithful(b, line, s) <==> Faithful(b', Kept(line, s[0].c).0, s[1..])
  {
    hide Sole, Part;
    assert [] + Fed(Kept(line, s[0].c).0, s[1..]).1 == Fed(Kept(line, s[0].c).0, s[1..]).1;
  }

  /** A line feed of the guest that wrote the buffer hands over that guest's own line. */
  lemma OwnLineFeed(line: seq<u8>, b: Begun, s: seq<Put>)
    requires s != [] && s[0].c == LF && Part(b, s[0].vm) == line
    ensures Faithful(b, line, s) <==> Faithful(b[s[0].vm := []], [], s[1..])
  {
    hide Sole, Part;
    var lines, own := Fed([], s[1..]).1, Own(b[s[0].vm := []], s[1..]).1;
    assert ([Tagged(s[0].vm, line)] + lines)[1..] == lines && ([Tagged(s[0].vm, line)] + own)[1..] == own;
  }

  /** The guests' lines come out as they wrote them, each whole, its own and under its
      own tag, exactly when each fits and no guest puts anything while another guest's
      unfinished line is in the core's buffer. */
  lemma {:induction false} LinesKeptIff(line: seq<u8>, b: Begun, vm: u8, s: seq<Put>)
    requires |line| <= CAPACITY - 1 && Sole(b, line, vm)
    ensures Faithful(b, line, s) <==> Fits(line, s) && TurnsClean(line, vm, s)
    decreases |s|
  {
    hide Faithful, Sole, Part;
    if s == [] {
      NothingPut(line, b, vm);
    } else if s[0].c != LF && |line| >= CAPACITY - 1 {
      CutLineShows(line, b, s);
    } else if s[0].c == CR {
      OneCharacter(line, b, s);
      LinesKeptIff(line, b, vm, s[1..]);
    } else if line != [] && s[0].vm != vm {
      NoneBegun(b, line, vm, s[0].vm);
      if s[0].c == LF {
        HeadsDiffer(line, b, s);
      } else {
        assert Part(b, s[0].vm) + [s[0].c] == [s[0].c];
        SecondBegins(b, line, vm, s[0].vm, s[0].c);
        MixtureShows(line + [s[0].c], b[s[0].vm := [s[0].c]], s[1..]);
        OneCharacter(line, b, s);
      }
    } else {
      var v, c := s[0].vm, s[0].c;
      SoleNext(b, line, vm, v, []);
      SoleNext(b, line, vm, v, line + [c]);
      if c == LF {
        OwnLineFeed(line, b, s);
        LinesKeptIff([], b[v := []], v, s[1..]);
      } else {
        OneCharacter(line, b, s);
        LinesKeptIff(line + [c], b[v := line + [c]], v, s[1..]);
      }
    }
  }

  lemma NoneBegun(b: Begun, line: seq<u8>, vm: u8, v: u8)
    requires Sole(b, line, vm) && v != vm
    ensures Part(b, v) == []
  {
  }

  lemma SoleNext(b: Begun, line: seq<u8>, vm: u8, v: u8, next: seq<u8>)
    requires Sole(b, line, vm) && (line == [] || v == vm)
    ensures Part(b, v) == line && Sole(b[v := next], next, v)
  {
    var b' := b[v := next];
    forall u: u8 | u != v ensures Part(b', u) == [] {
      assert Part(b, u) == [];
    }
  }

  lemma SecondBegins(b: Begun, line: seq<u8>, vm: u8, v: u8, c: u8)
    requires Sole(b, line, vm) && line != [] && v != vm
    ensures Below(b[v := [c]], |line| + 1)
  {
    var b' := b[v := [c]];
    forall u: u8 ensures |Part(b', u)| < |line| + 1 {
      assert u == vm || Part(b, u) == [];
    }
  }

  lemma NothingPut(line: seq<u8>, b: Begun, vm: u8)
    requires Sole(b, line, vm)
    ensures Faithful(b, line, [])
  {
    assert Own(b, []).0 == b && Fed(line, []).0 == line;
  }

  /** Two guests that take turns on one core: the first leaves a character without a line
      feed, and it comes out in the second's line, under the second's tag. */
  lemma SharedBufferMixesGuests()
    ensures var s := [Put(0, 0x61), Put(1, 0x62), Put(1, LF)];
            && Fed([], s).1 == [Tagged(1, [0x61, 0x62])] && Fits([], s)
            && !TurnsClean([], 0, s) && !Faithful(map[], [], s)
  {
    var s := [Put(0, 0x61), Put(1, 0x62), Put(1, LF)];
    var s1, s2 := s[1..], s[1..][1..];
    assert s2[1..] == [];
    assert [0x61] + [0x62] == [0x61, 0x62] && [] + [0x61] == [0x61];
    assert Fed([0x61, 0x62], s2).1 == [Tagged(1, [0x61, 0x62])] + Fed([], []).1;
    assert Fed([0x61], s1).1 == [] + Fed([0x61, 0x62], s2).1;
    assert Fed([], s).1 == [] + Fed([0x61], s1).1;
    assert Fits([0x61, 0x62], s2) && Fits([0x61], s1);
    assert !TurnsClean([0x61], 0, s1);
    LinesKeptIff([], map[], 0, s);
  }

  // ---- On the UART ----

  lemma {:induction false} EscapeIsIdentity(line: seq<u8>)
    requires NoBreaks(line)
    ensures Escaped(line) == line
  {
    if line != [] {
      EscapeIsIdentity(line[1..]);
      assert line == [line[0]] + line[1..];
    }
  }

  /** The bytes of a line handed over are its nine-byte tag, the line unaltered, and one
      CR LF. They start a line of the UART unless the core is inside a host line it has not
      finished: it then still owns the UART, and the tag follows that text. */
  lemma HandedOverIsOneLine(i: nat, vm: u8, line: seq<u8>)
    requires i < 2 && NoBreaks(line)
    ensures var out := GuestBytes(i, vm, line);
            && |out| == |line| + 11 && out[9..|out| - 2] == line
            && forall k | 0 <= k < |out| :: out[k] == LF <==> k == |out| - 1
  {
    EscapeIsIdentity(line);
    var out := GuestBytes(i, vm, line);
    assert forall k | 9 <= k < |out| - 2 :: out[k] == line[k - 9];
  }
}
