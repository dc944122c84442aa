/** The build script's configuration reader: an indent-stack parser for nested
    `key: value` text that flattens sections into dotted keys. */
module Yaml {
  import opened Words

  // ---- Text ----

  /** The Unicode white space that `trim` removes. */
  predicate IsSpace(c: char) {
    || '\t' <= c <= '\r' || c == ' ' || c == '\U{0085}' || c == '\U{00A0}' || c == '\U{1680}'
    || '\U{2000}' <= c <= '\U{200A}' || c == '\U{2028}' || c == '\U{2029}' || c == '\U{202F}'
    || c == '\U{205F}' || c == '\U{3000}'
  }

  /** Length in UTF-8 bytes: indents are counted in bytes. */
  function Utf8Len(c: char): nat {
    if c < '\U{0080}' then 1 else if c < '\U{0800}' then 2 else if c < '\U{10000}' then 3 else 4
  }

  /** By code point: the characters with the White_Space property, and the UTF-8 lengths. */
  lemma CharacterClasses(c: char)
    ensures IsSpace(c) <==>
            || 9 <= c as int <= 13 || 0x2000 <= c as int <= 0x200A
            || c as int in {0x20, 0x85, 0xA0, 0x1680, 0x2028, 0x2029, 0x202F, 0x205F, 0x3000}
    ensures Utf8Len(c) == 1 <==> c as int < 0x80
    ensures Utf8Len(c) == 2 <==> 0x80 <= c as int < 0x800
    ensures Utf8Len(c) == 3 <==> 0x800 <= c as int < 0x1_0000
    ensures Utf8Len(c) == 4 <==> 0x1_0000 <= c as int
  {
  }

  function ByteLen(s: string): nat {
    if s == [] then 0 else Utf8Len(s[0]) + ByteLen(s[1..])
  }

  function TrimStart(s: string): string {
    if s != [] && IsSpace(s[0]) then TrimStart(s[1..]) else s
  }

  function TrimEnd(s: string): string {
    if s != [] && IsSpace(s[|s| - 1]) then TrimEnd(s[..|s| - 1]) else s
  }

  function Trim(s: string): string { TrimEnd(TrimStart(s)) }

  function Find(s: string, c: char): (r: Option<nat>)
    ensures r.Some? ==> r.value < |s| && s[r.value] == c && c !in s[..r.value]
    ensures r.None? <==> c !in s
  {
    if s == [] then None
    else if s[0] == c then Some(0)
    else match Find(s[1..], c)
      case None => None
      case Some(k) =>
        assert s[..k + 1] == [s[0]] + s[1..][..k];
        Some(k + 1)
  }

  /** `str::lines`: cut after each line feed, dropping it and a carriage return before it. */
  function Lines(s: string): seq<string> {
    match Find(s, '\n')
    case None => if s == [] then [] else [s]
    case Some(k) =>
      var line := if k > 0 && s[k - 1] == '\r' then s[..k - 1] else s[..k];
      [line] + Lines(s[k + 1..])
  }

  // ---- The parser ----

  type Stack = seq<(nat, string)>

  datatype State = State(stack: Stack, entries: map<string, string>)

  predicate Skipped(line: string) {
    var trimmed := TrimEnd(line);
    trimmed == [] || (TrimStart(trimmed) != [] && TrimStart(trimmed)[0] == '#')
  }

  /** Leave the sections that are not indented less than the line. */
  function PopTo(stack: Stack, indent: nat): Stack {
    if stack != [] && indent <= stack[|stack| - 1].0 then PopTo(stack[..|stack| - 1], indent) else stack
  }

  function Names(stack: Stack): seq<string> {
    if stack == [] then [] else Names(stack[..|stack| - 1]) + [stack[|stack| - 1].1]
  }

  function Join(keys: seq<string>): string {
    if keys == [] then "" else if |keys| == 1 then keys[0] else keys[0] + "." + Join(keys[1..])
  }

  function ParseLine(s: State, line: string): State {
    if Skipped(line) then s else
    var indent := ByteLen(line) - ByteLen(TrimStart(line));
    assert indent >= 0 by { TrimStartLength(line); }
    var stack := PopTo(s.stack, indent);
    var stripped := Trim(line);
    match Find(stripped, ':')
    case None => s.(stack := stack)
    case Some(pos) =>
      var key, value := Trim(stripped[..pos]), Trim(stripped[pos + 1..]);
      if value == [] then s.(stack := stack + [(indent, key)])
      else State(stack, s.entries[Join(Names(stack) + [key]) := value])
  }

  function Parse(s: State, lines: seq<string>): State
    decreases |lines|
  {
    if lines == [] then s else Parse(ParseLine(s, lines[0]), lines[1..])
  }

  lemma {:induction false} TrimStartLength(s: string)
    ensures ByteLen(TrimStart(s)) <= ByteLen(s)
  {
    if s != [] && IsSpace(s[0]) {
      TrimStartLength(s[1..]);
    }
  }

  method ParseSimpleYaml(content: string) returns (entries: map<string, string>)
    ensures entries == Parse(State([], map[]), Lines(content)).entries
  {
    hide Skipped, Find, Trim, TrimStart, Join, Lines, ByteLen;
    entries := map[];
    var stack: Stack := [];
    var lines := Lines(content);
    var i := 0;
    while i < |lines|
      invariant i <= |lines|
      invariant Parse(State(stack, entries), lines[i..]) == Parse(State([], map[]), lines)
    {
      var line := lines[i];
      assert lines[i..][0] == line && lines[i..][1..] == lines[i + 1..];
      i := i + 1;
      if Skipped(line) { continue; }
      TrimStartLength(line);
      var indent: nat := ByteLen(line) - ByteLen(TrimStart(line));
      var stripped := Trim(line);
      ghost var before := stack;
      while stack != [] && indent <= stack[|stack| - 1].0
        invariant PopTo(stack, indent) == PopTo(before, indent)
        decreases |stack|
      {
        stack := stack[..|stack| - 1];
      }
      var found := Find(stripped, ':');
      if found.Some? {
        var key, value := Trim(stripped[..found.value]), Trim(stripped[found.value + 1..]);
        if value == [] {
          stack := stack + [(indent, key)];
        } else {
          entries := entries[Join(Names(stack) + [key]) := value];
        }
      }
    }
    assert lines[i..] == [];
  }

  // ---- The prefix stack ----

  predicate Increasing(stack: Stack) {
    forall k | 0 <= k < |stack| - 1 :: stack[k].0 < stack[k + 1].0
  }

  lemma {:induction false} PopKeepsOrder(stack: Stack, indent: nat)
    requires Increasing(stack)
    ensures Increasing(PopTo(stack, indent)) && PopTo(stack, indent) <= stack
    ensures var s := PopTo(stack, indent); s != [] ==> s[|s| - 1].0 < indent
  {
    if stack != [] && indent <= stack[|stack| - 1].0 {
      PopKeepsOrder(stack[..|stack| - 1], indent);
    }
  }

  /** On any text whatever, the open sections have strictly increasing indents. */
  lemma {:induction false} StackStaysIncreasing(s: State, lines: seq<string>)
    requires Increasing(s.stack)
    ensures Increasing(Parse(s, lines).stack)
    decreases |lines|
  {
    hide Skipped, Find, Trim, TrimStart, ByteLen, Join, PopTo;
    if lines != [] {
      var indent := ByteLen(lines[0]) - ByteLen(TrimStart(lines[0]));
      TrimStartLength(lines[0]);
      PopKeepsOrder(s.stack, indent);
      StackStaysIncreasing(ParseLine(s, lines[0]), lines[1..]);
    }
  }

  // ---- Lines that say nothing ----

  lemma {:induction false} ParseAppend(s: State, a: seq<string>, b: seq<string>)
    ensures Parse(s, a + b) == Parse(Parse(s, a), b)
    decreases |a|
  {
    hide ParseLine;
    if a == [] {
      assert a + b == b;
    } else {
      assert (a + b)[1..] == a[1..] + b;
      ParseAppend(ParseLine(s, a[0]), a[1..], b);
    }
  }

  /** A line of white space, or white space and a `#`, changes nothing wherever it stands. */
  lemma NoiseChangesNothing(s: State, a: seq<string>, noise: string, b: seq<string>)
    requires TrimStart(noise) == [] || TrimStart(noise)[0] == '#'
    ensures Parse(s, a + [noise] + b) == Parse(s, a + b)
  {
    hide ParseLine;
    NoiseIsSkipped(noise);
    ParseAppend(s, a + [noise], b);
    ParseAppend(s, a, [noise]);
    ParseAppend(s, a, b);
    OneLine(Parse(s, a), noise);
    SkippedLine(Parse(s, a), noise);
  }

  lemma OneLine(s: State, line: string)
    ensures Parse(s, [line]) == ParseLine(s, line)
  {
    hide ParseLine;
    assert [line][1..] == [];
    assert Parse(ParseLine(s, line), []) == ParseLine(s, line);
  }

  lemma SkippedLine(s: State, line: string)
    requires Skipped(line)
    ensures ParseLine(s, line) == s
  {
  }

  lemma NoiseIsSkipped(noise: string)
    requires TrimStart(noise) == [] || TrimStart(noise)[0] == '#'
    ensures Skipped(noise)
  {
    Leading(noise);
    var lead := noise[..|noise| - |TrimStart(noise)|];
    if TrimStart(noise) == [] {
      assert lead == noise;
      AllTrimmed(noise);
    } else {
      TrimEndOver(lead, TrimStart(noise));
      TrimStartOver(lead, TrimEnd(TrimStart(noise)));
    }
  }

  // ---- Trimming ----

  predicate AllSpace(s: string) { forall k | 0 <= k < |s| :: IsSpace(s[k]) }

  /** Neither end of the text is white space. */
  predicate Trimmed(s: string) { s != [] ==> !IsSpace(s[0]) && !IsSpace(s[|s| - 1]) }

  lemma {:induction false} AllTrimmed(s: string)
    requires AllSpace(s)
    ensures TrimEnd(s) == []
  {
    if s != [] {
      AllTrimmed(s[..|s| - 1]);
    }
  }

  lemma {:induction false} Leading(s: string)
    ensures |TrimStart(s)| <= |s| && s == s[..|s| - |TrimStart(s)|] + TrimStart(s)
    ensures AllSpace(s[..|s| - |TrimStart(s)|])
    ensures TrimStart(s) != [] ==> !IsSpace(TrimStart(s)[0])
  {
    hide IsSpace;
    if s != [] && IsSpace(s[0]) {
      Leading(s[1..]);
    }
  }

  lemma {:induction false} TrimStartOver(lead: string, t: string)
    requires AllSpace(lead) && t != [] && !IsSpace(t[0])
    ensures TrimStart(lead + t) == t && ByteLen(lead + t) == ByteLen(lead) + ByteLen(t)
  {
    hide IsSpace, Utf8Len;
    if lead == [] {
      assert lead + t == t;
    } else {
      assert (lead + t)[1..] == lead[1..] + t;
      TrimStartOver(lead[1..], t);
    }
  }

  lemma {:induction false} TrimEndOver(lead: string, t: string)
    requires t != [] && !IsSpace(t[0])
    ensures TrimEnd(lead + t) == lead + TrimEnd(t) && TrimEnd(t) != [] && TrimEnd(t)[0] == t[0]
    decreases |t|
  {
    hide IsSpace;
    assert (lead + t)[|lead + t| - 1] == t[|t| - 1];
    if IsSpace(t[|t| - 1]) {
      assert (lead + t)[..|lead + t| - 1] == lead + t[..|t| - 1];
      TrimEndOver(lead, t[..|t| - 1]);
    }
  }

  lemma {:induction false} TrimGap(gap: string, value: string)
    requires AllSpace(gap) && Trimmed(value)
    ensures Trim(gap + value) == value
  {
    if value == [] {
      assert gap + value == gap;
      Leading(gap);
      AllTrimmed(TrimStart(gap));
    } else {
      TrimStartOver(gap, value);
    }
  }

  // ---- Documents ----

  /** A configuration tree: entries and sections in order, each section's contents
      indented further than its heading by some white space. */
  datatype Doc =
    | Nothing
    | Entry(key: string, value: string, rest: Doc)
    | Section(key: string, step: string, inner: Doc, rest: Doc)

  predicate GoodKey(key: string) { Trimmed(key) && ':' !in key && '\n' !in key }

  /** A key that makes its line a comment. */
  predicate Hash(key: string) { key != [] && key[0] == '#' }

  predicate GoodDoc(d: Doc) {
    match d
    case Nothing => true
    case Entry(key, value, rest) =>
      GoodKey(key) && value != [] && Trimmed(value) && '\n' !in value && GoodDoc(rest)
    case Section(key, step, inner, rest) =>
      GoodKey(key) && step != [] && AllSpace(step) && '\n' !in step && GoodDoc(inner) && GoodDoc(rest)
  }

  function Render(d: Doc, lead: string): seq<string> {
    match d
    case Nothing => []
    case Entry(key, value, rest) => [lead + (key + ": " + value)] + Render(rest, lead)
    case Section(key, step, inner, rest) => [lead + (key + ":")] + Render(inner, lead + step) + Render(rest, lead)
  }

  /** The leaves, each with the keys that lead to it. */
  function Leaves(d: Doc): seq<(seq<string>, string)> {
    match d
    case Nothing => []
    case Entry(key, value, rest) => [([key], value)] + Leaves(rest)
    case Section(key, step, inner, rest) => Under(key, Leaves(inner)) + Leaves(rest)
  }

  function Under(key: string, leaves: seq<(seq<string>, string)>): (r: seq<(seq<string>, string)>)
    ensures |r| == |leaves|
    ensures forall k | 0 <= k < |r| :: r[k] == ([key] + leaves[k].0, leaves[k].1)
  {
    if leaves == [] then []
    else [([key] + leaves[0].0, leaves[0].1)] + Under(key, leaves[1..])
  }

  /** Record each leaf under its dotted path, in order, below the given sections. */
  function Insert(m: map<string, string>, above: seq<string>, leaves: seq<(seq<string>, string)>): map<string, string>
    decreases |leaves|
  {
    if leaves == [] then m
    else Insert(m[Join(above + leaves[0].0) := leaves[0].1], above, leaves[1..])
  }

  lemma {:induction false} InsertAppend(m: map<string, string>, above: seq<string>,
                                        a: seq<(seq<string>, string)>, b: seq<(seq<string>, string)>)
    ensures Insert(m, above, a + b) == Insert(Insert(m, above, a), above, b)
    decreases |a|
  {
    hide Join;
    if a == [] {
      assert a + b == b;
    } else {
      assert (a + b)[1..] == a[1..] + b;
      InsertAppend(m[Join(above + a[0].0) := a[0].1], above, a[1..], b);
    }
  }

  lemma {:induction false} InsertUnder(m: map<string, string>, above: seq<string>, key: string,
                                       leaves: seq<(seq<string>, string)>)
    ensures Insert(m, above, Under(key, leaves)) == Insert(m, above + [key], leaves)
    decreases |leaves|
  {
    hide Join;
    if leaves != [] {
      assert above + ([key] + leaves[0].0) == (above + [key]) + leaves[0].0;
      assert Under(key, leaves)[1..] == Under(key, leaves[1..]);
      InsertUnder(m[Join(above + [key] + leaves[0].0) := leaves[0].1], above, key, leaves[1..]);
    }
  }

  // ---- One rendered line ----

  lemma HeadLine(s: State, lead: string, t: string)
    requires AllSpace(lead) && t != [] && Trimmed(t) && t[0] != '#'
    ensures !Skipped(lead + t) && Trim(lead + t) == t
    ensures ByteLen(lead + t) - ByteLen(TrimStart(lead + t)) == ByteLen(lead)
  {
    TrimEndOver(lead, t);
    TrimStartOver(lead, TrimEnd(t));
    TrimStartOver(lead, t);
  }

  lemma {:induction false} FindAt(s: string, c: char, k: nat)
    requires k < |s| && s[k] == c && c !in s[..k]
    ensures Find(s, c) == Some(k)
  {
    if k > 0 {
      assert s[0] == s[..k][0];
      assert s[..k][1..] == s[1..][..k - 1];
      FindAt(s[1..], c, k - 1);
    }
  }

  lemma FirstColon(key: string, rest: string)
    requires ':' !in key
    ensures Find(key + ":" + rest, ':') == Some(|key|)
  {
    assert (key + ":" + rest)[..|key|] == key;
    FindAt(key + ":" + rest, ':', |key|);
  }

  /** A rendered entry adds its dotted key to the map; a rendered heading opens a section. */
  lemma RenderedLine(s: State, lead: string, key: string, gap: string, value: string)
    requires AllSpace(lead) && GoodKey(key) && !Hash(key) && AllSpace(gap) && Trimmed(value)
    requires value == [] ==> gap == []
    ensures var stack := PopTo(s.stack, ByteLen(lead));
            ParseLine(s, lead + (key + ":" + gap + value)) ==
            if value == [] then s.(stack := stack + [(ByteLen(lead), key)])
            else State(stack, s.entries[Join(Names(stack) + [key]) := value])
  {
    hide Skipped, Find, TrimStart, TrimEnd, Join, Names, PopTo, Trim, IsSpace, ByteLen;
    var t := key + ":" + gap + value;
    assert t[0] == if key == [] then ':' else key[0];
    assert t[|t| - 1] == if value == [] then ':' else value[|value| - 1];
    assert !IsSpace(':') by { ColonIsText(); }
    HeadLine(s, lead, t);
    assert t == key + ":" + (gap + value);
    FirstColon(key, gap + value);
    assert t[..|key|] == key && t[|key| + 1..] == gap + value;
    TrimGap(gap, value);
    assert [] + key == key;
    TrimGap([], key);
  }

  lemma ColonIsText()
    ensures !IsSpace(':')
  {
  }

  /** Whatever follows, a line whose key begins with `#` says nothing. */
  lemma HashLineIsSkipped(s: State, lead: string, t: string)
    requires AllSpace(lead) && t != [] && t[0] == '#'
    ensures ParseLine(s, lead + t) == s
  {
    hide ParseLine;
    HashIsText();
    TrimStartOver(lead, t);
    NoiseIsSkipped(lead + t);
    SkippedLine(s, lead + t);
  }

  lemma HashIsText()
    ensures !IsSpace('#')
  {
  }

  // ---- Whole documents ----

  lemma {:induction false} PopPop(stack: Stack, outer: nat, inner: nat)
    requires outer <= inner
    ensures PopTo(PopTo(stack, inner), outer) == PopTo(stack, outer)
  {
    if stack != [] && inner <= stack[|stack| - 1].0 {
      PopPop(stack[..|stack| - 1], outer, inner);
    }
  }

  lemma PopOpened(base: Stack, key: string, indent: nat, inner: nat)
    requires indent < inner
    ensures PopTo(base + [(indent, key)], inner) == base + [(indent, key)]
    ensures PopTo(base + [(indent, key)], indent) == PopTo(base, indent)
    ensures Names(base + [(indent, key)]) == Names(base) + [key]
  {
    assert (base + [(indent, key)])[..|base|] == base;
  }

  lemma {:induction false} LongerLead(lead: string, step: string)
    requires step != []
    ensures ByteLen(lead) < ByteLen(lead + step)
    decreases |lead|
  {
    if lead == [] {
      assert lead + step == step;
    } else {
      assert (lead + step)[1..] == lead[1..] + step;
      LongerLead(lead[1..], step);
    }
  }

  /** Nothing stands under a heading that is a comment, and no entry is one. */
  predicate NoLeafUnderHash(d: Doc) {
    match d
    case Nothing => true
    case Entry(key, _, rest) => !Hash(key) && NoLeafUnderHash(rest)
    case Section(key, _, inner, rest) =>
      (Hash(key) ==> Leaves(inner) == []) && NoLeafUnderHash(inner) && NoLeafUnderHash(rest)
  }

  /** A rendered document adds its leaves below the sections that enclose it, and leaves
      those sections to be found again at its own indent. */
  lemma {:induction false} RenderingParses(d: Doc, lead: string, s: State, base: Stack)
    requires GoodDoc(d) && NoLeafUnderHash(d) && AllSpace(lead) && PopTo(s.stack, ByteLen(lead)) == base
    ensures var r := Parse(s, Render(d, lead));
            && PopTo(r.stack, ByteLen(lead)) == base
            && r.entries == Insert(s.entries, Names(base), Leaves(d))
    decreases d, 1
  {
    hide ParseLine, PopTo, Names, Join, IsSpace, ByteLen;
    var n := ByteLen(lead);
    match d
    case Nothing =>
    case Entry(key, value, rest) =>
      var line := lead + (key + ": " + value);
      assert key + ": " + value == key + ":" + " " + value;
      assert AllSpace(" ") by { SpaceIsSpace(); }
      RenderedLine(s, lead, key, " ", value);
      PopPop(s.stack, n, n);
      assert Render(d, lead)[1..] == Render(rest, lead);
      assert Names(base) + Leaves(d)[0].0 == Names(base) + [key];
      assert Leaves(d)[1..] == Leaves(rest);
      RenderingParses(rest, lead, ParseLine(s, line), base);
    case Section(key, step, inner, rest) =>
      var line := lead + (key + ":");
      assert key + ":" == key + ":" + [] + [];
      LongerLead(lead, step);
      if Hash(key) {
        HashSectionParses(d, lead, s, base);
        return;
      }
      RenderedLine(s, lead, key, [], []);
      var inside := ParseLine(s, line);
      PopOpened(base, key, n, ByteLen(lead + step));
      RenderingParses(inner, lead + step, inside, inside.stack);
      var closed := Parse(inside, Render(inner, lead + step));
      PopPop(closed.stack, n, ByteLen(lead + step));
      PopPop(s.stack, n, n);
      RenderingParses(rest, lead, closed, base);
      SectionLines(s, line, Render(inner, lead + step), Render(rest, lead));
      InsertUnder(s.entries, Names(base), key, Leaves(inner));
      InsertAppend(s.entries, Names(base), Under(key, Leaves(inner)), Leaves(rest));
  }

  /** A commented heading without leaves below it leaves everything as it was. */
  lemma {:induction false} HashSectionParses(d: Doc, lead: string, s: State, base: Stack)
    requires GoodDoc(d) && NoLeafUnderHash(d) && AllSpace(lead) && PopTo(s.stack, ByteLen(lead)) == base
    requires d.Section? && Hash(d.key)
    ensures var r := Parse(s, Render(d, lead));
            && PopTo(r.stack, ByteLen(lead)) == base
            && r.entries == Insert(s.entries, Names(base), Leaves(d))
    decreases d, 0
  {
    hide ParseLine, PopTo, Names, Join, IsSpace, ByteLen;
    var deeper := lead + d.step;
    HashLineIsSkipped(s, lead, d.key + ":");
    LongerLead(lead, d.step);
    RenderingParses(d.inner, deeper, s, PopTo(s.stack, ByteLen(deeper)));
    var closed := Parse(s, Render(d.inner, deeper));
    PopPop(closed.stack, ByteLen(lead), ByteLen(deeper));
    PopPop(s.stack, ByteLen(lead), ByteLen(deeper));
    RenderingParses(d.rest, lead, closed, base);
    SectionLines(s, lead + (d.key + ":"), Render(d.inner, deeper), Render(d.rest, lead));
    assert Under(d.key, []) + Leaves(d.rest) == Leaves(d.rest);
  }

  lemma SpaceIsSpace()
    ensures AllSpace(" ")
  {
  }

  lemma SectionLines(s: State, line: string, inner: seq<string>, rest: seq<string>)
    ensures Parse(s, [line] + inner + rest) == Parse(Parse(ParseLine(s, line), inner), rest)
  {
    hide ParseLine;
    assert ([line] + inner + rest)[1..] == inner + rest;
    ParseAppend(ParseLine(s, line), inner, rest);
  }

  // ---- Text and lines ----

  function Unlines(lines: seq<string>): string {
    if lines == [] then "" else lines[0] + "\n" + Unlines(lines[1..])
  }

  predicate PlainLine(line: string) { '\n' !in line && (line != [] ==> line[|line| - 1] != '\r') }

  lemma {:induction false} LinesOfUnlines(lines: seq<string>)
    requires forall k | 0 <= k < |lines| :: PlainLine(lines[k])
    ensures Lines(Unlines(lines)) == lines
  {
    if lines != [] {
      var line, rest := lines[0], Unlines(lines[1..]);
      var s := line + "\n" + rest;
      assert s[..|line|] == line;
      FindAt(s, '\n', |line|);
      assert s[..|line|] == line && s[|line| + 1..] == rest;
      assert |line| > 0 ==> s[|line| - 1] == line[|line| - 1];
      LinesOfUnlines(lines[1..]);
    }
  }

  lemma {:induction false} RenderIsPlain(d: Doc, lead: string, k: nat)
    requires GoodDoc(d) && '\n' !in lead && k < |Render(d, lead)|
    ensures PlainLine(Render(d, lead)[k])
    decreases d
  {
    match d
    case Entry(key, value, rest) =>
      if k == 0 {
        CarriageReturnIsSpace();
        var line := lead + (key + ": " + value);
        assert line[|line| - 1] == value[|value| - 1];
      } else {
        RenderIsPlain(rest, lead, k - 1);
      }
    case Section(key, step, inner, rest) =>
      var m := |Render(inner, lead + step)|;
      if 1 <= k <= m {
        RenderIsPlain(inner, lead + step, k - 1);
      } else if k > m {
        RenderIsPlain(rest, lead, k - 1 - m);
      }
  }

  lemma CarriageReturnIsSpace()
    ensures IsSpace('\r')
  {
  }

  /** Parsing the indented rendering of any tree without commented leaves records its
      leaves under their dotted paths, in document order, and nothing else. */
  lemma ParsesRendering(d: Doc, lead: string)
    requires GoodDoc(d) && NoLeafUnderHash(d) && AllSpace(lead) && '\n' !in lead
    ensures Parse(State([], map[]), Lines(Unlines(Render(d, lead)))).entries == Insert(map[], [], Leaves(d))
  {
    hide Parse, Lines, PlainLine;
    forall k | 0 <= k < |Render(d, lead)| ensures PlainLine(Render(d, lead)[k]) {
      RenderIsPlain(d, lead, k);
    }
    LinesOfUnlines(Render(d, lead));
    RenderingParses(d, lead, State([], map[]), []);
  }

  // ---- Which leaves survive ----

  /** Leaves with one dotted path have one value. */
  predicate NoClash(leaves: seq<(seq<string>, string)>) {
    forall j, k | 0 <= j < k < |leaves| :: Join(leaves[j].0) == Join(leaves[k].0) ==> leaves[j].1 == leaves[k].1
  }

  /** Each leaf's value stands under its dotted path. */
  predicate AllKept(m: map<string, string>, leaves: seq<(seq<string>, string)>) {
    forall k | 0 <= k < |leaves| :: Join(leaves[k].0) in m && m[Join(leaves[k].0)] == leaves[k].1
  }

  predicate IsPath(key: string, leaves: seq<(seq<string>, string)>) {
    exists k | 0 <= k < |leaves| :: Join(leaves[k].0) == key
  }

  lemma PathSplit(leaves: seq<(seq<string>, string)>, key: string)
    requires leaves != []
    ensures IsPath(key, leaves) <==> Join(leaves[0].0) == key || IsPath(key, leaves[1..])
  {
    hide Join;
    if IsPath(key, leaves) {
      var j :| 0 <= j < |leaves| && Join(leaves[j].0) == key;
      if j > 0 {
        assert leaves[1..][j - 1] == leaves[j];
      }
    }
  }

  lemma {:induction false} InsertedElsewhere(m: map<string, string>, leaves: seq<(seq<string>, string)>, key: string)
    requires !IsPath(key, leaves)
    ensures key in Insert(m, [], leaves) <==> key in m
    ensures key in m ==> Insert(m, [], leaves)[key] == m[key]
    decreases |leaves|
  {
    hide Join;
    if leaves != [] {
      assert [] + leaves[0].0 == leaves[0].0;
      PathSplit(leaves, key);
      InsertedElsewhere(m[Join(leaves[0].0) := leaves[0].1], leaves[1..], key);
    }
  }

  /** A dotted path is recorded with the value of some leaf that has it. */
  lemma {:induction false} InsertedPath(m: map<string, string>, leaves: seq<(seq<string>, string)>, key: string)
    returns (k: nat)
    requires IsPath(key, leaves)
    ensures k < |leaves| && Join(leaves[k].0) == key
    ensures key in Insert(m, [], leaves) && Insert(m, [], leaves)[key] == leaves[k].1
    decreases |leaves|
  {
    hide Join;
    var rest := leaves[1..];
    var m' := m[Join(leaves[0].0) := leaves[0].1];
    assert [] + leaves[0].0 == leaves[0].0;
    assert Insert(m, [], leaves) == Insert(m', [], rest);
    PathSplit(leaves, key);
    if IsPath(key, rest) {
      k := InsertedPath(m', rest, key);
      k := k + 1;
    } else {
      InsertedElsewhere(m', rest, key);
      k := 0;
    }
  }

  /** The map holds every leaf's own value, and only paths of leaves, exactly when no two
      leaves with one dotted path differ. */
  lemma LeavesKeptIff(leaves: seq<(seq<string>, string)>)
    ensures var m := Insert(map[], [], leaves);
            && (AllKept(m, leaves) <==> NoClash(leaves))
            && forall key :: key in m <==> IsPath(key, leaves)
  {
    hide Join, Insert;
    var m := Insert(map[], [], leaves);
    forall key ensures key in m <==> IsPath(key, leaves) {
      if IsPath(key, leaves) {
        var k := InsertedPath(map[], leaves, key);
      } else {
        InsertedElsewhere(map[], leaves, key);
      }
    }
    if NoClash(leaves) {
      forall k | 0 <= k < |leaves| ensures Join(leaves[k].0) in m && m[Join(leaves[k].0)] == leaves[k].1 {
        assert IsPath(Join(leaves[k].0), leaves);
        var j := InsertedPath(map[], leaves, Join(leaves[k].0));
      }
    }
  }

  /** Read from the text of a document, every leaf keeps its own value exactly when no two
      leaves with one dotted path differ; either way nothing else is recorded. */
  lemma ParsedLeavesKeptIff(d: Doc, lead: string)
    requires GoodDoc(d) && NoLeafUnderHash(d) && AllSpace(lead) && '\n' !in lead
    ensures var m := Parse(State([], map[]), Lines(Unlines(Render(d, lead)))).entries;
            && (AllKept(m, Leaves(d)) <==> NoClash(Leaves(d)))
            && forall key :: key in m <==> IsPath(key, Leaves(d))
  {
    hide Parse, Lines, Unlines, Render, Insert, Join;
    ParsesRendering(d, lead);
    LeavesKeptIff(Leaves(d));
  }

  function Keys(d: Doc): set<string> {
    match d
    case Nothing => {}
    case Entry(key, _, rest) => {key} + Keys(rest)
    case Section(key, _, _, rest) => {key} + Keys(rest)
  }

  predicate UniqueKeys(d: Doc) {
    match d
    case Nothing => true
    case Entry(key, _, rest) => key !in Keys(rest) && UniqueKeys(rest)
    case Section(key, _, inner, rest) => key !in Keys(rest) && UniqueKeys(inner) && UniqueKeys(rest)
  }

  predicate NoDots(d: Doc) {
    match d
    case Nothing => true
    case Entry(key, _, rest) => '.' !in key && NoDots(rest)
    case Section(key, _, inner, rest) => '.' !in key && NoDots(inner) && NoDots(rest)
  }

  predicate DotFree(path: seq<string>) { forall k | 0 <= k < |path| :: '.' !in path[k] }

  /** The first dot of a dotted path ends its first key. */
  lemma FirstDot(p: seq<string>)
    requires p != [] && DotFree(p)
    ensures |p| == 1 ==> Find(Join(p), '.') == None
    ensures |p| > 1 ==> Find(Join(p), '.') == Some(|p[0]|)
                        && Join(p)[..|p[0]|] == p[0] && Join(p)[|p[0]| + 1..] == Join(p[1..])
  {
    var s := Join(p);
    if |p| > 1 {
      assert s == p[0] + "." + Join(p[1..]);
      assert s[..|p[0]|] == p[0];
      FindAt(s, '.', |p[0]|);
    } else {
      assert s == p[0] && '.' !in s;
    }
  }

  lemma {:induction false} JoinInjective(p: seq<string>, q: seq<string>)
    requires p != [] && q != [] && DotFree(p) && DotFree(q) && Join(p) == Join(q)
    ensures p == q
    decreases |p|
  {
    hide Find;
    FirstDot(p);
    FirstDot(q);
    if |p| > 1 {
      JoinInjective(p[1..], q[1..]);
      assert p == [p[0]] + p[1..] && q == [q[0]] + q[1..];
    }
  }

  lemma {:induction false} LeafPath(d: Doc, k: nat)
    requires k < |Leaves(d)| && NoDots(d)
    ensures Leaves(d)[k].0 != [] && Leaves(d)[k].0[0] in Keys(d) && DotFree(Leaves(d)[k].0)
    decreases d
  {
    match d
    case Entry(_, _, rest) => if k > 0 { LeafPath(rest, k - 1); }
    case Section(_, _, inner, rest) =>
      if k < |Leaves(inner)| { LeafPath(inner, k); } else { LeafPath(rest, k - |Leaves(inner)|); }
  }

  lemma LeafOf(d: Doc, k: nat)
    requires k < |Leaves(d)|
    ensures d.Entry? ==> Leaves(d)[k] == if k == 0 then ([d.key], d.value) else Leaves(d.rest)[k - 1]
    ensures d.Section? ==>
              var n := |Leaves(d.inner)|;
              Leaves(d)[k] == if k < n then ([d.key] + Leaves(d.inner)[k].0, Leaves(d.inner)[k].1)
                              else Leaves(d.rest)[k - n]
  {
  }

  lemma LeafCount(d: Doc)
    ensures |Leaves(d)| == match d
                           case Nothing => 0
                           case Entry(_, _, rest) => 1 + |Leaves(rest)|
                           case Section(_, _, inner, rest) => |Leaves(inner)| + |Leaves(rest)|
  {
  }

  lemma {:induction false} PathsDistinct(d: Doc, j: nat, k: nat)
    requires j < k < |Leaves(d)| && UniqueKeys(d) && NoDots(d)
    ensures Leaves(d)[j].0 != Leaves(d)[k].0
    decreases d
  {
    hide Leaves, DotFree;
    LeafCount(d);
    LeafOf(d, j);
    LeafOf(d, k);
    match d
    case Entry(_, _, rest) =>
      LeafPath(rest, k - 1);
      if j > 0 { PathsDistinct(rest, j - 1, k - 1); }
    case Section(key, _, inner, rest) =>
      var n := |Leaves(inner)|;
      if k < n {
        PathsDistinct(inner, j, k);
        SameTail(key, Leaves(inner)[j].0, Leaves(inner)[k].0);
      } else {
        LeafPath(rest, k - n);
        if j >= n { PathsDistinct(rest, j - n, k - n); }
      }
  }

  lemma SameTail(key: string, p: seq<string>, q: seq<string>)
    ensures [key] + p == [key] + q ==> p == q
  {
    assert ([key] + p)[1..] == p && ([key] + q)[1..] == q;
  }

  lemma {:induction false} DistinctPathsDoNotClash(d: Doc)
    requires UniqueKeys(d) && NoDots(d)
    ensures NoClash(Leaves(d))
  {
    var leaves := Leaves(d);
    forall j, k | 0 <= j < k < |leaves| ensures Join(leaves[j].0) != Join(leaves[k].0) {
      LeafPath(d, j);
      LeafPath(d, k);
      PathsDistinct(d, j, k);
      if Join(leaves[j].0) == Join(leaves[k].0) { JoinInjective(leaves[j].0, leaves[k].0); }
    }
  }

  /** With unique sibling keys and no dots in them, reading back the rendering of a tree
      without commented leaves gives exactly its dotted leaf paths, each with its own
      value. */
  lemma RenderingRoundTrip(d: Doc, lead: string)
    requires GoodDoc(d) && NoLeafUnderHash(d) && AllSpace(lead) && '\n' !in lead && UniqueKeys(d) && NoDots(d)
    ensures var m := Parse(State([], map[]), Lines(Unlines(Render(d, lead)))).entries;
            AllKept(m, Leaves(d)) && forall key :: key in m <==> IsPath(key, Leaves(d))
  {
    hide Parse, Lines, Unlines, Insert, NoClash;
    ParsedLeavesKeptIff(d, lead);
    DistinctPathsDoNotClash(d);
  }

  // ---- Keys that begin with a hash ----

  /** No key on the way to the leaf, or its own, begins with `#`. */
  predicate Plain(path: seq<string>) { forall k | 0 <= k < |path| :: !Hash(path[k]) }

  predicate PlainLeaves(leaves: seq<(seq<string>, string)>) { forall k | 0 <= k < |leaves| :: Plain(leaves[k].0) }

  lemma {:induction false} PlainIff(d: Doc)
    ensures PlainLeaves(Leaves(d)) <==> NoLeafUnderHash(d)
    decreases d
  {
    match d
    case Nothing =>
    case Entry(key, value, rest) =>
      PlainIff(rest);
      PlainSplit([([key], value)], Leaves(rest));
      assert Plain([key]) <==> !Hash([key][0]);
      assert PlainLeaves([([key], value)]) <==> Plain([([key], value)][0].0);
    case Section(key, _, inner, rest) =>
      PlainIff(inner);
      PlainIff(rest);
      PlainSplit(Under(key, Leaves(inner)), Leaves(rest));
      PlainUnder(key, Leaves(inner));
  }

  lemma PlainSplit(a: seq<(seq<string>, string)>, b: seq<(seq<string>, string)>)
    ensures PlainLeaves(a + b) <==> PlainLeaves(a) && PlainLeaves(b)
  {
    hide Plain;
    if PlainLeaves(a + b) {
      assert forall k | 0 <= k < |a| :: a[k] == (a + b)[k];
      assert forall k | 0 <= k < |b| :: b[k] == (a + b)[|a| + k];
    }
  }

  lemma PlainUnder(key: string, leaves: seq<(seq<string>, string)>)
    ensures PlainLeaves(Under(key, leaves)) <==> (leaves == [] || !Hash(key)) && PlainLeaves(leaves)
  {
    forall k | 0 <= k < |leaves| ensures Plain(Under(key, leaves)[k].0) <==> !Hash(key) && Plain(leaves[k].0) {
      var p := leaves[k].0;
      assert ([key] + p)[0] == key && forall j | 0 <= j < |p| :: ([key] + p)[j + 1] == p[j];
    }
    hide Plain, Under;
    if PlainLeaves(Under(key, leaves)) && leaves != [] {
      assert Plain(Under(key, leaves)[0].0);
    }
  }

  /** A path the parser can record, of a document without dots in its keys. */
  predicate Tame(path: seq<string>) { DotFree(path) && Plain(path) }

  ghost predicate TamePath(key: string) { exists p :: p != [] && Tame(p) && Join(p) == key }

  ghost predicate TameState(s: State) {
    Tame(Names(s.stack)) && forall key | key in s.entries :: TamePath(key)
  }

  lemma {:induction false} TamePop(stack: Stack, indent: nat)
    requires Tame(Names(stack))
    ensures Tame(Names(PopTo(stack, indent)))
  {
    if stack != [] && indent <= stack[|stack| - 1].0 {
      var shorter := stack[..|stack| - 1];
      assert forall k | 0 <= k < |Names(shorter)| :: Names(shorter)[k] == Names(stack)[k];
      TamePop(shorter, indent);
    }
  }

  lemma TameLonger(path: seq<string>, key: string)
    requires Tame(path) && '.' !in key && !Hash(key)
    ensures Tame(path + [key]) && TamePath(Join(path + [key]))
  {
    hide Join;
    assert path + [key] != [] && Tame(path + [key]);
  }

  /** Whatever a document without dots in its keys leaves out, what it records stands under
      paths without commented keys. */
  lemma {:induction false} RecordedAreTame(d: Doc, lead: string, s: State)
    requires GoodDoc(d) && NoDots(d) && AllSpace(lead) && TameState(s)
    ensures TameState(Parse(s, Render(d, lead)))
    decreases d
  {
    hide ParseLine, PopTo, Names, Join, IsSpace, ByteLen, Tame, TamePath;
    match d
    case Nothing =>
    case Entry(key, value, rest) =>
      var line := lead + (key + ": " + value);
      assert key + ": " + value == key + ":" + " " + value;
      TamePop(s.stack, ByteLen(lead));
      if Hash(key) {
        HashLineIsSkipped(s, lead, key + ": " + value);
      } else {
        SpaceIsSpace();
        RenderedLine(s, lead, key, " ", value);
        TameLonger(Names(PopTo(s.stack, ByteLen(lead))), key);
      }
      assert Render(d, lead)[1..] == Render(rest, lead);
      RecordedAreTame(rest, lead, ParseLine(s, line));
    case Section(key, step, inner, rest) =>
      var line := lead + (key + ":");
      assert key + ":" == key + ":" + [] + [];
      TamePop(s.stack, ByteLen(lead));
      if Hash(key) {
        HashLineIsSkipped(s, lead, key + ":");
      } else {
        RenderedLine(s, lead, key, [], []);
        TameLonger(Names(PopTo(s.stack, ByteLen(lead))), key);
        PopOpened(PopTo(s.stack, ByteLen(lead)), key, ByteLen(lead), ByteLen(lead) + 1);
      }
      RecordedAreTame(inner, lead + step, ParseLine(s, line));
      RecordedAreTame(rest, lead, Parse(ParseLine(s, line), Render(inner, lead + step)));
      SectionLines(s, line, Render(inner, lead + step), Render(rest, lead));
  }

  /** A leaf with a commented key on its path is not recorded under that path. */
  lemma CommentedLeafIsLost(d: Doc, lead: string, k: nat)
    requires GoodDoc(d) && NoDots(d) && AllSpace(lead) && '\n' !in lead
    requires k < |Leaves(d)| && !Plain(Leaves(d)[k].0)
    ensures Join(Leaves(d)[k].0) !in Parse(State([], map[]), Lines(Unlines(Render(d, lead)))).entries
  {
    hide Parse, Join, Plain, Lines, Unlines, PlainLine;
    RenderedText(d, lead);
    StartsTame();
    RecordedAreTame(d, lead, State([], map[]));
    var p := Leaves(d)[k].0;
    LeafPath(d, k);
    if TamePath(Join(p)) {
      var q :| q != [] && Tame(q) && Join(q) == Join(p);
      JoinInjective(p, q);
    }
  }

  lemma StartsTame()
    ensures TameState(State([], map[]))
  {
  }

  lemma RenderedText(d: Doc, lead: string)
    requires GoodDoc(d) && '\n' !in lead
    ensures Lines(Unlines(Render(d, lead))) == Render(d, lead)
  {
    hide Lines, Unlines, PlainLine;
    forall k | 0 <= k < |Render(d, lead)| ensures PlainLine(Render(d, lead)[k]) {
      RenderIsPlain(d, lead, k);
    }
    LinesOfUnlines(Render(d, lead));
  }

  /** With unique sibling keys free of dots, which may begin with `#`, every leaf is read
      back with its own value exactly when no key on the way to a leaf begins with `#`. */
  lemma HashKeysKeptIff(d: Doc, lead: string)
    requires GoodDoc(d) && UniqueKeys(d) && NoDots(d) && AllSpace(lead) && '\n' !in lead
    ensures AllKept(Parse(State([], map[]), Lines(Unlines(Render(d, lead)))).entries, Leaves(d))
            <==> PlainLeaves(Leaves(d))
  {
    hide Parse, Join, Plain, Lines, Unlines, Render, Leaves;
    PlainIff(d);
    if PlainLeaves(Leaves(d)) {
      RenderingRoundTrip(d, lead);
    } else {
      var k :| 0 <= k < |Leaves(d)| && !Plain(Leaves(d)[k].0);
      CommentedLeafIsLost(d, lead, k);
    }
  }

  /** A commented heading after a section: what stands below it is read into the section,
      which is still open. */
  lemma HashHeadingMovesLeaves() returns (d: Doc)
    ensures GoodDoc(d) && UniqueKeys(d) && NoDots(d)
    ensures Leaves(d) == [(["a", "x"], "1"), (["#b", "y"], "2")]
    ensures Parse(State([], map[]), Lines(Unlines(Render(d, "")))).entries == map["a.x" := "1", "a.y" := "2"]
  {
    var y := Section("#b", " ", Entry("y", "2", Nothing), Nothing);
    var x := Entry("x", "1", Nothing);
    d := Section("a", " ", x, y);
    MovingDoc();
    MovingLeaves();
    hide ParseLine, Lines, Unlines, Leaves, GoodDoc, UniqueKeys, NoDots, PopTo, Names, Join, IsSpace, ByteLen;
    RenderedText(d, "");
    var s0 := State([], map[]);
    var s1 := State([(0, "a")], map[]);
    var s2 := State([(0, "a")], map["a.x" := "1"]);
    var s3 := State([(0, "a")], map["a.x" := "1", "a.y" := "2"]);
    MovingSteps(s0, s1, s2, s3);
    assert Render(Nothing, " ") == [];
    assert Render(x, " ") == [" " + "x: 1"] && Render(Entry("y", "2", Nothing), " ") == [" " + "y: 2"] by {
      assert "x" + ": " + "1" == "x: 1" && "y" + ": " + "2" == "y: 2";
    }
    assert Render(y, "") == ["" + "#b:"] + [" " + "y: 2"] by {
      assert "" + " " == " " && "#b" + ":" == "#b:";
    }
    assert Render(d, "") == ["" + "a:"] + [" " + "x: 1"] + Render(y, "") by {
      assert "" + " " == " " && "a" + ":" == "a:";
    }
    SectionLines(s0, "" + "a:", [" " + "x: 1"], Render(y, ""));
    OneLine(s1, " " + "x: 1");
    SectionLines(s2, "" + "#b:", [" " + "y: 2"], []);
    assert Render(y, "") == ["" + "#b:"] + [" " + "y: 2"] + [];
    OneLine(s2, " " + "y: 2");
    assert Parse(s3, []) == s3;
  }

  lemma MovingDoc()
    ensures var d := Section("a", " ", Entry("x", "1", Nothing), Section("#b", " ", Entry("y", "2", Nothing), Nothing));
            && GoodDoc(d) && UniqueKeys(d) && NoDots(d)
  {
  }

  lemma MovingLeaves()
    ensures Leaves(Section("a", " ", Entry("x", "1", Nothing), Section("#b", " ", Entry("y", "2", Nothing), Nothing)))
            == [(["a", "x"], "1"), (["#b", "y"], "2")]
  {
    var x, y := Entry("x", "1", Nothing), Entry("y", "2", Nothing);
    assert Leaves(Nothing) == [];
    assert Leaves(x) == [(["x"], "1")] && Leaves(y) == [(["y"], "2")];
    assert ["a"] + ["x"] == ["a", "x"] && ["#b"] + ["y"] == ["#b", "y"];
    assert Under("a", Leaves(x)) == [(["a", "x"], "1")] && Under("#b", Leaves(y)) == [(["#b", "y"], "2")];
  }

  lemma MovingSteps(s0: State, s1: State, s2: State, s3: State)
    requires s0 == State([], map[]) && s1 == State([(0, "a")], map[])
    requires s2 == State([(0, "a")], map["a.x" := "1"]) && s3 == State([(0, "a")], map["a.x" := "1", "a.y" := "2"])
    ensures ParseLine(s0, "" + "a:") == s1 && ParseLine(s1, " " + "x: 1") == s2
    ensures ParseLine(s2, "" + "#b:") == s2 && ParseLine(s2, " " + "y: 2") == s3
  {
    hide ParseLine, IsSpace;
    SpaceIsSpace();
    MovingText();
    RenderedLine(s0, "", "a", "", "");
    RenderedLine(s1, " ", "x", " ", "1");
    HashLineIsSkipped(s2, "", "#b:");
    RenderedLine(s2, " ", "y", " ", "2");
    assert "a" + ":" + "" + "" == "a:" && "x" + ":" + " " + "1" == "x: 1" && "y" + ":" + " " + "2" == "y: 2";
    assert ByteLen("") == 0 && ByteLen(" ") == 1;
    assert [] + [(0, "a")] == [(0, "a")];
    assert Names([(0, "a")]) == ["a"] by {
      assert [(0, "a")][..0] == [];
      assert Names([]) + ["a"] == ["a"];
    }
    assert ["a"] + ["x"] == ["a", "x"] && ["a"] + ["y"] == ["a", "y"];
    assert ["a", "x"][1..] == ["x"] && ["a", "y"][1..] == ["y"];
    assert Join(["x"]) == "x" && Join(["y"]) == "y";
    assert Join(["a", "x"]) == "a.x" && Join(["a", "y"]) == "a.y";
  }

  lemma MovingText()
    ensures GoodKey("a") && GoodKey("x") && GoodKey("y") && Trimmed("1") && Trimmed("2") && Trimmed("")
  {
  }

  /** Unique sibling keys alone are not enough: a key that contains a dot can take the
      place of a leaf inside a section. */
  lemma DottedKeyClashes() returns (d: Doc)
    ensures GoodDoc(d) && UniqueKeys(d)
    ensures !AllKept(Parse(State([], map[]), Lines(Unlines(Render(d, "")))).entries, Leaves(d))
  {
    hide GoodDoc, UniqueKeys, Render, Leaves, Parse, Lines, Unlines, Insert, Join, IsSpace;
    d := Section("a", " ", Entry("b", "1", Nothing), Entry("a.b", "2", Nothing));
    ClashingDoc();
    ParsesRendering(d, "");
    ClashingLeaves();
    LeavesKeptIff(Leaves(d));
    JoinedAlike();
    assert !NoClash(Leaves(d)) by {
      assert Join(Leaves(d)[0].0) == Join(Leaves(d)[1].0);
    }
  }

  lemma ClashingDoc()
    ensures var d := Section("a", " ", Entry("b", "1", Nothing), Entry("a.b", "2", Nothing));
            GoodDoc(d) && UniqueKeys(d)
  {
  }

  lemma JoinedAlike()
    ensures Join(["a", "b"]) == Join(["a.b"])
  {
    assert ["a", "b"][1..] == ["b"];
    assert Join(["b"]) == "b" && Join(["a.b"]) == "a.b";
  }

  lemma ClashingLeaves()
    ensures Leaves(Section("a", " ", Entry("b", "1", Nothing), Entry("a.b", "2", Nothing)))
            == [(["a", "b"], "1"), (["a.b"], "2")]
  {
    var inner, rest := Entry("b", "1", Nothing), Entry("a.b", "2", Nothing);
    assert Leaves(Nothing) == [];
    assert Leaves(inner) == [(["b"], "1")] && Leaves(rest) == [(["a.b"], "2")];
    assert ["a"] + ["b"] == ["a", "b"];
    assert Under("a", Leaves(inner)) == [(["a", "b"], "1")];
    assert Leaves(Section("a", " ", inner, rest)) == Under("a", Leaves(inner)) + Leaves(rest);
  }
}
