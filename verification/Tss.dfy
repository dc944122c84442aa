/** Installing a task-state segment: copy the live descriptor table, append a 16-byte TSS
    descriptor (Intel SDM Vol. 3A section 7.2.3), and read segment bases back out. */
module Tss {
  import opened Words
  import opened Bits

  const TSS_BYTES := 104
  const COPY_MAX := 14

  type u16 = x: nat | x < 0x1_0000

  predicate IsTssDescriptor(desc: u64) {
    And(Shr(desc, 44), 1) == 0 && (And(Shr(desc, 40), 0xF) == 0x9 || And(Shr(desc, 40), 0xF) == 0xB)
  }

  /** The descriptor a selector names can be read from the table, both halves of it. */
  predicate Readable(table: seq<u64>, selector: u16) {
    selector == 0 ||
    var i := Shr(selector, 3);
    i < |table| && (IsTssDescriptor(table[i]) ==> i + 1 < |table|)
  }

  /** `read_segment_base`. */
  function ReadSegmentBase(table: seq<u64>, selector: u16): nat
    requires Readable(table, selector)
  {
    if selector == 0 then 0 else
    var i := Shr(selector, 3);
    var base := Or(And(Shr(table[i], 16), 0xFF_FFFF), Shl(And(Shr(table[i], 56), 0xFF), 24));
    if IsTssDescriptor(table[i]) then Or(base, Shl(And(table[i + 1], 0xFFFF_FFFF), 32)) else base
  }

  function DescriptorLow(pa: u64): nat {
    var limit := TSS_BYTES - 1;
    Or(Or(Or(Or(And(limit, 0xFFFF), Shl(And(pa, 0xFF_FFFF), 16)), Shl(0x89, 40)),
          Shl(And(Shr(limit, 16), 0xF), 48)),
       Shl(And(Shr(pa, 24), 0xFF), 56))
  }

  function DescriptorHigh(pa: u64): nat { And(Shr(pa, 32), 0xFFFF_FFFF) }

  function CopyCount(limit: u16): nat { if (limit + 1) / 8 < COPY_MAX then (limit + 1) / 8 else COPY_MAX }

  /** The table `InstallTssInto` leaves behind, up to its new limit. */
  function Installed(live: seq<u64>, limit: u16, pa: u64): seq<u64>
    requires (limit + 1) / 8 <= |live|
  {
    hide DescriptorLow, DescriptorHigh;
    DescriptorFields(pa);
    live[..CopyCount(limit)] + [DescriptorLow(pa), DescriptorHigh(pa)]
  }

  /** `install_tss_into`, with the live table's limit and entries and the address of the
      TSS as parameters; the result is the TR selector and the new limit. */
  method InstallTssInto(gdt: array<u64>, tss: array<u8>, limit: u16, live: seq<u64>, tssPa: u64, stackTop: u64)
    returns (selector: u16, newLimit: u16)
    requires gdt.Length == 16 && tss.Length == TSS_BYTES && (limit + 1) / 8 <= |live|
    modifies gdt, tss
    ensures selector == (if limit < 111 then limit + 1 - (limit + 1) % 8 else 0x70) && newLimit == selector + 15
    ensures selector == 8 * CopyCount(limit)
    ensures gdt[..] == Installed(live, limit, tssPa) + old(gdt[selector / 8 + 2..])
    ensures tss[..] == seq(4, _ => 0) + ToLe64(stackTop) + seq(92, _ => 0)
  {
    hide DescriptorLow, DescriptorHigh, ToLe64;
    var oldCount := (limit + 1) / 8;
    var copyN := if oldCount < COPY_MAX then oldCount else COPY_MAX;
    for i := 0 to copyN
      invariant gdt[..i] == live[..i] && gdt[i..] == old(gdt[i..])
    {
      gdt[i] := live[i];
    }
    ZeroTss(tss);
    StoreStackTop(tss, ToLe64(stackTop));
    DescriptorFields(tssPa);
    gdt[copyN] := DescriptorLow(tssPa);
    gdt[copyN + 1] := DescriptorHigh(tssPa);
    newLimit := (copyN + 2) * 8 - 1;
    selector := copyN * 8;
  }

  method ZeroTss(tss: array<u8>)
    requires tss.Length == TSS_BYTES
    modifies tss
    ensures tss[..] == seq(TSS_BYTES, _ => 0)
  {
    for i := 0 to TSS_BYTES
      invariant forall k | 0 <= k < i :: tss[k] == 0
    {
      tss[i] := 0;
    }
  }

  method StoreStackTop(tss: array<u8>, bytes: seq<u8>)
    requires tss.Length == TSS_BYTES && tss[..] == seq(TSS_BYTES, _ => 0) && |bytes| == 8
    modifies tss
    ensures tss[..] == seq(4, _ => 0) + bytes + seq(92, _ => 0)
  {
    for i := 0 to 8
      invariant forall k | 0 <= k < TSS_BYTES :: tss[k] == if 4 <= k < 4 + i then bytes[k - 4] else 0
    {
      tss[4 + i] := bytes[i];
    }
  }

  // ---- The descriptor's bits ----

  lemma DescriptorFields(pa: u64)
    ensures DescriptorLow(pa) == 103 + (pa % 0x100_0000) * 0x1_0000 + 0x89 * 0x100_0000_0000
                                 + (pa / 0x100_0000 % 0x100) * 0x100_0000_0000_0000
    ensures DescriptorHigh(pa) == pa / 0x1_0000_0000
    ensures DescriptorLow(pa) < 0x1_0000_0000_0000_0000 && DescriptorHigh(pa) < 0x1_0000_0000
  {
    Powers();
    hide And, Or, Shr, Pow2;
    AndLowMask(103, 16);
    AndLowMask(pa, 24);
    ShrIsDiv(103, 16);
    AndLowMask(0, 4);
    ShrIsDiv(pa, 24);
    AndLowMask(pa / 0x100_0000, 8);
    ShrIsDiv(pa, 32);
    AndLowMask(pa / 0x1_0000_0000, 32);
    var base := (pa % 0x100_0000) * 0x1_0000;
    OrCommutes(103, base);
    OrDisjoint(base, 103, 16);
    OrCommutes(base + 103, 0x89 * 0x100_0000_0000);
    OrDisjoint(0x89 * 0x100_0000_0000, base + 103, 40);
    OrZero(0x89 * 0x100_0000_0000 + base + 103);
    var low := 0x89 * 0x100_0000_0000 + base + 103;
    var top := (pa / 0x100_0000 % 0x100) * 0x100_0000_0000_0000;
    OrCommutes(low, top);
    OrDisjoint(top, low, 56);
  }

  lemma OrZero(a: nat)
    ensures Or(a, 0) == a
  {
  }

  /** The `width` bits of `a` from bit `k` up, given the number split around them. */
  lemma Field(a: nat, k: nat, width: nat, above: nat, field: nat, below: nat)
    requires below < Pow2(k) && field < Pow2(width)
    requires a == (above * Pow2(width) + field) * Pow2(k) + below
    ensures And(Shr(a, k), Pow2(width) - 1) == field
  {
    hide And, Shr, Pow2;
    var q := above * Pow2(width) + field;
    DivModUnique(a, Pow2(k), q, below);
    ShrIsDiv(a, k);
    AndLowMask(q, width);
    DivModUnique(q, Pow2(width), above, field);
  }

  /** The descriptor's fields taken out again: a present, available 64-bit TSS. */
  lemma DescriptorDecodes(pa: u64)
    ensures var low := DescriptorLow(pa);
            && And(Shr(low, 16), 0xFF_FFFF) == pa % 0x100_0000
            && And(Shr(low, 56), 0xFF) == pa / 0x100_0000 % 0x100
            && And(Shr(low, 40), 0xF) == 0x9 && And(Shr(low, 44), 1) == 0
            && And(low, 0xFFFF) == TSS_BYTES - 1
    ensures And(DescriptorHigh(pa), 0xFFFF_FFFF) == pa / 0x1_0000_0000
  {
    DescriptorFields(pa);
    Powers();
    hide And, Or, Shr, Pow2, DescriptorLow, DescriptorHigh;
    BaseFields(DescriptorLow(pa), pa % 0x100_0000, pa / 0x100_0000 % 0x100, 9);
    AndLowMask(DescriptorHigh(pa), 32);
  }

  lemma BaseFields(low: nat, a: nat, b: nat, typ: nat)
    requires a < 0x100_0000 && b < 0x100 && typ < 0x10
    requires low == 103 + a * 0x1_0000 + (0x80 + typ) * 0x100_0000_0000 + b * 0x100_0000_0000_0000
    ensures And(Shr(low, 16), 0xFF_FFFF) == a && And(Shr(low, 56), 0xFF) == b
    ensures And(Shr(low, 40), 0xF) == typ && And(Shr(low, 44), 1) == 0 && And(low, 0xFFFF) == 103
  {
    Powers();
    hide And, Or, Shr, Pow2;
    Field(low, 16, 24, 0x80 + typ + b * 0x1_0000, a, 103);
    Field(low, 40, 4, 8 + b * 0x1000, typ, 103 + a * 0x1_0000);
    Field(low, 44, 1, 4 + b * 0x800, 0, 103 + a * 0x1_0000 + typ * 0x100_0000_0000);
    Field(low, 56, 8, 0, b, 103 + a * 0x1_0000 + (0x80 + typ) * 0x100_0000_0000);
    AndLowMask(low, 16);
    DivModUnique(low, 0x1_0000, a + (0x80 + typ) * 0x100_0000 + b * 0x100_0000_0000, 103);
  }

  lemma SelectorEntry(selector: nat)
    ensures Shr(selector, 3) == selector / 8
  {
    SmallPowers();
    ShrIsDiv(selector, 3);
  }

  lemma SelectorIndex(n: nat)
    ensures Shr(8 * n, 3) == n
  {
    SelectorEntry(8 * n);
  }

  lemma JoinTwo(a: nat, b: nat)
    requires a < 0x100_0000 && b < 0x100
    ensures Or(a, Shl(b, 24)) == a + b * 0x100_0000
  {
    Powers();
    hide Or, Pow2;
    DivModUnique(b * 0x100_0000, 0x100_0000, b, 0);
    OrCommutes(a, b * 0x100_0000);
    OrDisjoint(b * 0x100_0000, a, 24);
  }

  /** Three fields of a base joined again. */
  lemma JoinFields(a: nat, b: nat, c: nat)
    requires a < 0x100_0000 && b < 0x100
    ensures Or(Or(a, Shl(b, 24)), Shl(c, 32)) == a + b * 0x100_0000 + c * 0x1_0000_0000
  {
    hide Or, Shl;
    JoinTwo(a, b);
    UpperHalf(a + b * 0x100_0000, c);
  }

  lemma JoinBase(pa: u64)
    ensures Or(Or(pa % 0x100_0000, Shl(pa / 0x100_0000 % 0x100, 24)), Shl(pa / 0x1_0000_0000, 32)) == pa
  {
    hide Or, Shl;
    var q, a := pa / 0x100_0000, pa % 0x100_0000;
    JoinFields(a, q % 0x100, pa / 0x1_0000_0000);
    DivModUnique(pa, 0x1_0000_0000, q / 0x100, q % 0x100 * 0x100_0000 + a);
  }

  // ---- Reading the installed table ----

  lemma DecodesTss(table: seq<u64>, n: nat, pa: u64)
    requires 0 < n <= COPY_MAX && n + 1 < |table|
    requires table[n] == DescriptorLow(pa) && table[n + 1] == DescriptorHigh(pa)
    ensures Readable(table, 8 * n) && ReadSegmentBase(table, 8 * n) == pa
  {
    hide And, Or, Shr, Shl, DescriptorLow, DescriptorHigh;
    SelectorIndex(n);
    DescriptorDecodes(pa);
    JoinBase(pa);
  }

  /** The selector returned decodes to the address of the TSS exactly when the live table
      held at least one whole entry: with none to copy, the descriptor lands in entry 0
      and its selector is the null selector, which decodes to 0 (and which LTR refuses,
      see `TssLoadsIff`). */
  lemma TssRoundTripIff(live: seq<u64>, limit: u16, pa: u64)
    requires (limit + 1) / 8 <= |live|
    ensures var table, selector := Installed(live, limit, pa), 8 * CopyCount(limit);
            && Readable(table, selector)
            && (ReadSegmentBase(table, selector) == pa <==> limit >= 7 || pa == 0)
            && 8 * |table| - 1 == 8 * CopyCount(limit) + 15
  {
    hide And, Or, Shr, DescriptorLow, DescriptorHigh, IsTssDescriptor;
    var n := CopyCount(limit);
    if n > 0 {
      DecodesTss(Installed(live, limit, pa), n, pa);
    }
  }

  /** LTR takes a selector that is not null and names a present, available 64-bit TSS. */
  predicate LtrAccepts(table: seq<u64>, selector: u16) {
    var i := Shr(selector, 3);
    && i != 0 && i + 1 < |table|
    && And(Shr(table[i], 40), 0xF) == 0x9 && And(Shr(table[i], 44), 1) == 0 && And(Shr(table[i], 47), 1) == 1
  }

  /** LTR takes the new selector under the same condition: with no entry copied it is
      null, LTR faults, and the installation does not return. */
  lemma TssLoadsIff(live: seq<u64>, limit: u16, pa: u64)
    requires (limit + 1) / 8 <= |live|
    ensures LtrAccepts(Installed(live, limit, pa), 8 * CopyCount(limit)) <==> limit >= 7
  {
    hide And, Or, Shr, DescriptorLow, DescriptorHigh;
    SelectorIndex(CopyCount(limit));
    DescriptorDecodes(pa);
    DescriptorPresent(pa);
  }

  lemma DescriptorPresent(pa: u64)
    ensures And(Shr(DescriptorLow(pa), 47), 1) == 1
  {
    Powers();
    PowAdd(44, 3);
    DescriptorFields(pa);
    hide And, Shr, Pow2, DescriptorLow, DescriptorHigh;
    var a, b := pa % 0x100_0000, pa / 0x100_0000 % 0x100;
    Field(DescriptorLow(pa), 47, 1, b * 0x100, 1, 103 + a * 0x1_0000 + 9 * 0x100_0000_0000);
  }

  /** The installed table once LTR has marked the descriptor busy: its type gains 2. */
  function AfterLtr(live: seq<u64>, limit: u16, pa: u64): seq<u64>
    requires (limit + 1) / 8 <= |live|
  {
    hide DescriptorLow, DescriptorHigh;
    DescriptorFields(pa);
    live[..CopyCount(limit)] + [DescriptorLow(pa) + 0x200_0000_0000, DescriptorHigh(pa)]
  }

  /** The selector in TR, its descriptor now busy, still decodes to the address of the TSS. */
  lemma BusyTssDecodes(live: seq<u64>, limit: u16, pa: u64)
    requires 7 <= limit && (limit + 1) / 8 <= |live|
    ensures var table, selector := AfterLtr(live, limit, pa), 8 * CopyCount(limit);
            Readable(table, selector) && ReadSegmentBase(table, selector) == pa
  {
    DescriptorFields(pa);
    hide And, Or, Shr, Shl, DescriptorLow, DescriptorHigh;
    var n := CopyCount(limit);
    DescriptorDecodes(pa);
    BaseFields(DescriptorLow(pa) + 0x200_0000_0000, pa % 0x100_0000, pa / 0x100_0000 % 0x100, 0xB);
    SelectorIndex(n);
    JoinBase(pa);
  }

  /** By the descriptor format: an entry is a 64-bit TSS descriptor when bits 44:40 hold 9
      (available) or 11 (busy); any other one has a 32-bit base in bits 39:16 and 63:56,
      whatever the next entry holds. */
  lemma SegmentBaseBits(table: seq<u64>, selector: u16)
    requires Readable(table, selector) && selector != 0
    ensures selector / 8 < |table|
    ensures var desc := table[selector / 8];
            && (IsTssDescriptor(desc) <==> desc / 0x100_0000_0000 % 0x20 in {9, 11})
            && (!IsTssDescriptor(desc) ==>
                  ReadSegmentBase(table, selector) ==
                  desc / 0x1_0000 % 0x100_0000 + desc / 0x100_0000_0000_0000 * 0x100_0000)
  {
    hide And, Or, Shr, Shl, IsTssDescriptor;
    SelectorEntry(selector);
    var desc := table[selector / 8];
    TypeBits(desc);
    BaseByDivision(desc);
    JoinTwo(desc / 0x1_0000 % 0x100_0000, desc / 0x100_0000_0000_0000);
  }

  lemma BaseByDivision(desc: u64)
    ensures And(Shr(desc, 16), 0xFF_FFFF) == desc / 0x1_0000 % 0x100_0000
    ensures And(Shr(desc, 56), 0xFF) == desc / 0x100_0000_0000_0000 < 0x100
  {
    Powers();
    hide And, Shr, Pow2;
    ShrIsDiv(desc, 16);
    ShrIsDiv(desc, 56);
    AndLowMask(desc / 0x1_0000, 24);
    AndLowMask(desc / 0x100_0000_0000_0000, 8);
  }

  lemma TypeBits(desc: u64)
    ensures IsTssDescriptor(desc) <==> desc / 0x100_0000_0000 % 0x20 in {9, 11}
  {
    hide And, Shr;
    TypeField(desc);
  }

  lemma TypeField(desc: u64)
    ensures And(Shr(desc, 40), 0xF) == desc / 0x100_0000_0000 % 0x10
    ensures And(Shr(desc, 44), 1) == desc / 0x100_0000_0000 % 0x20 / 0x10
  {
    Powers();
    SmallPowers();
    PowAdd(40, 4);
    hide And, Shr, Pow2;
    ShrIsDiv(desc, 40);
    ShrIsDiv(desc, 44);
    AndLowMask(desc / 0x100_0000_0000, 4);
    AndLowMask(desc / 0x1000_0000_0000, 1);
    var q := desc / 0x100_0000_0000;
    DivModUnique(desc, 0x1000_0000_0000, q / 0x10, q % 0x10 * 0x100_0000_0000 + desc % 0x100_0000_0000);
    DivModUnique(q, 0x20, q / 0x20, q % 0x20);
    DivModUnique(q / 0x10, 2, q / 0x20, q % 0x20 / 0x10);
  }

  /** Every old selector decodes as it did before, if its whole descriptor lies inside the
      live limit and in the first fourteen entries. */
  lemma OldSelectorsDecodeAlike(live: seq<u64>, limit: u16, pa: u64, selector: u16)
    requires (limit + 1) / 8 <= |live|
    requires selector / 8 * 8 + 8 <= limit + 1 && selector / 8 < 14
    requires IsTssDescriptor(live[selector / 8]) ==> selector / 8 * 8 + 16 <= limit + 1 && selector / 8 < 13
    ensures Readable(live, selector) && Readable(Installed(live, limit, pa), selector)
    ensures ReadSegmentBase(Installed(live, limit, pa), selector) == ReadSegmentBase(live, selector)
  {
    hide And, Or, Shr, Shl, DescriptorLow, DescriptorHigh, IsTssDescriptor;
    SelectorEntry(selector);
    var table, i := Installed(live, limit, pa), selector / 8;
    assert table[i] == live[i];
    if IsTssDescriptor(live[i]) {
      assert table[i + 1] == live[i + 1];
    }
  }

  /** A TSS descriptor cut in two by the end of the copy reads its upper half from the
      new descriptor, and keeps its base exactly when the two low words agree. */
  lemma CutDescriptorReadsNewTss(live: seq<u64>, limit: u16, pa: u64)
    requires (limit + 1) / 8 <= |live| && 0 < CopyCount(limit) < |live|
    requires IsTssDescriptor(live[CopyCount(limit) - 1]) && CopyCount(limit) > 1
    ensures var n := CopyCount(limit);
            var table, selector := Installed(live, limit, pa), 8 * (n - 1);
            && Readable(table, selector) && Readable(live, selector)
            && (ReadSegmentBase(table, selector) == ReadSegmentBase(live, selector) <==>
                DescriptorLow(pa) % 0x1_0000_0000 == live[n] % 0x1_0000_0000)
  {
    Powers();
    hide And, Or, Shr, Pow2, DescriptorLow, DescriptorHigh, IsTssDescriptor;
    var n := CopyCount(limit);
    SelectorIndex(n - 1);
    var low, desc := DescriptorLow(pa), live[n - 1];
    DescriptorFields(pa);
    AndLowMask(low, 32);
    AndLowMask(live[n], 32);
    AndLowMask(Shr(desc, 16), 24);
    AndLowMask(Shr(desc, 56), 8);
    var base := Or(Shr(desc, 16) % 0x100_0000, Shl(Shr(desc, 56) % 0x100, 24));
    var b := Shr(desc, 56) % 0x100;
    DivModUnique(b * 0x100_0000, 0x100_0000, b, 0);
    OrCommutes(Shr(desc, 16) % 0x100_0000, b * 0x100_0000);
    OrDisjoint(b * 0x100_0000, Shr(desc, 16) % 0x100_0000, 24);
    UpperHalf(base, low % 0x1_0000_0000);
    UpperHalf(base, live[n] % 0x1_0000_0000);
  }

  lemma UpperHalf(base: nat, upper: nat)
    requires base < 0x1_0000_0000
    ensures Or(base, Shl(upper, 32)) == base + upper * 0x1_0000_0000
  {
    Powers();
    hide Or, Pow2;
    DivModUnique(upper * 0x1_0000_0000, 0x1_0000_0000, upper, 0);
    OrCommutes(base, upper * 0x1_0000_0000);
    OrDisjoint(upper * 0x1_0000_0000, base, 32);
  }

  /** The processor finds the stack pointer where the TSS layout puts it. */
  lemma StackTopStored(stackTop: u64)
    ensures var tss := seq(4, _ => 0) + ToLe64(stackTop) + seq(92, _ => 0);
            |tss| == TSS_BYTES && FromLe64(tss[4..12]) == stackTop
  {
    hide ToLe64, FromLe64;
    var tss := seq(4, _ => 0) + ToLe64(stackTop) + seq(92, _ => 0);
    assert tss[4..12] == ToLe64(stackTop);
    Le64RoundTrip(stackTop);
  }
}
