/** What the extended page tables translate, as a simple map. */
module EptMap {
  import opened Words
  import opened Ept
  import Bits

  const SHARED_IPC_GPA: u64 := 0xFE00_0000
  const IPC_PD: nat := 496
  const IPC_SLOT: nat := 3
  const GIB: nat := 0x4000_0000
  const MAX_RAM: nat := 0x40_0000

  datatype Ipc = Ipc(base: nat, pages: nat)

  /** Linked 1 GiB slots; RAM pages from guest address 0; 2 MiB device frames by PD
      index; the shared pages at PD index 496. */
  datatype Plan = Plan(slots: set<nat>, ramBase: nat, ramPages: nat, large: map<nat, nat>, ipc: Option<Ipc>)

  predicate PlanOk(p: Plan) {
    && p.ramBase % PAGE == 0 && p.ramPages <= 1024 && p.ramBase + p.ramPages * PAGE <= ADDRESS_LIMIT
    && (forall k :: k in p.large ==> p.large[k] % LARGE_PAGE == 0 && p.large[k] < ADDRESS_LIMIT)
    && (p.ipc.Some? ==>
          var i := p.ipc.value;
          i.base % PAGE == 0 && i.pages <= 512 && i.base + i.pages * PAGE <= ADDRESS_LIMIT)
  }

  /** The translation a plan stands for. All slots share one PD, so beyond the linked
      slot only `gpa` modulo 1 GiB matters. */
  function SimpleMap(p: Plan, gpa: u64): Option<nat> {
    if gpa / 0x80_0000_0000 % ENTRIES != 0 || gpa / GIB % ENTRIES !in p.slots then None
    else
      var o := gpa % GIB;
      var chunk := o / LARGE_PAGE;
      if chunk == IPC_PD && p.ipc.Some? then
        if o % LARGE_PAGE < p.ipc.value.pages * PAGE then Some(p.ipc.value.base + o % LARGE_PAGE) else None
      else if chunk in p.large then Some(p.large[chunk] + o % LARGE_PAGE)
      else if o < p.ramPages * PAGE then Some(p.ramBase + o)
      else None
  }

  function PdEntry(at: Addresses, p: Plan, k: nat): nat {
    if k == IPC_PD && p.ipc.Some? then at.ptIpc + 7
    else if k in p.large then p.large[k] + 0x83
    else if k == 0 && p.ramPages > 0 then at.pt + 7
    else if k == 1 && p.ramPages > 512 then at.pt2 + 7
    else 0
  }

  function LeafEntry(base: nat, k: nat, pages: nat): nat {
    if k < pages then base + k * PAGE + 0x37 else 0
  }

  /** The tables hold exactly the entries of the plan. */
  ghost predicate Describes(t: Tables, p: Plan) {
    && AddressesOk(t.at) && PlanOk(p)
    && (forall k :: 0 <= k < ENTRIES ==> t.pml4[k] == if k == 0 then t.at.pdpt + 7 else 0)
    && (forall k :: 0 <= k < ENTRIES ==> t.pdpt[k] == if k in p.slots then t.at.pd + 7 else 0)
    && (forall k :: 0 <= k < ENTRIES ==> t.pd[k] == PdEntry(t.at, p, k))
    && (forall k :: 0 <= k < ENTRIES ==> t.pt[k] == LeafEntry(p.ramBase, k, p.ramPages))
    && (forall k :: 0 <= k < ENTRIES ==> t.pt2[k] == LeafEntry(p.ramBase, k + 512, p.ramPages))
    && (forall k :: 0 <= k < ENTRIES ==>
          t.ptIpc[k] == if p.ipc.Some? then LeafEntry(p.ipc.value.base, k, p.ipc.value.pages) else 0)
  }

  // ---- The walk is the simple map ----

  lemma EntryFields(x: nat, flags: nat)
    requires x % PAGE == 0 && x < ADDRESS_LIMIT && flags < 0x80 && flags % 2 == 1
    ensures Readable(x + flags) && !IsLargePage(x + flags) && Frame(x + flags) == x
  {
    hide Readable, IsLargePage, Frame;
    var q := x / PAGE;
    assert x == 0x1000 * q && q < 0x100_0000_0000;
    Bits.DivModUnique(x + flags, 0x80, 0x20 * q, flags);
    Bits.DivModUnique(0x20 * q, 2, 0x10 * q, 0);
    Bits.DivModUnique(x + flags, PAGE, q, flags);
    Bits.DivModUnique(x + flags, 2, 0x800 * q + flags / 2, 1);
  }

  lemma LargeEntryFields(x: nat)
    requires x % LARGE_PAGE == 0 && x < ADDRESS_LIMIT
    ensures Readable(x + 0x83) && IsLargePage(x + 0x83) && LargeFrame(x + 0x83) == x
  {
    hide Readable, IsLargePage, LargeFrame;
    var q := x / LARGE_PAGE;
    assert x == 0x20_0000 * q && q < 0x8000_0000;
    Bits.DivModUnique(x + 0x83, 0x80, 0x4000 * q + 1, 3);
    Bits.DivModUnique(0x4000 * q + 1, 2, 0x2000 * q, 1);
    Bits.DivModUnique(x + 0x83, 0x2_0000, 0x10 * q, 0x83);
    Bits.DivModUnique(x + 0x83, 2, 0x10_0000 * q + 0x41, 1);
  }

  /** An address splits into slot, chunk, page and offset. */
  lemma Decompose(gpa: nat)
    ensures var o := gpa % GIB;
            && o / LARGE_PAGE == gpa / LARGE_PAGE % ENTRIES
            && o % LARGE_PAGE == gpa % LARGE_PAGE == (gpa / PAGE % ENTRIES) * PAGE + gpa % PAGE
            && o == (gpa / LARGE_PAGE % ENTRIES) * LARGE_PAGE + gpa % LARGE_PAGE
  {
    var g, o := gpa / GIB, gpa % GIB;
    var c, r := o / LARGE_PAGE, o % LARGE_PAGE;
    assert gpa == 0x4000_0000 * g + 0x20_0000 * c + r && c < 512;
    Bits.DivModUnique(gpa, LARGE_PAGE, 512 * g + c, r);
    Bits.DivModUnique(512 * g + c, 512, g, c);
    var p, f := r / PAGE, r % PAGE;
    assert r == 0x1000 * p + f && p < 512;
    Bits.DivModUnique(gpa, PAGE, 512 * (512 * g + c) + p, f);
    Bits.DivModUnique(512 * (512 * g + c) + p, 512, 512 * g + c, p);
  }

  lemma PagePosition(page: nat, off: nat, pages: nat)
    requires off < PAGE
    ensures page * PAGE + off < pages * PAGE <==> page < pages
  {
    if page < pages {
      assert page * PAGE + PAGE <= pages * PAGE;
    }
  }

  lemma WalkLeafTable(pt: Table, base: nat, shift: nat, pages: nat, gpa: u64)
    requires base % PAGE == 0 && base + pages * PAGE <= ADDRESS_LIMIT
    requires forall k :: 0 <= k < ENTRIES ==> pt[k] == LeafEntry(base, k + shift, pages)
    ensures WalkLeaf(pt, gpa) ==
            var o := shift * PAGE + gpa % LARGE_PAGE;
            if o < pages * PAGE then Some(base + o) else None
  {
    var k := PtIndex(gpa);
    Decompose(gpa);
    PagePosition(k + shift, gpa % PAGE, pages);
    if k + shift < pages {
      var frame := base + (k + shift) * PAGE;
      assert frame + PAGE <= base + pages * PAGE;
      EntryFields(frame, 0x37);
    }
  }

  /** A PD entry that links one of the three page tables selects it. */
  lemma LinkSelects(t: Tables, gpa: u64)
    requires AddressesOk(t.at)
    ensures WalkPd(t, t.at.pt + 7, gpa) == WalkLeaf(t.pt, gpa)
    ensures WalkPd(t, t.at.pt2 + 7, gpa) == WalkLeaf(t.pt2, gpa)
    ensures WalkPd(t, t.at.ptIpc + 7, gpa) == WalkLeaf(t.ptIpc, gpa)
  {
    hide WalkLeaf, Frame, LargeFrame, Readable, IsLargePage;
    EntryFields(t.at.pt, 7);
    EntryFields(t.at.pt2, 7);
    EntryFields(t.at.ptIpc, 7);
    FrameOfTable(t.at.pt);
    FrameOfTable(t.at.pt2);
    FrameOfTable(t.at.ptIpc);
  }

  lemma UpperLevels(t: Tables, p: Plan, gpa: u64)
    requires Describes(t, p)
    ensures Readable(t.pml4[Pml4Index(gpa)]) <==> gpa / 0x80_0000_0000 % ENTRIES == 0
    ensures Readable(t.pdpt[PdptIndex(gpa)]) <==> gpa / GIB % ENTRIES in p.slots
  {
    EntryFields(t.at.pdpt, 7);
    EntryFields(t.at.pd, 7);
  }

  lemma LowerLevels(t: Tables, p: Plan, gpa: u64)
    requires AddressesOk(t.at) && PlanOk(p) && Describes(t, p)
    ensures var o := gpa % GIB;
            var chunk := o / LARGE_PAGE;
            WalkPd(t, PdEntry(t.at, p, PdIndex(gpa)), gpa) ==
            if chunk == IPC_PD && p.ipc.Some? then
              if o % LARGE_PAGE < p.ipc.value.pages * PAGE then Some(p.ipc.value.base + o % LARGE_PAGE) else None
            else if chunk in p.large then Some(p.large[chunk] + o % LARGE_PAGE)
            else if o < p.ramPages * PAGE then Some(p.ramBase + o)
            else None
  {
    hide WalkLeaf, Frame, LargeFrame, Readable, IsLargePage, PdIndex, AddressesOk;
    Decompose(gpa);
    LinkSelects(t, gpa);
    var chunk := PdIndex(gpa);
    if chunk == IPC_PD && p.ipc.Some? {
      hide WalkPd;
      WalkLeafTable(t.ptIpc, p.ipc.value.base, 0, p.ipc.value.pages, gpa);
    } else if chunk in p.large {
      LargeEntryFields(p.large[chunk]);
    } else if chunk == 0 && p.ramPages > 0 {
      hide WalkPd;
      WalkLeafTable(t.pt, p.ramBase, 0, p.ramPages, gpa);
    } else if chunk == 1 && p.ramPages > 512 {
      hide WalkPd;
      WalkLeafTable(t.pt2, p.ramBase, 512, p.ramPages, gpa);
    } else {
      PagePosition(chunk * 512, 0, p.ramPages);
    }
  }

  /** Tables that hold a plan's entries translate every guest address as the plan says. */
  lemma WalkIsSimpleMap(t: Tables, p: Plan, gpa: u64)
    requires Describes(t, p)
    ensures Walk(t, gpa) == SimpleMap(p, gpa)
  {
    hide PdIndex, PdptIndex, Pml4Index, WalkPd, Readable, AddressesOk, PlanOk, Describes, PdEntry;
    DescribedPd(t, p, gpa);
    UpperLevels(t, p, gpa);
    LowerLevels(t, p, gpa);
  }

  lemma DescribedPd(t: Tables, p: Plan, gpa: u64)
    requires Describes(t, p)
    ensures AddressesOk(t.at) && PlanOk(p) && t.pd[PdIndex(gpa)] == PdEntry(t.at, p, PdIndex(gpa))
  {
    hide PdEntry, PdIndex, AddressesOk, PlanOk;
  }

  lemma FrameOfTable(a: u64)
    requires TableAddress(a)
    ensures Frame(a) == a
  {
  }

  // ---- The mapping operations keep the description ----

  lemma PageIndices(i: nat)
    requires i < 1024
    ensures PdIndex(i * PAGE) == i / 512 && PtIndex(i * PAGE) == i % 512
  {
    hide PdIndex, PtIndex;
    var q, r := i / 512, i % 512;
    assert i * PAGE == 0x20_0000 * q + 0x1000 * r && q < 2;
    Bits.DivModUnique(i * PAGE, LARGE_PAGE, q, 0x1000 * r);
    Bits.DivModUnique(i * PAGE, PAGE, i, 0);
  }

  lemma RamPageEffect(t: Tables, base: nat, i: nat)
    requires i < 1024 && base % PAGE == 0 && base + (i + 1) * PAGE <= ADDRESS_LIMIT
    ensures RamPage(t, 0, base, i) ==
            if i < 512 then t.(pt := t.pt[i := base + i * PAGE + 0x37])
            else t.(pt2 := t.pt2[i - 512 := base + i * PAGE + 0x37])
  {
    hide PdIndex, PtIndex, Leaf;
    PageIndices(i);
  }

  lemma {:induction false} RamPagesContent(t: Tables, base: nat, n: nat)
    requires n <= 1024 && base % PAGE == 0 && base + n * PAGE <= ADDRESS_LIMIT
    ensures var t' := RamPages(t, 0, base, n);
            && t' == t.(pt := t'.pt, pt2 := t'.pt2)
            && (forall k :: 0 <= k < ENTRIES ==> t'.pt[k] == if k < n then base + k * PAGE + 0x37 else t.pt[k])
            && (forall k :: 0 <= k < ENTRIES ==>
                  t'.pt2[k] == if k + 512 < n then base + (k + 512) * PAGE + 0x37 else t.pt2[k])
  {
    hide RamPage;
    if n > 0 {
      RamPagesContent(t, base, n - 1);
      RamPageEffect(RamPages(t, 0, base, n - 1), base, n - 1);
    }
  }

  lemma LinkChunksContent(t: Tables, chunks: nat)
    requires chunks <= 2
    ensures var t' := LinkChunks(t, chunks);
            && t' == t.(pd := t'.pd)
            && forall k :: 0 <= k < ENTRIES ==>
                 t'.pd[k] == if k == 0 && chunks > 0 then Link(t.at.pt) else if k == 1 && chunks > 1 then Link(t.at.pt2) else t.pd[k]
  {
    hide Link;
    assert LinkChunks(t, 0) == t;
    assert LinkChunks(t, 1) == t.(pd := t.pd[0 := Link(t.at.pt)]);
    assert chunks == 0 || chunks == 1 || chunks == 2;
  }

  lemma AddressesAligned(at: Addresses)
    requires AddressesOk(at)
    ensures TableAddress(at.pdpt) && TableAddress(at.pd)
  {
  }

  lemma LinkedTables(at: Addresses)
    requires AddressesOk(at)
    ensures Link(at.pdpt) == at.pdpt + 7 && Link(at.pd) == at.pd + 7 && Link(at.pt) == at.pt + 7
    ensures Link(at.pt2) == at.pt2 + 7 && Link(at.ptIpc) == at.ptIpc + 7
  {
  }

  function RamPlan(base: nat, size: nat): Plan { Plan({0}, base, Pages(size), map[], None) }

  /** `map_region` from guest address 0, for a page-aligned buffer of at most 4 MiB. */
  lemma RegionDescribes(at: Addresses, base: u64, size: u64)
    requires AddressesOk(at) && base % PAGE == 0 && size <= MAX_RAM
    requires base + Pages(size) * PAGE <= ADDRESS_LIMIT
    ensures NoOverflow(0, base, size)
    ensures Describes(RegionTables(at, 0, base, size), RamPlan(base, size))
  {
    hide Link, Pml4Index, PdptIndex, RamPages, LinkChunks, Describes;
    LinkedTables(at);
    var n := Pages(size);
    ChunkCount(n);
    var chunks := Min((n + 511) / 512, 2);
    var t0 := LinkUpper(Cleared(at), 0);
    LinkChunksContent(t0, chunks);
    var t1 := LinkChunks(t0, chunks);
    RamPagesContent(t1, base, n);
    RegionEntries(RamPages(t1, 0, base, n), base, size);
  }

  lemma ChunkCount(n: nat)
    ensures Min((n + 511) / 512, 2) > 0 <==> n > 0
    ensures Min((n + 511) / 512, 2) > 1 <==> n > 512
  {
  }

  lemma RegionEntries(t: Tables, base: u64, size: u64)
    requires AddressesOk(t.at) && base % PAGE == 0 && size <= MAX_RAM
    requires base + Pages(size) * PAGE <= ADDRESS_LIMIT
    requires forall k :: 0 <= k < ENTRIES ==> t.pml4[k] == if k == 0 then t.at.pdpt + 7 else 0
    requires forall k :: 0 <= k < ENTRIES ==> t.pdpt[k] == if k == 0 then t.at.pd + 7 else 0
    requires forall k :: 0 <= k < ENTRIES ==>
               t.pd[k] == if k == 0 && Pages(size) > 0 then t.at.pt + 7
                          else if k == 1 && Pages(size) > 512 then t.at.pt2 + 7 else 0
    requires forall k :: 0 <= k < ENTRIES ==> t.pt[k] == LeafEntry(base, k, Pages(size))
    requires forall k :: 0 <= k < ENTRIES ==> t.pt2[k] == LeafEntry(base, k + 512, Pages(size))
    requires forall k :: 0 <= k < ENTRIES ==> t.ptIpc[k] == 0
    ensures Describes(t, RamPlan(base, size))
  {
    hide AddressesOk;
  }

  function MmioPlan(p: Plan, gpa: u64, hpa: u64): Plan {
    p.(slots := p.slots + {PdptIndex(gpa)}, large := p.large[PdIndex(gpa) := LargePageBase(hpa)])
  }

  lemma MmioDescribes(t: Tables, p: Plan, gpa: u64, hpa: u64)
    requires Describes(t, p) && p.ipc.None? && gpa < 0x80_0000_0000 && hpa < ADDRESS_LIMIT
    ensures Describes(MmioTables(t, gpa, hpa), MmioPlan(p, gpa, hpa))
  {
    hide PdIndex, PdptIndex, Pml4Index, LargePageBase, MmioLeaf, Link;
    LinkedTables(t.at);
    hide AddressesOk, LeafEntry;
  }

  function IpcPlan(p: Plan, hpa: nat, size: nat): Plan {
    p.(slots := p.slots + {IPC_SLOT}, large := p.large - {IPC_PD}, ipc := Some(Ipc(hpa, Min(Pages(size), 512))))
  }

  lemma IpcPageIndex(i: nat)
    requires i < 512
    ensures PtIndex(SHARED_IPC_GPA + i * PAGE) == i
  {
    assert (SHARED_IPC_GPA + i * PAGE) / PAGE == 0xFE000 + i;
  }

  lemma {:induction false} IpcPagesContent(t: Tables, base: nat, n: nat)
    requires n <= 512 && base % PAGE == 0 && base + n * PAGE <= ADDRESS_LIMIT
    ensures SHARED_IPC_GPA + n * PAGE < 0x1_0000_0000_0000_0000
    ensures var t' := IpcPages(t, SHARED_IPC_GPA, base, n);
            && t' == t.(ptIpc := t'.ptIpc)
            && (forall k :: 0 <= k < ENTRIES ==> t'.ptIpc[k] == if k < n then base + k * PAGE + 0x37 else t.ptIpc[k])
  {
    hide PtIndex, Leaf;
    if n > 0 {
      IpcPagesContent(t, base, n - 1);
      IpcPageIndex(n - 1);
      AlignedLeaf(base, n - 1);
    }
  }

  lemma AlignedLeaf(base: nat, i: nat)
    requires base % PAGE == 0 && base + i * PAGE < ADDRESS_LIMIT
    ensures Leaf(base + i * PAGE) == base + i * PAGE + 0x37
  {
    hide Leaf;
  }

  /** `map_shared_ipc`, the last mapping of each partition. */
  lemma SharedDescribes(t: Tables, p: Plan, hpa: u64, size: u64)
    requires Describes(t, p) && p.ipc.None?
    requires hpa % PAGE == 0 && size + 0xFFF < 0x1_0000_0000_0000_0000
    requires NoOverflow(SHARED_IPC_GPA, hpa, size)
    requires hpa + Min(Pages(size), 512) * PAGE <= ADDRESS_LIMIT
    ensures Describes(SharedTables(t, SHARED_IPC_GPA, hpa, size), IpcPlan(p, hpa, size))
  {
    hide PtIndex, Leaf, PdIndex, PdptIndex, Pml4Index, Link, AddressesOk, NoOverflow;
    LinkedTables(t.at);
    IpcIndices();
    var t1 := LinkUpper(t, SHARED_IPC_GPA);
    var t2 := t1.(pd := t1.pd[IPC_PD := Link(t.at.ptIpc)]);
    IpcPagesContent(t2, hpa, Min(Pages(size), 512));
  }

  lemma IpcIndices()
    ensures Pml4Index(SHARED_IPC_GPA) == 0 && PdptIndex(SHARED_IPC_GPA) == IPC_SLOT
    ensures PdIndex(SHARED_IPC_GPA) == IPC_PD
  {
    hide Pml4Index, PdptIndex, PdIndex;
  }

  // ---- Consequences for single translations ----

  /** Passing a device through keeps every translation outside its PD index, for any
      tables whatever. */
  lemma MmioPreserves(t: Tables, gpa: u64, hpa: u64, x: u64)
    requires AddressesOk(t.at) && Walk(t, x).Some? && PdIndex(x) != PdIndex(gpa)
    ensures Walk(MmioTables(t, gpa, hpa), x) == Walk(t, x)
  {
    hide AddressesOk, PdIndex, PdptIndex, Pml4Index, Readable, Link, MmioLeaf, Frame, LargeFrame, IsLargePage, WalkLeaf;
    AddressesAligned(t.at);
    LinkedTables(t.at);
    EntryFields(t.at.pdpt, 7);
    EntryFields(t.at.pd, 7);
  }

  /** Mapping the shared region keeps every translation outside PD index 496. */
  lemma SharedPreserves(t: Tables, p: Plan, hpa: u64, size: u64, x: u64)
    requires Describes(t, p) && p.ipc.None?
    requires hpa % PAGE == 0 && size + 0xFFF < 0x1_0000_0000_0000_0000
    requires NoOverflow(SHARED_IPC_GPA, hpa, size)
    requires hpa + Min(Pages(size), 512) * PAGE <= ADDRESS_LIMIT
    requires Walk(t, x).Some? && PdIndex(x) != IPC_PD
    ensures Walk(SharedTables(t, SHARED_IPC_GPA, hpa, size), x) == Walk(t, x)
  {
    hide Describes, Walk, NoOverflow, Pages, PdIndex, SharedTables;
    SharedDescribes(t, p, hpa, size);
    WalkIsSimpleMap(t, p, x);
    WalkIsSimpleMap(SharedTables(t, SHARED_IPC_GPA, hpa, size), IpcPlan(p, hpa, size), x);
    PdOfAddress(x);
  }

  lemma PdOfAddress(x: u64)
    ensures PdIndex(x) == x % GIB / LARGE_PAGE
  {
    hide PdIndex;
    Decompose(x);
  }

  /** Every linked 1 GiB slot shows the same memory. */
  lemma SlotsAlias(t: Tables, p: Plan, x: u64, y: u64)
    requires Describes(t, p)
    requires x < 0x80_0000_0000 && y < 0x80_0000_0000 && x % GIB == y % GIB
    requires x / GIB in p.slots && y / GIB in p.slots
    ensures Walk(t, x) == Walk(t, y)
  {
    hide Walk, Describes;
    WalkIsSimpleMap(t, p, x);
    WalkIsSimpleMap(t, p, y);
    SlotNumber(x);
    SlotNumber(y);
  }

  lemma SlotNumber(x: nat)
    requires x < 0x80_0000_0000
    ensures x / 0x80_0000_0000 % ENTRIES == 0 && x / GIB % ENTRIES == x / GIB
  {
  }

  /** Everything a partition can reach lies in its RAM, its device frames, or the
      shared pages. */
  lemma ImageOfPlan(p: Plan, x: u64)
    requires SimpleMap(p, x).Some?
    ensures var h := SimpleMap(p, x).value;
            || p.ramBase <= h < p.ramBase + p.ramPages * PAGE
            || (exists k :: k in p.large && p.large[k] <= h < p.large[k] + LARGE_PAGE)
            || (p.ipc.Some? && p.ipc.value.base <= h < p.ipc.value.base + p.ipc.value.pages * PAGE)
  {
  }

  // ---- The architectural walk ----

  /** The table at a physical address, if it is one of the six. */
  function TableAt(t: Tables, pa: nat): Option<Table> {
    if pa == t.at.pml4 then Some(t.pml4)
    else if pa == t.at.pdpt then Some(t.pdpt)
    else if pa == t.at.pd then Some(t.pd)
    else if pa == t.at.pt then Some(t.pt)
    else if pa == t.at.pt2 then Some(t.pt2)
    else if pa == t.at.ptIpc then Some(t.ptIpc)
    else None
  }

  /** `(pml4 & !0xFFF) | (3 << 3) | 6`. */
  function Eptp(pml4: u64): nat { pml4 - pml4 % PAGE + 0x1E }

  /** An entry is present when any of its bits 2:0 is set. */
  function Present(entry: u64): bool { entry % 8 != 0 }

  /** The field of an entry that holds the base of a block of `size` bytes. */
  function BlockBase(entry: nat, size: nat): nat
    requires size > 0
  {
    entry % ADDRESS_LIMIT / size * size
  }

  /** The translation of SDM Vol. 3C section 28.3.2: from the EPT pointer, each level
      is found through the address in bits 51:12 of the entry above; a PDPT entry with
      bit 7 maps 1 GiB, a PD entry with bit 7 maps 2 MiB with its frame in bits 51:21. */
  function HardwareWalk(t: Tables, eptp: nat, gpa: u64): Option<nat> {
    match TableAt(t, BlockBase(eptp, PAGE))
    case None => None
    case Some(level4) =>
      var e4 := level4[Pml4Index(gpa)];
      if !Present(e4) then None else
      match TableAt(t, BlockBase(e4, PAGE))
      case None => None
      case Some(level3) =>
        var e3 := level3[PdptIndex(gpa)];
        if !Present(e3) then None
        else if IsLargePage(e3) then Some(BlockBase(e3, GIB) + gpa % GIB)
        else
          match TableAt(t, BlockBase(e3, PAGE))
          case None => None
          case Some(level2) => HardwareLower(t, level2[PdIndex(gpa)], gpa)
  }

  function HardwareLower(t: Tables, e2: u64, gpa: u64): Option<nat> {
    if !Present(e2) then None
    else if IsLargePage(e2) then Some(BlockBase(e2, LARGE_PAGE) + gpa % LARGE_PAGE)
    else
      match TableAt(t, BlockBase(e2, PAGE))
      case None => None
      case Some(level1) =>
        var e1 := level1[PtIndex(gpa)];
        if !Present(e1) then None else Some(BlockBase(e1, PAGE) + gpa % PAGE)
  }

  lemma EntryBlocks(x: nat, flags: nat)
    requires x % PAGE == 0 && x < ADDRESS_LIMIT && flags < 0x80 && flags % 8 != 0
    ensures Present(x + flags) && BlockBase(x + flags, PAGE) == x
  {
    var q := x / PAGE;
    assert x == 0x1000 * q && q < 0x100_0000_0000;
    Bits.DivModUnique(x + flags, PAGE, q, flags);
    Bits.DivModUnique(x + flags, 8, 0x200 * q + flags / 8, flags % 8);
  }

  lemma LargeEntryBlocks(x: nat)
    requires x % LARGE_PAGE == 0 && x < ADDRESS_LIMIT
    ensures Present(x + 0x83) && BlockBase(x + 0x83, LARGE_PAGE) == x
  {
    var q := x / LARGE_PAGE;
    assert x == 0x20_0000 * q && q < 0x8000_0000;
    Bits.DivModUnique(x + 0x83, LARGE_PAGE, q, 0x83);
    Bits.DivModUnique(x + 0x83, 8, 0x4_0000 * q + 0x10, 3);
  }

  lemma ZeroEntry()
    ensures !Present(0) && !Readable(0)
  {
  }

  lemma TablesFound(t: Tables)
    requires AddressesOk(t.at)
    ensures TableAt(t, t.at.pml4) == Some(t.pml4) && TableAt(t, t.at.pdpt) == Some(t.pdpt)
    ensures TableAt(t, t.at.pd) == Some(t.pd) && TableAt(t, t.at.pt) == Some(t.pt)
    ensures TableAt(t, t.at.pt2) == Some(t.pt2) && TableAt(t, t.at.ptIpc) == Some(t.ptIpc)
  {
  }

  /** The last level: both walks read the same leaf. */
  lemma HardwareLeaf(t: Tables, table: u64, pt: Table, base: nat, shift: nat, pages: nat, gpa: u64)
    requires TableAddress(table) && TableAt(t, table) == Some(pt)
    requires base % PAGE == 0 && base + pages * PAGE <= ADDRESS_LIMIT
    requires forall k :: 0 <= k < ENTRIES ==> pt[k] == LeafEntry(base, k + shift, pages)
    ensures HardwareLower(t, table + 7, gpa) == WalkLeaf(pt, gpa)
  {
    hide TableAt, Frame, Readable, IsLargePage, Present, BlockBase, PtIndex, PageOffset;
    EntryBlocks(table, 7);
    EntryFields(table, 7);
    ZeroEntry();
    var k := PtIndex(gpa);
    if k + shift < pages {
      var frame := base + (k + shift) * PAGE;
      PagePosition(k + shift, 0, pages);
      assert frame + PAGE <= base + pages * PAGE;
      EntryFields(frame, 0x37);
      EntryBlocks(frame, 0x37);
    }
  }

  lemma HardwareLinks(t: Tables, p: Plan, gpa: u64)
    requires Describes(t, p)
    ensures p.ipc.Some? ==> HardwareLower(t, t.at.ptIpc + 7, gpa) == WalkLeaf(t.ptIpc, gpa)
    ensures HardwareLower(t, t.at.pt + 7, gpa) == WalkLeaf(t.pt, gpa)
    ensures HardwareLower(t, t.at.pt2 + 7, gpa) == WalkLeaf(t.pt2, gpa)
  {
    hide HardwareLower, WalkLeaf, TableAt, LeafEntry, PdEntry;
    TablesFound(t);
    HardwareLeaf(t, t.at.pt, t.pt, p.ramBase, 0, p.ramPages, gpa);
    HardwareLeaf(t, t.at.pt2, t.pt2, p.ramBase, 512, p.ramPages, gpa);
    if p.ipc.Some? {
      HardwareLeaf(t, t.at.ptIpc, t.ptIpc, p.ipc.value.base, 0, p.ipc.value.pages, gpa);
    }
  }

  lemma HardwareLarge(t: Tables, frame: nat, gpa: u64)
    requires frame % LARGE_PAGE == 0 && frame < ADDRESS_LIMIT
    ensures HardwareLower(t, frame + 0x83, gpa) == WalkPd(t, frame + 0x83, gpa)
  {
    hide LargeFrame, Readable, IsLargePage, Present, BlockBase;
    LargeEntryFields(frame);
    LargeEntryBlocks(frame);
  }

  lemma DescribedOk(t: Tables, p: Plan)
    requires Describes(t, p)
    ensures AddressesOk(t.at) && PlanOk(p)
  {
  }

  lemma HardwareLowerAgrees(t: Tables, p: Plan, gpa: u64)
    requires Describes(t, p)
    ensures HardwareLower(t, PdEntry(t.at, p, PdIndex(gpa)), gpa) == WalkPd(t, PdEntry(t.at, p, PdIndex(gpa)), gpa)
  {
    hide Describes, AddressesOk, PdIndex;
    DescribedOk(t, p);
    LinkSelects(t, gpa);
    HardwareLinks(t, p, gpa);
    ZeroEntry();
    if PdIndex(gpa) in p.large {
      HardwareLarge(t, p.large[PdIndex(gpa)], gpa);
    }
    hide WalkLeaf, Present, Readable, IsLargePage, BlockBase, Frame, LargeFrame, TableAt;
  }

  lemma DescribedEntries(t: Tables, p: Plan, gpa: u64)
    requires Describes(t, p)
    ensures t.pml4[Pml4Index(gpa)] == if Pml4Index(gpa) == 0 then t.at.pdpt + 7 else 0
    ensures t.pdpt[PdptIndex(gpa)] == if PdptIndex(gpa) in p.slots then t.at.pd + 7 else 0
    ensures t.pd[PdIndex(gpa)] == PdEntry(t.at, p, PdIndex(gpa))
  {
    hide Pml4Index, PdptIndex, PdIndex;
  }

  /** The software walk, which takes its upper tables from the manager, agrees with the
      architectural walk from the EPT pointer on every guest address. */
  lemma SoftwareWalkIsHardwareWalk(t: Tables, p: Plan, gpa: u64)
    requires Describes(t, p)
    ensures Walk(t, gpa) == HardwareWalk(t, Eptp(t.at.pml4), gpa)
  {
    hide Describes, TableAt, Frame, LargeFrame, Readable, IsLargePage, Present, BlockBase,
         PdIndex, PdptIndex, Pml4Index, PdEntry, WalkPd, HardwareLower;
    DescribedOk(t, p);
    DescribedEntries(t, p, gpa);
    EntryFields(t.at.pdpt, 7);
    EntryFields(t.at.pd, 7);
    EntryBlocks(t.at.pdpt, 7);
    EntryBlocks(t.at.pd, 7);
    EntryBlocks(t.at.pml4, 0x1E);
    ZeroEntry();
    TablesFound(t);
    HardwareLowerAgrees(t, p, gpa);
  }
}
