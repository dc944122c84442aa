/** Extended page tables (`ept.rs`): six 512-entry tables linked by address, the
    three mapping operations, and the software walk. Intel SDM Vol. 3C section
    28.3.2 gives the format. */
module Ept {
  import opened Words
  import Bits

  const EPT_READ: u64 := 1
  const FLAGS_RWX: u64 := 7
  const FLAGS_RW: u64 := 3
  const MEMORY_TYPE_WB: u64 := 0x30
  const PAGE_SIZE_2MB: u64 := 0x80
  const ENTRIES: nat := 512
  const PAGE: nat := 0x1000
  const LARGE_PAGE: nat := 0x20_0000
  const ADDRESS_LIMIT: nat := 0x10_0000_0000_0000

  // ---- Fields of addresses and entries ----

  function Pml4Index(gpa: u64): (i: nat)
    ensures i == gpa / 0x80_0000_0000 % ENTRIES
  {
    Bits.IndexField(gpa, 39);
    Bits.Powers();
    Bits.And(Bits.Shr(gpa, 39), 0x1FF)
  }

  function PdptIndex(gpa: u64): (i: nat)
    ensures i == gpa / 0x4000_0000 % ENTRIES
  {
    Bits.IndexField(gpa, 30);
    Bits.Powers();
    Bits.And(Bits.Shr(gpa, 30), 0x1FF)
  }

  function PdIndex(gpa: u64): (i: nat)
    ensures i == gpa / LARGE_PAGE % ENTRIES
  {
    Bits.IndexField(gpa, 21);
    Bits.Powers();
    Bits.And(Bits.Shr(gpa, 21), 0x1FF)
  }

  function PtIndex(gpa: u64): (i: nat)
    ensures i == gpa / PAGE % ENTRIES
  {
    Bits.IndexField(gpa, 12);
    Bits.Powers();
    Bits.And(Bits.Shr(gpa, 12), 0x1FF)
  }

  function PageOffset(gpa: u64): (o: nat)
    ensures o == gpa % PAGE
  {
    Bits.AndLowMask(gpa, 12);
    Bits.Powers();
    Bits.And(gpa, 0xFFF)
  }

  function LargePageOffset(gpa: u64): (o: nat)
    ensures o == gpa % LARGE_PAGE
  {
    Bits.AndLowMask(gpa, 21);
    Bits.Powers();
    Bits.And(gpa, 0x1F_FFFF)
  }

  predicate Readable(entry: u64)
    ensures Readable(entry) <==> entry % 2 == 1
  {
    Bits.AndLowMask(entry, 1);
    Bits.Powers();
    Bits.And(entry, EPT_READ) != 0
  }

  predicate IsLargePage(entry: u64)
    ensures IsLargePage(entry) <==> entry / 0x80 % 2 == 1
  {
    Bits.AndBit(entry, 7);
    Bits.Powers();
    Bits.And(entry, PAGE_SIZE_2MB) != 0
  }

  /** Bits 51:12. */
  function Frame(entry: u64): (f: nat)
    ensures f == entry % ADDRESS_LIMIT - entry % PAGE
  {
    Bits.AndField(entry, 12, 52);
    Bits.Powers();
    Bits.And(entry, 0x000F_FFFF_FFFF_F000)
  }

  /** Bits 51:17, as the walk masks a 2 MiB entry. */
  function LargeFrame(entry: u64): (f: nat)
    ensures f == entry % ADDRESS_LIMIT - entry % 0x2_0000
  {
    Bits.AndField(entry, 17, 52);
    Bits.Powers();
    Bits.And(entry, 0x000F_FFFF_FFFE_0000)
  }

  /** `table | RWX`. */
  function Link(table: u64): (entry: u64)
    ensures table % PAGE == 0 ==> entry == table + 7
  {
    OrFlags(table, 7);
    Bits.Or(table, FLAGS_RWX)
  }

  /** `hpa & !0xFFF`. */
  function PageBase(hpa: u64): (f: u64)
    ensures f == hpa - hpa % PAGE && f % PAGE == 0
  {
    Bits.AndField(hpa, 12, 64);
    Bits.Powers();
    Bits.And(hpa, 0xFFFF_FFFF_FFFF_F000)
  }

  /** `hpa & !0x1F_FFFF`. */
  function LargePageBase(hpa: u64): (f: u64)
    ensures f == hpa - hpa % LARGE_PAGE && f % LARGE_PAGE == 0
  {
    Bits.AndField(hpa, 21, 64);
    Bits.Powers();
    Bits.And(hpa, 0xFFFF_FFFF_FFE0_0000)
  }

  /** `(hpa & !0xFFF) | RWX | write-back`. */
  function Leaf(hpa: u64): (entry: u64)
    ensures entry == hpa - hpa % PAGE + 0x37
  {
    hide Bits.Or, Bits.And, PageBase;
    LeafFlags(PageBase(hpa));
    Bits.Or(Bits.Or(PageBase(hpa), FLAGS_RWX), MEMORY_TYPE_WB)
  }

  /** `(hpa & !0x1F_FFFF) | RW | uncacheable | 2 MiB`. */
  function MmioLeaf(hpa: u64): (entry: u64)
    ensures entry == hpa - hpa % LARGE_PAGE + 0x83
  {
    hide Bits.Or, Bits.And, LargePageBase;
    MmioFlags(LargePageBase(hpa));
    Bits.Or(Bits.Or(Bits.Or(LargePageBase(hpa), FLAGS_RW), 0), PAGE_SIZE_2MB)
  }

  lemma LeafFlags(frame: u64)
    requires frame % PAGE == 0
    ensures Bits.Or(frame, FLAGS_RWX) == frame + 7
    ensures Bits.Or(frame + 7, MEMORY_TYPE_WB) == frame + 0x37
  {
    OrFlags(frame, 7);
    OrMiddle(frame);
  }

  lemma MmioFlags(frame: u64)
    requires frame % LARGE_PAGE == 0
    ensures Bits.Or(frame, FLAGS_RW) == frame + 3
    ensures Bits.Or(Bits.Or(frame + 3, 0), PAGE_SIZE_2MB) == frame + 0x83
  {
    OrFlags(frame, 3);
    OrMiddleLarge(frame);
  }

  lemma OrFlags(frame: u64, flags: u64)
    requires flags < PAGE
    ensures Bits.Or(frame, flags) < 0x1_0000_0000_0000_0000
    ensures frame % PAGE == 0 ==> Bits.Or(frame, flags) == frame + flags
  {
    Bits.Powers();
    Bits.OrBound(frame, flags, 64);
    if frame % PAGE == 0 {
      Bits.OrDisjoint(frame, flags, 12);
    }
  }

  lemma OrMiddle(frame: u64)
    requires frame % PAGE == 0
    ensures Bits.Or(frame + 7, 0x30) == frame + 0x37
  {
    Bits.Powers();
    Bits.OrSplit(frame, 7, 0x30, 12);
    Bits.OrDisjoint(0x30, 7, 4);
    Bits.OrCommutes(0x30, 7);
  }

  lemma OrMiddleLarge(frame: u64)
    requires frame % LARGE_PAGE == 0
    ensures Bits.Or(Bits.Or(frame + 3, 0), 0x80) == frame + 0x83
  {
    Bits.Powers();
    Bits.OrSplit(frame, 3, 0x80, 12);
    Bits.OrDisjoint(0x80, 3, 4);
    Bits.OrCommutes(0x80, 3);
  }

  // ---- The tables of one partition ----

  datatype Addresses = Addresses(pml4: u64, pdpt: u64, pd: u64, pt: u64, pt2: u64, ptIpc: u64)

  predicate TableAddress(a: u64) { a % PAGE == 0 && a < ADDRESS_LIMIT }

  /** Six distinct page-aligned addresses. */
  predicate AddressesOk(at: Addresses) {
    && TableAddress(at.pml4) && TableAddress(at.pdpt) && TableAddress(at.pd)
    && TableAddress(at.pt) && TableAddress(at.pt2) && TableAddress(at.ptIpc)
    && at.pdpt !in {at.pml4} && at.pd !in {at.pml4, at.pdpt}
    && at.pt !in {at.pml4, at.pdpt, at.pd} && at.pt2 !in {at.pml4, at.pdpt, at.pd, at.pt}
    && at.ptIpc !in {at.pml4, at.pdpt, at.pd, at.pt, at.pt2}
  }

  type Table = t: seq<u64> | |t| == ENTRIES witness seq(ENTRIES, i => 0)

  datatype Tables = Tables(at: Addresses, pml4: Table, pdpt: Table, pd: Table, pt: Table, pt2: Table, ptIpc: Table)

  function ZeroTable(): (t: Table)
    ensures forall i :: 0 <= i < ENTRIES ==> t[i] == 0
  {
    seq(ENTRIES, i => 0)
  }

  /** `translate_gpa`. It follows the manager's own PDPT and PD, and matches the PD
      entry's address against the three page tables. */
  function Walk(t: Tables, gpa: u64): Option<u64> {
    if !Readable(t.pml4[Pml4Index(gpa)]) then None
    else if !Readable(t.pdpt[PdptIndex(gpa)]) then None
    else WalkPd(t, t.pd[PdIndex(gpa)], gpa)
  }

  function WalkPd(t: Tables, pdEntry: u64, gpa: u64): Option<u64> {
    if !Readable(pdEntry) then None
    else if IsLargePage(pdEntry) then Some(LargeFrame(pdEntry) + LargePageOffset(gpa))
    else
      var table := Frame(pdEntry);
      if table == Frame(t.at.ptIpc) then WalkLeaf(t.ptIpc, gpa)
      else if table == Frame(t.at.pt2) then WalkLeaf(t.pt2, gpa)
      else if table == Frame(t.at.pt) then WalkLeaf(t.pt, gpa)
      else None
  }

  function WalkLeaf(pt: Table, gpa: u64): Option<u64> {
    var entry := pt[PtIndex(gpa)];
    if Readable(entry) then Some(Frame(entry) + PageOffset(gpa)) else None
  }

  // ---- The mapping operations, on values ----

  function Pages(size: nat): nat { (size + 0xFFF) / PAGE }

  /** The links every mapping (re)writes: PML4 to PDPT and PDPT to PD. */
  function LinkUpper(t: Tables, gpa: u64): (r: Tables)
    ensures r.at == t.at
  {
    t.(pml4 := t.pml4[Pml4Index(gpa) := Link(t.at.pdpt)], pdpt := t.pdpt[PdptIndex(gpa) := Link(t.at.pd)])
  }

  function Cleared(at: Addresses): Tables {
    Tables(at, ZeroTable(), ZeroTable(), ZeroTable(), ZeroTable(), ZeroTable(), ZeroTable())
  }

  function LinkChunks(t: Tables, chunks: nat): (r: Tables)
    requires chunks <= 2
    ensures r.at == t.at
  {
    if chunks == 0 then t
    else
      var t' := LinkChunks(t, chunks - 1);
      t'.(pd := t'.pd[chunks - 1 := Link(if chunks == 1 then t.at.pt else t.at.pt2)])
  }

  /** One turn of the page loop of `map_region`. */
  function RamPage(t: Tables, gpaBase: nat, hpaBase: nat, i: nat): Tables
    requires gpaBase + i * PAGE < 0x1_0000_0000_0000_0000
    requires hpaBase + i * PAGE < 0x1_0000_0000_0000_0000
  {
    var gpa := gpaBase + i * PAGE;
    var leaf := Leaf(hpaBase + i * PAGE);
    if PdIndex(gpa) == 0 then t.(pt := t.pt[PtIndex(gpa) := leaf])
    else if PdIndex(gpa) == 1 then t.(pt2 := t.pt2[PtIndex(gpa) := leaf])
    else t
  }

  function RamPages(t: Tables, gpaBase: nat, hpaBase: nat, n: nat): (r: Tables)
    requires gpaBase + n * PAGE < 0x1_0000_0000_0000_0000
    requires hpaBase + n * PAGE < 0x1_0000_0000_0000_0000
    ensures r.at == t.at
  {
    if n == 0 then t else RamPage(RamPages(t, gpaBase, hpaBase, n - 1), gpaBase, hpaBase, n - 1)
  }

  function IpcPages(t: Tables, gpaBase: nat, hpaBase: nat, n: nat): (r: Tables)
    requires gpaBase + n * PAGE < 0x1_0000_0000_0000_0000
    requires hpaBase + n * PAGE < 0x1_0000_0000_0000_0000
    ensures r.at == t.at
  {
    if n == 0 then t
    else
      var t' := IpcPages(t, gpaBase, hpaBase, n - 1);
      t'.(ptIpc := t'.ptIpc[PtIndex(gpaBase + (n - 1) * PAGE) := Leaf(hpaBase + (n - 1) * PAGE)])
  }

  /** The arithmetic of a mapping call stays within 64 bits. */
  predicate NoOverflow(gpa: nat, hpa: nat, size: nat) {
    && size + 0xFFF < 0x1_0000_0000_0000_0000
    && gpa + Pages(size) * PAGE < 0x1_0000_0000_0000_0000
    && hpa + Pages(size) * PAGE < 0x1_0000_0000_0000_0000
  }

  function RegionTables(at: Addresses, gpa: u64, hpa: u64, size: u64): (r: Tables)
    requires NoOverflow(gpa, hpa, size)
    ensures r.at == at
  {
    var chunks := Min((Pages(size) + 511) / 512, 2);
    RamPages(LinkChunks(LinkUpper(Cleared(at), gpa), chunks), gpa, hpa, Pages(size))
  }

  function SharedTables(t: Tables, gpa: u64, hpa: u64, size: u64): (r: Tables)
    requires NoOverflow(gpa, hpa, size)
    ensures r.at == t.at
  {
    var t1 := LinkUpper(t, gpa);
    var t2 := t1.(pd := t1.pd[PdIndex(gpa) := Link(t.at.ptIpc)]);
    IpcPages(t2, gpa, hpa, Min(Pages(size), 512))
  }

  function MmioTables(t: Tables, gpa: u64, hpa: u64): (r: Tables)
    ensures r.at == t.at
  {
    var t1 := LinkUpper(t, gpa);
    t1.(pd := t1.pd[PdIndex(gpa) := MmioLeaf(hpa)])
  }

  // ---- The manager, updating its tables in place ----

  class EptManager {
    const at: Addresses
    const pml4: array<u64>
    const pdpt: array<u64>
    const pd: array<u64>
    const pt: array<u64>
    const pt2: array<u64>
    const ptIpc: array<u64>

    ghost predicate Valid()
    {
      && pml4.Length == pdpt.Length == pd.Length == pt.Length == pt2.Length == ptIpc.Length == ENTRIES
      && pdpt !in {pml4} && pd !in {pml4, pdpt} && pt !in {pml4, pdpt, pd}
      && pt2 !in {pml4, pdpt, pd, pt} && ptIpc !in {pml4, pdpt, pd, pt, pt2}
    }

    ghost function Repr(): set<object> { {pml4, pdpt, pd, pt, pt2, ptIpc} }

    ghost function View(): Tables
      requires Valid()
      reads Repr()
    {
      Tables(at, pml4[..], pdpt[..], pd[..], pt[..], pt2[..], ptIpc[..])
    }

    constructor (at: Addresses)
      ensures Valid() && fresh(Repr()) && this.at == at && View() == Cleared(at)
    {
      this.at := at;
      pml4, pdpt := new u64[ENTRIES](i => 0), new u64[ENTRIES](i => 0);
      pd, pt := new u64[ENTRIES](i => 0), new u64[ENTRIES](i => 0);
      pt2, ptIpc := new u64[ENTRIES](i => 0), new u64[ENTRIES](i => 0);
      new;
      ghost var z := ZeroTable();
      assert pml4[..] == z && pdpt[..] == z && pd[..] == z && pt[..] == z && pt2[..] == z && ptIpc[..] == z;
    }

    method ClearTables()
      requires Valid()
      modifies Repr()
      ensures View() == Cleared(at)
    {
      forall i | 0 <= i < ENTRIES { pml4[i] := 0; }
      forall i | 0 <= i < ENTRIES { pdpt[i] := 0; }
      forall i | 0 <= i < ENTRIES { pd[i] := 0; }
      forall i | 0 <= i < ENTRIES { pt[i] := 0; }
      forall i | 0 <= i < ENTRIES { pt2[i] := 0; }
      forall i | 0 <= i < ENTRIES { ptIpc[i] := 0; }
      ghost var z := ZeroTable();
      assert pml4[..] == z && pdpt[..] == z && pd[..] == z && pt[..] == z && pt2[..] == z && ptIpc[..] == z;
    }

    method LinkUpperTables(gpa: u64)
      requires Valid()
      modifies Repr()
      ensures View() == LinkUpper(old(View()), gpa)
    {
      pml4[Pml4Index(gpa)] := Link(at.pdpt);
      pdpt[PdptIndex(gpa)] := Link(at.pd);
    }

    method MapRegion(gpa: u64, hpa: u64, size: u64)
      requires Valid() && NoOverflow(gpa, hpa, size)
      modifies Repr()
      ensures View() == RegionTables(at, gpa, hpa, size)
    {
      ClearTables();
      LinkUpperTables(gpa);
      LinkPageTables(Min((Pages(size) + 511) / 512, 2));
      FillPageTables(gpa, hpa, Pages(size));
    }

    method LinkPageTables(chunks: nat)
      requires Valid() && chunks <= 2
      modifies pd
      ensures View() == LinkChunks(old(View()), chunks)
    {
      hide Link;
      ghost var v := View();
      for i := 0 to chunks
        invariant View() == LinkChunks(v, i)
      {
        pd[i] := Link(if i == 0 then at.pt else at.pt2);
        assert View() == LinkChunks(v, i + 1);
      }
    }

    method FillPageTables(gpa: u64, hpa: u64, pages: nat)
      requires Valid()
      requires gpa + pages * PAGE < 0x1_0000_0000_0000_0000
      requires hpa + pages * PAGE < 0x1_0000_0000_0000_0000
      modifies pt, pt2
      ensures View() == RamPages(old(View()), gpa, hpa, pages)
    {
      hide Leaf, PdIndex, PtIndex;
      ghost var v := View();
      for i := 0 to pages
        invariant View() == RamPages(v, gpa, hpa, i)
      {
        var pageGpa := gpa + i * PAGE;
        var leaf := Leaf(hpa + i * PAGE);
        if PdIndex(pageGpa) == 0 {
          pt[PtIndex(pageGpa)] := leaf;
        } else if PdIndex(pageGpa) == 1 {
          pt2[PtIndex(pageGpa)] := leaf;
        }
        assert View() == RamPage(RamPages(v, gpa, hpa, i), gpa, hpa, i);
      }
    }

    method MapSharedRegion(gpa: u64, hpa: u64, size: u64)
      requires Valid() && NoOverflow(gpa, hpa, size)
      modifies Repr()
      ensures View() == SharedTables(old(View()), gpa, hpa, size)
    {
      hide Leaf, Link, PdIndex, PtIndex, Pml4Index, PdptIndex;
      LinkUpperTables(gpa);
      pd[PdIndex(gpa)] := Link(at.ptIpc);
      var pages := Min(Pages(size), 512);
      ghost var v := View();
      for i := 0 to pages
        invariant View() == IpcPages(v, gpa, hpa, i)
      {
        ptIpc[PtIndex(gpa + i * PAGE)] := Leaf(hpa + i * PAGE);
        assert View() == IpcPages(v, gpa, hpa, i + 1);
      }
    }

    method MapMmioPassthrough(gpa: u64, hpa: u64)
      requires Valid()
      modifies Repr()
      ensures View() == MmioTables(old(View()), gpa, hpa)
    {
      LinkUpperTables(gpa);
      pd[PdIndex(gpa)] := MmioLeaf(hpa);
    }

    method TranslateGpa(gpa: u64) returns (hpa: Option<u64>)
      requires Valid()
      ensures hpa == Walk(View(), gpa)
    {
      if !Readable(pml4[Pml4Index(gpa)]) || !Readable(pdpt[PdptIndex(gpa)]) {
        return None;
      }
      var pdEntry := pd[PdIndex(gpa)];
      if !Readable(pdEntry) {
        return None;
      }
      if IsLargePage(pdEntry) {
        return Some(LargeFrame(pdEntry) + LargePageOffset(gpa));
      }
      var table := Frame(pdEntry);
      var entry: u64;
      if table == Frame(at.ptIpc) {
        entry := ptIpc[PtIndex(gpa)];
      } else if table == Frame(at.pt2) {
        entry := pt2[PtIndex(gpa)];
      } else if table == Frame(at.pt) {
        entry := pt[PtIndex(gpa)];
      } else {
        return None;
      }
      return if Readable(entry) then Some(Frame(entry) + PageOffset(gpa)) else None;
    }
  }
}
