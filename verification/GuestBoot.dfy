/** The guest's own page tables (`guest_boot.rs`), written as little-endian bytes into
    its RAM, and the two-dimensional translation through them and the EPT. Intel SDM
    Vol. 3A section 4.5 gives the format of 4-level paging. */
module GuestBoot {
  import opened Words
  import opened IpcLayout
  import opened Ept
  import opened EptMap
  import opened Vm
  import GuestOps
  import Bits

  const GUEST_CR3_GPA: nat := 0x8000
  const GUEST_ENTRY_GPA: nat := 0x1000
  const GDT_GPA: nat := 0x7000
  const PDPT_GPA: nat := 0x9000
  const PD_LOW_GPA: nat := 0xA000
  const PD_IPC_GPA: nat := 0xB000
  const TABLES_END: nat := 0xC000
  const PTE_PRESENT: nat := 1
  const PTE_WRITE: nat := 2
  const PTE_PS: nat := 0x80

  /** `table | PRESENT | WRITE`. */
  function TableEntry(table: u64): (e: u64)
    requires table % PAGE == 0
    ensures e == table + 3
  {
    hide Bits.Or;
    OrFlags(table, 1);
    JoinWrite(table);
    Bits.Or(Bits.Or(table, PTE_PRESENT), PTE_WRITE)
  }

  lemma JoinWrite(table: u64)
    requires table % PAGE == 0
    ensures Bits.Or(table + 1, 2) == table + 3
  {
    Bits.Powers();
    Bits.OrSplit(table, 1, 2, 12);
    Bits.OrDisjoint(2, 1, 1);
    Bits.OrCommutes(2, 1);
  }

  /** `page | PRESENT | WRITE | PS`. */
  function LargeEntry(page: u64): (e: u64)
    requires page % LARGE_PAGE == 0
    ensures e == page + 0x83
  {
    hide Bits.Or, TableEntry;
    JoinPs(page);
    Bits.Or(TableEntry(page), PTE_PS)
  }

  lemma JoinPs(page: u64)
    requires page % LARGE_PAGE == 0
    ensures page % PAGE == 0 && Bits.Or(page + 3, 0x80) == page + 0x83
  {
    Bits.Powers();
    Bits.OrSplit(page, 3, 0x80, 12);
    Bits.OrDisjoint(0x80, 3, 4);
    Bits.OrCommutes(0x80, 3);
  }

  // ---- Installing the tables ----

  method WriteU64(mem: array<u8>, at: nat, v: u64)
    requires at + 8 <= mem.Length
    modifies mem
    ensures mem[..] == Write64(old(mem[..]), at, v)
  {
    GuestOps.StoreBytes(mem, at, ToLe64(v));
  }

  /** The five entries that the two mapped regions go through. */
  predicate BootTables(m: Bytes) {
    && |m| >= TABLES_END
    && Read64(m, GUEST_CR3_GPA) == 0x9003
    && Read64(m, PDPT_GPA) == 0xA003
    && Read64(m, PDPT_GPA + 24) == 0xB003
    && Read64(m, PD_LOW_GPA) == 0x83
    && Read64(m, PD_IPC_GPA + 3968) == 0xFE00_0083
  }

  /** Null, 64-bit code, data and TSS descriptors. */
  predicate BootGdt(m: Bytes) {
    && |m| >= TABLES_END
    && Read64(m, GDT_GPA) == 0
    && Read64(m, GDT_GPA + 8) == 0x00AF_9B00_0000_FFFF
    && Read64(m, GDT_GPA + 16) == 0x00CF_9300_0000_FFFF
    && Read64(m, GDT_GPA + 24) == 0x0000_8900_0000_0067
    && Read64(m, GDT_GPA + 32) == 0
  }

  /** The bytes of the five table entries and the five descriptors. */
  predicate BootByte(k: nat) {
    || 0x7000 <= k < 0x7028 || 0x8000 <= k < 0x8008 || 0x9000 <= k < 0x9008
    || 0x9018 <= k < 0x9020 || 0xA000 <= k < 0xA008 || 0xBF80 <= k < 0xBF88
  }

  /** No other byte differs. */
  ghost predicate OthersKept(m: Bytes, m': Bytes) {
    |m'| == |m| && forall k | 0 <= k < |m| && !BootByte(k) :: m'[k] == m[k]
  }

  lemma KeptByWrite(m0: Bytes, m: Bytes, at: nat, v: u64)
    requires OthersKept(m0, m) && at + 8 <= |m| && forall k | at <= k < at + 8 :: BootByte(k)
    ensures OthersKept(m0, Write64(m, at, v))
  {
    hide ToLe64;
  }

  lemma WriteKeeps(m: Bytes, at: nat, v: u64, other: nat)
    requires at + 8 <= |m| && other + 8 <= |m|
    ensures Read64(Write64(m, at, v), at) == v
    ensures other + 8 <= at || at + 8 <= other ==> Read64(Write64(m, at, v), other) == Read64(m, other)
  {
    ReadBack(m, at, v);
    if other + 8 <= at || at + 8 <= other {
      WriteElsewhere(m, at, ToLe64(v), other, other + 8);
    }
  }

  method InstallIdentityMap(mem: array<u8>)
    requires mem.Length >= TABLES_END
    modifies mem
    ensures BootTables(mem[..]) && BootGdt(mem[..]) && OthersKept(old(mem[..]), mem[..])
  {
    hide BootTables, BootGdt, BootByte, Read64;
    InstallPageTables(mem);
    ghost var m0 := mem[..];
    InstallGdt(mem);
    assert m0[GUEST_CR3_GPA..] == mem[..][GUEST_CR3_GPA..];
    TablesAboveGdt(m0, mem[..]);
  }

  lemma TablesAboveGdt(m: Bytes, m': Bytes)
    requires BootTables(m) && |m'| == |m| && m'[GUEST_CR3_GPA..] == m[GUEST_CR3_GPA..]
    ensures BootTables(m')
  {
    TableBytesEqual(m, m', GUEST_CR3_GPA);
    TableBytesEqual(m, m', PDPT_GPA);
    TableBytesEqual(m, m', PDPT_GPA + 24);
    TableBytesEqual(m, m', PD_LOW_GPA);
    TableBytesEqual(m, m', PD_IPC_GPA + 3968);
  }

  lemma TableBytesEqual(m: Bytes, m': Bytes, at: nat)
    requires GUEST_CR3_GPA <= at && at + 8 <= |m| == |m'| && m'[GUEST_CR3_GPA..] == m[GUEST_CR3_GPA..]
    ensures Read64(m', at) == Read64(m, at)
  {
    GuestOps.Subslice2(m, m', GUEST_CR3_GPA, at, at + 8);
  }

  method InstallPageTables(mem: array<u8>)
    requires mem.Length >= TABLES_END
    modifies mem
    ensures BootTables(mem[..]) && OthersKept(old(mem[..]), mem[..])
  {
    hide Read64, Write64, BootTables, OthersKept, PdptIndex, PdIndex, LargePageBase, TableEntry, LargeEntry;
    ghost var m0 := mem[..];
    var pdptIndex := PdptIndex(SHARED_IPC_GPA);
    var pdIndex := PdIndex(SHARED_IPC_GPA);
    IpcIndices();
    WriteU64(mem, GUEST_CR3_GPA, TableEntry(PDPT_GPA));
    ghost var m1 := mem[..];
    WriteU64(mem, PDPT_GPA, TableEntry(PD_LOW_GPA));
    ghost var m2 := mem[..];
    WriteU64(mem, PD_LOW_GPA, LargeEntry(0));
    ghost var m3 := mem[..];
    WriteU64(mem, PDPT_GPA + pdptIndex * 8, TableEntry(PD_IPC_GPA));
    ghost var m4 := mem[..];
    WriteU64(mem, PD_IPC_GPA + pdIndex * 8, LargeEntry(LargePageBase(SHARED_IPC_GPA)));
    Installed(m0, m1, m2, m3, m4, mem[..]);
  }

  lemma Installed(m0: Bytes, m1: Bytes, m2: Bytes, m3: Bytes, m4: Bytes, m5: Bytes)
    requires |m0| >= TABLES_END
    requires m1 == Write64(m0, GUEST_CR3_GPA, 0x9003) && m2 == Write64(m1, PDPT_GPA, 0xA003)
    requires m3 == Write64(m2, PD_LOW_GPA, 0x83) && m4 == Write64(m3, PDPT_GPA + 24, 0xB003)
    requires m5 == Write64(m4, PD_IPC_GPA + 3968, 0xFE00_0083)
    ensures BootTables(m5) && OthersKept(m0, m5)
  {
    hide Read64, Write64, OthersKept;
    assert OthersKept(m0, m0) by { KeptAtFirst(m0); }
    KeptByWrite(m0, m0, GUEST_CR3_GPA, 0x9003);
    KeptByWrite(m0, m1, PDPT_GPA, 0xA003);
    KeptByWrite(m0, m2, PD_LOW_GPA, 0x83);
    KeptByWrite(m0, m3, PDPT_GPA + 24, 0xB003);
    KeptByWrite(m0, m4, PD_IPC_GPA + 3968, 0xFE00_0083);
    WriteKeeps(m0, GUEST_CR3_GPA, 0x9003, GUEST_CR3_GPA);
    WriteKeeps(m1, PDPT_GPA, 0xA003, GUEST_CR3_GPA);
    WriteKeeps(m2, PD_LOW_GPA, 0x83, GUEST_CR3_GPA);
    WriteKeeps(m2, PD_LOW_GPA, 0x83, PDPT_GPA);
    WriteKeeps(m3, PDPT_GPA + 24, 0xB003, GUEST_CR3_GPA);
    WriteKeeps(m3, PDPT_GPA + 24, 0xB003, PDPT_GPA);
    WriteKeeps(m3, PDPT_GPA + 24, 0xB003, PD_LOW_GPA);
    WriteKeeps(m4, PD_IPC_GPA + 3968, 0xFE00_0083, GUEST_CR3_GPA);
    WriteKeeps(m4, PD_IPC_GPA + 3968, 0xFE00_0083, PDPT_GPA);
    WriteKeeps(m4, PD_IPC_GPA + 3968, 0xFE00_0083, PD_LOW_GPA);
    WriteKeeps(m4, PD_IPC_GPA + 3968, 0xFE00_0083, PDPT_GPA + 24);
  }

  lemma KeptAtFirst(m: Bytes)
    ensures OthersKept(m, m)
  {
  }

  /** Five descriptors, first zeroed and then filled. */
  method InstallGdt(mem: array<u8>)
    requires mem.Length >= TABLES_END
    modifies mem
    ensures BootGdt(mem[..]) && OthersKept(old(mem[..]), mem[..])
    ensures mem[GUEST_CR3_GPA..] == old(mem[GUEST_CR3_GPA..])
  {
    hide Read64, Write64, OthersKept, BootGdt;
    ghost var start := mem[..];
    KeptAtFirst(start);
    for i := 0 to 5
      invariant OthersKept(start, mem[..]) && mem[GUEST_CR3_GPA..] == old(mem[GUEST_CR3_GPA..])
      invariant forall j :: 0 <= j < i ==> Read64(mem[..], GDT_GPA + j * 8) == 0
    {
      ghost var before := mem[..];
      WriteU64(mem, GDT_GPA + i * 8, 0);
      GdtWrite(before, mem[..], i, 0);
      KeptByWrite(start, before, GDT_GPA + i * 8, 0);
      assert mem[GUEST_CR3_GPA..] == mem[..][GUEST_CR3_GPA..];
    }
    ghost var m0 := mem[..];
    WriteU64(mem, GDT_GPA + 8, 0x00AF_9B00_0000_FFFF);
    ghost var m1 := mem[..];
    GdtWrite(m0, m1, 1, 0x00AF_9B00_0000_FFFF);
    WriteU64(mem, GDT_GPA + 16, 0x00CF_9300_0000_FFFF);
    ghost var m2 := mem[..];
    GdtWrite(m1, m2, 2, 0x00CF_9300_0000_FFFF);
    WriteU64(mem, GDT_GPA + 24, 0x0000_8900_0000_0067);
    ghost var m3 := mem[..];
    GdtWrite(m2, m3, 3, 0x0000_8900_0000_0067);
    WriteU64(mem, GDT_GPA + 32, 0);
    ghost var m4 := mem[..];
    GdtWrite(m3, m4, 4, 0);
    GdtDone(m0, m1, m2, m3, m4);
    KeptByWrite(start, m0, GDT_GPA + 8, 0x00AF_9B00_0000_FFFF);
    KeptByWrite(start, m1, GDT_GPA + 16, 0x00CF_9300_0000_FFFF);
    KeptByWrite(start, m2, GDT_GPA + 24, 0x0000_8900_0000_0067);
    KeptByWrite(start, m3, GDT_GPA + 32, 0);
    assert m4[GUEST_CR3_GPA..] == mem[GUEST_CR3_GPA..] && m0[GUEST_CR3_GPA..] == old(mem[GUEST_CR3_GPA..]);
  }

  lemma GdtDone(m0: Bytes, m1: Bytes, m2: Bytes, m3: Bytes, m4: Bytes)
    requires |m0| == |m1| == |m2| == |m3| == |m4| >= TABLES_END
    requires forall j :: 0 <= j < 5 ==> Read64(m0, GDT_GPA + j * 8) == 0
    requires m1 == Write64(m0, GDT_GPA + 8, 0x00AF_9B00_0000_FFFF)
    requires m2 == Write64(m1, GDT_GPA + 16, 0x00CF_9300_0000_FFFF)
    requires m3 == Write64(m2, GDT_GPA + 24, 0x0000_8900_0000_0067)
    requires m4 == Write64(m3, GDT_GPA + 32, 0)
    ensures BootGdt(m4)
  {
    hide Read64, Write64;
    var w1, w2, w3: u64 := 0x00AF_9B00_0000_FFFF, 0x00CF_9300_0000_FFFF, 0x0000_8900_0000_0067;
    assert Read64(m0, GDT_GPA + 0 * 8) == 0;
    WriteKeeps(m0, GDT_GPA + 8, w1, GDT_GPA);
    WriteKeeps(m1, GDT_GPA + 16, w2, GDT_GPA);
    WriteKeeps(m1, GDT_GPA + 16, w2, GDT_GPA + 8);
    WriteKeeps(m2, GDT_GPA + 24, w3, GDT_GPA);
    WriteKeeps(m2, GDT_GPA + 24, w3, GDT_GPA + 8);
    WriteKeeps(m2, GDT_GPA + 24, w3, GDT_GPA + 16);
    WriteKeeps(m3, GDT_GPA + 32, 0, GDT_GPA);
    WriteKeeps(m3, GDT_GPA + 32, 0, GDT_GPA + 8);
    WriteKeeps(m3, GDT_GPA + 32, 0, GDT_GPA + 16);
    WriteKeeps(m3, GDT_GPA + 32, 0, GDT_GPA + 24);
  }

  lemma GdtWrite(m: Bytes, m': Bytes, i: nat, v: u64)
    requires |m| >= TABLES_END && i < 5 && m' == Write64(m, GDT_GPA + i * 8, v)
    ensures forall j :: 0 <= j < 5 ==> Read64(m', GDT_GPA + j * 8) == if j == i then v else Read64(m, GDT_GPA + j * 8)
    ensures m'[GUEST_CR3_GPA..] == m[GUEST_CR3_GPA..]
  {
    hide Read64;
    forall j | 0 <= j < 5
      ensures Read64(m', GDT_GPA + j * 8) == if j == i then v else Read64(m, GDT_GPA + j * 8)
    {
      WriteKeeps(m, GDT_GPA + i * 8, v, GDT_GPA + j * 8);
    }
    WriteElsewhere(m, GDT_GPA + i * 8, ToLe64(v), GUEST_CR3_GPA, |m|);
    assert m'[GUEST_CR3_GPA..] == m'[GUEST_CR3_GPA..|m|] && m[GUEST_CR3_GPA..] == m[GUEST_CR3_GPA..|m|];
  }

  /** `load_code`: copy an image into guest RAM. */
  method LoadCode(ram: array<u8>, code: Bytes, gpaOffset: nat)
    requires gpaOffset + |code| <= ram.Length
    modifies ram
    ensures ram[..] == WriteBytes(old(ram[..]), gpaOffset, code)
  {
    GuestOps.StoreBytes(ram, gpaOffset, code);
  }

  /** An image of at most 0x7000 bytes at the entry point leaves the page tables as
      they are; one of at most 0x6000 also leaves the descriptors. */
  lemma LoadKeepsTables(m: Bytes, code: Bytes)
    requires BootTables(m) && |code| <= 0x7000
    ensures BootTables(WriteBytes(m, 0x1000, code))
    ensures BootGdt(m) && |code| <= 0x6000 ==> BootGdt(WriteBytes(m, 0x1000, code))
  {
    WriteElsewhere(m, GUEST_ENTRY_GPA, code, GUEST_CR3_GPA, GUEST_CR3_GPA + 8);
    WriteElsewhere(m, GUEST_ENTRY_GPA, code, PDPT_GPA, PDPT_GPA + 8);
    WriteElsewhere(m, GUEST_ENTRY_GPA, code, PDPT_GPA + 24, PDPT_GPA + 32);
    WriteElsewhere(m, GUEST_ENTRY_GPA, code, PD_LOW_GPA, PD_LOW_GPA + 8);
    WriteElsewhere(m, GUEST_ENTRY_GPA, code, PD_IPC_GPA + 3968, PD_IPC_GPA + 3976);
    if |code| <= GDT_GPA - GUEST_ENTRY_GPA {
      WriteElsewhere(m, GUEST_ENTRY_GPA, code, GDT_GPA, GDT_GPA + 8);
      WriteElsewhere(m, GUEST_ENTRY_GPA, code, GDT_GPA + 8, GDT_GPA + 16);
      WriteElsewhere(m, GUEST_ENTRY_GPA, code, GDT_GPA + 16, GDT_GPA + 24);
      WriteElsewhere(m, GUEST_ENTRY_GPA, code, GDT_GPA + 24, GDT_GPA + 32);
      WriteElsewhere(m, GUEST_ENTRY_GPA, code, GDT_GPA + 32, GDT_GPA + 40);
    }
  }

  // ---- Two-dimensional translation ----

  /** The bytes of host memory. */
  type Host = nat -> u8

  /** The RAM buffer `m` sits at host address `base`. */
  ghost predicate HostHolds(host: Host, base: nat, m: Bytes) {
    forall k :: 0 <= k < |m| ==> host(base + k) == m[k]
  }

  /** Bytes of guest-physical memory, each found through the EPT. */
  function GuestBytes(t: Tables, host: Host, gpa: nat, n: nat): (s: Option<Bytes>)
    requires gpa + n <= 0x1_0000_0000_0000_0000
    ensures s.Some? ==> |s.value| == n
    decreases n
  {
    if n == 0 then Some([])
    else
      match Walk(t, gpa)
      case None => None
      case Some(h) =>
        match GuestBytes(t, host, gpa + 1, n - 1)
        case None => None
        case Some(rest) => Some([host(h)] + rest)
  }

  function GuestRead64(t: Tables, host: Host, gpa: nat): Option<u64>
    requires gpa + 8 <= 0x1_0000_0000_0000_0000
  {
    match GuestBytes(t, host, gpa, 8)
    case None => None
    case Some(s) => Some(FromLe64(s))
  }

  /** The paging-structure walk of SDM Vol. 3A section 4.5: present bit 0, page-size
      bit 7 in the PDPT (1 GiB) and the PD (2 MiB). */
  function GuestWalk(t: Tables, host: Host, cr3: u64, la: u64): Option<nat> {
    match GuestRead64(t, host, BlockBase(cr3, PAGE) + 8 * Pml4Index(la))
    case None => None
    case Some(e4) =>
      if e4 % 2 == 0 then None else
      match GuestRead64(t, host, BlockBase(e4, PAGE) + 8 * PdptIndex(la))
      case None => None
      case Some(e3) =>
        if e3 % 2 == 0 then None
        else if IsLargePage(e3) then Some(BlockBase(e3, GIB) + la % GIB)
        else GuestWalkPd(t, host, e3, la)
  }

  function GuestWalkPd(t: Tables, host: Host, e3: u64, la: u64): Option<nat> {
    match GuestRead64(t, host, BlockBase(e3, PAGE) + 8 * PdIndex(la))
    case None => None
    case Some(e2) =>
      if e2 % 2 == 0 then None
      else if IsLargePage(e2) then Some(BlockBase(e2, LARGE_PAGE) + la % LARGE_PAGE)
      else
        match GuestRead64(t, host, BlockBase(e2, PAGE) + 8 * PtIndex(la))
        case None => None
        case Some(e1) => if e1 % 2 == 0 then None else Some(BlockBase(e1, PAGE) + la % PAGE)
  }

  /** A guest linear address to a host address: the guest's tables, then the EPT. */
  function LinearToHost(t: Tables, host: Host, cr3: u64, la: u64): Option<nat> {
    match GuestWalk(t, host, cr3, la)
    case None => None
    case Some(gpa) => if gpa < 0x1_0000_0000_0000_0000 then Walk(t, gpa) else None
  }

  /** The EPT puts the guest's first bytes at `base`. */
  ghost predicate LowRam(t: Tables, base: nat, n: nat) {
    forall x: u64 :: x < n ==> Walk(t, x) == Some(base + x)
  }

  lemma {:induction false} BytesThroughEpt(t: Tables, host: Host, base: nat, m: Bytes, gpa: nat, n: nat)
    requires LowRam(t, base, TABLES_END) && HostHolds(host, base, m) && |m| >= TABLES_END
    requires gpa + n <= TABLES_END
    ensures GuestBytes(t, host, gpa, n) == Some(m[gpa..gpa + n])
    decreases n
  {
    hide Walk;
    if n > 0 {
      BytesThroughEpt(t, host, base, m, gpa + 1, n - 1);
      var x: u64 := gpa;
      assert Walk(t, x) == Some(base + x) && host(base + gpa) == m[gpa];
      assert m[gpa..gpa + n] == [m[gpa]] + m[gpa + 1..gpa + n];
    } else {
      assert m[gpa..gpa + n] == [];
    }
  }

  lemma ReadThroughEpt(t: Tables, host: Host, base: nat, m: Bytes, gpa: nat)
    requires LowRam(t, base, TABLES_END) && HostHolds(host, base, m) && |m| >= TABLES_END
    requires gpa + 8 <= TABLES_END
    ensures GuestRead64(t, host, gpa) == Some(Read64(m, gpa))
  {
    hide FromLe64, GuestBytes;
    BytesThroughEpt(t, host, base, m, gpa, 8);
  }

  lemma BootEntries()
    ensures BlockBase(0x8000, PAGE) == 0x8000 && BlockBase(0x9003, PAGE) == PDPT_GPA
    ensures BlockBase(0xA003, PAGE) == PD_LOW_GPA && BlockBase(0xB003, PAGE) == PD_IPC_GPA
    ensures BlockBase(0x83, LARGE_PAGE) == 0 && BlockBase(0xFE00_0083, LARGE_PAGE) == SHARED_IPC_GPA
    ensures !IsLargePage(0xA003) && !IsLargePage(0xB003) && IsLargePage(0x83) && IsLargePage(0xFE00_0083)
  {
    hide IsLargePage;
  }

  /** With the boot tables in RAM, the guest's own walk maps the first 2 MiB and the
      shared window onto the same guest-physical addresses. */
  lemma GuestWalkIsIdentity(t: Tables, host: Host, base: nat, m: Bytes, la: u64)
    requires LowRam(t, base, TABLES_END) && HostHolds(host, base, m) && BootTables(m)
    requires la < LARGE_PAGE || SHARED_IPC_GPA <= la < SHARED_IPC_GPA + LARGE_PAGE
    ensures GuestWalk(t, host, GUEST_CR3_GPA, la) == Some(la)
  {
    hide GuestRead64, BlockBase, IsLargePage, Pml4Index, PdptIndex, PdIndex, PtIndex, LowRam, HostHolds, Read64;
    BootEntries();
    ReadThroughEpt(t, host, base, m, GUEST_CR3_GPA);
    if la < LARGE_PAGE {
      LowIndices(la);
      ReadThroughEpt(t, host, base, m, PDPT_GPA);
      ReadThroughEpt(t, host, base, m, PD_LOW_GPA);
    } else {
      IpcAddress(la - SHARED_IPC_GPA);
      Decompose(la);
      ReadThroughEpt(t, host, base, m, PDPT_GPA + 24);
      ReadThroughEpt(t, host, base, m, PD_IPC_GPA + 3968);
    }
  }

  /** The table entries besides the five are zero, as they are in memory that was. */
  ghost predicate OtherEntriesZero(m: Bytes) {
    && |m| >= TABLES_END
    && (forall i | 0 < i < 512 :: Read64(m, 0x8000 + 8 * i) == 0)
    && (forall i | 0 < i < 512 && i != 3 :: Read64(m, 0x9000 + 8 * i) == 0)
    && (forall i | 0 < i < 512 :: Read64(m, 0xA000 + 8 * i) == 0)
    && (forall i | 0 <= i < 512 && i != 496 :: Read64(m, 0xB000 + 8 * i) == 0)
  }

  /** Installing the tables in zeroed memory leaves no other entry. */
  lemma OtherEntriesStayZero(m: Bytes, m': Bytes)
    requires |m| >= TABLES_END && GuestOps.Zeroed(m, 0x8000, 0xC000) && OthersKept(m, m')
    ensures OtherEntriesZero(m')
  {
    hide Read64;
    forall i | 0 <= i < 512
      ensures i != 0 ==> Read64(m', 0x8000 + 8 * i) == 0 && Read64(m', 0xA000 + 8 * i) == 0
      ensures i != 0 && i != 3 ==> Read64(m', 0x9000 + 8 * i) == 0
      ensures i != 496 ==> Read64(m', 0xB000 + 8 * i) == 0
    {
      if i != 0 {
        GuestOps.ZeroWord(m', 0x8000 + 8 * i);
        GuestOps.ZeroWord(m', 0xA000 + 8 * i);
      }
      if i != 0 && i != 3 {
        GuestOps.ZeroWord(m', 0x9000 + 8 * i);
      }
      if i != 496 {
        GuestOps.ZeroWord(m', 0xB000 + 8 * i);
      }
    }
  }

  /** In memory whose table pages were zero the guest's walk maps the two ranges and
      nothing else: every other canonical address faults. */
  lemma GuestWalkIsExact(t: Tables, host: Host, base: nat, m: Bytes, la: u64)
    requires LowRam(t, base, TABLES_END) && HostHolds(host, base, m) && BootTables(m) && OtherEntriesZero(m)
    requires la < 0x1_0000_0000_0000
    ensures GuestWalk(t, host, 0x8000, la) ==
            if la < 0x20_0000 || 0xFE00_0000 <= la < 0xFE20_0000 then Some(la) else None
  {
    hide GuestRead64, BlockBase, IsLargePage, Pml4Index, PdptIndex, PdIndex, PtIndex, LowRam, HostHolds, Read64;
    BootEntries();
    if la < LARGE_PAGE || SHARED_IPC_GPA <= la < SHARED_IPC_GPA + LARGE_PAGE {
      GuestWalkIsIdentity(t, host, base, m, la);
    } else {
      OtherIndices(la);
      var i4, i3, i2 := Pml4Index(la), PdptIndex(la), PdIndex(la);
      ReadThroughEpt(t, host, base, m, 0x8000 + 8 * i4);
      if i4 == 0 {
        ReadThroughEpt(t, host, base, m, 0x9000 + 8 * i3);
        if i3 == 0 {
          ReadThroughEpt(t, host, base, m, 0xA000 + 8 * i2);
        } else if i3 == 3 {
          ReadThroughEpt(t, host, base, m, 0xB000 + 8 * i2);
        }
      }
    }
  }

  /** An address outside the two ranges misses one of the five entries. */
  lemma OtherIndices(la: u64)
    requires la < 0x1_0000_0000_0000 && la >= LARGE_PAGE && !(SHARED_IPC_GPA <= la < SHARED_IPC_GPA + LARGE_PAGE)
    ensures Pml4Index(la) < 512 && PdptIndex(la) < 512 && PdIndex(la) < 512
    ensures !(Pml4Index(la) == 0 && PdptIndex(la) == 0 && PdIndex(la) == 0)
    ensures !(Pml4Index(la) == 0 && PdptIndex(la) == 3 && PdIndex(la) == 496)
  {
    hide Pml4Index, PdptIndex, PdIndex;
    var a, b, c := la / 0x80_0000_0000, la / 0x4000_0000, la / 0x20_0000;
    assert Pml4Index(la) == a % 512 && PdptIndex(la) == b % 512 && PdIndex(la) == c % 512;
    assert a < 512;
    if a == 0 {
      assert b < 512;
      if b == 0 || b == 3 {
        Bits.DivModUnique(c, 512, b, c % 512);
      }
    }
  }

  lemma LowIndices(la: u64)
    requires la < LARGE_PAGE
    ensures Pml4Index(la) == 0 && PdptIndex(la) == 0 && PdIndex(la) == 0 && la % LARGE_PAGE == la
  {
    hide Pml4Index, PdptIndex, PdIndex;
    Bits.DivModUnique(la, 0x80_0000_0000, 0, la);
    Bits.DivModUnique(la, 0x4000_0000, 0, la);
    Bits.DivModUnique(la, LARGE_PAGE, 0, la);
  }

  /** Both partitions see their first bytes at `base`; VM2 as long as the device's PD
      index is not 0. */
  lemma LowRamOfBuilt(id: nat, at: Addresses, base: u64, size: u64, bar: u32, ipcHpa: u64, ipcSize: u64)
    requires id < 2 && ConfigOk(at, base, size, ipcHpa, ipcSize)
    requires id == VM2_ID ==> PdIndex(bar) != 0
    ensures NoOverflow(0, base, size)
    ensures LowRam(BuiltTables(id, at, base, size, bar, ipcHpa, ipcSize), base, Min(Pages(size) * PAGE, LARGE_PAGE))
  {
    hide BuiltTables, Walk, BuiltPlan, NoOverflow, PdIndex, Describes;
    BuiltDescribes(id, at, base, size, bar, ipcHpa, ipcSize);
    PlanFrames(id, base, size, bar, ipcHpa, ipcSize);
    var t, p := BuiltTables(id, at, base, size, bar, ipcHpa, ipcSize), BuiltPlan(id, base, size, bar, ipcHpa, ipcSize);
    hide ConfigOk;
    forall x: u64 | x < Min(Pages(size) * PAGE, LARGE_PAGE) ensures Walk(t, x) == Some(base + x) {
      WalkIsSimpleMap(t, p, x);
      LowAddress(x);
    }
  }

  /** Two-dimensional translation: with the boot tables in RAM, every linear address
      of the first 2 MiB that RAM backs reaches `base + la`, and every address of the
      shared window reaches the shared pages at the same offset. */
  lemma LinearAddressesReachHost(id: nat, at: Addresses, base: u64, size: u64, bar: u32, ipcHpa: u64, ipcSize: u64,
                                 host: Host, m: Bytes, la: u64)
    requires id < 2 && ConfigOk(at, base, size, ipcHpa, ipcSize)
    requires id == VM2_ID ==> PdIndex(bar) != 0
    requires HostHolds(host, base, m) && BootTables(m) && |m| <= size
    ensures NoOverflow(0, base, size)
    ensures var t := BuiltTables(id, at, base, size, bar, ipcHpa, ipcSize);
            && (la < LARGE_PAGE && la < size ==> LinearToHost(t, host, GUEST_CR3_GPA, la) == Some(base + la))
            && (InBlock(la, SHARED_IPC_GPA, SharedPages(ipcSize) * PAGE) ==>
                  LinearToHost(t, host, GUEST_CR3_GPA, la) == Some(ipcHpa + (la - SHARED_IPC_GPA)))
  {
    hide BuiltTables, Walk, NoOverflow, PdIndex, ConfigOk, GuestWalk, HostHolds, BootTables, SharedPages;
    BootTablesFit(m);
    PagesCover(size);
    LowRamOfBuilt(id, at, base, size, bar, ipcHpa, ipcSize);
    RamFits(at, base, size, ipcHpa, ipcSize);
    var t := BuiltTables(id, at, base, size, bar, ipcHpa, ipcSize);
    assert LowRam(t, base, TABLES_END);
    hide Pages;
    if la < LARGE_PAGE && la < size {
      GuestWalkIsIdentity(t, host, base, m, la);
      assert Walk(t, la) == Some(base + la);
    } else if InBlock(la, SHARED_IPC_GPA, SharedPages(ipcSize) * PAGE) {
      SharedPagesFit(ipcSize);
      GuestWalkIsIdentity(t, host, base, m, la);
      SharedWindow(id, at, base, size, bar, ipcHpa, ipcSize, la - SHARED_IPC_GPA);
    }
  }

  /** The same once an image of at most 0x7000 bytes has been loaded at the entry point,
      and the image's own bytes are what the guest then finds there. */
  lemma LoadedGuestReachesHost(id: nat, at: Addresses, base: u64, size: u64, bar: u32, ipcHpa: u64, ipcSize: u64,
                               host: Host, m: Bytes, code: Bytes, la: u64)
    requires id < 2 && ConfigOk(at, base, size, ipcHpa, ipcSize)
    requires id == VM2_ID ==> PdIndex(bar) != 0
    requires BootTables(m) && |m| <= size && |code| <= GUEST_CR3_GPA - GUEST_ENTRY_GPA
    requires GUEST_ENTRY_GPA + |code| <= |m| && HostHolds(host, base, WriteBytes(m, GUEST_ENTRY_GPA, code))
    ensures NoOverflow(0, base, size)
    ensures var t := BuiltTables(id, at, base, size, bar, ipcHpa, ipcSize);
            && (la < LARGE_PAGE && la < size ==> LinearToHost(t, host, GUEST_CR3_GPA, la) == Some(base + la))
            && (GUEST_ENTRY_GPA <= la < GUEST_ENTRY_GPA + |code| ==>
                  match LinearToHost(t, host, GUEST_CR3_GPA, la)
                  case Some(h) => host(h) == code[la - GUEST_ENTRY_GPA]
                  case None => false)
            && (InBlock(la, SHARED_IPC_GPA, SharedPages(ipcSize) * PAGE) ==>
                  LinearToHost(t, host, GUEST_CR3_GPA, la) == Some(ipcHpa + (la - SHARED_IPC_GPA)))
  {
    hide BuiltTables, NoOverflow, PdIndex, ConfigOk, LinearToHost, BootTables, SharedPages;
    LoadKeepsTables(m, code);
    BootTablesFit(m);
    LinearAddressesReachHost(id, at, base, size, bar, ipcHpa, ipcSize, host, WriteBytes(m, GUEST_ENTRY_GPA, code), la);
    if GUEST_ENTRY_GPA <= la < GUEST_ENTRY_GPA + |code| {
      assert host(base + la) == WriteBytes(m, GUEST_ENTRY_GPA, code)[la];
    }
  }

  lemma BootTablesFit(m: Bytes)
    requires BootTables(m)
    ensures |m| >= TABLES_END
  {
  }

  lemma PagesCover(size: nat)
    ensures size <= Pages(size) * PAGE < size + PAGE
  {
  }

  lemma SharedPagesFit(ipcSize: nat)
    ensures SharedPages(ipcSize) * PAGE <= LARGE_PAGE
  {
  }
}
