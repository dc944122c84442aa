/** A partition's address space as `VirtualMachine::new` and `map_shared_ipc` build
    it, and what the two partitions can and cannot reach. */
module Vm {
  import opened Words
  import opened Ept
  import opened EptMap
  import Bits

  const VM2_ID: nat := 1
  const DEVICE_GPA: u64 := 0x2000_0000
  const DEVICE_PD: nat := 256

  type u32 = x: nat | x < 0x1_0000_0000

  /** The mapping calls of `VirtualMachine::new`; `bar` is the device address it finds. */
  function NewTables(id: nat, at: Addresses, base: u64, size: u64, bar: u32): Tables
    requires NoOverflow(0, base, size)
  {
    var t := RegionTables(at, 0, base, size);
    if id == VM2_ID then MmioTables(MmioTables(t, DEVICE_GPA, bar), bar, bar) else t
  }

  function NewPlan(id: nat, base: nat, size: nat, bar: u32): Plan {
    var p := RamPlan(base, size);
    if id == VM2_ID then MmioPlan(MmioPlan(p, DEVICE_GPA, bar), bar, bar) else p
  }

  function BuiltTables(id: nat, at: Addresses, base: u64, size: u64, bar: u32, ipcHpa: u64, ipcSize: u64): Tables
    requires NoOverflow(0, base, size) && NoOverflow(SHARED_IPC_GPA, ipcHpa, ipcSize)
  {
    SharedTables(NewTables(id, at, base, size, bar), SHARED_IPC_GPA, ipcHpa, ipcSize)
  }

  function BuiltPlan(id: nat, base: nat, size: nat, bar: u32, ipcHpa: nat, ipcSize: nat): Plan {
    IpcPlan(NewPlan(id, base, size, bar), ipcHpa, ipcSize)
  }

  class VirtualMachine {
    const id: nat
    const memBaseHpa: u64
    const ramBytes: u64
    const ept: EptManager

    constructor (id: nat, at: Addresses, ramBytes: u64, memBaseHpa: u64, bar: u32)
      requires NoOverflow(0, memBaseHpa, ramBytes)
      ensures ept.Valid() && fresh(ept.Repr()) && this.id == id
      ensures this.memBaseHpa == memBaseHpa && this.ramBytes == ramBytes
      ensures ept.View() == NewTables(id, at, memBaseHpa, ramBytes, bar)
    {
      var e := new EptManager(at);
      e.MapRegion(0, memBaseHpa, ramBytes);
      if id == VM2_ID {
        e.MapMmioPassthrough(DEVICE_GPA, bar);
        e.MapMmioPassthrough(bar, bar);
      }
      this.id := id;
      this.memBaseHpa := memBaseHpa;
      this.ramBytes := ramBytes;
      ept := e;
    }

    method MapSharedIpc(ipcHpa: u64, size: u64)
      requires ept.Valid() && NoOverflow(SHARED_IPC_GPA, ipcHpa, size)
      modifies ept.Repr()
      ensures ept.View() == SharedTables(old(ept.View()), SHARED_IPC_GPA, ipcHpa, size)
    {
      ept.MapSharedRegion(SHARED_IPC_GPA, ipcHpa, size);
    }
  }

  /** The configuration the loader passes: a page-aligned RAM buffer of at most 4 MiB
      and a page-aligned shared buffer, all below 2^52. */
  ghost predicate ConfigOk(at: Addresses, base: u64, size: u64, ipcHpa: u64, ipcSize: u64) {
    && AddressesOk(at)
    && base % PAGE == 0 && size <= MAX_RAM && base + Pages(size) * PAGE <= ADDRESS_LIMIT
    && ipcHpa % PAGE == 0 && ipcSize + 0xFFF < 0x1_0000_0000_0000_0000
    && NoOverflow(SHARED_IPC_GPA, ipcHpa, ipcSize)
    && ipcHpa + SharedPages(ipcSize) * PAGE <= ADDRESS_LIMIT
  }

  function SharedPages(ipcSize: nat): nat { Min(Pages(ipcSize), 512) }

  lemma BuiltDescribes(id: nat, at: Addresses, base: u64, size: u64, bar: u32, ipcHpa: u64, ipcSize: u64)
    requires ConfigOk(at, base, size, ipcHpa, ipcSize)
    ensures NoOverflow(0, base, size)
    ensures Describes(BuiltTables(id, at, base, size, bar, ipcHpa, ipcSize),
                      BuiltPlan(id, base, size, bar, ipcHpa, ipcSize))
  {
    hide Describes, RegionTables, MmioTables, SharedTables, RamPlan, IpcPlan;
    RegionDescribes(at, base, size);
    var t, p := RegionTables(at, 0, base, size), RamPlan(base, size);
    PlanHasNoIpc(base, size, bar);
    if id == VM2_ID {
      MmioDescribes(t, p, DEVICE_GPA, bar);
      MmioDescribes(MmioTables(t, DEVICE_GPA, bar), MmioPlan(p, DEVICE_GPA, bar), bar, bar);
    }
    hide NewTables, NewPlan, MmioPlan, AddressesOk;
    SharedDescribes(NewTables(id, at, base, size, bar), NewPlan(id, base, size, bar), ipcHpa, ipcSize);
  }

  lemma PlanHasNoIpc(base: nat, size: nat, bar: u32)
    ensures RamPlan(base, size).ipc.None?
    ensures forall p: Plan, gpa: u64, hpa: u64 :: p.ipc.None? ==> MmioPlan(p, gpa, hpa).ipc.None?
    ensures forall id :: NewPlan(id, base, size, bar).ipc.None?
  {
  }

  // ---- What each partition reaches ----

  function DeviceFrame(bar: u32): nat { bar - bar % LARGE_PAGE }

  predicate InBlock(h: nat, base: nat, size: nat) { base <= h < base + size }

  predicate Disjoint(a: nat, m: nat, b: nat, n: nat) { a + m <= b || b + n <= a }

  /** What the processor translates a guest address to, from the partition's EPT pointer. */
  function Reached(id: nat, at: Addresses, base: u64, size: u64, bar: u32, ipcHpa: u64, ipcSize: u64, gpa: u64): Option<nat>
    requires NoOverflow(0, base, size) && NoOverflow(SHARED_IPC_GPA, ipcHpa, ipcSize)
  {
    HardwareWalk(BuiltTables(id, at, base, size, bar, ipcHpa, ipcSize), Eptp(at.pml4), gpa)
  }

  lemma BuiltAddresses(id: nat, at: Addresses, base: u64, size: u64, bar: u32, ipcHpa: u64, ipcSize: u64)
    requires NoOverflow(0, base, size) && NoOverflow(SHARED_IPC_GPA, ipcHpa, ipcSize)
    ensures BuiltTables(id, at, base, size, bar, ipcHpa, ipcSize).at == at
  {
    hide RegionTables, MmioTables, SharedTables, NoOverflow;
  }

  /** The manager's own walk of a built partition is the processor's. */
  lemma ReachedIsWalk(id: nat, at: Addresses, base: u64, size: u64, bar: u32, ipcHpa: u64, ipcSize: u64, gpa: u64)
    requires ConfigOk(at, base, size, ipcHpa, ipcSize)
    ensures NoOverflow(0, base, size)
    ensures Reached(id, at, base, size, bar, ipcHpa, ipcSize, gpa) ==
            Walk(BuiltTables(id, at, base, size, bar, ipcHpa, ipcSize), gpa)
  {
    hide Describes, BuiltTables, Walk, HardwareWalk, NoOverflow, BuiltPlan, Eptp;
    BuiltDescribes(id, at, base, size, bar, ipcHpa, ipcSize);
    BuiltAddresses(id, at, base, size, bar, ipcHpa, ipcSize);
    SoftwareWalkIsHardwareWalk(BuiltTables(id, at, base, size, bar, ipcHpa, ipcSize),
                               BuiltPlan(id, base, size, bar, ipcHpa, ipcSize), gpa);
  }

  /** VM1 reaches only its RAM and the shared pages; VM2 only its RAM, the shared pages
      and the device's 2 MiB frame. */
  lemma ImageContained(id: nat, at: Addresses, base: u64, size: u64, bar: u32, ipcHpa: u64, ipcSize: u64, gpa: u64)
    requires id < 2 && ConfigOk(at, base, size, ipcHpa, ipcSize)
    ensures NoOverflow(0, base, size)
    ensures var r := Reached(id, at, base, size, bar, ipcHpa, ipcSize, gpa);
            r.Some? ==>
              || InBlock(r.value, base, Pages(size) * PAGE)
              || InBlock(r.value, ipcHpa, SharedPages(ipcSize) * PAGE)
              || (id == VM2_ID && InBlock(r.value, DeviceFrame(bar), LARGE_PAGE))
  {
    hide Describes, BuiltTables, Walk, SimpleMap, NoOverflow, Reached;
    BuiltDescribes(id, at, base, size, bar, ipcHpa, ipcSize);
    ReachedIsWalk(id, at, base, size, bar, ipcHpa, ipcSize, gpa);
    var p := BuiltPlan(id, base, size, bar, ipcHpa, ipcSize);
    WalkIsSimpleMap(BuiltTables(id, at, base, size, bar, ipcHpa, ipcSize), p, gpa);
    PlanFrames(id, base, size, bar, ipcHpa, ipcSize);
    hide BuiltPlan;
    if SimpleMap(p, gpa).Some? {
      ImageOfPlan(p, gpa);
    }
  }

  lemma PlanFrames(id: nat, base: nat, size: nat, bar: u32, ipcHpa: nat, ipcSize: nat)
    requires id < 2
    ensures var p := BuiltPlan(id, base, size, bar, ipcHpa, ipcSize);
            && p.ramBase == base && p.ramPages == Pages(size)
            && p.ipc == Some(Ipc(ipcHpa, SharedPages(ipcSize)))
            && p.slots == (if id == VM2_ID then {0, bar / GIB, IPC_SLOT} else {0, IPC_SLOT})
            && p.large == (if id == VM2_ID then map[DEVICE_PD := DeviceFrame(bar), PdIndex(bar) := DeviceFrame(bar)] - {IPC_PD}
                           else map[])
  {
    DeviceIndices();
    Bits.DivModUnique(bar / GIB, ENTRIES, 0, bar / GIB);
    hide PdIndex, PdptIndex, LargePageBase;
  }

  lemma DeviceIndices()
    ensures PdptIndex(DEVICE_GPA) == 0 && PdIndex(DEVICE_GPA) == DEVICE_PD
  {
    hide PdIndex, PdptIndex;
  }

  /** The shared pages appear at `SHARED_IPC_GPA` in every partition, whatever the
      device address is. */
  lemma SharedWindow(id: nat, at: Addresses, base: u64, size: u64, bar: u32, ipcHpa: u64, ipcSize: u64, o: nat)
    requires id < 2 && ConfigOk(at, base, size, ipcHpa, ipcSize) && o < SharedPages(ipcSize) * PAGE
    ensures NoOverflow(0, base, size)
    ensures SHARED_IPC_GPA + o < 0x1_0000_0000
    ensures Walk(BuiltTables(id, at, base, size, bar, ipcHpa, ipcSize), SHARED_IPC_GPA + o) == Some(ipcHpa + o)
  {
    hide Describes, BuiltTables, Walk, BuiltPlan, NoOverflow, Pages;
    BuiltDescribes(id, at, base, size, bar, ipcHpa, ipcSize);
    var p := BuiltPlan(id, base, size, bar, ipcHpa, ipcSize);
    PlanFrames(id, base, size, bar, ipcHpa, ipcSize);
    WalkIsSimpleMap(BuiltTables(id, at, base, size, bar, ipcHpa, ipcSize), p, SHARED_IPC_GPA + o);
    IpcAddress(o);
  }

  lemma IpcAddress(o: nat)
    requires o < LARGE_PAGE
    ensures var x := SHARED_IPC_GPA + o;
            && x / 0x80_0000_0000 % ENTRIES == 0 && x / GIB % ENTRIES == IPC_SLOT
            && x % GIB / LARGE_PAGE == IPC_PD && x % GIB % LARGE_PAGE == o
  {
    var x := SHARED_IPC_GPA + o;
    Bits.DivModUnique(x, 0x80_0000_0000, 0, x);
    Bits.DivModUnique(x, GIB, IPC_SLOT, IPC_PD * LARGE_PAGE + o);
    Bits.DivModUnique(IPC_PD * LARGE_PAGE + o, LARGE_PAGE, IPC_PD, o);
  }

  /** Spatial isolation of the two partitions: a host address both can reach lies in
      the shared pages, for all pairs of guest addresses. Only VM1's RAM has to be
      apart from VM2's RAM and from the device frame. */
  lemma OnlySharedPagesAreCommon(at1: Addresses, at2: Addresses, base1: u64, size1: u64, base2: u64, size2: u64,
                                 bar: u32, ipcHpa: u64, ipcSize: u64, g1: u64, g2: u64)
    requires ConfigOk(at1, base1, size1, ipcHpa, ipcSize) && ConfigOk(at2, base2, size2, ipcHpa, ipcSize)
    requires Disjoint(base1, Pages(size1) * PAGE, base2, Pages(size2) * PAGE)
    requires Disjoint(base1, Pages(size1) * PAGE, DeviceFrame(bar), LARGE_PAGE)
    ensures NoOverflow(0, base1, size1) && NoOverflow(0, base2, size2)
    ensures var r1 := Reached(0, at1, base1, size1, bar, ipcHpa, ipcSize, g1);
            var r2 := Reached(1, at2, base2, size2, bar, ipcHpa, ipcSize, g2);
            r1.Some? && r1 == r2 ==> InBlock(r1.value, ipcHpa, SharedPages(ipcSize) * PAGE)
  {
    hide Reached, ConfigOk, Pages, SharedPages, DeviceFrame, NoOverflow;
    ImageContained(0, at1, base1, size1, bar, ipcHpa, ipcSize, g1);
    ImageContained(1, at2, base2, size2, bar, ipcHpa, ipcSize, g2);
  }

  /** The private RAM of one partition is out of the other's reach, once the shared
      pages and the device frame do not overlap it. */
  lemma PrivateRamUnreachable(id: nat, at: Addresses, base: u64, size: u64, otherBase: nat, otherSize: nat,
                              bar: u32, ipcHpa: u64, ipcSize: u64, gpa: u64)
    requires id < 2 && ConfigOk(at, base, size, ipcHpa, ipcSize)
    requires Disjoint(otherBase, otherSize, base, Pages(size) * PAGE)
    requires Disjoint(otherBase, otherSize, ipcHpa, SharedPages(ipcSize) * PAGE)
    requires Disjoint(otherBase, otherSize, DeviceFrame(bar), LARGE_PAGE)
    ensures NoOverflow(0, base, size)
    ensures var r := Reached(id, at, base, size, bar, ipcHpa, ipcSize, gpa);
            r.Some? ==> !InBlock(r.value, otherBase, otherSize)
  {
    hide Reached, ConfigOk, Pages, SharedPages, DeviceFrame, NoOverflow;
    ImageContained(id, at, base, size, bar, ipcHpa, ipcSize, gpa);
  }

  // ---- When VM2's windows are what the set-up intends ----

  ghost predicate RamWindow(t: Tables, base: u64, size: u64) {
    forall x: u64 :: x < Pages(size) * PAGE ==> Walk(t, x) == Some(base + x)
  }

  ghost predicate DeviceWindow(t: Tables, bar: u32) {
    forall x: u64 :: DEVICE_GPA <= x < DEVICE_GPA + LARGE_PAGE ==>
      Walk(t, x) == Some(DeviceFrame(bar) + x % LARGE_PAGE)
  }

  ghost predicate IdentityWindow(t: Tables, bar: u32) {
    forall x: u64 :: DeviceFrame(bar) <= x < DeviceFrame(bar) + LARGE_PAGE ==> Walk(t, x) == Some(x)
  }

  lemma LowAddress(x: nat)
    requires x < GIB
    ensures x / 0x80_0000_0000 % ENTRIES == 0 && x / GIB % ENTRIES == 0 && x % GIB == x
  {
    Bits.DivModUnique(x, 0x80_0000_0000, 0, x);
    Bits.DivModUnique(x, GIB, 0, x);
  }

  /** Where an address of the device's own 2 MiB block falls. */
  lemma FrameAddress(bar: u32, x: nat)
    requires DeviceFrame(bar) <= x < DeviceFrame(bar) + LARGE_PAGE
    ensures x < 0x1_0000_0000
    ensures x / 0x80_0000_0000 % ENTRIES == 0 && x / GIB % ENTRIES == bar / GIB
    ensures x % GIB / LARGE_PAGE == PdIndex(bar) && DeviceFrame(bar) + x % GIB % LARGE_PAGE == x
  {
    hide PdIndex;
    Decompose(bar);
    var s, c := bar / GIB, bar % GIB / LARGE_PAGE;
    var r := x - DeviceFrame(bar);
    assert DeviceFrame(bar) == 0x4000_0000 * s + 0x20_0000 * c && c < 512 && s < 4;
    Bits.DivModUnique(x, 0x80_0000_0000, 0, x);
    Bits.DivModUnique(x, GIB, s, 0x20_0000 * c + r);
    Bits.DivModUnique(0x20_0000 * c + r, LARGE_PAGE, c, r);
  }

  /** VM2's walk through its plan. */
  lemma Vm2Walk(at: Addresses, base: u64, size: u64, bar: u32, ipcHpa: u64, ipcSize: u64, x: u64)
    requires ConfigOk(at, base, size, ipcHpa, ipcSize)
    ensures NoOverflow(0, base, size)
    ensures Walk(BuiltTables(1, at, base, size, bar, ipcHpa, ipcSize), x)
            == SimpleMap(BuiltPlan(1, base, size, bar, ipcHpa, ipcSize), x)
  {
    hide Describes, BuiltTables, Walk, BuiltPlan, SimpleMap, NoOverflow;
    BuiltDescribes(1, at, base, size, bar, ipcHpa, ipcSize);
    WalkIsSimpleMap(BuiltTables(1, at, base, size, bar, ipcHpa, ipcSize),
                    BuiltPlan(1, base, size, bar, ipcHpa, ipcSize), x);
  }

  /** The device window at 0x2000_0000 is always right. */
  lemma DeviceWindowAlways(at: Addresses, base: u64, size: u64, bar: u32, ipcHpa: u64, ipcSize: u64)
    requires ConfigOk(at, base, size, ipcHpa, ipcSize)
    ensures NoOverflow(0, base, size)
    ensures DeviceWindow(BuiltTables(1, at, base, size, bar, ipcHpa, ipcSize), bar)
  {
    hide BuiltTables, Walk, BuiltPlan, NoOverflow, PdIndex, Pages;
    PlanFrames(1, base, size, bar, ipcHpa, ipcSize);
    Vm2Walk(at, base, size, bar, ipcHpa, ipcSize, 0);
    forall x: u64 | DEVICE_GPA <= x < DEVICE_GPA + LARGE_PAGE
      ensures Walk(BuiltTables(1, at, base, size, bar, ipcHpa, ipcSize), x) == Some(DeviceFrame(bar) + x % LARGE_PAGE)
    {
      Vm2Walk(at, base, size, bar, ipcHpa, ipcSize, x);
      LowAddress(x);
      Bits.DivModUnique(x, LARGE_PAGE, DEVICE_PD, x - DEVICE_GPA);
    }
  }

  /** One RAM address of VM2: the device frame if the device's PD index is that
      address's, and RAM otherwise. */
  lemma RamPoint(at: Addresses, base: u64, size: u64, bar: u32, ipcHpa: u64, ipcSize: u64, x: u64)
    requires ConfigOk(at, base, size, ipcHpa, ipcSize) && x < Pages(size) * PAGE
    ensures NoOverflow(0, base, size)
    ensures Walk(BuiltTables(1, at, base, size, bar, ipcHpa, ipcSize), x) ==
            if x / LARGE_PAGE == PdIndex(bar) then Some(DeviceFrame(bar) + x % LARGE_PAGE) else Some(base + x)
  {
    hide BuiltTables, Walk, BuiltPlan, NoOverflow, PdIndex;
    PlanFrames(1, base, size, bar, ipcHpa, ipcSize);
    Vm2Walk(at, base, size, bar, ipcHpa, ipcSize, x);
    LowAddress(x);
  }

  /** Low RAM is intact exactly when the device's PD index does not land on a page
      table that RAM uses. */
  lemma RamWindowExact(at: Addresses, base: u64, size: u64, bar: u32, ipcHpa: u64, ipcSize: u64)
    requires ConfigOk(at, base, size, ipcHpa, ipcSize)
    requires Disjoint(base, Pages(size) * PAGE, DeviceFrame(bar), LARGE_PAGE)
    ensures NoOverflow(0, base, size)
    ensures RamWindow(BuiltTables(1, at, base, size, bar, ipcHpa, ipcSize), base, size) <==>
            (PdIndex(bar) == 0 ==> Pages(size) == 0) && (PdIndex(bar) == 1 ==> Pages(size) <= 512)
  {
    hide BuiltTables, Walk, NoOverflow, PdIndex, ConfigOk, DeviceFrame;
    RamFits(at, base, size, ipcHpa, ipcSize);
    var t := BuiltTables(1, at, base, size, bar, ipcHpa, ipcSize);
    var k := PdIndex(bar);
    if k < 2 && k * LARGE_PAGE < Pages(size) * PAGE {
      var x := k * LARGE_PAGE;
      RamPoint(at, base, size, bar, ipcHpa, ipcSize, x);
      Bits.DivModUnique(x, LARGE_PAGE, k, 0);
      assert Walk(t, x) == Some(DeviceFrame(bar));
      assert !RamWindow(t, base, size);
    } else {
      forall x: u64 | x < Pages(size) * PAGE ensures Walk(t, x) == Some(base + x) {
        RamPoint(at, base, size, bar, ipcHpa, ipcSize, x);
        ChunkApart(x, k, Pages(size));
      }
    }
  }

  lemma RamFits(at: Addresses, base: u64, size: u64, ipcHpa: u64, ipcSize: u64)
    requires ConfigOk(at, base, size, ipcHpa, ipcSize)
    ensures Pages(size) <= 1024 && base + Pages(size) * PAGE <= ADDRESS_LIMIT && NoOverflow(0, base, size)
    ensures NoOverflow(SHARED_IPC_GPA, ipcHpa, ipcSize)
  {
  }

  lemma ChunkApart(x: nat, k: nat, pages: nat)
    requires x < pages * PAGE && pages <= 1024 && !(k < 2 && k * LARGE_PAGE < pages * PAGE)
    ensures x / LARGE_PAGE != k
  {
  }

  /** One address of the device's own block, seen through VM2. */
  lemma IdentityPoint(at: Addresses, base: u64, size: u64, bar: u32, ipcHpa: u64, ipcSize: u64, x: u64)
    requires ConfigOk(at, base, size, ipcHpa, ipcSize)
    requires DeviceFrame(bar) <= x < DeviceFrame(bar) + LARGE_PAGE
    ensures NoOverflow(0, base, size)
    ensures var o := x - DeviceFrame(bar);
            Walk(BuiltTables(1, at, base, size, bar, ipcHpa, ipcSize), x) ==
            if PdIndex(bar) != IPC_PD then Some(x)
            else if o < SharedPages(ipcSize) * PAGE then Some(ipcHpa + o) else None
  {
    hide BuiltTables, Walk, BuiltPlan, NoOverflow, PdIndex, Pages, DeviceFrame;
    PlanFrames(1, base, size, bar, ipcHpa, ipcSize);
    FrameAddress(bar, x);
    Vm2Walk(at, base, size, bar, ipcHpa, ipcSize, x);
    hide ConfigOk;
  }

  /** The device's identity window is right exactly when its PD index is not the one
      the shared region takes over. */
  lemma IdentityWindowExact(at: Addresses, base: u64, size: u64, bar: u32, ipcHpa: u64, ipcSize: u64)
    requires ConfigOk(at, base, size, ipcHpa, ipcSize)
    requires Disjoint(ipcHpa, SharedPages(ipcSize) * PAGE, DeviceFrame(bar), LARGE_PAGE)
    ensures NoOverflow(0, base, size)
    ensures IdentityWindow(BuiltTables(1, at, base, size, bar, ipcHpa, ipcSize), bar) <==> PdIndex(bar) != IPC_PD
  {
    hide BuiltTables, Walk, NoOverflow, PdIndex, ConfigOk, SharedPages;
    RamFits(at, base, size, ipcHpa, ipcSize);
    var t := BuiltTables(1, at, base, size, bar, ipcHpa, ipcSize);
    var frame: u64 := DeviceFrame(bar);
    if PdIndex(bar) == IPC_PD {
      IdentityPoint(at, base, size, bar, ipcHpa, ipcSize, frame);
      assert Walk(t, frame) != Some(frame);
    } else {
      forall x: u64 | DeviceFrame(bar) <= x < DeviceFrame(bar) + LARGE_PAGE ensures Walk(t, x) == Some(x) {
        IdentityPoint(at, base, size, bar, ipcHpa, ipcSize, x);
      }
    }
  }
}
