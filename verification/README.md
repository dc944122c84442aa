# Hypster: a verified model of its protocols and tables

Hypster splits one machine between two guests. It gives each guest its own memory through
extended page tables, lets them talk through one shared region that holds two lock-free
rings, and runs them either on one core in turn or on two cores at once. This project
models the parts of that design whose correctness does not follow from reading one
function, and proves properties of them for every input, every interleaving and every run.

The files follow the program:

- `Words`, `Bits`: 64-bit words, wrap-around, little-endian bytes; masks, shifts and
  disjoint bit fields on natural numbers.
- `Ring`, `RingRuns`, `Channel`: the single-producer single-consumer ring. `Ring` has it in
  steps of one shared load, one shared store or one slot byte; `RingRuns` runs the two sides
  in any order and refines a sixteen-place FIFO; `Channel` is the object with `send` and
  `recv`.
- `IpcLayout`, `GuestOps`: the shared region as bytes, and the guests' own ring code over
  raw offsets.
- `Exchange`, `ExchangeRuns`, `ExchangeBytes`: the endless counter exchange of two cores
  over two rings: lockstep, absence of deadlock, bounded progress, and the same facts on the
  bytes of the region.
- `Throughput`, `TimeSlices`: the alternating run in which VM1 sends bursts and VM2 consumes
  them; the guests' slices on the shared bytes, and the host's loop that enters the guests
  and decides from their exits when both have shut down.
- `Ept`, `EptMap`, `Vm`, `GuestBoot`: the table writes, the map they amount to, the isolation
  of the two partitions, and the guest's own page tables walked through them.
- `Handoff`, `HandoffProgress`: the flags with which one core hands VM2 to another: that the
  two sides never both run it, and that the hand-off succeeds whenever it can.
- `VmExit`: the exit handler, its pending register patches, and the time slice.
- `Serial`, `SerialProgress`, `SerialOutput`, `GuestLine`: the UART line lock of two cores, that
  it is given back, what each core's bytes on the UART are, and the guest line buffer.
- `Yaml`: the build script's indent-stack parser.
- `Tss`: copying a descriptor table and appending a task-state segment.
- `Pipeline`: the host-driven packet pipeline of the legacy main loop.

Code that updates objects, arrays or bytes in place is modelled by classes and methods with
loops, each proved against a function of the old state; the properties are then proved of
those functions. Concurrent code is modelled as a state machine whose schedule is an
arbitrary sequence of choices, so a statement about all schedules covers every interleaving,
every time-out and every spurious failure of a weak compare-exchange.

## Where the code falls short of what one would expect

Each of these is a proved statement with the exact condition, not a remark.

- The TSS selector the installation computes decodes to the TSS address exactly when the
  live table has at least one whole entry, or the address is 0 (`Tss.TssRoundTripIff`). With
  no whole entry it is the null selector, LTR faults on it, and the installation does not
  return (`Tss.TssLoadsIff`).
- CPUID is answered for the leaf in EAX exactly when that leaf is not one of the four in the
  table, or rcx does not hold the putchar number and the upper half of rax is clear
  (`VmExit.CpuidAnswersLeafIff`; an input of each failing kind in `VmExit.CpuidWrongAnswers`).
- CPUID names the vendor in EBX, EDX and ECX; the table has it in EBX, ECX and EDX, so a
  guest reads "HypsV   terH" (`VmExit.CpuidLeaves`).
- After INIT-SIPI the run flag is down, because the preparation lowers it and only the firmware
  path raises it again: the processor goes on to VM2 only once its poll for that flag has
  timed out (`HandoffProgress.WaitsMeanWhatTheySay`, `HandoffProgress.ReleasedApPasses`).
- Each line on the UART comes from one core on every schedule exactly when the second core
  writes nothing before it runs on its own stack, or the first writes nothing at all
  (`Serial.LinesWholeIff`). Until then `pcpu_id` answers 0 on both cores, so the second takes
  the first's lock for its own: two one-letter lines mix in `Serial.TwoLinesMix`, and the
  announcement printed there splits a line of any other program in
  `Serial.AnnouncementCanSplitLines`. A core that switches stacks inside a line waits for
  ever (`Serial.SwitchInsideLineHangs`).
- A receive on an empty ring comes back empty exactly when its private cached tail equals the
  head; otherwise it takes a packet that was never sent (`Ring.RecvQueued`). The guests'
  caches are not reset between the trials of the throughput ladder. The trials pass all the
  same, from any values of the caches, because no slice of VM2 takes more than VM1 has just
  sent (`TimeSlices.RunTrials`).
- VM2 runs on at most one core in every run exactly when the firmware starts the same
  processor that INIT-SIPI would start (`Handoff.Vm2RunsOnOneCoreIff`). The boot processor
  and the application processors never both run it (`Handoff.Vm2RunsOnOneSide`).
- Low RAM of VM2 is intact exactly when the device's page-directory index misses the page
  tables RAM uses, and the device's identity window is right exactly when that index is not
  the shared region's (`Vm.RamWindowExact`, `Vm.IdentityWindowExact`).
- Unique sibling keys do not make the flattened configuration faithful when a key contains
  a dot; it is faithful exactly when leaves with one dotted path agree
  (`Yaml.ParsedLeavesKeptIff`, `Yaml.DottedKeyClashes`). A leading `#` in a key makes its
  line a comment: with unique sibling keys free of dots, every leaf is read back exactly when
  no key on the way to a leaf begins with `#` (`Yaml.HashKeysKeptIff`); below a commented
  heading, leaves move into the section still open before it (`Yaml.HashHeadingMovesLeaves`).
- Guests that take turns on one core share its line buffer. Their lines reach the UART as
  they wrote them, each under its own tag, exactly when none grows past 159 characters and no
  guest puts a character while another's unfinished line is in the buffer
  (`GuestLine.LinesKeptIff`, `GuestLine.SharedBufferMixesGuests`).
- Both run loops are cut off at a fixed count, and complete their target exactly when it
  fits (`TimeSlices.RunUntilBothShutdown`, `Pipeline.Run`).

## Model

| member | source | states |
|---|---|---|
| Words.WrapSub | crates/hypster-core/src/channel.rs:132-138 | a wrapping subtraction of two truncated indices recovers their true distance |
| Words.WrapInjective | crates/hypster-core/src/channel.rs:168-174 | truncated indices less than a word apart are equal exactly when the true ones are |
| Words.Le64RoundTrip | crates/hypster-core/src/guest_boot.rs:55-57 | a word written as little-endian bytes reads back as itself |
| Words.LeastByteFirst | crates/hypster-core/src/guest_boot.rs:55-57 | the least significant byte of a word comes first |
| Bits.AndLowMask | crates/hypster-core/src/channel.rs:145 | masking with `2^k - 1`, bit by bit, is the remainder modulo `2^k` |
| Bits.AndField | crates/hypster-core/src/ept.rs:338-396 | masking with ones in bits lo to hi keeps exactly that field |
| Bits.IndexField | crates/hypster-core/src/ept.rs:338-350 | a shift and a nine-bit mask select the table index the SDM defines |
| Bits.OrDisjoint | crates/hypster-core/src/vmx.rs:861-869 | joining numbers whose bits do not meet is addition |
| Ring.SlotOfWrapped | crates/hypster-core/src/channel.rs:145 | the masked 64-bit index is the true index modulo 16, also across the wrap |
| Ring.SlotsDistinct | crates/hypster-core/src/channel.rs:145-149 | indices less than a ring apart name different slots |
| Ring.WrappedTestsAreExact | crates/hypster-core/src/channel.rs:132-143 | the wrapped equality and distance tests decide emptiness and fullness of the true indices |
| Ring.Produce | crates/hypster-core/src/channel.rs:127-156 | one step of `send`: a load, one byte of the copy, the length, or the publishing store; it keeps the ring well formed |
| Ring.Consume | crates/hypster-core/src/channel.rs:163-190 | one step of `recv`, the copy byte by byte; it keeps the ring well formed |
| Ring.SendAllAppends | crates/hypster-core/src/channel.rs:127-156 | an uninterrupted send succeeds exactly when fewer than 16 messages are pending and then appends the first 1518 bytes of the data |
| Ring.RecvAllTakes | crates/hypster-core/src/channel.rs:163-190 | an uninterrupted receive yields the oldest pending message, and nothing exactly when there is none |
| Ring.SendQueued | crates/vm1-app/src/main.rs:118-139 | a send whose private cached head cannot mislead it (any value, on an empty ring) is the queue's append and leaves such a cache |
| Ring.RecvQueued | crates/vm2-app/src/main.rs:176-200 | whatever the private cached tail holds, a receive takes the oldest message if there is one; on an empty ring it comes back empty exactly when the cached tail equals the head |
| Ring.RecvKeepsTail | crates/vm2-app/src/main.rs:82-100 | a cached tail between head and tail makes the receive exact and stays between them |
| Ring.SendStepsAreSendAll | crates/hypster-core/src/channel.rs:127-156 | the steps of a send taken without interruption compose to the whole operation |
| Ring.RecvStepsAreRecvAll | crates/hypster-core/src/channel.rs:163-190 | likewise for a receive |
| RingRuns.StepSimulates | crates/hypster-core/src/channel.rs:128-188 | every step in any interleaving keeps cachedHead <= head <= cachedTail <= tail <= cachedHead + 16 on true indices, moves none back, and is a FIFO step |
| RingRuns.WriterAvoidsPending | crates/hypster-core/src/channel.rs:144-149 | the slot being written is never one the consumer may read |
| RingRuns.RingRefinesFifo | crates/hypster-core/src/channel.rs:127-190 | for every interleaving, from any starting index, the history of calls is a history of a 16-place FIFO |
| RingRuns.ReceivedIsPrefixOfSent | crates/hypster-core/src/channel.rs:127-190 | in every run the packets received are, in order, the first ones sent, each `data[..min(len, 1518)]` |
| RingRuns.LoadsDecideFullAndEmpty | crates/hypster-core/src/channel.rs:134-142 | a refreshed index makes send fail exactly when 16 are pending and receive come back empty exactly when none is |
| Channel.UnidirectionalChannel.constructor | crates/hypster-core/src/channel.rs:110-122 | a new channel represents the empty queue |
| Channel.UnidirectionalChannel.Send | crates/hypster-core/src/channel.rs:127-156 | the object's new state and result are the ring's send |
| Channel.UnidirectionalChannel.Recv | crates/hypster-core/src/channel.rs:163-190 | the object's new state and result are the ring's receive |
| Channel.UnidirectionalChannel.IsEmpty | crates/hypster-core/src/channel.rs:197-201 | true exactly when no message is pending, under wrap-around |
| IpcLayout.OffsetsFollowTheLayout | crates/vm1-app/src/main.rs:37-73 | the guests' raw offsets are those of the C layout of the packet, the channel and the heartbeat block |
| IpcLayout.FieldAddresses | crates/hypster-core/src/ipc_region.rs:16-24 | the address of every field as a number; the heartbeat words are magic, VM1's count and time, VM2's count and time |
| IpcLayout.MagicIsText | crates/hypster-core/src/ipc_region.rs:11 | the magic word is the text HYPBEAT and a zero |
| IpcLayout.FieldsDisjoint | crates/hypster-core/src/ipc_region.rs:7-24 | the fields of the two channels and the heartbeat block do not overlap |
| IpcLayout.FieldsFit | crates/hypster-core/src/ipc_region.rs:7-24 | all of them lie inside the 0xD000-byte region |
| IpcLayout.StoreChangesOneField | crates/vm1-app/src/main.rs:178-187 | a store to one field leaves what every other field reads unchanged |
| IpcLayout.RingAtLocal | crates/vm1-app/src/main.rs:67-73 | the ring read at an offset depends only on the bytes of its own channel |
| GuestOps.OtherFieldsUnchanged | crates/vm1-app/src/main.rs:167-188 | an operation on one channel leaves the other channel and the heartbeat block unchanged |
| GuestOps.ChannelSend | crates/vm1-app/src/main.rs:118-139 | the guest's send over the mapped structure is the ring's send on the bytes of that channel and touches nothing else |
| GuestOps.SendCounter | crates/vm1-app/src/main.rs:167-188 | the raw-offset counter send is the ring's send of the eight little-endian bytes |
| GuestOps.RecvCounter | crates/vm1-app/src/main.rs:143-165 | the raw-offset counter receive is the ring's receive, read as a word |
| GuestOps.CounterMessage | crates/vm2-app/src/main.rs:94-96 | a packet that holds the eight bytes of a counter reads back as that counter |
| GuestOps.CounterHandedOver | crates/vm2-app/src/main.rs:82-100 | a counter sent by one guest into an empty ring is received by the other as the same number |
| GuestOps.InitIpc | crates/hypster-core/src/ipc_region.rs:26-39 | initialisation leaves two empty rings with their numbers and names, the magic word, zeroed heartbeats, and the bytes behind as they were |
| Exchange.Vm1Step | crates/vm1-app/src/main.rs:191-218 | every step of VM1 keeps the exchange invariant: cells, private caches and the chain of counts |
| Exchange.Vm2Step | crates/vm2-app/src/main.rs:125-147 | every step of VM2 keeps it too |
| ExchangeRuns.CountersInLockstep | crates/vm1-app/src/main.rs:199-217 | in every run each counter is posted, delivered, echoed and acknowledged once, in order, each stage at most one behind the one before |
| ExchangeRuns.PublishedCountsWithinOne | crates/hypster-core/src/ipc_region.rs:13-24 | in every reachable state each channel holds at most one message and the two published counts differ by at most one |
| ExchangeRuns.SomeGuestProgresses | crates/vm2-app/src/main.rs:133-139 | in every reachable state some guest can do more than poll an empty channel |
| ExchangeRuns.MeasureStep0 | crates/vm1-app/src/main.rs:199-217 | a non-polling step of VM1 before its publication strictly lowers a bounded measure, and a polling one does not raise it |
| ExchangeRuns.MeasureStep1 | crates/vm2-app/src/main.rs:133-146 | likewise for VM2 |
| ExchangeRuns.WorkIsBounded | crates/vm1-app/src/main.rs:199-217 | in any run without a publication by VM1 the non-polling steps are bounded by the measure |
| ExchangeRuns.PublishesWithin34 | crates/vm1-app/src/main.rs:199-217 | from any reachable state more than 34 non-polling steps publish VM1's next counter |
| ExchangeBytes.ByteStepSimulates | crates/vm1-app/src/main.rs:143-188 | a step of the exchange on the region's bytes is the abstract step |
| ExchangeBytes.ByteRunSimulates | crates/vm1-app/src/main.rs:191-218 | so is every run |
| ExchangeBytes.HeartbeatsInLockstep | crates/hypster-core/src/ipc_region.rs:13-39 | from the initialised bytes, in every run, the heartbeat words hold the last published counts and differ by at most one |
| ExchangeRuns.FairRunsPublish | crates/vm1-app/src/main.rs:199-217 | from any reachable state a continuation of 35 segments, each with a step of both guests, publishes VM1's next counter |
| ExchangeBytes.SendStepsAreRingSend | crates/vm2-app/src/main.rs:102-123 | a guest running alone completes the ring's send of its counter on every branch: room by the cached head, room after loading the head, and a full ring |
| ExchangeBytes.RecvStepsAreRingRecv | crates/vm1-app/src/main.rs:143-165 | a guest running alone completes the ring's receive on every branch and goes on with the counter in the packet, or comes back to poll |
| Throughput.PayloadLenAgreed | crates/hypster-core/src/guest_run.rs:74-78 | both guests use the payload length the host stored, and a length from 1 to 1518 is the one asked for |
| Throughput.Vm1.Start | crates/vm1-app/src/main.rs:236-246 | the payload has the agreed length and holds i modulo 256 at place i, and the count is 0; the cached head is what memory held |
| Throughput.Vm1.Slice | crates/vm1-app/src/main.rs:248-259 | a slice of VM1 appends min(16, room, remaining) packets, from any cached head on an empty ring, and ends in HLT or shutdown |
| Throughput.Vm2.TakePacket | crates/vm2-app/src/main.rs:176-200 | one receive of VM2 takes the oldest pending packet, whatever its cached tail holds, and touches no more than the agreed length |
| Throughput.ByteSumIsTotal | crates/vm2-app/src/main.rs:187-191 | the wrapping sum VM2 keeps of a packet is the sum of its bytes modulo 256 |
| Throughput.Vm2.WriteAck | crates/vm2-app/src/main.rs:203-211 | an acknowledgement writes slot 0 of the other channel and advances its tail by one, whatever the capacity |
| Throughput.Vm2.Slice | crates/vm2-app/src/main.rs:172-216 | a slice of VM2 that cannot run past the tail consumes min(16, pending, remaining) packets in order and ends in HLT or shutdown |
| Throughput.SendBurst | crates/vm1-app/src/main.rs:247-259 | in round k VM1's slice puts exactly the next burst in the empty ring and ends in HLT, or, everything sent, in shutdown |
| Throughput.TakeBurst | crates/vm2-app/src/main.rs:171-216 | VM2's slice then takes that burst whole, in order, acknowledges it and leaves the ring empty, whatever its cached tail holds |
| TimeSlices.SliceEndsAtLastExit | crates/hypster-core/src/guest_run.rs:308-446 | outside concurrent mode a guest is resumed at all its exits but the last, its HLT or its shutdown call |
| TimeSlices.Ask | crates/hypster-core/src/guest_run.rs:356-359 | a guest's payload-length call, served as an exit like any other, answers it the length the host has stored |
| TimeSlices.Leave | crates/hypster-core/src/guest_run.rs:550-570 | the host is told `runnable` exactly when the guest's own code ended the slice in HLT, and `not runnable` exactly when it called shutdown |
| TimeSlices.Vm1Slice | crates/vm1-app/src/main.rs:236-264 | VM1's slice from entry to end: in the first it starts afresh with the length the handler answers, then it sends its burst, and the host's verdict is `runnable` while packets remain |
| TimeSlices.Vm2Slice | crates/vm2-app/src/main.rs:157-219 | VM2's slice likewise: it takes the burst whole and the ring is empty again |
| TimeSlices.Round | crates/hypster-core/src/dual_run.rs:29-58 | one turn of the slice loop, its flags decided from the exits: both guests stay live and one burst is moved, or both are found shut down; it fails exactly when an entry is refused |
| TimeSlices.RunUntilBothShutdown | crates/hypster-core/src/dual_run.rs:29-65 | for every target N, any guest memory and any resumed exits in between, the loop succeeds exactly when ceil(N/16) + 1 rounds fit in the budget and none of their entries is refused; then sent, received, tail and head are all N, and every packet taken has the stored length and byte k modulo 256 at place k |
| TimeSlices.RunTrial | crates/hypster-core/src/dual_run.rs:172-213 | one trial from any memory passes the comparison of both indices with the target exactly when its run completes; all packets then have the trial's length and byte k modulo 256 at place k |
| TimeSlices.RunTrials | crates/hypster-core/src/dual_run.rs:172-219 | the trials of a ladder of payload sizes, one after the other in memory that keeps the caches, all pass and deliver their packets with their bytes exactly when each run completes |
| TimeSlices.RunConfiguredLadder | crates/hypster-core/src/throughput.rs:10-13 | the configured five trials of ten thousand packets all pass, with both indices equal to the target, exactly when no entry in their 626 rounds is refused |
| Ept.Pml4Index | crates/hypster-core/src/ept.rs:338-350 | the shift-and-mask expression is the SDM's table index |
| Ept.Frame | crates/hypster-core/src/ept.rs:338-396 | the masked entry is its 4 KiB frame address below 2^52 |
| Ept.Leaf | crates/hypster-core/src/ept.rs:190-214 | a leaf entry is the page base plus permission and memory-type bits |
| Ept.MmioLeaf | crates/hypster-core/src/ept.rs:285-306 | a device leaf is the 2 MiB base plus permission and page-size bits |
| Ept.EptManager.ClearTables | crates/hypster-core/src/ept.rs:130-139 | every entry of all six tables is zero afterwards |
| Ept.EptManager.MapRegion | crates/hypster-core/src/ept.rs:152-216 | the tables written are the region's fold over its pages and links, from cleared tables |
| Ept.EptManager.MapSharedRegion | crates/hypster-core/src/ept.rs:223-262 | the shared pages and the three links, and no other entry |
| Ept.EptManager.MapMmioPassthrough | crates/hypster-core/src/ept.rs:269-306 | one link in the slot and one large leaf, and no other entry |
| Ept.EptManager.TranslateGpa | crates/hypster-core/src/ept.rs:338-396 | the method's result is the walk of the tables as values |
| EptMap.WalkIsSimpleMap | crates/hypster-core/src/ept.rs:338-396 | tables that hold a plan's entries translate every guest address as the plan's simple map does |
| EptMap.RegionDescribes | crates/hypster-core/src/ept.rs:152-216 | mapping a page-aligned buffer of at most 4 MiB from guest address 0 gives the plan of that buffer |
| EptMap.MmioDescribes | crates/hypster-core/src/ept.rs:269-306 | a device mapping adds its frame, rounded down to 2 MiB, to the plan |
| EptMap.SharedDescribes | crates/hypster-core/src/ept.rs:223-262 | the shared mapping adds the shared pages to the plan |
| EptMap.MmioPreserves | crates/hypster-core/src/ept.rs:269-306 | a device mapping preserves every earlier translation outside its own PD index |
| EptMap.SharedPreserves | crates/hypster-core/src/ept.rs:223-262 | the shared mapping preserves every earlier translation outside its own PD index |
| EptMap.SlotsAlias | crates/hypster-core/src/ept.rs:165-180 | in every linked 1 GiB slot the translation depends only on the address modulo 1 GiB |
| EptMap.ImageOfPlan | crates/hypster-core/src/ept.rs:338-396 | every translated address lies in one of the plan's blocks |
| EptMap.SoftwareWalkIsHardwareWalk | crates/hypster-core/src/ept.rs:338-396 | on described tables the software walk agrees with the walk of SDM Vol. 3C section 28.3.2 that follows addresses |
| Vm.VirtualMachine.constructor | crates/hypster-core/src/vm.rs:49-94 | the tables after construction are the build sequence's |
| Vm.VirtualMachine.MapSharedIpc | crates/hypster-core/src/vm.rs:97-103 | adds the shared region at its guest address |
| Vm.BuiltDescribes | crates/hypster-core/src/vm.rs:66-103 | the whole build sequence yields its plan, for every configuration the loader can pass |
| Vm.ReachedIsWalk | crates/hypster-core/src/ept.rs:338-396 | for every configuration the manager's walk of a built partition is what the processor computes from its EPT pointer (SDM Vol. 3C section 28.3.2) |
| Vm.ImageContained | crates/hypster-core/src/vm.rs:66-103 | through the processor's own walk from the EPT pointer, VM1 reaches only its RAM and the shared pages, VM2 also the device's 2 MiB frame, over all guest addresses |
| Vm.OnlySharedPagesAreCommon | crates/hypster-core/src/lib.rs:170-190 | for all pairs of guest addresses, a host address both partitions reach, each from its own EPT pointer, lies in the shared pages |
| Vm.PrivateRamUnreachable | crates/hypster-core/src/lib.rs:170-190 | no guest address of one partition, walked from its EPT pointer, reaches the other's private RAM |
| Vm.SharedWindow | crates/hypster-core/src/vm.rs:97-103 | the shared pages appear at their guest address in both partitions, whatever the device address |
| Vm.DeviceWindowAlways | crates/hypster-core/src/vm.rs:73-82 | VM2's fixed device window always reaches the device frame plus the low 21 bits |
| Vm.RamWindowExact | crates/hypster-core/src/vm.rs:66-83 | VM2's low RAM is intact exactly when the device's PD index misses RAM's page tables |
| Vm.IdentityWindowExact | crates/hypster-core/src/vm.rs:73-103 | the device's identity window is right exactly when its PD index is not the shared region's |
| GuestBoot.InstallIdentityMap | crates/hypster-core/src/guest_boot.rs:14-53 | the bytes hold the five table entries and the descriptors, and every other byte is unchanged |
| GuestBoot.InstallGdt | crates/hypster-core/src/guest_boot.rs:41-52 | the five descriptors, zeroed first, stand at their bytes, and the tables behind are unchanged |
| GuestBoot.LoadCode | crates/hypster-core/src/vm.rs:109-116 | the image replaces exactly its own range of guest RAM |
| GuestBoot.LoadKeepsTables | crates/hypster-core/src/vm.rs:109-116 | an image of at most 0x7000 bytes keeps the page tables, one of at most 0x6000 also the descriptors |
| GuestBoot.BytesThroughEpt | crates/hypster-core/src/guest_boot.rs:14-39 | guest-physical bytes read through the EPT are the RAM buffer's bytes |
| GuestBoot.GuestWalkIsIdentity | crates/hypster-core/src/guest_boot.rs:14-39 | the guest's own walk (SDM Vol. 3A section 4.5), its tables read through the EPT, is the identity on the two mapped ranges |
| GuestBoot.OtherEntriesStayZero | crates/hypster-core/src/guest_boot.rs:17-39 | installed in zeroed memory the tables have no entry but the five |
| GuestBoot.GuestWalkIsExact | crates/hypster-core/src/guest_boot.rs:14-39 | the guest's walk through such tables is the identity on the two ranges and faults at every other canonical address |
| GuestBoot.LinearAddressesReachHost | crates/hypster-core/src/guest_boot.rs:14-39 | two-dimensional translation takes low linear addresses to the RAM base plus the address and shared ones to the shared pages |
| GuestBoot.LoadedGuestReachesHost | crates/hypster-core/src/vm.rs:109-116 | that still holds after loading an image, whose bytes are what the guest finds at its entry point |
| Handoff.BspKeepsInv | crates/hypster-core/src/dual_run.rs:68-122 | every step of the boot processor, firmware path, INIT-SIPI path and fallback, keeps the hand-off invariant |
| Handoff.ApRespectsGate | crates/hypster-core/src/ap_trampoline.rs:193-232 | an application processor passes its gate only under the release flag and never raises that flag |
| Handoff.Vm2RunsOnOneSide | crates/hypster-core/src/dual_run.rs:84-118 | in every interleaving the boot processor and the application processors never both run VM2 |
| Handoff.ReleaseOnlyWhenAlone | crates/hypster-core/src/dual_run.rs:108-118 | the release flag is raised only on the path where the boot processor runs VM1 alone |
| Handoff.LateApAfterFallback | crates/hypster-core/src/ap_trampoline.rs:193-226 | an application processor that arrives after the fallback gives up once its polls time out and never runs VM2 |
| Handoff.TwoApsCanRunVm2 | crates/hypster-uefi/src/main.rs:53-141 | a schedule in which a late firmware-started processor and the INIT-SIPI one both run VM2 |
| Handoff.Vm2RunsOnOneCoreIff | crates/hypster-core/src/dual_run.rs:84-118 | VM2 stays on one core in every run exactly when both paths start the same processor |
| HandoffProgress.FallsBackIffRefused | crates/hypster-core/src/dual_run.rs:84-98 | in every run the boot processor falls back exactly when a last wait times out with the ready flag down or the probe finds INIT-SIPI unusable |
| HandoffProgress.FallenRunsVm2 | crates/hypster-core/src/dual_run.rs:94-98 | a boot processor that has fallen back runs VM2 itself within two of its steps |
| HandoffProgress.ReadyBspReleases | crates/hypster-core/src/dual_run.rs:84-118 | a wait that finds the ready flag, on either path, leads in three steps of the boot processor, in any interleaving, to the release flag raised and VM1 alone on it |
| HandoffProgress.ReleasedApPasses | crates/hypster-core/src/ap_trampoline.rs:193-222 | a released processor that has not given up passes its gate: within four of its own steps if the run flag is up, within four of its time-outs if it is down |
| HandoffProgress.SetUpApRunsVm2 | crates/hypster-core/src/ap_trampoline.rs:224-232 | past the gate it runs VM2 exactly when its set-up succeeds |
| HandoffProgress.WaitsMeanWhatTheySay | crates/hypster-core/src/ap_trampoline.rs:173-190 | in every reachable state a ready flag found on the firmware path is that processor's own; the run flag is up there and down after INIT-SIPI; the boot processor releases only after it has found the ready flag; before a processor is started all flags are as the preparation leaves them |
| HandoffProgress.HandOffSucceeds | crates/hypster-core/src/dual_run.rs:84-118 | from any start, over any interleaving: once a wait finds the ready flag, the boot processor runs VM1 alone and a processor that has not given up gets past its gate |
| HandoffProgress.HandOffCanSucceed | crates/hypster-core/src/dual_run.rs:84-118 | on either path some run has VM1 alone on the boot processor and VM2 on the started one |
| HandoffProgress.GivingUpIsReported | crates/hypster-core/src/ap_trampoline.rs:201-221 | a processor that gives up reports that it is done, whichever path the boot processor has taken |
| HandoffProgress.EndOfVm2IsReported | crates/hypster-core/src/ap_trampoline.rs:224-232 | within three of its own steps after it enters VM2 the processor reports that it is done, and that VM2 ended cleanly if it did |
| VmExit.GuestRun.constructor | crates/hypster-core/src/guest_run.rs:21-38 | no vCPU active, no stop requested, no patch pending |
| VmExit.GuestRun.SetTrialPayloadLen | crates/hypster-core/src/guest_run.rs:74-78 | stores the clamped length both guests will use |
| VmExit.GuestRun.SetConcurrentMode | crates/hypster-core/src/guest_run.rs:40-46 | leaving concurrent mode also disarms the release of the other core |
| VmExit.GuestRun.ClearGuestStop | crates/hypster-core/src/guest_run.rs:58-64 | afterwards no stop is requested for that pCPU, by either copy of the flag |
| VmExit.GuestRun.SetGuestStop | crates/hypster-core/src/guest_run.rs:66-72 | raises that pCPU's flag, and the second copy for pCPU 0 only |
| VmExit.GuestRun.SaveGprs | crates/hypster-core/src/guest_run.rs:210-216 | rax and rcx are mirrored in that pCPU's slot alone |
| VmExit.GuestRun.HandleExit | crates/hypster-core/src/guest_run.rs:308-446 | with its patch taken, the handler's effect and answer are those of the exit's cause, the other pCPU's slot is untouched, and with no vCPU active nothing changes |
| VmExit.GuestRun.ApplyPatch | crates/hypster-core/src/guest_run.rs:273-290 | takes each pending patch once, in the stacked register order |
| VmExit.GuestRun.ExitStub | crates/hypster-core/src/guest_run.rs:127-180 | after every exit no patch is pending on either pCPU, rax and rcx are mirrored whether or not a vCPU is active, and state, registers and reply are the exit's |
| VmExit.GuestRun.BeginSlice | crates/hypster-core/src/guest_run.rs:550-562 | no stop is requested; a first entry starts at 0x1000 and a later one where that VM left off, whatever ran in between |
| VmExit.GuestRun.Serve | crates/hypster-core/src/guest_run.rs:127-180 | the exits of an entered guest are served in order up to the first that is not resumed, each answered with its own registers |
| VmExit.GuestRun.EndSlice | crates/hypster-core/src/guest_run.rs:470-547 | the VM's RIP is kept, and the verdict is entry failed, runnable or shut down as the failure word and the stop flag say |
| VmExit.GuestRun.RunVcpuOnce | crates/hypster-core/src/guest_run.rs:550-570 | a slice starts where its VM left off, runs to the first exit that is not resumed and reports not runnable exactly when that exit is the shutdown call; the other pCPU's slot is untouched |
| VmExit.ExitTouchesOnlyAnswers | crates/hypster-core/src/guest_run.rs:349-440 | in a guest that is resumed a register changes only as rax for the payload length or rax to rbx for CPUID |
| VmExit.PayloadLenAnswered | crates/hypster-core/src/guest_run.rs:356-359 | the payload-length call is resumed with the stored length in rax and every other register as it was |
| VmExit.HypercallEffects | crates/hypster-core/src/guest_run.rs:349-395 | every hypercall by its number: character printed, slice ended with the stop flag up, length answered, or nothing changed |
| VmExit.OtherExits | crates/hypster-core/src/guest_run.rs:396-440 | HLT resumes the guest exactly in concurrent mode; every other exit but CPUID ends the slice |
| VmExit.CpuidLeaves | crates/hypster-core/src/guest_run.rs:448-460 | the four leaves as vendor text and feature bits, and zeros for every other leaf |
| VmExit.RipAdvancesOnce | crates/hypster-core/src/guest_run.rs:344-412 | RIP moves past the instruction exactly at VMCALL, HLT and CPUID, once, modulo 2^64 |
| VmExit.PutcharEitherWay | crates/hypster-core/src/guest_run.rs:334-354 | a character is printed whichever way round rax and rcx arrive |
| VmExit.CpuidAnswersLeafIff | crates/hypster-core/src/guest_run.rs:336-342 | CPUID answers the leaf in EAX exactly when it is not a table leaf, or rcx is not the putchar number and the upper half of rax is clear |
| VmExit.CpuidWrongAnswers | crates/hypster-core/src/guest_run.rs:448-460 | an input with swapped registers and one with a wide rax that get the wrong answer for leaf 1 |
| VmExit.PcpusDoNotInterfere | crates/hypster-core/src/guest_run.rs:21-38 | over any interleaving of exits each pCPU ends in the state, and gives the answers, it would alone |
| VmExit.ReleaseFiresAtFirstExit | crates/hypster-core/src/guest_run.rs:319-325 | over any sequence of exits an armed release fires exactly at the first exit of the boot processor's guest |
| VmExit.StopFlagRecordsShutdown | crates/hypster-core/src/guest_run.rs:52-72 | over any sequence of exits a stop flag comes up exactly when its own guest calls shutdown |
| Serial.StepKeepsExcl | crates/hypster-core/src/serial.rs:31-56 | every step of either core keeps, while a core with the boot processor's id is quiet: the lock is taken exactly when one core holds it, and a recorded owner holds it |
| Serial.OwnerHoldsTheLock | crates/hypster-core/src/serial.rs:31-56 | if core 1 neither writes nor ends a closure before it runs on its own stack: in every run a recorded owner holds the lock alone, and only the owner writes |
| Serial.NeverWaitsForItself | crates/hypster-core/src/serial.rs:31-47 | if core 1 does nothing on the UART before its switch, re-entry by the owner never waits: a waiting core does not hold the lock |
| Serial.CoresMixOnlyAtReleases | crates/hypster-core/src/serial.rs:31-99 | if core 1 neither writes nor ends a closure before its switch, bytes written between the same two releases come from one core |
| Serial.EachLineFromOneCore | crates/hypster-core/src/serial.rs:68-99 | under that condition, when every locked closure ends its lines, each line on the UART comes from one core |
| Serial.EarlyWriterMixes | crates/hypster-core/src/ap_trampoline.rs:193-232 | whenever core 0 writes and core 1 writes before its switch, some schedule puts a byte of core 1 right after one of core 0 within a line and a turn |
| Serial.LinesWholeIff | crates/hypster-core/src/ap_trampoline.rs:78-89 | lines, and turns of the lock, come from one core on every schedule exactly when core 1 writes nothing before its switch or core 0 writes nothing |
| Serial.AnnouncementCanSplitLines | crates/hypster-core/src/ap_trampoline.rs:224 | with the announcement before the switch, every program of core 0 that writes has a schedule that mixes a line |
| Serial.TwoLinesMix | crates/hypster-core/src/serial.rs:26-56 | two one-letter lines, one from each core, whose letters stand in one line and in one turn of the lock |
| Serial.SwitchInsideLineHangs | crates/hypster-core/src/serial.rs:31-47 | a core that switches inside a line waits on every continuation of a schedule for the lock it took under its former id |
| SerialProgress.NoLockBetweenLines | crates/hypster-core/src/serial.rs:50-99 | if core 1 does nothing on the UART before its switch: in every run a core between operations and outside a line does not have the lock |
| SerialProgress.BothCanFinish | crates/hypster-core/src/serial.rs:31-99 | no interleaving gets stuck: after any schedule some continuation finishes both programs and leaves the lock free, if both end outside a line |
| SerialOutput.OutputIsWhatTheProgramSays | crates/hypster-core/src/serial.rs:60-99 | for any two programs and every schedule, a core's bytes on the UART are a prefix of what its operations say, in order, without gap or repeat, and all of it once the core is through |
| SerialOutput.UntaggedPrint | crates/hypster-core/src/serial.rs:131-139 | a print without tags puts exactly its text, line feeds as CR LF and without CR |
| SerialOutput.TagSays | crates/hypster-core/src/serial.rs:68-79 | a tagged byte stands behind `[Cn] ` |
| SerialOutput.GuestSays | crates/hypster-core/src/serial.rs:172-197 | a guest line is said as `[VMn/Cm] `, the line, CR and LF, and then releases the lock |
| SerialOutput.GuestLineStandsTogether | crates/hypster-core/src/serial.rs:176-197 | if core 1 is quiet before its switch, on every schedule a guest line the core is past stands on the UART in one piece: tag, line, CR, LF |
| GuestLine.LineBuffer.Putchar | crates/hypster-core/src/serial.rs:172-213 | the buffer and the bytes put on the UART are those of the line rule; the buffer stays below 160 and free of CR and LF |
| GuestLine.NothingLost | crates/hypster-core/src/serial.rs:172-213 | for any stream of the guests on a core, handed-over lines followed by the buffer are the input without CR and LF |
| GuestLine.LinesBounded | crates/hypster-core/src/serial.rs:172-213 | no line and no buffer holds CR, LF or more than 159 bytes |
| GuestLine.LinesKeptIff | crates/hypster-core/src/serial.rs:172-213 | the guests' lines come out as written, each under its own tag, exactly when each fits and no guest puts anything while another's unfinished line is buffered |
| GuestLine.SharedBufferMixesGuests | crates/hypster-core/src/serial.rs:23-25 | two guests in turn on one core whose characters come out in one line under the second's tag |
| GuestLine.HandedOverIsOneLine | crates/hypster-core/src/serial.rs:176-196 | in the bytes put on the UART a handed-over line stands unaltered between its tag and the only line feed |
| Yaml.CharacterClasses | crates/hypster-core/build.rs:250-262 | what counts as white space and how many bytes a character of an indent takes, by code point |
| Yaml.ParseSimpleYaml | crates/hypster-core/build.rs:248-287 | the loop over lines computes the fold of the line rule |
| Yaml.StackStaysIncreasing | crates/hypster-core/build.rs:261-268 | on any text the open sections have strictly increasing indents |
| Yaml.NoiseChangesNothing | crates/hypster-core/build.rs:253-256 | a blank or comment line anywhere changes nothing |
| Yaml.RenderedLine | crates/hypster-core/build.rs:258-284 | a rendered entry adds its dotted key below the sections that enclose it; a rendered heading opens a section |
| Yaml.RenderingParses | crates/hypster-core/build.rs:248-287 | a rendered tree without commented leaves, at any indent, adds its leaves and leaves the enclosing sections as they were |
| Yaml.ParsesRendering | crates/hypster-core/build.rs:248-287 | parsing the text of any tree without commented leaves records its leaves under dotted paths in document order, and nothing else |
| Yaml.LeavesKeptIff | crates/hypster-core/build.rs:275-283 | recording leaves in order keeps each value exactly when leaves with one dotted path agree |
| Yaml.ParsedLeavesKeptIff | crates/hypster-core/build.rs:248-287 | read from the text of any tree without commented leaves, every leaf keeps its value exactly when leaves with one dotted path agree, and nothing else is recorded |
| Yaml.HashKeysKeptIff | crates/hypster-core/build.rs:253-256 | with unique sibling keys free of dots, which may begin with `#`, every leaf is read back with its value exactly when no key on the way to a leaf begins with `#` |
| Yaml.HashHeadingMovesLeaves | crates/hypster-core/build.rs:253-268 | a commented heading after a section: the leaf below it is recorded under that section |
| Yaml.RenderingRoundTrip | crates/hypster-core/build.rs:248-287 | with unique sibling keys free of dots and no commented leaves, the result is exactly the dotted leaf paths with their values |
| Yaml.DottedKeyClashes | crates/hypster-core/build.rs:275-283 | a tree with unique sibling keys, one with a dot, that loses a leaf |
| Tss.InstallTssInto | crates/hypster-core/src/vmx.rs:843-883 | the new selector is 8 times the number of live entries, and 0x70 from 14 entries on; the table is the copied prefix, the descriptor and its old rest; the TSS is zero but for the stack pointer |
| Tss.DescriptorDecodes | crates/hypster-core/src/vmx.rs:861-869 | the joined bit fields come apart again into base, limit, type 9 and a clear system bit (SDM Vol. 3A section 7.2.3) |
| Tss.TssRoundTripIff | crates/hypster-core/src/vmx.rs:808-827 | the returned selector decodes to the TSS address exactly when one whole entry was copied or the address is 0 |
| Tss.TssLoadsIff | crates/hypster-core/src/vmx.rs:880-882 | LTR takes the new selector exactly when the live table had a whole entry |
| Tss.BusyTssDecodes | crates/hypster-core/src/vmx.rs:808-827 | once LTR has marked the descriptor busy, the selector in TR still decodes to the TSS address |
| Tss.SegmentBaseBits | crates/hypster-core/src/vmx.rs:808-827 | by division: an entry is a TSS descriptor when bits 44:40 hold 9 or 11, and any other has its 32-bit base in bits 39:16 and 63:56 |
| Tss.OldSelectorsDecodeAlike | crates/hypster-core/src/vmx.rs:808-827 | every old selector whose whole descriptor lies inside the live limit and in the first 14 entries decodes as before |
| Tss.CutDescriptorReadsNewTss | crates/hypster-core/src/vmx.rs:851-874 | a descriptor cut in two by the copy keeps its base exactly when the low words agree |
| Tss.StackTopStored | crates/hypster-core/src/vmx.rs:857-859 | the stack pointer reads back from bytes 4 to 12 |
| Pipeline.Partition.Forward | crates/hypster-core/src/vm.rs:151-164 | VM1 takes a pending frame once and puts the interrupt back when the ring is full |
| Pipeline.Partition.DrainAcks | crates/hypster-core/src/vm.rs:166-174 | VM1 counts every pending acknowledgement and leaves none |
| Pipeline.Partition.Transmit | crates/hypster-core/src/vm.rs:177-209 | VM2 acknowledges every pending packet and leaves none |
| Pipeline.Partition.RunVcpuStep | crates/hypster-core/src/vm.rs:122-215 | the step of either partition on the two queues, and nothing when the vCPU is inactive |
| Pipeline.PacketsConserved | crates/hypster-core/src/lib.rs:279-299 | over any order of deliveries and steps, queued = pending flag + both rings + completed |
| Pipeline.NoAckIsLost | crates/hypster-core/src/vm.rs:200-203 | no acknowledgement ever meets a full ring |
| Pipeline.Run | crates/hypster-core/src/lib.rs:279-299 | the loop completes exactly the target T in T + 1 turns for T >= 1, exactly when that is within its cut-off |

## Left out

- Memory ordering weaker than sequential consistency, cache-line padding and fences: every shared access is one atomic step.
- VMX, MSR, control-register and port instructions, and the assembly stubs: guest entry is a free step that ends in one exit; a failing `vmresume` inside the exit stub is not part of this model.
- `run_single_guest` and the rest of `enter_guest`: the same slice with the vCPU set up afresh.
- The trampoline bytes, descriptor loads and LAPIC writes of the hand-off: starting a processor puts it at its entry point.
- `arm_concurrent_ap_release`: nothing calls it; the flag it arms is in the exit model, but the hand-off does not use it.
- VT-d, PCI scanning, CAT, RAS, health, posted interrupts, the scheduler and the configuration record: single checks, counters and register writes.
- The emulated network card: for VM2 its doorbell touches no channel, and its division by the ring length is outside the model; the receive bit of the cause register is a boolean.
- `validate_hardware_config` and `parse_hex_or_dec`: single comparisons over the parsed map.
- Log text and the `[Cn]` line tag: whether a line is tagged is a free choice, since the line-start flag is stored after the lock is released.
- The rate limit on unknown-hypercall messages: it affects log text only.
- Time stamps are free choices; bandwidth figures are not computed.
- TLB invalidation after a mapping: the walks read the tables as they stand.
- Where documents and comments disagree with the code, the code is modelled: rings have 16 slots, not 64; the boot processor releases the other core and enters VM1 without waiting for VM2.
- Ept.EptManager.MapRegion: for a guest base other than 0 only the fold is stated, because the code leaves links and page tables inconsistent there and nothing calls it so.
- EptMap.RegionDescribes: covers page-aligned buffers of at most 4 MiB from guest address 0, which is the only use.
- GuestBoot.LoadedGuestReachesHost: for VM2 it needs the device's PD index not to be 0, because with that index low RAM is the device.
- Throughput.Vm2.Slice: a slice that could run past the tail (more turns than messages, with a cached tail outside head to tail) is excluded; what the receive then does is `Ring.RecvQueued`, and no slice of the run is like that.
- Tss.InstallTssInto: the method returns the selector also where LTR would fault on it; `Tss.TssLoadsIff` says when that is.
- TimeSlices.RunUntilBothShutdown: the guests' variables are memory, so the run assumes that compiled guests keep nothing in registers across HLT; `guest_hlt` declares no clobbers, and the exit stub drops every register of a guest that is not resumed (`VmExit.YieldLosesRegisters`).
- TimeSlices.Leave: a slice's exits are resumed ones up to the HLT or the shutdown call of the guest's code; a guest that faults is not part of the run.
- ExchangeRuns.CountersInLockstep: both guests start with zero caches; under SMP there is one trial, in memory that starts as zeros.
- Throughput.Vm2.WriteAck: no ring property is claimed of the acknowledgement channel in the alternating run, because the code writes slot 0 and ignores capacity.
- Handoff.Vm2RunsOnOneSide: the flags and program counters are values of a state machine, each store one step of it; two application processors are modelled, as many as the two start-up paths can name.
- Serial.LinesWholeIff: its programs end their lines; a closure that ends inside a line is cut off by the release and can share the line with the other core, whatever the ids are.
- Yaml.ParsesRendering: an entry is rendered with one space after its colon, and keys are taken as trimmed text without a colon or a line feed; what a leading `#` does is `Yaml.HashKeysKeptIff`.
