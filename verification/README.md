# hvisor: a verified model of its hard core

hvisor is a small type-1 hypervisor. This project models the parts of its
aarch64 build where correctness is hardest to see from the code, and proves what
those parts promise. `dafny verify dfyconfig.toml` checks everything.

| file | models |
|---|---|
| `Bits.dfy`, `Options.dfy` | machine words as numbers, with `&`, `\|`, `!`, `<<`, `>>` |
| `Descriptor.dfy` | stage-2 descriptors (section D8.3 of Arm DDI 0487) |
| `Geometry.dfy` | page sizes, regions, and the page size `map` gives each address |
| `PageTree.dfy` | tables in frame memory, the walk, and the translation they stand for |
| `FramePool.dfy` | the frame allocator and frame memory |
| `TreeInPool.dfy`, `Stage2.dfy` | the page table object over the pool: map, unmap, query, update, drop |
| `TableDemand.dfy` | the tables a region needs, what they cost, and what stands in their way |
| `RegionSet.dfy`, `MemorySet.dfy` | the region set over the page table, and whole runs of it |
| `ZoneMemory.dfy` | building a zone's memory from its configuration |
| `VirtioRing.dfy` | the virtio request ring and the config handshake, interleaved |
| `VirtioIrq.dfy` | the result ring, IRQ lists and event queues, interleaved and as code |
| `ListRegisters.dfy` | virtual interrupt injection |
| `Vgic.dfy`, `VgicLock.dfy` | the distributor filter (section 12.9 of Arm IHI 0069) and its lock |
| `Boot.dfy` | the boot barriers for any number of CPUs |
| `ZoneCreation.dfy` | creating and starting a zone from its whole configuration |
| `Lifecycle.dfy` | zones, CPU ownership, and PSCI CPU_ON (section 5.1.4 of Arm DEN0022) |

## How the model is built

The page table is refined in layers. At the bottom, frames are sequences of 512
words and the walk of `get_entry_mut` follows descriptors bit by bit. A ghost map
`tab` says which frame is the table for which part of the address space; the
predicate `Wf` ties the words to it. From this the walk is shown to be a lookup
by key, and the whole tree to be one partial function from guest address to
(host address, access, leaf level), called the translation. Every operation is
then specified by what it does to the translation, and proved on the words.

Two ideas carry `map` and `unmap`. `Geometry.LeafLevel` is a closed form of the
greedy page-size choice: the largest aligned block around an address that fits the
region on both sides. The greedy loop picks exactly it at every leaf start, which
is why `unmap` meets the sizes that `map` chose. `Confined` says that a table
changes only its own frames and takes new ones only from the free set, which gives
conservation and isolation between tables.

The concurrent parts are state machines over atomic steps of CPUs and devices,
with an inductive invariant, a lemma that every step keeps it, and theorems over
every run. Objects that the source updates in place are classes with loops where
the source loops.

Results where the source is weaker than one might expect, each with the exact
condition or a concrete witness:

- `map` checks no physical address. Its leaves deliver the mapper's address
  exactly when the physical range is page-aligned and below 2^48
  (`Geometry.LeavesMatchMapper`).
- Unmapping keeps intermediate tables, so a block over a free area can be refused
  (`Stage2.PageTable.LeftoverTable`). A free region is mapped exactly when no table
  lies below the entry of one of its leaves and the tables it lacks find frames
  (`Stage2.PageTable.Map`); both can be read off before the call.
- `update` checks nothing: on an untranslated address it turns the whole hole into a
  leaf (`Stage2.PageTable.Update`).
- The last register of each bank is not dispatched
  (`Vgic.LastNotDispatched`, both directions).
- The distributor filter takes its mask from bit 0 on, so it is exact only for
  accesses that start there; a byte access to the middle of a priority register is
  filtered by another interrupt (`Vgic.FilteredExactly`, both directions).
- An IRQ list holds three interrupts, not four; a drain completes exactly when that
  suffices (`VirtioIrq.Hub.InjectVirtioIrqs`).
- An interrupt is listed before its event is sent, so under the list lock the list
  can be one longer than its events (`VirtioIrq.EventLagsList`); with the lock free
  it cannot.
- The PARange table is indexed within bounds exactly when some CPU reports a range
  below 6 (`Boot.TableInBounds`).
- Zone creation takes CPUs from other zones. Over every run, zones keep their CPUs
  exactly as long as no creation takes a listed zone's (`Lifecycle.FaithfulRuns`);
  shutting the robbed zone down then clears the live zone's pointers
  (`Lifecycle.RobbedShutdown`). The reference counts stay exact all the same.

## Model

| member | source | states |
|---|---|---|
| `Descriptor.MaskMeaning` | src/arch/aarch64/s2pt.rs:112-124 | masking an address with the descriptor's address mask keeps bits 47 to 12 |
| `Descriptor.FlagMeans` | src/arch/aarch64/s2pt.rs:12-36 | testing and setting a single-bit attribute by arithmetic is masking and merging the word with the flag |
| `Descriptor.AttrIndexMeans` | src/arch/aarch64/s2pt.rs:48-65 | the attribute index is the masked word shifted right by two |
| `Descriptor.MemTypeMeans` | src/arch/aarch64/s2pt.rs:50-56 | inserting a memory type is one bitwise or with its index shifted into place and, for normal memory, the shareability bits |
| `Descriptor.LeafRoundTrip` | src/arch/aarch64/s2pt.rs:120-184 | a leaf written by `set_addr` and `set_flags` reads back its address bits, READ, WRITE and IO, and its size class; it is present, never unused, and its memory type never panics |
| `Descriptor.TableRoundTrip` | src/arch/aarch64/s2pt.rs:158-165 | a table descriptor reads back the frame address and is present and not huge |
| `Descriptor.ZeroWord` | src/arch/aarch64/s2pt.rs:129-139 | the all-zero word is unused and absent yet answers huge, so walks stop at holes |
| `Descriptor.PageLooksLikeTable` | src/arch/aarch64/s2pt.rs:133-165 | a 4K leaf and a table descriptor agree on the kind bits; only the level tells them apart |
| `Descriptor.Overwrite` | src/arch/aarch64/s2pt.rs:141-157 | address and flags written over any descriptor give the same word as on an empty one |
| `Geometry.IndexIsNum` | src/arch/aarch64/paging.rs:539-553 | the shift-and-mask indices are the entry number modulo 512 |
| `Geometry.PageOffsetMeans` | src/arch/aarch64/paging.rs:42-52 | `page_offset` is the distance from the start of the page, and zero exactly when the address is aligned |
| `Geometry.AlignDownMeans` | src/arch/aarch64/paging.rs:46-48 | `align_down` of a 64-bit address is the start of its page, and with the offset gives the address back |
| `Geometry.SpanMeans` | src/arch/aarch64/paging.rs:539-553 | an entry covers 4K at level 1 and 512 times as much at each level above; three and four levels reach 2^39 and 2^48 |
| `Geometry.PickIsLeafLevel` | src/arch/aarch64/paging.rs:459-475 | at every leaf start the greedy size is the largest block that fits around the address |
| `Geometry.LeafLevelMeans` | src/arch/aarch64/paging.rs:459-475 | a 1G leaf exactly where huge pages are allowed and a 1G block aligned on both sides lies in the region around the address; a 2M leaf where only a 2M block does; else 4K |
| `Geometry.NextBoundary` | src/arch/aarch64/paging.rs:486-488 | after a leaf comes the next leaf or the end of the region |
| `Geometry.SameLeaf` | src/arch/aarch64/paging.rs:459-475 | all addresses of one leaf have the same closed-form level and the same base |
| `Geometry.LeavesMatchMapper` | src/arch/aarch64/paging.rs:444-490 | the leaves deliver the mapper's address at every address if and only if the physical range is page-aligned and below 2^48 |
| `Geometry.OffsetMapper` | src/memory/mapper.rs:20-51 | wrapping subtraction twice gives physical start plus distance |
| `PageTree.WalkByKeys` | src/arch/aarch64/paging.rs:148-171 | the bit-level walk reaches exactly the deepest table on the address's path, so no leaf is walked as a table |
| `PageTree.QueryIsTrans` | src/arch/aarch64/paging.rs:243-250 | `query` is the translation, and every other address is NotMapped |
| `PageTree.StoreLeafTrans` | src/arch/aarch64/paging.rs:332-355 | writing a leaf adds, and clearing one removes, exactly its block of addresses |
| `PageTree.LinkTableTrans` | src/arch/aarch64/paging.rs:575-587 | linking a zeroed table into an unused entry changes no translation |
| `PageTree.TablesFormTree` | src/arch/aarch64/paging.rs:148-171 | the reachable tables are exactly the recorded ones and each is reached by one path only |
| `PageTree.SameFrames` | src/arch/aarch64/paging.rs:555-563 | a tree depends on its own frames only |
| `FramePool.Pool.constructor` | src/memory/frame.rs:37-41 | the pool starts with every frame of the aligned range free |
| `FramePool.AlignUpMeans` | src/memory/frame.rs:37-41 | the least multiple of the page size at or above its argument |
| `FramePool.Pool.Alloc` | src/memory/frame.rs:46-50 | fails exactly when nothing is free; otherwise moves one frame from free to live |
| `FramePool.Pool.AllocContiguous` | src/memory/frame.rs:55-71 | fails exactly when no aligned run of free frames is long enough; otherwise takes one run |
| `FramePool.Pool.NewZero` | src/memory/frame.rs:96-114 | the new frame is all zero and no other frame changes |
| `FramePool.Pool.Clear` | src/memory/frame.rs:182-194 | the frame's words become zero, other frames keep theirs |
| `FramePool.Pool.Drop` | src/memory/frame.rs:213-225 | gives back exactly the frame's run, which was not free; a borrowed frame gives nothing back |
| `FramePool.Pool.DeallocContiguous` | src/memory/frame.rs:84-90 | the loop frees exactly the run |
| `FramePool.TakeRun` | src/memory/frame.rs:55-71 | taking a free run keeps live frames disjoint and, with the free set, a partition of the pool |
| `FramePool.GiveRun` | src/memory/frame.rs:84-90 | giving a live run back keeps the partition, and the run was not free |
| `TreeInPool.CreateTable` | src/arch/aarch64/paging.rs:297-302 | recording and linking a new table keeps the tree, its translation and everybody else's frames |
| `TreeInPool.Isolation` | src/arch/aarch64/paging.rs:297-330 | whatever one table does within its frames and the free ones, another table keeps its shape and its translation |
| `TreeInPool.UnmapRound` | src/arch/aarch64/paging.rs:501-514 | at a leaf start `unmap` meets the page size `map` chose: aligned, inside the region, ending at the next leaf start |
| `TreeInPool.UnmapUndoesMap` | src/arch/aarch64/paging.rs:444-516 | removing what `map` left of a free region, whole or prefix, gives the translation back |
| `TreeInPool.MappedMeans` | src/arch/aarch64/paging.rs:444-490 | after a completed `map` of an in-range region every address in it has the mapper's address and the region's access, every other address is as before |
| `TreeInPool.UpdateEntry` | src/arch/aarch64/paging.rs:357-362 | writing a leaf where the walk stops, at a leaf or a hole, adds exactly its block and keeps the tree |
| `TableDemand.SpentDecides` | src/arch/aarch64/paging.rs:297-330 | one frame for each table added and none for others: an operation that completes found as many frames as tables were missing, one that runs out had fewer |
| `TableDemand.KeysFromMeans` | src/arch/aarch64/paging.rs:444-490 | a table is one that the region needs if and only if it is on the path of one of its leaves |
| `TableDemand.BlockedFromMeans` | src/arch/aarch64/paging.rs:332-345 | a region is obstructed exactly when a table lies below the entry of one of its leaves |
| `TableDemand.NotOwnObstacle` | src/arch/aarch64/paging.rs:444-490 | no table that a region needs obstructs the region itself |
| `TableDemand.DenseUnblocked` | src/arch/aarch64/paging.rs:332-345 | where no table but the root is empty, a free region is not obstructed |
| `Stage2.PageTable.constructor` | src/arch/aarch64/paging.rs:139-146 | a new table translates nothing and owns one frame taken from the free set, its root |
| `Stage2.PageTable.GetEntryOrCreate` | src/arch/aarch64/paging.rs:306-330 | reaches the entry of the wanted size, adding only tables on the path, one frame each, and changing no translation; it completes only if there are frames for the tables that the path lacks, and runs out only if there are not |
| `Stage2.PageTable.MapPage` | src/arch/aarch64/paging.rs:332-345 | adds exactly one leaf over free addresses, or changes no translation; free addresses are refused exactly for a table below the entry or for want of frames for the missing tables |
| `Stage2.PageTable.UnmapPage` | src/arch/aarch64/paging.rs:347-355 | removes exactly the leaf over the address and returns its target and size, or reports NotMapped exactly for an untranslated one |
| `Stage2.PageTable.QueryAddress` | src/arch/aarch64/paging.rs:243-250 | returns the translation of the address, or NotMapped exactly when there is none |
| `Stage2.PageTable.Update` | src/arch/aarch64/paging.rs:357-362 | a mapped address keeps its leaf size and gets the new target and flags; an unmapped one turns its whole hole into a leaf; fails exactly without a table at level 3; nothing else changes |
| `Stage2.PageTable.Map` | src/arch/aarch64/paging.rs:444-490 | succeeds if and only if the addresses are free, no leftover table obstructs the region, and the tables it lacks find frames; every mapped address has the largest block there is, said in numbers, the region's access and, in range, the mapper's address; a failure leaves a prefix that ends at a leaf boundary and changes nothing else, and on free addresses is AlreadyMapped only for an obstruction |
| `Stage2.PageTable.Unmap` | src/arch/aarch64/paging.rs:492-516 | terminates; says exactly at which address and why it stops and what is then translated; when leaves have the sizes `map` chose it never meets the alignment spin or the size assertion, and a fully mapped region is removed exactly |
| `Stage2.PageTable.MapThenUnmap` | src/arch/aarch64/paging.rs:444-516 | restores every translation, also after a mapping that failed midway |
| `Stage2.PageTable.LeftoverTable` | src/arch/aarch64/paging.rs:304-345 | with frames for one path, a page is mapped and unmapped and the 2M block over it is then refused as AlreadyMapped, although no address is translated that was not before |
| `Stage2.PageTable.Drop` | src/memory/frame.rs:213-225 | gives back exactly the table's frames |
| `Stage2.Lifetime` | src/arch/aarch64/paging.rs:267-302 | create, any sequence of maps and unmaps, failing ones included, and drop: the free set is the original one and no other live frame has changed |
| `RegionSet.OverlapMeansShared` | src/memory/mm.rs:45-51 | the overlap test holds exactly when the regions share an address |
| `RegionSet.NeighboursSuffice` | src/memory/mm.rs:72-84 | checking the nearest region on each side is equivalent to checking all, given disjointness |
| `RegionSet.TranslationIsUnion` | src/memory/mm.rs:87-120 | an address is translated exactly when a registered region holds it, that region is the only one, and its mapping is what the address gets |
| `MemorySets.RunIsUnion` | src/memory/mm.rs:87-120 | over every run of insertions and deletions: registered regions translate as registered; while no mapping has failed midway, nothing else is translated |
| `MemorySets.StepKeeps` | src/memory/mm.rs:87-120 | each insertion and deletion keeps the regions disjoint and in step with the translation |
| `MemorySets.MemorySet.constructor` | src/memory/mm.rs:58-63 | a new set has no region and translates nothing |
| `MemorySets.MemorySet.TestFreeArea` | src/memory/mm.rs:72-84 | true exactly when the region overlaps no registered one |
| `MemorySets.MemorySet.Insert` | src/memory/mm.rs:87-103 | EINVAL exactly for an overlap; succeeds if and only if the region is empty or overlaps nothing, is untranslated and unobstructed, and the tables it lacks find frames; registers it exactly then; otherwise a mapped prefix stays |
| `MemorySets.MemorySet.Delete` | src/memory/mm.rs:106-120 | EINVAL exactly for an unknown start; otherwise removes exactly that region and its translations |
| `MemorySets.MemorySet.Clear` | src/memory/mm.rs:122-127 | no unwrap fails; exactly the translations of registered regions go |
| `MemorySets.ClearedAll` | src/memory/mm.rs:122-127 | clearing a set in step leaves nothing translated |
| `MemorySets.MemorySet.Drop` | src/memory/mm.rs:166-174 | clears and gives back exactly the frames of the table |
| `ZoneMemory.ConfiguredLeaf` | src/arch/aarch64/zone.rs:17-30 | a configured region's leaves deliver the configured physical addresses, readable and writable, with IO exactly for IO regions, in the largest blocks that fit |
| `ZoneMemory.FreeMeansDisjoint` | src/arch/aarch64/zone.rs:17-30 | a further region is accepted exactly when the configuration stays disjoint |
| `ZoneMemory.Zone.MmioRegister` | src/zone.rs:59-79 | one entry per start; a known start is replaced; panics exactly on a different size |
| `ZoneMemory.Zone.PtInit` | src/arch/aarch64/zone.rs:14-47 | succeeds if and only if the configuration is disjoint and supported and there are frames for the tables it needs; then the translation is exactly the union of RAM and IO, in the largest blocks that fit, and the devices are the configured ones, each told its physical start; refuses only an overlap or for want of frames; panics only on an unsupported type or clashing device sizes, and always when nothing else is wrong |
| `ZoneMemory.HoldsMeans` | src/zone.rs:190-191 | a region holds the addresses of its range, and none if the range wraps around at 2^64 |
| `ZoneMemory.DtbIpa` | src/zone.rs:187-195 | the address comes from the last region that holds the tree, in 64-bit arithmetic; without one it is the invalid address |
| `ZoneMemory.DtbTranslatesBack` | src/zone.rs:187-195 | if only RAM and IO regions hold the tree, no sum wraps around and the computed address translates back to it |
| `ZoneCreation.MmioInit` | src/device/irqchip/gicv3/vgic.rs:13-24 | registers every region in order; panics if and only if some start is met with two sizes; otherwise each start has the entry registered last |
| `ZoneCreation.GicRegionsMean` | src/device/irqchip/gicv3/vgic.rs:13-24 | the distributor comes first, redistributor c lies at base + c * 0x20000 with argument c, and the host's value stands in exactly for a zero |
| `ZoneCreation.CpuSetOf` | src/percpu.rs:95-98 | panics exactly for a CPU id above the maximum; otherwise the set is the configured one |
| `ZoneCreation.Build` | src/zone.rs:172-179 | panics exactly for too many regions or interrupts, overlapping or unsupported regions, too few frames, clashing devices, or an interrupt or CPU id out of range; otherwise the zone translates exactly its RAM and IO, has exactly its devices and owns exactly the listed interrupts |
| `ZoneCreation.ZoneCreate` | src/zone.rs:163-215 | EEXIST exactly for a known id, a panic exactly when the zone cannot be built; otherwise it is listed and its CPUs point at it, with entry point, device tree, boot CPU and exact counts |
| `ZoneCreation.ZoneStart` | src/hypercall/mod.rs:127-149 | the exact answer in every case; when the zone is created it is listed and its CPUs get owner, entry point, device tree and boot CPU, also when the boot CPU is busy or missing; the boot CPU is woken exactly on success; nothing else changes |
| `VirtioRing.FullMeans` | src/device/virtio_trampoline.rs:134-142 | the full test holds exactly at 31 outstanding requests |
| `VirtioRing.StepKeepsInv` | src/device/virtio_trampoline.rs:37-84 | every step of every CPU and of the device keeps the ring, the lock discipline and the handshake; a non-full test stays true while the lock is held |
| `VirtioRing.RunIsFifo` | src/device/virtio_trampoline.rs:134-172 | in every interleaving the device has taken exactly the first requests pushed, at most 31 are outstanding, and no unread slot is overwritten |
| `VirtioRing.RunAnswersOwnRequest` | src/device/virtio_trampoline.rs:59-84 | a CPU has at most one unanswered config request, and a config read returns the value written for that very request |
| `VirtioRing.RunPushesAccesses` | src/device/virtio_trampoline.rs:30-55 | every request has the CPU, zone, address, size, value and direction of the access it was pushed for, and waits for an answer exactly when the offset is not 0x50 |
| `VirtioRing.RunLeavesAnswered` | src/device/virtio_trampoline.rs:59-84 | a CPU leaves the handler only after pushing its access; unless it was a queue notify, only after that request was answered, and a read with that answer |
| `VirtioRing.RunNotifyNeverBlocks` | src/device/virtio_trampoline.rs:70-83 | a queue notify never waits for the device |
| `VirtioRing.RunWaitsForReason` | src/device/virtio_trampoline.rs:37-84 | a CPU in the handler waits only for the lock or for its own answer |
| `VirtioRing.RunNeverStuck` | src/device/virtio_trampoline.rs:37-84 | while a CPU is in the handler some CPU there, or the device, can take a step |
| `VirtioRing.Bridge.constructor` | src/device/virtio_trampoline.rs:119-133 | a new ring is valid and empty |
| `VirtioRing.Bridge.IsReqListFull` | src/device/virtio_trampoline.rs:134-142 | true exactly when the queue holds 31 requests |
| `VirtioRing.Bridge.PushReq` | src/device/virtio_trampoline.rs:164-172 | appends the request to the queue |
| `VirtioIrq.StepKeepsInv` | src/hypercall/mod.rs:92-122 | every step of the device, the draining CPU and the handlers keeps the lists, queues and result ring in step |
| `VirtioIrq.RunStrandsNothing` | src/hypercall/mod.rs:92-122 | queued inject events, the handler in progress and the event still owed cover each CPU's list; with the lists unlocked nothing is owed |
| `VirtioIrq.RunCanDeliver` | src/event.rs:43-51 | with the lists unlocked, a CPU with a listed interrupt can handle it or has an event to fetch |
| `VirtioIrq.RunDrainMoves` | src/hypercall/mod.rs:92-122 | a drain in progress always has its next step: the owed event, the next result or its end |
| `VirtioIrq.RunHandlesDistinct` | src/device/virtio_trampoline.rs:91-99 | a handler finds its list, and passes on exactly the distinct interrupts read for its CPU since the last one, at most 3 |
| `VirtioIrq.RunReadsInOrder` | src/hypercall/mod.rs:95-119 | the results read are exactly the first ones posted |
| `VirtioIrq.EventLagsList` | src/hypercall/mod.rs:107-116 | a concrete run in which, under the lock, the list is longer than its events |
| `VirtioIrq.TakeThenSend` | src/hypercall/mod.rs:106-119 | the two interleaved steps for one result do together what the loop body does, and crash exactly where it asserts |
| `VirtioIrq.Hub.constructor` | src/event.rs:22-30 | every CPU starts with an empty queue, no list and no unread result |
| `VirtioIrq.Hub.TakeResult` | src/hypercall/mod.rs:106-117 | a known interrupt changes nothing, a new one is appended with one event and one inter-processor interrupt, a fourth trips the assertion |
| `VirtioIrq.Hub.InjectVirtioIrqs` | src/hypercall/mod.rs:85-124 | completes exactly when every zone is known and no CPU comes to four distinct interrupts; then every result is read once and each list is the distinct interrupts in order, with one event for each new one; every queued event comes with an interrupt of its CPU |
| `VirtioIrq.Hub.HandleVirtioIrq` | src/device/virtio_trampoline.rs:91-99 | passes on the list in order and empties it, leaving other lists alone |
| `VirtioIrq.Hub.SendEvent` | src/event.rs:87-90 | appends to the CPU's queue and raises its interrupt; an event for a CPU without a queue is dropped, its interrupt is not |
| `VirtioIrq.Hub.FetchEvent` | src/event.rs:43-51 | takes the oldest event of the CPU's queue, if there is one |
| `ListRegisters.NewLrMeans` | src/device/irqchip/gicv3/mod.rs:302-310 | the written register carries the interrupt id, in group 1, pending and not active; the hardware bit and the physical id are there exactly for a hardware interrupt that is no SGI |
| `ListRegisters.NewLrBits` | src/device/irqchip/gicv3/mod.rs:302-310 | which bits of the written register are set, for every bit |
| `ListRegisters.OccupiedMeans` | src/device/irqchip/gicv3/mod.rs:283-289 | occupied is pending or active |
| `ListRegisters.ImplementedRange` | src/device/irqchip/gicv3/mod.rs:279-280 | as many registers are scanned as the low four bits say, plus one, so no access leaves the implemented range |
| `ListRegisters.Bank.InjectIrq` | src/device/irqchip/gicv3/mod.rs:274-312 | an interrupt already there changes nothing; otherwise the first free register gets it, with all its fields; panics exactly when none is free |
| `ListRegisters.RunHasNoTwins` | src/device/irqchip/gicv3/mod.rs:274-312 | over every run of injections and guest completions no two occupied registers hold the same interrupt; an injection changes at most one register, free and implemented |
| `Vgic.InZoneIsOwned` | src/zone.rs:104-108 | the bitmap test is ownership, with indices in bounds below 1024 |
| `Vgic.IrqBitmapInit` | src/device/irqchip/gicv3/vgic.rs:26-48 | the bitmap owns exactly the listed interrupts; fails exactly for one of 1024 or more |
| `Vgic.AccessMask` | src/device/irqchip/gicv3/vgic.rs:60-75 | mask bit j is set exactly when its interrupt belongs to the zone |
| `Vgic.DispatchAgrees` | src/device/irqchip/gicv3/vgic.rs:177-209 | every dispatched bitmask access reaches the register whose interrupts its mask covers, with its field width and effect, inside the bitmap |
| `Vgic.LocateMeans` | src/device/irqchip/gicv3/vgic.rs:189-205 | which register lies at which address, and whether a write sets, clears or replaces |
| `Vgic.DispatchedAddresses` | src/device/irqchip/gicv3/vgic.rs:182-209 | exactly the listed address ranges are filtered as bitmask registers |
| `Vgic.LastNotDispatched` | src/device/irqchip/gicv3/vgic.rs:8-10 | a bitmask register is dispatched if and only if it is not the last of its bank |
| `Vgic.IrqRegisterBytes` | src/device/irqchip/gicv3/vgic.rs:183-188 | an access to routes or targets touches bytes of the checked interrupt only if and only if it stays inside one route, or is a single target byte |
| `Vgic.PokedBit` | src/device/irqchip/gicv3/vgic.rs:103-106 | a masked write to a set or clear register acts on exactly the masked bits |
| `Vgic.MergedBit` | src/device/irqchip/gicv3/vgic.rs:90-100 | the read-modify-write takes masked bits from the value and the others from the register |
| `Vgic.WrittenBit` | src/device/irqchip/gicv3/vgic.rs:84-106 | a filtered write of some bytes changes those only, and tests the mask from bit 0 on wherever they are |
| `Vgic.FilteredExactly` | src/device/irqchip/gicv3/vgic.rs:51-108 | an access is filtered by its own interrupts in every zone if and only if it starts at bit 0 of the register |
| `Vgic.Distributor.RestrictBitmaskAccess` | src/device/irqchip/gicv3/vgic.rs:51-108 | for every width and position inside a register: a write changes only the accessed bits, each as the register says where the mask allows it; a read shows only those |
| `Vgic.Distributor.DistHandler` | src/device/irqchip/gicv3/vgic.rs:140-209 | address by address: a word written to 0x100 + 4i sets, and to 0x180 + 4i clears, exactly the written bits of owned interrupts, likewise the pending, active, group, priority and configuration registers; narrower accesses stay in their bytes; routes and targets are reached exactly for owned interrupts 32 to 1019; which other accesses are ignored or panic |
| `Vgic.Distributor.ArchIrqchipReset` | src/device/irqchip/gicv3/mod.rs:381-392 | the zone's shared interrupts end disabled and inactive, everything else is unchanged |
| `VgicLock.RunLosesNothing` | src/device/irqchip/gicv3/vgic.rs:84-102 | after any interleaving of writes of any width from bit 0 on, each zone with exclusive interrupts finds its own bits as it wrote them last |
| `VgicLock.StepKeepsInv` | src/device/irqchip/gicv3/vgic.rs:84-102 | every step keeps the lock discipline, each zone's last-written bits, and the bits nobody owns |
| `VgicLock.RunNeverStuck` | src/device/irqchip/gicv3/vgic.rs:84-102 | a CPU in the middle of an access waits only for the lock, and then the holder can go on |
| `VgicLock.LostWithoutLock` | src/device/irqchip/gicv3/vgic.rs:84-102 | from any initial state, the same steps without the lock's guard have a run after which a zone's bit is not what it wrote last |
| `Boot.StepKeepsInv` | src/main.rs:136-191 | every step of every CPU keeps the counters, the barriers, the single primary and the minimum |
| `Boot.RunIsOrdered` | src/main.rs:136-191 | no per-CPU block is written after the root zone exists; no CPU runs a VM before all are initialised and late init is done |
| `Boot.RunBoots` | src/main.rs:136-191 | no schedule of n CPUs has more than 17 n steps, and one that cannot go on has every CPU in its VM |
| `Boot.RunEntersExactly` | src/main.rs:159-161 | the assertion on the number of entered CPUs never fires |
| `Boot.RunReadsMinimum` | src/arch/aarch64/mm.rs:115-128 | every reader finds the exact counter, and the minimum over all CPUs capped at 7 |
| `Boot.TableInBounds` | src/arch/aarch64/mm.rs:130-133 | the table lookup is in bounds if and only if some CPU reports a range below 6 |
| `Boot.LevelsByRange` | src/arch/aarch64/mm.rs:111-141 | what each range stands for, and that the first four get three levels |
| `Lifecycle.Machine.CreateNew` | src/zone.rs:197-214 | the zone is listed, its CPUs point at it with its entry point and device tree, the first is the boot CPU, the new count is exact and every zone loses one reference for each CPU taken from it |
| `Lifecycle.Machine.RemoveZone` | src/zone.rs:127-136 | removes that zone only; its strong count is then 1 exactly when no CPU and no local variable refers to it |
| `Lifecycle.Machine.TakeDown` | src/hypercall/mod.rs:168-181 | the CPUs of the zone forget whatever they point at and are sent one shutdown event each, counts stay exact, and the count assertion never fires |
| `Lifecycle.Machine.ZoneShutdown` | src/hypercall/mod.rs:151-184 | exact error cases; otherwise one zone goes down, its CPUs lose their entry point and get a shutdown event each, the root stays at the head and nothing else changes |
| `Lifecycle.Machine.SystemOff` | src/arch/aarch64/trap.rs:347-368 | the caller's zone goes down and its other CPUs get a shutdown event; the machine powers off exactly for the root zone, otherwise the caller goes idle |
| `Lifecycle.Machine.constructor` | src/main.rs:99-106 | no zone exists and no CPU points at one until the root zone is created like any other |
| `Lifecycle.Machine.PointAt` | src/zone.rs:201-203 | the zone gains a reference and the one pointed at before loses one |
| `Lifecycle.RunProper` | src/zone.rs:163-215 | over every run of creations and removals ids and zone objects stay distinct, and every CPU's zone is listed and lists it |
| `Lifecycle.FaithfulRuns` | src/zone.rs:199-212 | over every run, all CPUs of listed zones point at their zone if and only if every creation took CPUs of no listed zone |
| `Lifecycle.RobbedShutdown` | src/hypercall/mod.rs:168-181 | shutting down a zone after another took its CPUs clears the pointers of the live one; it keeps all its CPUs if and only if the two share none |
| `Lifecycle.OneSuccessBetweenIdles` | src/arch/aarch64/trap.rs:303-322 | between two successful CPU_ON calls for a CPU it has gone idle |
| `Lifecycle.RefusedWhileRunning` | src/arch/aarch64/cpu.rs:146-161 | from entering its guest until it goes idle, every CPU_ON for a CPU is refused |

## Left out

- FramePool.Pool.Alloc: the bitmap allocator is an external crate, so which free frame it picks is left open; the results hold for every choice.
- FramePool.Pool.AllocContiguous: the alignment is a number of frames, and which fitting run is picked is left open.
- VirtioIrq.Hub.InjectVirtioIrqs: one value of `res_rear` for the whole drain; a device that posts meanwhile is in the interleaved model only.
- Vgic.Distributor.DistHandler: bitmask accesses that straddle two registers, which device memory and the distributor do not support; the contents of route and target registers are not part of the state.
- Lifecycle.Machine.TakeDown: creation, shutdown and power-off are atomic steps, so a reference held briefly by another CPU is not modelled; `RemoveZone` says that the assertion would fire then. The reset of the zone's interrupts is `Vgic.Distributor.ArchIrqchipReset`, which no member joins to it.
- ZoneMemory.Zone.PtInit: regions are page-aligned and within reach on both sides, which the source leaves to the configuration.
- ZoneCreation.Build: the same, and the CPU mask is given as the set of its bits.
- VirtioIrq.RunStrandsNothing: no fairness; `check_events` takes one event per interrupt and nothing says when it runs.
- The virtio backend: an environment that owns `req_front`, `res_rear` and the reply fields, answers each config request once and never a notify.
- Clones of page tables and memory sets: they share lower tables, which breaks the tree shape on purpose.
- The fixed mapper, `Frame::new_16`, `walk` and `dump`, and `find_mmio_region`.
- Stage-1 descriptors and the riscv64 port: the same proofs with other bit names, or unfinished code.
- The redistributor handler, the acknowledge path of physical interrupts, and instruction skipping: single-branch code.
- TLB maintenance, memory barriers, caches, device trees, logging, the heap and assembly.
- The event race between `hv_zone_start` and CPU_ON: `hv_zone_start` wakes a CPU without setting its flag, so only CPU_ON calls are counted.
