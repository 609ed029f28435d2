# Shadowfax in Dafny

A Dafny model of the hard core of Shadowfax, a RISC-V confidential-computing monitor: the TSM's
guest page tables and TVM lifecycle, its two guest loaders, the driver's context switch and PMP
programming, and the two guests with real algorithms in them (the CoreMark list and the CBOR reader).

| file | models |
|---|---|
| `Bits.dfy`, `Memory.dfy`, `Sets.dfy` | bit operations, byte-addressed physical memory, set sizes |
| `PageTable.dfy`, `Mapping.dfy`, `GuestMemory.dfy` | Sv39x4 directory: mapping, walking, guest reads and writes |
| `Hypervisor.dfy`, `Covh.dfy` | the TSM's state, every CoVH call on it, and the dispatcher |
| `Lifecycle.dfy`, `Gigabytes.dfy`, `DirectoryReach.dfy`, `GuestEntry.dfy`, `Measurement.dfy` | what holds over every run of calls |
| `GuestImage.dfy`, `EagerLoader.dfy`, `LazyLoader.dfy` | the guest an ELF file describes, and the two ways to load it |
| `LoadAcceptance.dfy`, `LoadRuns.dfy` | which files load, guests that touch all of their RAM, and accepted loads on which a guest differs from its file |
| `ContextSwitch.dfy`, `Pmp.dfy` | TEECALL and TEERET between saved contexts, NAPOT entries |
| `ListArena.dfy`, `MergeSort.dfy`, `BenchList.dfy` | the benchmark list: comparators, merge sort, one benchmark pass |
| `Cbor.dfy` | CBOR heads and the recursive skipper |

## How the sources are read

- Physical memory is one sequence of 2^64 bytes. Page-table entries are little-endian words in it, so
  overlapping stores, stores into a page table and aliasing are part of the model.
- Every 64-bit overflow, failed assertion and failed `unwrap` of the debug build is an explicit
  outcome (`Stop`, `Halted`, `None` or `false`); nothing is said about the state after it.
- Objects whose methods update fields are classes (`Ram`, `HypervisorState`, `FaultHandler`,
  `TsmDriver`, `PmpRegisters`, `Arena`, `Cursor`). Their methods are proved against step relations
  over snapshots, and the theorems over runs are about those relations.
- The SHA-384 digest, the TSM information record, the addresses the allocators return and the
  firmware's answer to a domain switch are parameters, universally quantified everywhere.

## Main results

- **Page tables.** After any run of mapping calls the concrete three-level walk over memory returns
  exactly what a last-write-wins map returns, when the calls stay in one gigabyte
  (`Mapping.RunRefinement`). The directory shares its lower tables between gigabytes;
  `Mapping.RunRefinementAliased` says what the walk returns with no bound on the addresses, and
  `Mapping.RunRefinementExact` says for every run exactly when it is still a last-write-wins map:
  when all gigabytes in use were written alike. The ten flag bits of every leaf are pinned bit by bit, and
  over every run each page of a guest is valid, readable, writable and executable to it.
- **Lifecycle.** Over every run of CoVH calls tracked blocks are conserved; failed calls change nothing;
  and with a host that does not overwrite the directory and stays in the first gigabyte, every address that
  translates lies in exactly one declared region and in a tracked block. Without the gigabyte
  bound the property fails: `Gigabytes.SharedTableRun` is a run of six accepted calls that breaks it, and
  `Gigabytes.DeclaredExact` gives, over every run, the exact condition on the pages the host filled. The
  frame of such an address may lie in the page directory itself; `DirectoryReach.UnreachedExact` says over
  every run exactly when none does. The guest is entered if and only if, since its creation, both a finalize
  and a VCPU call were accepted (`GuestEntry.EnteredExact`). Which registers each call takes, and when the
  create and fill calls are accepted, refused or stop the TSM, is stated in registers and blocks (`Covh`).
- **Measurement.** For any host the first finalize digests the measured pages in call order and a
  second one digests the empty stream; any run in between leaves the digest alone. With fills that stay
  apart, each measured byte is what the guest reads.
- **Loaders.** With memory for a guest at hand, the eager loader accepts a file if and only if each of its
  page-disjoint segments is loadable (`LoadAcceptance.LoadExact`), and stores as measurement the digest of the
  image on the pages that hold file bytes. The eager loader shows the guest the ELF image byte for byte, except segments without
  file bytes at unaligned addresses (`EagerLoader.EagerSegmentExact`, both directions). The lazy
  loader installs the same pages fault by fault, with an exact condition for a fault to be answered
  (`LazyLoader.FaultExact`), so that a guest can touch all 512 pages of its RAM; it loses the head of an unaligned segment
  (`LazyLoader.LazyEagerExact` per fault, `LazyLoader.QuietRunExact` over whole runs, both directions).
  Both failures are shown as accepted loads, for every file of the failing kind (`LoadRuns`).
- **Context switch.** A trap is carried out exactly under a condition on registers, region lists and the
  firmware's answer (`ContextSwitch.TrapExact`). Over every run of traps a return resumes the latest call with all its
  registers but a0, a1, a6 and the program counter, and every call enters the TSM from its boot state.
  A return programs one PMP entry, so all others are still those of the latest call
  (`ContextSwitch.TsmEntriesStayOpen`).
- **PMP.** A programmed entry is an unlocked NAPOT entry that allows everything, and decodes to its region
  exactly when the base is a multiple of the size.
- **Benchmark list.** The in-place merge sort is sorted, stable and a rearrangement for every
  orderly comparator, including those that rewrite the data they compare, and it writes no link or
  data word outside the list. One benchmark pass restores the whole arena when the list started
  sorted by index with clean low bytes, and the list exactly then; its checksum is that of the finds, sorts and
  removal as steps on sequences.
- **CBOR.** Wherever reading starts, the skipper's run ends behind an item if one is encoded there and
  else in failure, exactly when no string length carries the 64-bit cursor around the address space and
  no map head that announces 2^63 entries or more has as many items encoded behind it as its wrapped
  count asks for (`Cbor.EveryStartExact`). Concrete inputs show each failure: a map accepted without entries, a cursor moved backwards, and ten bytes read for ever.

## Where code and comments disagree

- `tsm/src/hyper.rs:1254-1260` says that the declared region lets the fault handler proceed. The
  handler never looks at regions; the model follows the code.
- `shadowfax/src/cove.rs:283-288` says that a return removes the last memory region. The branch is
  empty, so the regions opened for information calls stay (`ContextSwitch.InfoCallsBounded`).
- `tsm/src/hyper.rs:708-723` finalizes with a hasher that is reset afterwards, so a second finalize
  digests nothing (`Measurement.SecondFinalize`).

## Model

| member | source | states |
|---|---|---|
| Memory.StoreLoad | tsm/src/hyper.rs:77-132 | a stored page-table word reads back, and every word the store does not overlap is unchanged |
| PageTable.PointerEntry | tsm/src/hyper.rs:88-93 | the assembled entry of an aligned table is valid, is no leaf and leads back to its table |
| PageTable.WalkShaped | tsm/src/hyper.rs:137-194 | on a directory built by the mapping code the walk meets no huge page and finds exactly the mapped pages |
| PageTable.TranslateIsLookUp | tsm/src/hyper.rs:137-194 | the concrete walk equals the abstract look-up for every guest address |
| PageTable.EnterL1 | tsm/src/hyper.rs:84-97 | level 2: links the L1 table on demand and touches nothing else |
| PageTable.EnterL0 | tsm/src/hyper.rs:99-119 | level 1: links the L0 table of the page or fails exactly when it has none in the directory |
| PageTable.WriteLeaf | tsm/src/hyper.rs:121-131 | level 0: the leaf maps the page with the given flags, V and U; no other leaf word and nothing outside the directory changes |
| PageTable.Map4kLeaf | tsm/src/hyper.rs:77-132 | one mapping call keeps the shape, updates the view by exactly one page (and its gigabyte) and the leaf words by exactly one word, fails exactly without a leaf table, and stores only inside the directory |
| PageTable.LeafBits | tsm/src/hyper.rs:121-131 | bit by bit: of the ten flags of a leaf V and U are set and every other is as given, and its frame is that of the address |
| Mapping.MapRegion | tsm/src/hyper.rs:197-204 | the loop performs the mapping calls of consecutive pages and fails exactly when one page has no leaf table |
| Mapping.RegionApplied | tsm/src/hyper.rs:197-204 | below one gigabyte a region maps exactly its pages to consecutive frames and keeps all others |
| Mapping.RunLooksUp | tsm/src/hyper.rs:77-204 | for every run of calls: an address translates exactly when its gigabyte was touched and an alias of its page is mapped, to the last such frame |
| Mapping.GigabyteRun | tsm/src/hyper.rs:77-204 | within one gigabyte the directory is a last-write-wins map on every address |
| Mapping.GigabytesExact | tsm/src/hyper.rs:99-119 | for every run: the directory is a last-write-wins map at all addresses if and only if the gigabytes in use were written alike |
| Mapping.RunRefinementExact | tsm/src/hyper.rs:77-194 | the same of the concrete walk over memory |
| Mapping.Disagreement | tsm/src/hyper.rs:99-119 | for every other run, a concrete address where the directory and the last-write map differ |
| Mapping.RunRefinement | tsm/src/hyper.rs:77-194 | the concrete walk over memory after any run in one gigabyte equals the last write |
| Mapping.RunRefinementAliased | tsm/src/hyper.rs:77-194 | the same without a bound on the addresses, in terms of aliases |
| Mapping.FlaggedLeaf | tsm/src/hyper.rs:121-194 | behind every translating address: the frame and each flag of its leaf |
| GuestMemory.ReadGuestMemory | tsm/src/hyper.rs:208-223 | succeeds exactly when the range stays in its page and is mapped, and returns the guest's bytes |
| GuestMemory.WriteGuestMemory | tsm/src/hyper.rs:226-238 | same condition; stores exactly the data at the translated address; a failure changes nothing |
| GuestMemory.WriteThenRead | tsm/src/hyper.rs:208-238 | round trip: what was written is what the guest reads |
| GuestMemory.WriteElsewhere | tsm/src/hyper.rs:226-238 | under an injective mapping no other guest byte changes |
| GuestMemory.WriteKeepsTranslations | tsm/src/hyper.rs:226-238 | a write into a mapped frame outside the directory changes no translation |
| Hypervisor.ScanBlocks | tsm/src/hyper.rs:655-667 | the first block that covers a range, or an overflow before it |
| Hypervisor.ScanExact | tsm/src/hyper.rs:655-667 | the scan hits block k if and only if k is the first that covers the range and no block up to it runs over the address space |
| Hypervisor.HypervisorState.AddConfidentialPages | tsm/src/hyper.rs:264-272 | appends an unowned block and changes nothing else |
| Hypervisor.HypervisorState.FindConfidentialBlockIdxCovering | tsm/src/hyper.rs:655-667 | the loop finds the first covering block |
| Hypervisor.HypervisorState.CreateTvm | tsm/src/hyper.rs:274-325 | refused with a TVM present, an unaligned directory or a range outside tracked blocks, and then changes nothing; stops on overlap or overflow; else takes the two blocks, zeroes the directory and starts an empty TVM |
| Hypervisor.OwnedExact | tsm/src/hyper.rs:274-325 | exactly the first blocks that cover the directory and the state page become the TVM's |
| Hypervisor.HypervisorState.FinalizeTvm | tsm/src/hyper.rs:327-341 | records entry state and the digest of what was absorbed |
| Hypervisor.HypervisorState.DestroyTvm | tsm/src/hyper.rs:343-352 | drops the TVM and clears the directory it used |
| Hypervisor.HypervisorState.AddTvmMemoryRegion | tsm/src/hyper.rs:354-398 | accepted exactly for an initializing TVM and an aligned, non-empty range disjoint from all regions; then appended |
| Hypervisor.HypervisorState.AddTvmMeasuredPages | tsm/src/hyper.rs:400-495 | all checks in order; copies, absorbs in order, maps; a refusal changes nothing |
| Hypervisor.HypervisorState.AddTvmZeroPages | tsm/src/hyper.rs:497-567 | the checks in order; maps without writing; a refusal changes nothing |
| Hypervisor.HypervisorState.CreateTvmVcpu | tsm/src/hyper.rs:569-586 | the VCPU is recorded or the call is refused and changes nothing |
| Hypervisor.HypervisorState.RunTvmVcpu | tsm/src/hyper.rs:588-652 | a run is accepted exactly for a runnable TVM with a VCPU and installs its directory |
| Hypervisor.HypervisorState.ReclaimPages | tsm/src/hyper.rs:614-639 | removes the first matching block and zeroes it, only without a TVM |
| Covh.HandleCovh | tsm/src/main.rs:189-293 | the dispatcher takes exactly one step of the call relation, for all register values |
| Covh.FailedCallsAreAtomic | tsm/src/main.rs:189-293 | a call answered with an error leaves TVM, blocks, measurement and memory alone |
| Covh.SaneKept | tsm/src/hyper.rs:274-325 | every call keeps the directory address of the TVM valid |
| Covh.InfoAndConvert | tsm/src/main.rs:207-222 | functions 0 and 1 in registers: where the record is stored and which block is tracked |
| Covh.ReclaimInRegisters | tsm/src/main.rs:223-227 | function 2: refused exactly with a TVM or without such a block; a success clears the range |
| Covh.CreateInRegisters | tsm/src/main.rs:228-249 | functions 5 and 8: the new record, and what is dropped and cleared |
| Covh.CreateExact | tsm/src/hyper.rs:274-325 | a create call is accepted if and only if there is no TVM, the directory is aligned, both ranges lie in tracked blocks and the state page lies off the directory; then these blocks are taken and the directory is cleared |
| Covh.CreateHalts | tsm/src/hyper.rs:274-325 | exactly which create calls stop the TSM; the others are accepted or refused |
| Covh.FinalizeInRegisters | tsm/src/main.rs:250-254 | function 6: entry from a1, a2, a3; refused exactly without a TVM |
| Covh.RegionInRegisters | tsm/src/main.rs:255-261 | function 9: when a region is accepted, refused or stops the TSM, and the region it adds |
| Covh.FillInRegisters | tsm/src/main.rs:262-276 | functions 11 and 12: which pages are mapped from where, and what is measured |
| Covh.MeasuredFillAccepted | tsm/src/hyper.rs:400-495 | a measured fill is accepted, and refused, exactly so |
| Covh.ZeroFillAccepted | tsm/src/hyper.rs:497-567 | a fill with zero pages is accepted, and refused, exactly so, finalized or not |
| Covh.VcpuInRegisters | tsm/src/main.rs:277-286 | functions 14 and 15: which VCPU is recorded, when the guest is entered, and the mode and directory in hgatp |
| Covh.UnknownInRegisters | tsm/src/main.rs:291 | every other function identifier is refused and changes nothing |
| Lifecycle.BlocksStep | tsm/src/hyper.rs:264-352 | only convert, reclaim and create touch the block list, and how |
| Lifecycle.BlocksConserved | tsm/src/hyper.rs:264-272 | over every run: blocks at the end plus reclaimed ones are the initial ones plus converted ones |
| Lifecycle.ReclaimExact | tsm/src/hyper.rs:614-639 | a successful reclaim drops exactly the first matching block, keeps the order of the rest, and leaves its range zero and all other memory alone |
| Lifecycle.LifeInvStep | tsm/src/main.rs:189-293 | every returning call of a benign host keeps the lifecycle invariant |
| Lifecycle.LifecycleInvariant | tsm/src/hyper.rs:354-567 | the invariant holds after every benign run |
| Lifecycle.TranslatedIsDeclared | tsm/src/hyper.rs:354-567 | under it, an address that translates lies in exactly one declared region and its frame in a tracked block |
| Gigabytes.TableInvariant | tsm/src/hyper.rs:400-567 | over every run that leaves the directory alone, the directory is the log of the pages of accepted fills |
| Gigabytes.DeclaredExact | tsm/src/hyper.rs:99-119 | over every such run, with regions anywhere: all translating addresses are declared if and only if, for any two filled pages, the page with the low number of the second in the gigabyte of the first is declared |
| Gigabytes.FilledPagesOpen | tsm/src/hyper.rs:460-567 | over every such run each page of the guest is valid, readable, writable, executable and the guest's own, and marked neither accessed nor dirty |
| Gigabytes.SharedTableRun | tsm/src/main.rs:189-293 | six CoVH calls, all accepted, after which an address of no region translates |
| DirectoryReach.UnreachedExact | tsm/src/hyper.rs:519-535 | over every run that leaves the directory alone: no guest address translates into the page directory if and only if the last fill of each low page number has its frame off it |
| DirectoryReach.DirectoryFillRun | tsm/src/main.rs:189-293 | four CoVH calls, all accepted, after which a guest address translates to the page directory |
| GuestEntry.EnteredExact | tsm/src/hyper.rs:588-612 | over every run: a run call enters the guest if and only if it names TVM 1 and, since the TVM was created, a finalize and a VCPU call were accepted |
| GuestEntry.RegionsFixed | tsm/src/hyper.rs:354-398 | after a finalize the regions and the directory address stay until the TVM is destroyed |
| GuestEntry.NeverForeign | tsm/src/hyper.rs:519-535 | over every run no fill is refused because of the owner of its block |
| Measurement.MeasInvStep | tsm/src/hyper.rs:400-495 | every returning call of an orderly host keeps measurement and guest memory in step |
| Measurement.MeasurementInvariant | tsm/src/hyper.rs:400-495 | the same after every orderly run |
| Measurement.DigestInvariant | tsm/src/hyper.rs:725-727 | after every run of any host the hasher has absorbed the measured pages in call order |
| Measurement.FirstFinalize | tsm/src/hyper.rs:327-341 | for any host the first finalize stores the digest of all measured pages in call order |
| Measurement.MeasuredIsSeen | tsm/src/hyper.rs:460-495 | every measured byte is the byte the guest reads at its address |
| Measurement.MeasurementStays | tsm/src/hyper.rs:354-612 | over every run without finalize and destroy the measurement does not change, for any host |
| Measurement.MeasurementStable | tsm/src/hyper.rs:327-612 | after the first finalize and any such run the measurement is still the digest of the pages measured before it |
| Measurement.SecondFinalize | tsm/src/hyper.rs:708-723 | for any host a second finalize stores the digest of the empty stream |
| GuestImage.ImageOnPage | tsm/src/hyper.rs:1002-1120 | with page-disjoint segments a page shows its own segment's file bytes and zeros |
| EagerLoader.SegmentPages | tsm/src/hyper.rs:1040-1090 | the two fill calls of a segment cover exactly the pages it loads |
| EagerLoader.MeasuredFillExact | tsm/src/hyper.rs:400-495 | on a guest loaded so far, what a measured fill from the pool answers |
| EagerLoader.ZeroFillExact | tsm/src/hyper.rs:497-567 | the same of a fill with zero pages |
| EagerLoader.LoadSegment | tsm/src/hyper.rs:1024-1090 | one PT_LOAD segment: its exact answer; when accepted it adds exactly its pages, showing the image, takes as many pool pages and measures the image on its file pages |
| EagerLoader.BootstrapLoadElf | tsm/src/hyper.rs:1002-1120 | the exact answer to a load; when accepted it leaves a runnable TVM with the given entry whose pages hold the image and the rest of RAM, and the measurement is the digest of the image on the pages with file bytes, in file order |
| LoadAcceptance.SegmentAccepted | tsm/src/hyper.rs:1024-1090 | with room in the pool a segment is accepted if and only if its file bytes exist and have a scratchpad and it ends in the RAM, or in the address space when it fills no page |
| LoadAcceptance.SegmentRefusals | tsm/src/hyper.rs:1040-1075 | a segment with file bytes is refused without a scratchpad or above the RAM, and stops the TSM when the file is too short |
| LoadAcceptance.LoadExact | tsm/src/hyper.rs:1002-1120 | on a monitor without a TVM whose blocks hold directory, state page and pool, a file with page-disjoint segments loads if and only if that holds of each; the pool never runs out |
| LoadRuns.SkippedPageRun | tsm/src/hyper.rs:1052-1088 | every unaligned segment without file bytes that ends in the RAM is loaded into a runnable TVM in which its first byte is not mapped |
| LoadRuns.LazyHeadRun | tsm/src/hyper.rs:1002-1270 | for every unaligned segment with file bytes both loaders start a guest and the first fault is answered; at the segment's address the eager guest reads the file's byte and the lazy guest reads zero |
| LoadRuns.TouchPages | tsm/src/hyper.rs:1122-1208 | faults on distinct pages of the RAM, up to all 512 and in any order, are all answered, and every page then holds the handler's content |
| LoadRuns.TouchRam | tsm/src/hyper.rs:1122-1270 | the same from a fresh monitor and any whole file, and what the guest reads |
| LoadRuns.PoolExhausted | tsm/src/hyper.rs:1131-1135 | one fault more ends in a panic |
| EagerLoader.EagerBytes | tsm/src/hyper.rs:1002-1120 | every mapped page reads as the image, byte for byte |
| EagerLoader.EagerByteAt | tsm/src/hyper.rs:1002-1120 | the same by guest address |
| EagerLoader.EagerPages | tsm/src/hyper.rs:1024-1110 | exactly which guest pages end up mapped |
| EagerLoader.EagerPagesOpen | tsm/src/hyper.rs:460-567 | every page of the loaded guest is readable, writable and executable to it |
| EagerLoader.EagerFramesDistinct | tsm/src/hyper.rs:1024-1110 | distinct guest pages sit in disjoint pool pages, and the pool is used without gaps |
| EagerLoader.EagerTail | tsm/src/hyper.rs:1092-1110 | all RAM above the highest segment is mapped and zero |
| EagerLoader.EagerSegmentExact | tsm/src/hyper.rs:1052-1088 | a segment is right on all its bytes if and only if it is empty, has file bytes, or starts at a page |
| EagerLoader.FirstByteLost | tsm/src/hyper.rs:1052-1088 | otherwise its first byte is not mapped |
| LazyLoader.RootRoundTrip | tsm/src/hyper.rs:642-652 | the root the fault handler reads back is the installed one modulo 2^56, so it is the same if and only if it lies below |
| LazyLoader.FaultHandler.HandlePageFault | tsm/src/hyper.rs:1122-1208 | a fault is answered if and only if a pool page is left, the page lies below 4 MiB in its gigabyte and every segment can be copied, and reads behind the file if and only if the first segment that cannot be copied is not in it; when answered one page is filled and mapped |
| LazyLoader.FaultHandler.FillPage | tsm/src/hyper.rs:1145-1184 | the page holds the content of all segments, or the first segment that cannot be copied decides the ending (`CopyExact`, `FillExact`) |
| LazyLoader.CopyExact | tsm/src/hyper.rs:1148-1181 | one segment is copied if and only if its ends are addresses and the file has every byte it puts on the page |
| LazyLoader.FaultExact | tsm/src/hyper.rs:1122-1208 | how a fault ends, in terms of segments, file and pool |
| LazyLoader.WholeFileAnswers | tsm/src/hyper.rs:1122-1208 | with a whole file, a page left in the pool and an address below 4 MiB a fault is answered |
| LazyLoader.FilesInside | tsm/src/hyper.rs:1175-1181 | a file that holds every segment is never read past its end |
| LazyLoader.FaultView | tsm/src/hyper.rs:1122-1208 | the directory gains exactly the faulting page, and only the pool page and the directory are written |
| LazyLoader.FaultAllocates | tsm/src/hyper.rs:1122-1208 | a fault on an unmapped page takes exactly one more pool page |
| LazyLoader.FaultKeeps | tsm/src/hyper.rs:1122-1208 | it changes no existing translation and no byte reachable through one |
| LazyLoader.FaultRunAllocates | tsm/src/hyper.rs:1122-1208 | over a run of k faults exactly k pairwise distinct pool pages are used, with the guest writing in between |
| LazyLoader.FaultRunKeeps | tsm/src/hyper.rs:1122-1208 | a translation, once there, stays for the rest of the run |
| LazyLoader.FaultRunOpen | tsm/src/hyper.rs:1186-1199 | over every run of faults each page of the guest is readable, writable, executable, and marked accessed and dirty |
| LazyLoader.FaultInstalls | tsm/src/hyper.rs:1148-1208 | the page a fault installs reads as the handler's content |
| LazyLoader.LazyIsImage | tsm/src/hyper.rs:1148-1190 | over page-aligned segments that content is the image |
| LazyLoader.LazyByteExact | tsm/src/hyper.rs:1148-1190 | in general a file byte is copied if and only if its page starts at or after the segment |
| LazyLoader.LazyPageExact | tsm/src/hyper.rs:1148-1190 | a page of the handler is the image's page if and only if no file byte other than zero is lost at its head |
| LazyLoader.LazyRefinesEager | tsm/src/hyper.rs:1002-1208 | over page-aligned segments the installed page equals the eager loader's page |
| LazyLoader.LazyEagerExact | tsm/src/hyper.rs:1002-1208 | with no alignment the two agree if and only if the same condition holds |
| LazyLoader.QuietRunContent | tsm/src/hyper.rs:1122-1208 | at the end of a run of faults without other writes every page that translates holds the handler's content |
| LazyLoader.QuietRunExact | tsm/src/hyper.rs:1002-1208 | at the end of such a run every page mapped by both loaders is the same if and only if no file byte other than zero was lost at its head |
| LazyLoader.BootstrapLoadElfLazy | tsm/src/hyper.rs:1210-1270 | accepts exactly when the pool lies in the address space and the TVM can be created; then leaves a runnable TVM with an empty directory, one region, the digest of nothing as measurement and the lazy state, where every run of faults can start |
| ContextSwitch.PackA6Parts | shadowfax/src/cove.rs:25-29 | domain and function packed into a6 unpack again |
| ContextSwitch.BootedInv | shadowfax/src/state.rs:121-162 | the state after initialization satisfies the driver's invariant |
| ContextSwitch.BootedRegions | shadowfax/src/state.rs:121-162 | the booted lists are programmed exactly as written, and the TSM starts inside its own memory |
| ContextSwitch.TrapCases | shadowfax/src/cove.rs:139-296 | from every state of the invariant, what a trap does by the domain it names |
| ContextSwitch.TrapExact | shadowfax/src/cove.rs:139-296 | from every state of the invariant, exactly which traps are carried out, by domain and function, in terms of registers, region lists and the environment |
| ContextSwitch.CallRegions | shadowfax/src/cove.rs:193-255 | the list of the TSM after a call that is carried out, by function |
| ContextSwitch.InfoCallOpens | shadowfax/src/cove.rs:196-222 | an information call adds one region: the smallest block from 8 bytes up that holds a1 bytes, at a0; its entry allows everything there and is exactly that block if and only if a0 is a multiple of its size, as for every record of at most a page |
| ContextSwitch.ErrorResumes | shadowfax/src/cove.rs:152-155 | a trap to a domain from 3 on resumes its caller with -1 in a0, 0 in a1 and the program counter four on, and changes nothing else |
| ContextSwitch.InvStep | shadowfax/src/cove.rs:139-296 | every trap keeps the TSM's boot context and the layout of contexts and domains |
| ContextSwitch.CallEnters | shadowfax/src/cove.rs:163-192 | a call enters the TSM with boot registers, the caller's arguments and the caller's id, and notes where the caller is saved |
| ContextSwitch.EveryCallEnters | shadowfax/src/cove.rs:163-192 | the same for each call of every run |
| ContextSwitch.ReturnResumesCall | shadowfax/src/cove.rs:265-295 | over every run a return resumes the latest call with all its registers except a0, a1, a6 and four bytes of program counter per return |
| ContextSwitch.AnsweredCall | tsm/src/main.rs:172-186 | a TSM that answers with the a6 it got resumes its caller behind the call, with the result in a0 and a1 |
| ContextSwitch.InfoOrderExact | shadowfax/src/cove.rs:208-214 | the order is the smallest, from 3 up, whose block holds the record |
| ContextSwitch.InfoRegionExact | shadowfax/src/cove.rs:196-222 | for a record of at most a page the opened entry is exactly the block at its address |
| ContextSwitch.InfoCallsBounded | shadowfax/src/cove.rs:196-222 | a run without page conversions holds at most six information calls |
| ContextSwitch.TsmEntriesStayOpen | shadowfax/src/cove.rs:290-295 | over every run, after a return entry 0 holds the caller's region and all other entries are those of the latest call, so every region of the TSM's list but the first stays open |
| ContextSwitch.TsmDriver.constructor | shadowfax/src/domain.rs:131-176 | the driver starts in the booted state |
| ContextSwitch.TsmDriver.StoreError | shadowfax/src/cove.rs:476-484 | error code in a0, zero in a1, program counter moved on |
| ContextSwitch.TsmDriver.PassArguments | shadowfax/src/cove.rs:171-191 | saves the trapped context for the caller and copies exactly a0 to a7 |
| ContextSwitch.TsmDriver.CovhHandler | shadowfax/src/cove.rs:139-296 | the handler computes the specified outcome; each entry of the target's list then allows everything on its region, and behind the list the PMP is as before |
| Pmp.EntryExact | shadowfax/src/cove.rs:487-500 | an entry decodes as NAPOT to its region if and only if the base is a multiple of the size |
| Pmp.EntryOpens | shadowfax/src/cove.rs:490-498 | the entry is NAPOT, readable, writable, executable and unlocked, and exact if and only if the base is a multiple of the size |
| Pmp.EntryCovers | shadowfax/src/cove.rs:487-500 | it covers its region if and only if aligned, or the bit below the order is set and the entry overshoots |
| Pmp.OnlyByte | shadowfax/src/cove.rs:529-562 | the masked write changes one configuration byte and keeps the other seven |
| Pmp.PmpRegisters.WritePmpcfg | shadowfax/src/cove.rs:529-562 | writes the byte of the entry, and stops exactly for entries from 8 on |
| Pmp.PmpRegisters.ProgramPmpFromRegions | shadowfax/src/cove.rs:487-500 | succeeds exactly for at most eight regions of orders 3 to 33; each entry then allows everything on its region, later entries are unchanged |
| ListArena.PreorderHasKey | guests/coremark/core_list_join.c:499-595 | every total preorder is the order of keys, so sorting by keys covers all such comparators |
| ListArena.Arena.CalcFunc | guests/coremark/core_list_join.c:69-114 | returns the cached value, computing and caching it on the first call with one step of the checksum, and keeps the high byte |
| ListArena.Arena.RawValueIs | guests/coremark/core_list_join.c:77-106 | which kernel an uncached word runs and with which data byte |
| ListArena.Arena.Compare | guests/coremark/core_list_join.c:120-142 | the sign follows the keys after the call, and keys of items compared before do not change |
| MergeSort.FindSecondRun | guests/coremark/core_list_join.c:519-527 | walks to the second run and counts the first |
| MergeSort.MergeRuns | guests/coremark/core_list_join.c:532-580 | merges the next two runs in place, sorted and stable |
| MergeSort.SortPass | guests/coremark/core_list_join.c:508-584 | one pass doubles the width of the sorted runs and counts its merges |
| MergeSort.CoreListMergesort | guests/coremark/core_list_join.c:499-595 | a NULL-ended chain of the same nodes, sorted and stable for every orderly comparator; links and data words outside the list are not written |
| BenchList.CoreListFind | guests/coremark/core_list_join.c:434-449 | the first matching item, or NULL when none matches |
| BenchList.CoreListReverse | guests/coremark/core_list_join.c:464-476 | the chain in reverse; other nodes keep their links |
| BenchList.CoreListRemove | guests/coremark/core_list_join.c:376-389 | swaps data with the successor and unlinks it |
| BenchList.CoreListUndoRemove | guests/coremark/core_list_join.c:407-419 | links the node back and swaps data again |
| BenchList.UndoRestores | guests/coremark/core_list_join.c:376-419 | removing and undoing restores every link and data pointer |
| BenchList.CacheNext | guests/coremark/core_list_join.c:186-197 | moves the found item's successor to the second place of the same list |
| BenchList.FindRound | guests/coremark/core_list_join.c:175-198 | one find on the links is one find on the list as a sequence: first match, reversal, move of the successor, and the bit it adds |
| BenchList.FindRounds | guests/coremark/core_list_join.c:170-203 | all finds: the list, the next index and the 16-bit sum of bits, hits and misses |
| BenchList.NextIdxIs | guests/coremark/core_list_join.c:197-198 | the index looked for steps by one and wraps as a signed 16-bit number |
| BenchList.BitsOfWord | guests/coremark/core_list_join.c:178-187 | which bits of a word count for a hit and for a miss |
| BenchList.SortByData | guests/coremark/core_list_join.c:205-206 | the stable order by value, with every value cached |
| BenchList.CrcFrom | guests/coremark/core_list_join.c:213-217 | one checksum step on the word of the head for each node from the given one on |
| BenchList.RemoveAndUndo | guests/coremark/core_list_join.c:207-221 | the checksum of the list without its third node, with links and data pointers as before afterwards |
| BenchList.SortByIdx | guests/coremark/core_list_join.c:133-142 | the sort by index compares every item at least once, so every low byte is restored from its high byte |
| BenchList.SortedUnique | guests/coremark/core_list_join.c:224-230 | with distinct indices there is only one sorted arrangement |
| BenchList.RestorationExact | guests/coremark/core_list_join.c:158-235 | the list is restored if and only if it started sorted by index with clean low bytes |
| BenchList.CoreBenchList | guests/coremark/core_list_join.c:158-235 | a pass ends with the same nodes in index order, the same data pointers and all data restored from the backups, writes nothing outside the list, leaves the whole arena as it was when the list started sorted and clean, and returns the checksum of the finds, of the list they and the sort by value leave, and of the final list |
| Cbor.HeadExact | guests/attestation.c:115-149 | a head is read if and only if its encoding stands there |
| Cbor.SkipIsSound | guests/attestation.c:152-186 | what is skipped without a wrapped map count or cursor is the encoding of an item, which is returned |
| Cbor.SkipIsComplete | guests/attestation.c:152-186 | the encoding of every item is skipped to its end |
| Cbor.SkipExact | guests/attestation.c:152-186 | a skip ends at a place without wrapping if and only if an item is encoded up to there |
| Cbor.StringBackExact | guests/attestation.c:163-168 | a string passes the bounds test with the cursor moved back if and only if pointer and length add up past 2^64 |
| Cbor.WrapsStringBytes | guests/attestation.c:163-168 | which bytes these are: `5b` or `7b` and a length that large |
| Cbor.HugeMapExact | guests/attestation.c:172-176 | the doubled count of a map wraps if and only if its head is `bb` followed by a byte of at least `80` |
| Cbor.SkipAccepts | guests/attestation.c:152-186 | on bytes without wrapping strings and filled huge maps (a `bb` head behind which as many items are encoded as its count wraps to) the skipper accepts exactly the positions where an item is encoded, and ends there |
| Cbor.RunFollowsSkip | guests/attestation.c:152-186 | the step-by-step run, which need not end, fails, ends behind the item or comes to the wrapped cursor as the skip says |
| Cbor.TameEndsRight | guests/attestation.c:152-186 | a check on the bytes alone under which every run ends right |
| Cbor.EveryStartExact | guests/attestation.c:152-186 | from every place in the buffer the run ends, behind an item if one is encoded there and else in failure, if and only if no string wraps and no huge map is filled with the items its wrapped count asks for |
| Cbor.BackwardString | guests/attestation.c:163-168 | a nine-byte string head accepted with the cursor moved back, though no item is encoded |
| Cbor.LoopForever | guests/attestation.c:163-173 | ten bytes without a huge map on which the skipper never ends |
| Cbor.EmptyHugeMap | guests/attestation.c:172-176 | a nine-byte map head that is accepted though no item is encoded |
| Cbor.Cursor.CborReadHead | guests/attestation.c:115-149 | the reader, with its cursor on success and on failure |
| Cbor.Cursor.CborSkip | guests/attestation.c:152-186 | the recursive skipper computes the specified outcome and cursor address, modulo 2^64, and never passes the end of the buffer |

## Left out

- Trap entry and exit assembly, boot code, the translation cache and the guest's own privileged state: hardware state, not logic.
- Attestation evidence, DICE certificates and signatures: cryptography; the digest is a function parameter.
- ELF header parsing: loaders start from the list of PT_LOAD headers and the file bytes.
- Page ownership records of the driver (`remove_region`, `track_borrow`, `reclaim`): not well-typed as written, so the regions after a convert or reclaim call are an arbitrary value supplied by the environment.
- Domain discovery (`supd_handler`): only reports a constant mask.
- The root domain's context at address zero: a trap that names domain 0 stops in the model, because its region of order 64 cannot be programmed.
- Width of PMP address registers: entries hold the full value the driver writes.
- Heap and stack allocators of the TSM: scratch addresses are arguments, arbitrary and possibly missing.
- Performance counters, logging and console output.
- `core_list_init`, and the CRC step and the two kernels themselves: the pass is proved for every list and for arbitrary functions in their place.
- The benchmark's matrix and state-machine kernels, timing and result printing.
- Raw pointers of the list: nodes are indices of one arena, with -1 for NULL.
- The evidence printer of the CBOR guest, simple values and floats: the reader rejects major type 7.
- Buffers in the last eight bytes of the address space, where reading a head would itself wrap, and the depth of the guest's stack: not modelled for the CBOR reader. Pointer overflow, undefined in C, is taken as 64-bit wrap-around.
- Cbor.Cursor.CborSkip: returns as soon as a string length moves the cursor back, because from there the recursion need not end; the run from there on is `Step`.
- EagerLoader.BootstrapLoadElf: answer and image are stated for page-disjoint segments whose file part fits their memory size, a zeroed pool off the directory and scratch buffers away from both; the loader itself is modelled without these.
- Lifecycle.LifecycleInvariant: the host keeps information records and measured pages off the live directory and regions below one gigabyte; the dispatcher checks none of these.
- Measurement.MeasurementInvariant: measured pages are not measured or mapped a second time over each other; the digest theorems do without this.
- Measurement.FirstFinalize: the copy of each measured call has disjoint source and destination, as a non-overlapping copy demands.
- LazyLoader.FaultRunAllocates: faults are on unmapped pages of the first gigabyte, as the hardware raises them.
