# AlkOS kernel model

A Dafny model of six connected parts of the AlkOS kernel and its support library, with proofs about
every run of them:

- **Virtual memory**: the sorted area list of an address space, the page table that faults fill on
  demand, the TLB that caches it, and the ELF loader with its rollback (`Bits`, `Paging`, `Areas`,
  `VirtualMemory`, `Vmm`, `LoadedSpace`, `Segments`, `Loader`).
- **Scheduling**: policy queues, sleep queue, wait queues and the scheduling pass (`Basics`,
  `WaitQueues`, `BitmapQueue`, `Scheduler`, `SchedulerPass`, `SchedulerOrder`, `SchedulerObject`,
  `SchedulerRuns`), the adaptive policy (`Mqaps`), and the life of threads and processes (`TaskMgr`,
  `TaskMgrObject`, `TaskMgrRuns`, `TaskMgrValues`, `TaskMgrFailures`).
- **Tracing**: the lock-free ring buffer as a protocol of single steps (`Trace`) and as an object used
  by one execution at a time (`TraceBuffers`).
- **Text**: substring search (`StringView`) and the path class built on it (`PathText`, `VfsPath`).
- **Aligned allocation** on bit-mask arithmetic (`KernelHeap`).

## How it is built

Code that updates objects is a class whose methods are tied, clause by clause, to functions on values;
what the code promises is then proved about those functions for every run of operations. Hardware,
clocks, allocators, files and the choice of the next interleaving are parameters or steps of the run.
A failed kernel assertion, and the idle function that always panics, are outcomes of an operation.

Main results:

- `VirtualMemory.EveryRunAgrees`: area list, page table and TLB agree after every run.
- `VirtualMemory.FaultResolvedIff`, `VirtualMemory.FaultMapsExactly`: exactly which faults are resolved, which
  panic, and which single page with which flags and frame a resolved one maps.
- `Loader.Load`: exactly when a load completes; a failed one removes every area it added, and the space is
  the old one if and only if nothing was written to an unmapped page of an older area; headers whose file
  part stays in the pages of their segment are loaded all or nothing, with exactly the file image.
- `Scheduler.RunKeepsInv`, `Scheduler.PreventsIdleIff`, `Scheduler.PassPanicsIff`, `Scheduler.SleepFailsIff`:
  every thread is in the one queue it belongs to; exactly which policies keep the machine from idling;
  exactly when a pass panics and when a sleep fails.
- `SchedulerPass.PassTimerIs`: which thread runs after a pass and, to the nanosecond, when the timer fires.
- `SchedulerOrder.StepKeepsOrder`, `SchedulerOrder.NoRoundRobinThreadStarves`: every queue is first in, first
  out over every step, so a round-robin thread with `k` threads before it runs after at most `k + 1` choices.
- `SchedulerRuns.BenignRunsNeverPanic`: without those causes no run of any length panics.
- `TaskMgr.EveryRunIsExact`, `TaskMgr.ApplyKeepsInv`: exact counters and stacks; exactly which calls fail.
- `TaskMgrValues.JoinHandsOutExitValue`, `TaskMgrValues.JoinHandsOutStatus`: over every run a join answers with
  the value of the one operation by which the thread left, or with the status with which the process was left.
- `TaskMgrRuns.StrandedIff`, `TaskMgrRuns.StrandedReleasedIff`, `TaskMgrRuns.TrappedForGood`,
  `TaskMgrRuns.ForgottenIff`: exactly when a thread that waits for a process is stranded, what alone releases
  it, and exactly when a process without active threads is never cleaned up.
- `TaskMgrRuns.QueuedOnceIff`: exactly the runs after which every process is queued for cleaning once.
- `Trace.EveryRunAgrees`, `Trace.DumpPrintsStored`, `Trace.DumpTerminates`: the ring buffer under every interleaving.
- `StringView.Find`: the fast search is the first-match specification.
- `VfsPath.Path.RebuildPath`, `VfsPath.ResolvePath`: in-place rebuilding and resolving keep the meaning of a path.
- `KernelHeap.EveryRunFreesRaw`: aligned blocks never overlap and free what they were carved from.

## Where the code does not do what it is meant to do

The model follows the code; each of these has a lemma with the exact condition.

- The bitmap priority queue never sets a bit, so nothing that is inserted ever comes out
  (`BitmapQueue.DeleteMinRightIffNothingQueued`). Consequently a ready thread of one of the three
  priority policies never runs again (`Scheduler.PriorityThreadsStarve`), the machine idles while one is
  ready (`Scheduler.PriorityWorkerIdles`, `Scheduler.PreventsIdleIff`), and the adaptive policy, on
  that queue, never picks a thread (`Mqaps.BuiltInQueuePicksNothing`). `FindLast` never returns the
  last set bit, and without one it reads on below the first byte (`BitmapQueue.FindLastNeverRight`).
- A pass that does not preempt panics when the remaining quantum is the minimal delta to the
  nanosecond: the preemption test is strict one way and the assertion strict the other way
  (`Scheduler.PassPanicsIff`). A sleep fails the assertion in the wake-up loop exactly when each sleeper
  with a deadline that is not later, and then the caller, is due at the reading of its own turn
  (`Scheduler.SleepFailsIff`); with a clock that does not go back it is enough that the caller is due when
  the loop starts (`Scheduler.NearSleepPanics`).
- The wake-up loop compares policy numbers the wrong way round: a woken background thread makes the running one
  give way to the first ready thread, and a woken thread of a policy that is asked earlier does not
  (`SchedulerPass.WakeAsksRightlyIff`, `SchedulerPass.UrgentSleeperWaits`).
- Killing a thread that somebody is joining, or that is waiting to be joined, fails an assertion, and so
  does leaving a process that has another active thread. A joiner that resumes after its target thread or
  process was freed reads freed memory (`TaskMgr.Fails`, `TaskMgr.ApplyKeepsInv`). Each of these has a run
  from the empty machine (`TaskMgrFailures.KillWithJoinerFails`, `TaskMgrFailures.KillOfFinishedFails`,
  `TaskMgrFailures.LeavingSiblingsFails`, `TaskMgrFailures.ResumeAfterReapFails`,
  `TaskMgrFailures.ResumeAfterFreeFails`).
- A process that loses its last active thread by a thread exit or the kill of that thread strands the threads
  that wait for it (`TaskMgrRuns.StrandedIff`), and freeing it fails the assertion that nobody waits for it
  (`TaskMgrFailures.StrandedJoinerFails`). Only a kill of the process by pid releases them, and only once it is
  dead and not freed (`TaskMgrRuns.StrandedReleasedIff`, `TaskMgrFailures.KillReleasesStranded`).
- When that thread is not detached, or a sibling still waits to be joined, the process is not queued for
  cleaning: it stays live without active threads (`TaskMgrRuns.LastExitOutcome`) exactly as long as nobody kills
  it by pid (`TaskMgrRuns.ForgottenIff`, `TaskMgrFailures.KillQueuesForgotten`). Whoever joins it is stranded at
  once (`TaskMgrRuns.JoinStrandsIff`), and from then on that kill fails (`TaskMgrRuns.ForgottenKillIff`), so
  neither gets away unless the joiner is killed (`TaskMgrRuns.TrappedForGood`).
- The value of a thread that exits is lost when no other thread of its process is left, though it is not detached
  (`TaskMgrValues.ExitHoldsValueIff`), and the status of a process is lost to its joiners when it is left by a
  detached thread that is the only one left (`TaskMgrValues.LeaveHoldsStatusIff`).
- Killing a process fails exactly when one of its threads is still joined when its turn comes, or when the
  process is live and somebody waits for it (`TaskMgr.KillProcessIff`, `TaskMgrFailures.KillOrderMatters`,
  `TaskMgrFailures.KillOfJoinedProcessFails`).
- The suicide of a detached thread that is the only one left queues its process for cleaning twice, and the
  second time the reaper fails its assertion (`TaskMgrRuns.QueuedOnceIff`, `TaskMgrFailures.SuicideQueuesTwice`).
- A trace dump that starts while a commit holds a reservation without a range, or has bytes left to copy, prints
  too much or prints cells as they were (`Trace.DumpStartsRightIff`, `Trace.FirstPrinted`, `Trace.RashDump`).
- The loader never compares the file size of a segment with its memory size. File bytes beyond the pages of the
  segment go to whatever area is there; if the load then fails, pages it touched in an older area stay mapped
  (`Loader.FailedLoadLeavesPage`), exactly for the written addresses `LoadedSpace.NoStray` rules out
  (`Loader.Load`), and where there is no writable area the kernel faults (`Segments.FaultsInIff`).
- `AlignUp` returns zero when its addition wraps (`Bits.AlignUpIffNoWrap`); an aligned allocation whose
  size wraps is too small (`KernelHeap.PayloadFitsIff`, `KernelHeap.AllocAlignedKeepsInvIff`).
- Burst times that add up to 2^64 wrap, and the quantum is then not their mean and can be zero
  (`Mqaps.QuantumIsMeanIff`, `Mqaps.WrappedQuantum`).
- An empty area above the start of a gap search that shares its start with a non-empty one takes the search back to an
  occupied address when nothing was found before it and room seems to follow; this is the only way the search
  goes wrong (`Areas.ScanRightIff`, `Areas.EmptyAreaMisleadsGapScan`). An anonymous allocation that is misled
  overwrites the flags of the area it hit before it is refused (`Vmm.Manager.AllocAnonymous`).
- Which physical page a direct mapping uses depends on the byte that faulted unless its physical start is page-aligned
  (`VirtualMemory.DirectFrameIffAligned`).
- Searching for the empty text at the end of a text reports no match, where section
  [string.view.find] of ISO C++ asks for that position (`StringView.Find`).
- A rebuilt path that does not fit the buffer has views outside it (`VfsPath.Path.RebuildPath`).

## Model

| member | source | states |
|---|---|---|
| Bits.PowerOfTwoIff | libs/libcpp/include/bits_ext.hpp:224-228 | the bit test accepts exactly the powers of two |
| Bits.LowMask | libs/libcpp/include/bits_ext.hpp:132-143 | masking with 2^k - 1 is the remainder by 2^k |
| Bits.HighMask | libs/libcpp/include/bits_ext.hpp:166-177 | masking with the complement clears exactly the remainder |
| Bits.AlignDownIsDivision | libs/libcpp/include/bits_ext.hpp:166-177 | the mask form and the division form of `AlignDown` are the same number for every alignment |
| Bits.IsAlignedIsDivisible | libs/libcpp/include/bits_ext.hpp:132-143 | `IsAligned` holds exactly for multiples |
| Bits.AlignUpIffNoWrap | libs/libcpp/include/bits_ext.hpp:153-164 | `AlignUp` is the least multiple not below its argument if and only if the addition does not wrap; otherwise it is zero |
| Paging.PageSpan | kernel/src/hal/mmu.hpp:27-45 | the rounded bounds of a range, computed with the library's alignment, are its page hull |
| Paging.MapRange | kernel/src/hal/mmu.hpp:27-45 | maps the pages of the range to consecutive frames; succeeds exactly when none was mapped, and otherwise stops at the first that was |
| Paging.UnmapRange | kernel/src/hal/mmu.hpp:47-59 | afterwards exactly the pages of the range are gone and all others are untouched |
| Paging.InvalidateRange | kernel/src/hal/tlb.hpp:21-32 | no translation of the range stays cached and no other one is lost |
| Paging.SetRangeFlags | kernel/src/mem/virt/addr_space.cpp:147-163 | every mapped page of the range gets the new flags and keeps its frame; unmapped pages stay unmapped |
| Areas.AddArea | kernel/src/mem/virt/addr_space.cpp:68-98 | accepts exactly the areas that overlap no member, although it stops scanning early; the result is sorted and disjoint |
| Areas.InsertKeepsListWf | kernel/src/mem/virt/addr_space.cpp:68-98 | sorted insertion of a non-overlapping area keeps the list sorted and pairwise disjoint |
| Areas.OwnerIsUnique | kernel/src/mem/virt/addr_space.cpp:100-107 | in a disjoint list an address has at most one owner |
| Areas.FindAreaLocked | kernel/src/mem/virt/addr_space.cpp:168-194 | returns the unique area that contains the address, or the end exactly when there is none |
| Areas.FindGap | kernel/src/mem/virt/addr_space.cpp:196-240 | for a positive size the answer is the lowest page-aligned gap in range, or NotFound exactly when none exists, if and only if no empty area misleads the scan; a misled scan returns the start of a non-empty area |
| Areas.SearchBounds | kernel/src/mem/virt/addr_space.cpp:196-207 | the searched range runs from the first page boundary not below the start to the last one not above the end, or to the last page of the address word for a null end |
| Areas.ScanRightIff | kernel/src/mem/virt/addr_space.cpp:208-240 | from any point of the scan the answer is right exactly when no area still ahead is an empty one that shares its start with a non-empty one, lies above the search start, has no gap below it and seems to have room after it |
| Areas.OrderedIsNotMisled | kernel/src/mem/virt/addr_space.cpp:196-240 | a list in which every area ends before the next starts misleads no search |
| Areas.GapNeverCollides | kernel/src/mem/virt/vmm.cpp:127-146 | an area placed in a found gap is never refused for overlap |
| Areas.EmptyAreaMisleadsGapScan | kernel/src/mem/virt/addr_space.cpp:208-230 | a well-formed list with an empty area for which the scan returns an occupied address |
| Areas.PositiveAreasAreOrdered | kernel/src/mem/virt/addr_space.cpp:196-240 | lists of non-empty areas are in that order |
| Areas.InsertKeepsOrderedIff | kernel/src/mem/virt/addr_space.cpp:68-98 | an accepted area keeps the list in that order if and only if it is not an empty one that starts where a non-empty one does |
| VirtualMemory.AddKeepsSpaceInv | kernel/src/mem/virt/addr_space.cpp:68-98 | adding an area keeps every mapped page in exactly one area with that area's flags and frame rule |
| VirtualMemory.RemoveKeepsSpaceInv | kernel/src/mem/virt/addr_space.cpp:109-128 | so does removing one, which unmaps exactly its pages |
| VirtualMemory.UpdateKeepsSpaceInv | kernel/src/mem/virt/addr_space.cpp:130-166 | so does changing the flags of one |
| VirtualMemory.FaultKeepsSpaceInv | kernel/src/mem/virt/area.cpp:21-116 | so does a page fault, resolved or not |
| VirtualMemory.FaultResolvedIff | kernel/src/mem/virt/area.cpp:44-116 | for every fault and every area list: it is resolved if and only if an area holds the address, the page is not present and the area allows the access and its frame can be had; it panics exactly for a write to a read-only area |
| VirtualMemory.FaultMapsExactly | kernel/src/mem/virt/page_fault.cpp:93-128 | a resolved fault maps the page of the address and no other, with the flags of its area and the frame of its kind; an unresolved one changes nothing |
| VirtualMemory.DirectFrameIffAligned | kernel/src/mem/virt/area.cpp:98-116 | the physical page of a direct-mapped page does not depend on the byte that faulted if and only if the physical start is page-aligned |
| VirtualMemory.FlushSuffices | kernel/src/mem/virt/vmm.cpp:103-125 | flushing the range of the changed area leaves no stale translation |
| VirtualMemory.ApplyKeepsFrames | kernel/src/mem/virt/area.cpp:66-92 | no step makes two anonymous pages share a frame |
| VirtualMemory.ApplyKeepsTlb | kernel/src/mem/virt/vmm.cpp:87-125 | every step leaves each cached translation equal to the current space's entry |
| VirtualMemory.ApplyKeepsMachineInv | kernel/src/mem/virt/page_fault.cpp:93-128 | every step of any kind keeps the three representations in agreement |
| VirtualMemory.RunKeepsMachineInv | kernel/src/mem/virt/vmm.cpp:87-125 | so does every run |
| VirtualMemory.EveryRunAgrees | kernel/src/mem/virt/addr_space.cpp:68-166 | after any run from the start, a mapped page has one owner, that owner's flags and frame, and a cached translation is current |
| Vmm.AddressSpace.AddArea | kernel/src/mem/virt/addr_space.cpp:68-98 | the object's new value, and both errors with their exact conditions |
| Vmm.AddressSpace.RmArea | kernel/src/mem/virt/addr_space.cpp:109-128 | removes the owner with its pages, returns its range, and reports NotFound exactly without an owner |
| Vmm.AddressSpace.UpdateAreaFlags | kernel/src/mem/virt/addr_space.cpp:130-166 | re-flags area and pages, only when called with the start of an area |
| Vmm.Manager.SwitchAddrSpace | kernel/src/mem/virt/vmm.cpp:87-92 | the new space and the TLB agree |
| Vmm.Manager.RmArea | kernel/src/mem/virt/vmm.cpp:103-112 | after removal in any space the current space and the TLB agree |
| Vmm.Manager.UpdateAreaFlags | kernel/src/mem/virt/vmm.cpp:114-125 | after a flag change in any space the current space and the TLB agree |
| Vmm.Manager.PageFault | kernel/src/mem/virt/page_fault.cpp:93-128 | resolved exactly for the resolvable faults, and then exactly the page of the address is mapped with the flags and frame of its area; a new anonymous frame is zeroed |
| Vmm.Manager.AllocAnonymous | kernel/src/mem/virt/vmm.cpp:127-146 | the new space for every page-multiple size and every list; unless the search is misled the lowest gap becomes an area, an overlap is never reported and an error changes nothing; if it is misled, the flags of a present area are overwritten and the call reports an invalid argument |
| LoadedSpace.FileWithinMemoryIsInHull | kernel/src/sys/loader.cpp:128-130 | a segment whose file size does not exceed its memory size, as chapter 5 of the System V gABI demands, has its file part in its own pages |
| LoadedSpace.PermissionsAre | kernel/src/sys/loader.cpp:133-137 | bit 2 of the header flags gives read, bit 1 write and bit 0 execute permission, and nothing else does |
| LoadedSpace.TouchKeepsBytes | kernel/src/mem/virt/area.cpp:66-92 | faulting a page in changes no byte any address reads |
| LoadedSpace.OldOwnerIff | kernel/src/sys/loader.cpp:96-113 | while a load is under way an address belongs to an area from before exactly when its present owner is not one the load added |
| LoadedSpace.ExtendsTouch | kernel/src/mem/virt/area.cpp:66-116 | the first write to a page adds a page of a new area or a stray page of an old one, and nothing else |
| LoadedSpace.RolledBack | kernel/src/sys/loader.cpp:96-113 | a space whose new areas are all removed has the old areas, the old pages and the stray ones; it is the old space if and only if nothing strayed |
| Segments.Store | kernel/src/sys/loader.cpp:160-174 | a store through the fault path changes exactly one byte of memory, and faults for good exactly outside the writable areas |
| Segments.WriteBytes | kernel/src/sys/loader.cpp:160-174 | a write of any length changes exactly its bytes, faulting pages in as it goes, and stops exactly when one of them has no writable area |
| Segments.FaultsInIff | kernel/src/sys/loader.cpp:160-167 | copying the file part faults exactly when one of its bytes lies outside the segment's pages and in no writable area |
| Segments.ShortReadIff | kernel/src/sys/loader.cpp:160-167 | a read is short if and only if there is something to read and the call fails, delivers too little, or the file ends before |
| Segments.FillSegment | kernel/src/sys/loader.cpp:160-174 | fault, short read and success with their exact conditions, and exactly the bytes of the image written |
| Segments.LoadSegment | kernel/src/sys/loader.cpp:116-185 | one segment of any sizes: refused, truncated, faulting or placed, each with its exact condition; the new area with its range and its permissions, and memory changed by exactly the image |
| Loader.InHullSparesOld | kernel/src/sys/loader.cpp:123-174 | headers whose file part stays in the pages of their segment write to no area from before |
| Loader.SegmentHasItsArea | kernel/src/sys/loader.cpp:123-150 | a loaded segment has an area over exactly its pages that is readable, writable and executable by bits 2, 1 and 0 of its header, and its mapped pages carry those bits |
| Loader.ImageAt | kernel/src/sys/loader.cpp:123-174 | nor to the segments of each other |
| Loader.InHullLoads | kernel/src/sys/loader.cpp:116-188 | once all of them are loaded every byte of every segment is the file byte or zero |
| Loader.InHullNeverFaults | kernel/src/sys/loader.cpp:160-167 | such a header never makes the kernel fault |
| Loader.PreludeErrorIff | kernel/src/sys/loader.cpp:47-94 | exactly when each of the early errors is reported, with the magic number and the machine type written out |
| Loader.Rollback | kernel/src/sys/loader.cpp:96-113 | removing the first loaded segments gives back the old areas; the page table is the old one and the stray pages, hence the old one exactly without them |
| Loader.RollbackKeepsBytes | kernel/src/sys/loader.cpp:96-113 | after the rollback, memory that was there before reads as it did except where it was written to |
| Loader.Load | kernel/src/sys/loader.cpp:47-191 | completes exactly when every header is placed, writable and read in full; on failure why and at which header, the old areas, the old space if and only if nothing strayed, and unconditionally so for in-hull headers; on success the area list, for every segment an area over exactly its pages with the permission bits of its header, the image over the old memory, and the exact file contents for in-hull headers |
| Loader.OverlongStrays | kernel/src/sys/loader.cpp:160-167 | one header with a byte more than its page holds writes to an untouched page of an older area |
| Loader.FailedLoadLeavesPage | kernel/src/sys/loader.cpp:160-167 | loading it with a read error fails and leaves that page mapped |
| StringView.BorderOfBorder | libs/libcpp/include/basic_string_view.hpp:609-627 | borders shorter than a border are borders of it |
| StringView.ComputePrefixTable | libs/libcpp/include/basic_string_view.hpp:609-627 | entry i is the longest proper border of the first i + 1 characters |
| StringView.Find | libs/libcpp/include/basic_string_view.hpp:322-361 | terminates with the least match at or after the start, or npos exactly when there is none, except for the empty text at the very end |
| PathText.SplitRender | kernel/src/fs/vfs/path.hpp:353-418 | parsing a rendered path gives back its components and its absolute flag |
| PathText.SplitIsCanonical | kernel/src/fs/vfs/path.hpp:353-418 | any text renders, once parsed, to a text that parses the same and is no longer |
| PathText.ReparseIffFits | kernel/src/fs/vfs/path.hpp:382-418 | parsing what a rebuild wrote gives them back if and only if the text fits the buffer |
| PathText.NormalizeIsNormal | kernel/src/fs/vfs/path.hpp:242-275 | the normal form has no "." and ".." only as a leading run of a relative path |
| PathText.NormalIsFixed | kernel/src/fs/vfs/path.hpp:242-275 | a path of that shape is its own normal form |
| PathText.NormalizeIdempotent | kernel/src/fs/vfs/path.hpp:242-275 | normalising twice is normalising once |
| PathText.NormalizeKeepsWalk | kernel/src/fs/vfs/path.hpp:242-275 | from any directory, walking the normal form ends where walking the path does |
| VfsPath.NormalizeShrinks | kernel/src/fs/vfs/path.hpp:242-275 | the normal form of a path that fits the buffer fits the buffer |
| VfsPath.CopyView | kernel/src/fs/vfs/path.hpp:399-402 | the forward copy delivers the original text although source and destination may overlap |
| VfsPath.Path.Parse | kernel/src/fs/vfs/path.hpp:353-380 | the views are exactly the components of the text, up to the component limit |
| VfsPath.Path.constructor | kernel/src/fs/vfs/path.hpp:80-88 | a path object holds its text, cut to the buffer, and its components |
| VfsPath.Path.Copy | kernel/src/fs/vfs/path.hpp:90-95 | the copy has the same text and components |
| VfsPath.Path.LayOut | kernel/src/fs/vfs/path.hpp:382-408 | rewriting the buffer the views point into produces the rendering of the components as they were |
| VfsPath.Path.Repoint | kernel/src/fs/vfs/path.hpp:410-417 | each view points at the place of its component in the rendering |
| VfsPath.Path.RebuildPath | kernel/src/fs/vfs/path.hpp:382-418 | the result is a valid path, with the same components, exactly when the text fits |
| VfsPath.Path.Div | kernel/src/fs/vfs/path.hpp:206-221 | absolute right-hand side, too many components, and the join with its exact validity |
| VfsPath.Path.GetParent | kernel/src/fs/vfs/path.hpp:172-192 | the components without the last, or the root or "." |
| VfsPath.ParentThenName | kernel/src/fs/vfs/path.hpp:172-192 | going to the parent and then to the last name leads where the path leads |
| VfsPath.ParentTexts | kernel/src/fs/vfs/path.hpp:172-192 | the parent of the root is the root, of a single name the root or ".", and else what stands before the name |
| VfsPath.Path.GetWeaklyCanonical | kernel/src/fs/vfs/path.hpp:242-275 | a valid path whose components are the normal form; no limit is ever hit |
| VfsPath.ResolvedWalk | userspace/programs/shell/shell.cpp:204-217 | within the limits, what is resolved leads where walking the argument from the current directory leads |
| VfsPath.EnteredIsClipped | kernel/src/fs/vfs/path.hpp:81-96 | of a path of 1024 or more characters the first 1023 are entered, and at most 64 components |
| VfsPath.ResolvedWholeIff | userspace/programs/shell/shell.cpp:204-217 | a path that fits the buffer is resolved as a whole if and only if its components and those of the directory do not exceed 64 |
| VfsPath.ResolvePath | userspace/programs/shell/shell.cpp:204-217 | the method returns that normal path |
| KernelHeap.PtrRoundTrip | kernel/src/mem/heap.cpp:106-108 | the bytes stored for a pointer read back as that pointer |
| KernelHeap.PayloadFitsIff | kernel/src/mem/heap.cpp:83-111 | header and payload lie in the requested raw block if and only if the request does not wrap, and the payload is then aligned |
| KernelHeap.AllocAlignedKeepsInv | kernel/src/mem/heap.cpp:83-111 | an allocation that does not wrap yields a new aligned block and destroys no other header |
| KernelHeap.AllocAlignedKeepsInvIff | kernel/src/mem/heap.cpp:83-111 | for every request: the heap stays in order if and only if nothing is allocated or the request does not wrap |
| KernelHeap.ApartIffDisjoint | kernel/src/mem/heap.cpp:35-124 | blocks counted as apart are exactly those without a common address |
| KernelHeap.PayloadsApart | kernel/src/mem/heap.cpp:83-111 | headers and payloads of live aligned blocks never overlap |
| KernelHeap.HeaderNamesRaw | kernel/src/mem/heap.cpp:113-124 | freeing hands back exactly the raw pointer |
| KernelHeap.AllocAlignedOutcome | kernel/src/mem/heap.cpp:83-104 | for every request: refused exactly if the alignment is no power of two or the size wraps to zero, failed exactly if the raw allocator has no memory, and neither changes anything |
| KernelHeap.FreeUndoesAlloc | kernel/src/mem/heap.cpp:83-124 | an allocation followed by its release leaves blocks and grants as they were |
| KernelHeap.ApplyKeepsInv | kernel/src/mem/heap.cpp:35-124 | every allocation, release and write to owned memory keeps all of this |
| KernelHeap.EveryRunFreesRaw | kernel/src/mem/heap.cpp:83-124 | so does every run from the empty heap |
| KernelHeap.Heap.MallocAligned | kernel/src/mem/heap.cpp:83-111 | the three outcomes, the new state, and that the block is new and in order when the size does not wrap |
| KernelHeap.Heap.FreeAligned | kernel/src/mem/heap.cpp:113-124 | releases exactly the raw block of the argument; null does nothing |
| WaitQueues.WaitQueue.constructor | kernel/src/scheduling/wait_queue.hpp:22-26 | an empty, well-formed ring |
| WaitQueues.WaitQueue.IsEmpty | kernel/src/scheduling/wait_queue.hpp:57-57 | true exactly for the empty sequence |
| WaitQueues.WaitQueue.Contains | kernel/src/scheduling/wait_queue.hpp:43-55 | terminates and decides membership |
| WaitQueues.WaitQueue.EnqueueFirst | kernel/src/scheduling/wait_queue.hpp:59-59 | the sequence grows at the front and the ring stays well formed |
| WaitQueues.WaitQueue.EnqueueLast | kernel/src/scheduling/wait_queue.hpp:61-61 | the sequence grows at the end and the ring stays well formed |
| WaitQueues.WaitQueue.InsertBetween | kernel/src/scheduling/wait_queue.hpp:75-82 | insertion between any two neighbours matches the sequence operation |
| WaitQueues.WaitQueue.Remove | kernel/src/scheduling/wait_queue.hpp:34-41 | removing any member matches the sequence operation and unlinks the node |
| WaitQueues.WaitQueue.Dequeue | kernel/src/scheduling/wait_queue.hpp:63-72 | returns the first member, or null exactly when empty |
| BitmapQueue.MirroredDeleteMin | libs/libcontainers/include/data_structures/priority_queues/bitmap_pq.hpp:54-68 | with bits that mirror the lists the oldest item of the lowest priority comes out |
| BitmapQueue.InsertMirrorsIff | libs/libcontainers/include/data_structures/priority_queues/bitmap_pq.hpp:86-90 | an insertion keeps the bits mirroring only if its list was not empty |
| BitmapQueue.DeleteMinRightIffNothingQueued | libs/libcontainers/include/data_structures/priority_queues/bitmap_pq.hpp:54-98 | after any run from construction nothing comes out, which is right exactly when nothing is queued |
| BitmapQueue.InsertedItemIsLost | libs/libcontainers/include/data_structures/priority_queues/bitmap_pq.hpp:86-90 | one insertion into a fresh queue shows it |
| BitmapQueue.FindLastNeverRight | libs/libcontainers/include/data_structures/bit_array.hpp:268-288 | the search for the last set bit never returns it, and ends exactly when there is one |
| BitmapQueue.FindLastMirrors | libs/libcontainers/include/data_structures/bit_array.hpp:268-288 | what it returns is the mirror image of the last set bit inside its byte |
| BitmapQueue.RemoveTakesOut | libs/libcontainers/include/data_structures/priority_queues/bitmap_pq.hpp:92-96 | a removal takes the item out of its list, keeps the order of the others and touches no other list |
| Mqaps.PickIsHighest | kernel/src/scheduling/policies/mqaps_policy.hpp:42-68 | what is picked from the two queues has the highest priority of all queued threads; nothing is picked only if nothing is queued |
| Mqaps.QueuedStepIff | kernel/src/scheduling/policies/mqaps_policy.hpp:42-94 | over every step a thread is queued if and only if it is added, or was queued and is not picked |
| Mqaps.AddJoinsItsQueue | kernel/src/scheduling/policies/mqaps_policy.hpp:70-94 | a thread joins the end of the ready queue above priority 2 and of the secondary queue otherwise |
| Mqaps.QuantumBounds | kernel/src/scheduling/policies/mqaps_policy.hpp:238-279 | without wrap-around the quantum lies between the least and greatest queued burst, is the own burst if none is queued, and is at least one millisecond |
| Mqaps.QuantumIsMeanIff | kernel/src/scheduling/policies/mqaps_policy.hpp:238-279 | the quantum is the mean of the queued bursts if and only if they add up to less than 2^64 |
| Mqaps.WrappedQuantum | kernel/src/scheduling/policies/mqaps_policy.hpp:238-279 | a run from construction in which two bursts of 2^63 leave a quantum of zero |
| Mqaps.NoUnderflow | kernel/src/scheduling/policies/mqaps_policy.hpp:212-236 | the stored sum is exact if and only if it is below 2^64, and a removal then does not underflow |
| Mqaps.AverageIsMidpoint | kernel/src/scheduling/policies/mqaps_policy.hpp:191-204 | the average burst becomes the first burst, later the midpoint of average and burst rounded down, never less than a millisecond; the midpoint is missed exactly when the two add up to 2^64 or more |
| Mqaps.AverageConverges | kernel/src/scheduling/policies/mqaps_policy.hpp:191-204 | under a constant burst the average comes within a nanosecond of it, its distance halving each time |
| Mqaps.PriorityFallsWithExpiries | kernel/src/scheduling/policies/mqaps_policy.hpp:174-189 | over every run the priority of a thread is its first one less the number of quanta it used up, down to one, whatever else happens |
| Mqaps.PreemptTimeIsRest | kernel/src/scheduling/policies/mqaps_policy.hpp:96-127 | a waiting thread is told its whole quantum, a running one what is left, and zero exactly when it is used up, which changes no other thread |
| Mqaps.ApplyKeepsInv | kernel/src/scheduling/policies/mqaps_policy.hpp:70-127 | every operation keeps sums and counts equal to those of the queued threads |
| Mqaps.EveryRunIsExact | kernel/src/scheduling/policies/mqaps_policy.hpp:42-127 | so does every run from construction, and picking follows the global priority order |
| Mqaps.BuiltInQueuePicksNothing | kernel/src/scheduling/policies/mqaps_policy.hpp:42-68 | on the bitmap queue the policy never picks a thread, which is right if and only if nothing is queued |
| Mqaps.Policy.UpdateStats | kernel/src/scheduling/policies/mqaps_policy.hpp:212-236 | changes the statistics of one queue only, with wrap-around and the guard on the count |
| Mqaps.Policy.Add | kernel/src/scheduling/policies/mqaps_policy.hpp:70-94 | the thread joins the queue of its priority and the statistics stay exact |
| Mqaps.Policy.Pick | kernel/src/scheduling/policies/mqaps_policy.hpp:42-68 | removes and returns a thread of globally highest priority |
| Mqaps.Policy.PreemptTime | kernel/src/scheduling/policies/mqaps_policy.hpp:96-127 | the time of `Mqaps.PreemptTimeIsRest`, and at an expiry the new priority and burst |
| Scheduler.MovedKeepsPlaced | kernel/src/scheduling/scheduler.cpp:94-111 | moving any thread but the running one keeps every thread in exactly the queue it belongs to |
| Scheduler.SwitchKeepsPlaced | kernel/src/scheduling/scheduler.cpp:170-216 | after a switch exactly the new thread runs and the old one is where its new state says |
| Scheduler.ScheduleIs | kernel/src/scheduling/scheduler.cpp:137-150 | only the two round-robin policies ever deliver a thread, the first one first, and each the thread at its front, which `SchedulerOrder.StepKeepsOrder` proves to be its oldest |
| Scheduler.WakeUpExact | kernel/src/scheduling/scheduler.cpp:380-404 | no sleeper due at the last reading stays asleep, none is woken that was not due when looked at, nothing else moves |
| Scheduler.TurnsSorted | kernel/src/scheduling/scheduler.cpp:380-404 | the sleepers are looked at in the order of their deadlines |
| Scheduler.WakeUpFailsIff | kernel/src/scheduling/scheduler.cpp:380-404 | the assertion in the loop fails if and only if the running thread is queued and everyone before it, and then it itself, is due at the reading of its own turn |
| Scheduler.PassKeepsInv | kernel/src/scheduling/scheduler.cpp:152-231 | a completed pass keeps every thread in the queue it belongs to and exactly one running |
| Scheduler.PassPanicsIff | kernel/src/scheduling/scheduler.cpp:152-231 | for every clock, exactly when a pass reaches idle or fails an assertion; otherwise the timer is above the minimal delta and no later than the sleep time (its exact value is `SchedulerPass.PassTimerIs`) |
| Scheduler.TimerBeforeDeadlines | kernel/src/scheduling/scheduler.cpp:161-224 | the timer of a completed pass fires no later than the earliest remaining deadline, unless the clock has passed it between the two readings |
| Scheduler.SmoothClockPassesNone | kernel/src/scheduling/scheduler.cpp:161-168 | a clock that moves by less than the minimal delta between two readings never does that |
| Scheduler.SleepFailsIff | kernel/src/scheduling/scheduler.cpp:287-316 | a queued sleep fails in the wake-up loop if and only if each sleeper with a deadline that is not later, and then the caller, is due at the reading of its own turn |
| Scheduler.NearSleepPanics | kernel/src/scheduling/scheduler.cpp:287-316 | with a clock that does not go back, a queued sleep that is due when the loop starts always fails |
| Scheduler.ReleaseAllKeepsInv | kernel/src/scheduling/scheduler.cpp:80-92 | a release empties the wait queue, readies exactly its threads and changes no other |
| Scheduler.ApplyKeepsInv | kernel/src/scheduling/scheduler.cpp:42-111 | every operation that completes keeps every thread where it belongs |
| Scheduler.RunKeepsInv | kernel/src/scheduling/scheduler.cpp:42-255 | so does every run |
| Scheduler.BootedInv | kernel/src/scheduling/scheduler.cpp:257-283 | the machine starts that way |
| Scheduler.ApplyEffect | kernel/src/scheduling/scheduler.cpp:42-255 | all that a step can do to a ready or running thread that is not removed |
| Scheduler.WorkerPreventsIdle | kernel/src/scheduling/scheduler.cpp:186-216 | while one round-robin thread only ever yields, idle is never reached |
| Scheduler.PriorityWorkerIdles | kernel/src/scheduling/policies/priority_queue_policy.hpp:33-42 | for each priority policy, a run that idles although a thread of that policy is ready |
| Scheduler.PreventsIdleIff | kernel/src/scheduling/scheduler.cpp:137-216 | a thread that only ever yields keeps every run from idling if and only if its policy is a round-robin one |
| Scheduler.PriorityThreadsStarve | kernel/src/scheduling/policies/priority_queue_policy.hpp:33-42 | a ready thread of a priority policy stays ready until it is removed |
| SchedulerPass.WokenGoLast | kernel/src/scheduling/scheduler.cpp:380-404 | woken threads stand behind every thread that was ready before |
| SchedulerPass.WakeUpWindow | kernel/src/scheduling/scheduler.cpp:380-404 | a thread is woken only if at some reading its deadline was at most 6 microseconds away; whoever stays asleep had more than that left at the last reading |
| SchedulerPass.PriorityPick | kernel/src/scheduling/policies/priority_queue_policy.hpp:33-42 | where a bit is set a priority policy delivers the oldest thread of the first such level and clears the bit exactly with the last thread |
| SchedulerPass.WakeAsksIff | kernel/src/scheduling/scheduler.cpp:380-404 | a wake-up asks for a new choice if and only if it woke a thread whose policy number is larger than that of the running thread, or whose priority is larger under the same priority policy |
| SchedulerPass.WakeAsksRightlyIff | kernel/src/scheduling/scheduler.hpp:134-142 | a wake-up asks for a choice just when it woke a thread the policies deliver before the running one if and only if it woke such a thread of the same policy, or both a thread of a smaller and of a larger policy number, or neither |
| SchedulerPass.UrgentSleeperWaits | kernel/src/scheduling/scheduler.hpp:134-142 | a policy-3 thread that wakes up while a policy-4 thread runs is not asked for: the timer pass goes on with the other for the rest of its 20 ms |
| SchedulerPass.NappingRun | kernel/src/scheduling/scheduler.cpp:287-316 | a run from a booted machine that leads there |
| SchedulerPass.PassTimerIs | kernel/src/scheduling/scheduler.cpp:152-231 | the timer of a completed pass is the lesser of the time to the earliest remaining deadline (2^64 - 1 without a sleeper) and 5 or 20 ms by the policy of the thread that runs next, less the CPU time used when nothing was chosen; the thread that runs next is the forced one, the front of queue 3 or else 4, or the same |
| SchedulerPass.UsedUpThreadGivesWay | kernel/src/scheduling/scheduler.hpp:161-164 | at a timer a thread with less than 3 microseconds left gives way to the front of queue 3, and to some thread whenever a round-robin thread is ready |
| SchedulerOrder.StepKeepsOrder | kernel/src/scheduling/policies/round_robin_policy.hpp:32-39 | over every step and in every queue, two threads that stay keep their order, and a thread that arrives stands after all that were there |
| SchedulerOrder.ReleaseInOrder | kernel/src/scheduling/scheduler.cpp:80-92 | a release appends the waiting threads to their run queues in the order in which they waited |
| SchedulerOrder.BlockedGoesLast | kernel/src/scheduling/scheduler.cpp:42-56 | a thread that blocks stands last in its wait queue, before whom nothing changes |
| SchedulerOrder.ReleaseStepTakesFirst | kernel/src/scheduling/scheduler.cpp:58-78 | each turn of the processing release runs the thread that has waited longest and takes only it out |
| SchedulerOrder.StepMovesUp | kernel/src/scheduling/scheduler.cpp:137-216 | a ready round-robin thread that is not removed runs, or never has more threads before it than it had, and fewer whenever its queue is served |
| SchedulerOrder.ChoiceServes | kernel/src/scheduling/scheduler.cpp:137-216 | every completed step that chooses serves queue 3 if it has a thread, and else queue 4 unless a policy-3 thread woke up |
| SchedulerOrder.NoRoundRobinThreadStarves | kernel/src/scheduling/scheduler.cpp:137-231 | over every run that does not remove it, a ready policy-3 thread with k threads before it runs after at most k + 1 choices, and a policy-4 thread after at most k + 1 choices that leave no policy-3 thread running |
| SchedulerRuns.WakeUpCannotFail | kernel/src/scheduling/scheduler.cpp:380-404 | the wake-up loop cannot fail while the running thread is not among the sleepers |
| SchedulerRuns.FarSleepCannotFail | kernel/src/scheduling/scheduler.cpp:287-316 | nor when the deadline of the caller is not due at any reading the loop can make before its turn |
| SchedulerRuns.BenignCompletes | kernel/src/scheduling/scheduler.cpp:152-231 | with a smooth clock, a far or refused sleep, no remaining quantum of exactly the minimal delta, no removal of a finished thread and a round-robin worker, every call completes |
| SchedulerRuns.BenignRunsNeverPanic | kernel/src/scheduling/scheduler.cpp:42-316 | so does every run of such calls |
| SchedulerRuns.BootedNeverPanics | kernel/src/scheduling/scheduler.cpp:257-283 | in particular from the moment the scheduler takes over |
| SchedulerObject.Core.WakeUpTasks | kernel/src/scheduling/scheduler.cpp:380-404 | the loop computes the wake-up and fails exactly when the function does |
| SchedulerObject.Core.Schedule | kernel/src/scheduling/scheduler.cpp:137-150 | the loop over the policies computes the choice |
| SchedulerObject.Core.ReleaseAll | kernel/src/scheduling/scheduler.cpp:80-92 | the loop readies every waiting thread |
| SchedulerObject.Core.ScheduleAndUpdateThreads | kernel/src/scheduling/scheduler.cpp:152-231 | the method performs the pass of `SchedulerPass.PassTimerIs`: same state, same timer, same panics |
| TaskMgr.BuryKeepsInv | kernel/src/scheduling/task_mgr.cpp:351-357 | handing a thread to the reaper keeps counters, stack and lists exact |
| TaskMgr.ThreadExitKeepsInv | kernel/src/scheduling/task_mgr.cpp:540-581 | the exit of a running thread never fails and keeps the accounts |
| TaskMgr.ExitRecords | kernel/src/scheduling/task_mgr.cpp:548-581 | an exit records its value with the leaving thread only, which then waits to be joined unless it is detached or the last one |
| TaskMgr.CollectKeepsInv | kernel/src/scheduling/task_mgr.cpp:602-618 | the second half of a join keeps the accounts and hands a value out for the first time |
| TaskMgr.MurderKeepsInv | kernel/src/scheduling/task_mgr.cpp:313-360 | a kill fails exactly for a thread waiting to be joined or with a blocked joiner |
| TaskMgr.ExitProcessKeepsInv | kernel/src/scheduling/task_mgr.cpp:457-492 | leaving a process without other active threads keeps the accounts |
| TaskMgr.ListIsMeIff | kernel/src/scheduling/task_mgr.cpp:467-481 | the thread list is just the caller exactly when no sibling is active |
| TaskMgr.JoinedFirstOrLater | kernel/src/scheduling/task_mgr.cpp:387-394 | a thread is joined when its turn comes exactly if the first is joined, or a later one is once the first is gone |
| TaskMgr.KillAllKeepsInv | kernel/src/scheduling/task_mgr.cpp:387-394 | the loop over the thread list empties it, touches nothing else, and fails if and only if a thread is joined when its turn comes by somebody not killed before it |
| TaskMgr.KillProcessIff | kernel/src/scheduling/task_mgr.cpp:362-409 | the kill of a process fails if and only if a thread is joined when its turn comes, or the process is live and somebody waits for it; otherwise it keeps the accounts |
| TaskMgr.SuicideKeepsInv | kernel/src/scheduling/task_mgr.cpp:411-455 | the suicide of a thread without active siblings completes and keeps the accounts |
| TaskMgr.ReapKeepsInv | kernel/src/scheduling/task_mgr.cpp:682-706 | the thread reaper always finds what it asserts |
| TaskMgr.FreeProcessKeepsInv | kernel/src/scheduling/processes.cpp:93-110 | freeing fails if and only if a thread waits for the process; a freed process has no thread and no joiner |
| TaskMgr.ApplyKeepsInv | kernel/src/scheduling/task_mgr.cpp:313-723 | for every call: exactly when it fails, and that it keeps the accounts otherwise |
| TaskMgr.RunKeepsInv | kernel/src/scheduling/task_mgr.cpp:313-723 | so does every run |
| TaskMgr.EveryRunIsExact | kernel/src/scheduling/task_mgr.cpp:313-723 | live and to-clean counts are exact, the stack holds each terminated thread once, owners exist, no value is delivered twice |
| TaskMgrRuns.StepThread | kernel/src/scheduling/task_mgr.cpp:313-618 | no call changes a thread's owner; a thread stops being active in a step exactly when the step ends it, and is never active again |
| TaskMgrRuns.StepProcessJoiner | kernel/src/scheduling/task_mgr.cpp:362-492 | exactly four calls release a thread that waits for a process: leaving it, suicide, the kill of the own process, and the kill of another one; what each leaves the joiner in |
| TaskMgrRuns.StillActiveIff | kernel/src/scheduling/task_mgr.cpp:540-581 | a process is still active after a step exactly when the step leaves one of its active threads alone |
| TaskMgrRuns.StrandedIff | kernel/src/scheduling/task_mgr.cpp:557-581 | a joiner is stranded by a step if and only if the step ends the last active thread of the process by an exit or a kill |
| TaskMgrRuns.StrandedReleasedIff | kernel/src/scheduling/task_mgr.cpp:396-399 | a stranded joiner is released by a step if and only if the step kills the process it waits for, which is then dead and not freed; otherwise it stays stranded or is killed |
| TaskMgrRuns.StrandedUntilKill | kernel/src/scheduling/task_mgr.cpp:639-664 | in every run without such a kill a stranded joiner waits until it is killed itself |
| TaskMgrRuns.LastExitOutcome | kernel/src/scheduling/task_mgr.cpp:564-581 | the exit of the last active thread queues the process for cleaning if and only if the thread is detached and no other waits to be joined |
| TaskMgrRuns.ForgottenKillIff | kernel/src/scheduling/task_mgr.cpp:396-406 | a live process without active threads can be killed by pid if and only if nobody waits for it |
| TaskMgrRuns.ForgottenStep | kernel/src/scheduling/task_mgr.cpp:396-406 | it stays one in every step but that kill, which queues it for cleaning |
| TaskMgrRuns.ForgottenIff | kernel/src/scheduling/task_mgr.cpp:573-576 | in every run it stays one, and out of the hands of the reaper, if and only if it is never killed by pid |
| TaskMgrRuns.TrappedForGood | kernel/src/scheduling/task_mgr.cpp:396-406 | in every run a joiner of such a process and the process stay as they are until the joiner is killed |
| TaskMgrRuns.QueuedOnceStep | kernel/src/scheduling/task_mgr.cpp:446-454 | a step keeps every process queued at most once if and only if it was so and the step is not the suicide of a detached thread that is the only one left |
| TaskMgrRuns.QueuedOnceIff | kernel/src/scheduling/task_mgr.cpp:564-576 | after every run every process is queued once, and the reaper finds what it takes, if and only if there was no such suicide |
| TaskMgrRuns.JoinStrandsIff | kernel/src/scheduling/task_mgr.cpp:639-664 | a join strands its caller at once if and only if it is on such a process |
| TaskMgrValues.StepValue | kernel/src/scheduling/task_mgr.cpp:515-618 | in every step a thread comes to hold a value only by leaving with it, and keeps it until a join is answered with it or it is detached |
| TaskMgrValues.ExitHoldsValueIff | kernel/src/scheduling/task_mgr.cpp:563-580 | the value of an exit is kept for a joiner if and only if the thread is not detached and its process has another thread that is not terminated |
| TaskMgrValues.JoinHandsOutExitValue | kernel/src/scheduling/task_mgr.cpp:583-618 | after any run, when a join or its resumption of t is answered with v, the run contains exactly one operation by which t left, with that value: its exit with v, and no other exit of t, or zero when it killed itself or left with its process |
| TaskMgrValues.StatusStays | kernel/src/scheduling/task_mgr.cpp:639-664 | the status of a process that was left stays until a join is answered with it or the process is killed from outside |
| TaskMgrValues.LeaveHoldsStatusIff | kernel/src/scheduling/task_mgr.cpp:457-492 | leaving a process keeps its status for a joiner if and only if the leaving thread is not detached or another thread waits to be joined |
| TaskMgrValues.JoinHandsOutStatus | kernel/src/scheduling/task_mgr.cpp:639-664 | after any run, when a process join is answered with a status, the run contains exactly one operation by which a thread of the process ended it, with that status, which is -2 for a kill of the own process |
| TaskMgrValues.DeadStatus | kernel/src/scheduling/task_mgr.cpp:401-451 | a suicide leaves the process dead with status -1, a kill from outside with status -2 |
| TaskMgrValues.DetachedValueIsLost | kernel/src/scheduling/task_mgr.cpp:515-538 | detaching changes only its target, hands a finished one to the reaper, and after any further run no join of it is answered with a value |
| TaskMgrFailures.StrandedJoinerFails | kernel/src/scheduling/processes.cpp:102-104 | a run from the empty machine at whose end freeing a process fails because of a stranded joiner |
| TaskMgrFailures.ForgottenProcessRun | kernel/src/scheduling/task_mgr.cpp:564-581 | a run that ends with a live process without threads and a stranded joiner |
| TaskMgrFailures.KillWithJoinerFails | kernel/src/scheduling/task_mgr.cpp:313-360 | a run that ends in the failing kill of a thread with a joiner |
| TaskMgrFailures.KillOfFinishedFails | kernel/src/scheduling/task_mgr.cpp:313-360 | a run that ends in the failing kill of a thread that waits to be joined |
| TaskMgrFailures.LeavingSiblingsFails | kernel/src/scheduling/task_mgr.cpp:457-481 | a run that ends in leaving a process with another active thread |
| TaskMgrFailures.ResumeAfterReapFails | kernel/src/scheduling/task_mgr.cpp:602-618 | a run in which a joiner resumes after its thread was freed |
| TaskMgrFailures.ResumeAfterFreeFails | kernel/src/scheduling/task_mgr.cpp:639-664 | a run in which a joiner resumes after its process was freed |
| TaskMgrFailures.KillReleasesStranded | kernel/src/scheduling/task_mgr.cpp:396-399 | a run in which a kill by pid releases a stranded joiner |
| TaskMgrFailures.KillQueuesForgotten | kernel/src/scheduling/task_mgr.cpp:401-406 | a run in which a kill by pid queues a live process without active threads |
| TaskMgrFailures.KillOfJoinedProcessFails | kernel/src/scheduling/task_mgr.cpp:396-399 | a run that ends in the failing kill of a live process somebody waits for |
| TaskMgrFailures.KillOrderMatters | kernel/src/scheduling/task_mgr.cpp:387-394 | two runs with a join inside a process, one with the older thread joining and one with the newer: the first makes the kill fail, the second does not |
| TaskMgrFailures.SuicideQueuesTwice | kernel/src/scheduling/task_mgr.cpp:446-454 | a run that queues a process twice and ends in the failed assertion of the reaper |
| TaskMgrFailures.SelfKillHandsOutZero | kernel/src/scheduling/task_mgr.cpp:313-360 | a run without any exit after which a join is answered with zero, because the thread killed itself |
| TaskMgrObject.Manager.CreateThread | kernel/src/scheduling/task_mgr.cpp:193-203 | adds an active thread to list and count |
| TaskMgrObject.Manager.Bury | kernel/src/scheduling/task_mgr.cpp:351-357 | the shared updates of the reaper's stack and counters |
| TaskMgrObject.Manager.ThreadExit | kernel/src/scheduling/task_mgr.cpp:540-581 | the method performs the exit, records the value with the leaving thread and no other, and never fails |
| TaskMgrObject.Manager.JoinThread | kernel/src/scheduling/task_mgr.cpp:583-600 | blocks exactly on an active thread that is not the caller |
| TaskMgrObject.Manager.CollectFrom | kernel/src/scheduling/task_mgr.cpp:602-618 | delivers the value exactly when the thread was waiting to be joined |
| TaskMgrObject.Manager.DetachThread | kernel/src/scheduling/task_mgr.cpp:515-538 | the method performs the detach of `TaskMgrValues.DetachedValueIsLost` |
| TaskMgrObject.Manager.CommitMurder | kernel/src/scheduling/task_mgr.cpp:313-360 | the method performs the kill, failing exactly when stated |
| TaskMgrObject.Manager.ExitProcess | kernel/src/scheduling/task_mgr.cpp:457-492 | the method performs the exit of a process, failing exactly with an active sibling |
| TaskMgrObject.Manager.KillProcess | kernel/src/scheduling/task_mgr.cpp:362-409 | the loop over the thread list and what follows perform the kill of a process, failing exactly when stated |
| TaskMgrObject.Manager.CommitSuicide | kernel/src/scheduling/task_mgr.cpp:411-455 | the method performs the suicide, failing exactly with an active sibling |
| TaskMgrObject.Manager.ThreadRipperWork | kernel/src/scheduling/task_mgr.cpp:666-706 | removes exactly the terminated threads and leaves nothing to clean |
| Trace.WriteIndexIsCell | kernel/src/trace.cpp:163-173 | the two pieces of a message land on consecutive cells of the circle |
| Trace.ReadIndexIsCell | kernel/src/trace.cpp:233-243 | the two pieces of a batch are read from consecutive cells |
| Trace.CopyKeepsInv | kernel/src/trace.cpp:163-173 | a byte is copied to a cell that no other live byte uses |
| Trace.ClaimKeepsInv | kernel/src/trace.cpp:154-161 | winning the exchange claims a range disjoint from all others |
| Trace.ApplyKeepsInv | kernel/src/trace.cpp:142-257 | every step of every producer and of the consumer keeps accounts, ranges, contents and output consistent |
| Trace.EveryRunAgrees | kernel/src/trace.cpp:142-257 | in any interleaving free space, reservations and stored bytes add up to the capacity, and the output is the log so far without NULs |
| Trace.RangesUseDifferentCells | kernel/src/trace.cpp:154-173 | bytes of messages being copied never share a cell unless one of them is printed and released already |
| Trace.UnprintedIsIntact | kernel/src/trace.cpp:226-256 | while a dump runs, what it has still to print is intact |
| Trace.DumpAmountIff | kernel/src/trace.cpp:222-224 | the amount a dump computes is what is stored exactly when no reservation is open |
| Trace.DumpStartsRightIff | kernel/src/trace.cpp:219-224 | the amount is right and every stored byte is in place if and only if no commit holds a reservation without a range or has bytes left to copy |
| Trace.FirstPrinted | kernel/src/trace.cpp:226-243 | a dump started in any state first prints whatever the first stored cell holds |
| Trace.RashDump | kernel/src/trace.cpp:219-243 | a run in which a dump prints a claimed byte before it is copied, and so loses it |
| Trace.DumpPrintsStored | kernel/src/trace.cpp:219-257 | a dump that starts right prints exactly the stored bytes in claiming order, whatever is committed meanwhile |
| Trace.DumpNeverStuck | kernel/src/trace.cpp:226-256 | a running dump can always take a step |
| Trace.DumpTerminates | kernel/src/trace.cpp:226-256 | its steps are bounded whatever the producers do |
| TraceBuffers.TraceBuffer.Commit | kernel/src/trace.cpp:142-174 | appends the whole message exactly when it fits and otherwise changes nothing |
| TraceBuffers.TraceBuffer.Harden | kernel/src/trace.cpp:200-217 | prints a stretch without its NULs |
| TraceBuffers.TraceBuffer.DumpBatch | kernel/src/trace.cpp:228-255 | prints the next bytes stored and moves the tail past them |
| TraceBuffers.TraceBuffer.Dump | kernel/src/trace.cpp:219-257 | prints everything stored and leaves the buffer empty |

## Left out

- Kernel-half mappings and the area kind that synchronises them, architecture code, drivers, consoles and system call dispatch.
- Destroying the address space that is in use; areas that end above the user half or wrap the address range.
- Errors other than NotFound while page flags are being changed.
- `MapUserBackbuffer`: its gap search and insertion are those of `AllocAnonymous`.
- The buddy, slab and frame allocators, which answer with a fresh block or frame or an error; the red-black tree, which answers with a thread of least key.
- The multi-level feedback queue, file descriptor tables, permission checks between processes.
- Spawning and program execution as they fail half way.
- What a joiner of a process that is killed or commits suicide does after its join and before the caller goes on: the code runs each joiner up to where it next blocks, the model only to the end of its join.
- Identifiers whose slot has been used again: thread and process identifiers include their generation, which the lookup ignores.
- NUL characters inside paths and messages longer than the trace buffer; the bounded copy is a forward byte copy.
- Two trace dumps at once.
- Vmm.Manager.AllocAnonymous: sizes that are not a multiple of the page size are left out, because the insertion asserts that they are; so are a null range end and a range start in the last page of the address word, which reach above the user half. For size zero only the new state is stated.
- Loader.Load: segments that reach above the user half or wrap the address range; what a store through a direct mapping does to the device behind it; running out of frames while bytes are copied. A kernel store to a present read-only page is taken to fault, as it does with write protection on.
- VfsPath.ResolvePath: stated for joins that fit the buffer; `VfsPath.Path.Div` says what a join that does not fit leaves behind.
- Mqaps.PickIsHighest: rests on the contract of a priority queue, which the built-in queue does not meet; `Mqaps.BuiltInQueuePicksNothing` says what happens on it.
- KernelHeap.ApplyKeepsInv: the run excludes requests that wrap the word; `KernelHeap.AllocAlignedKeepsInvIff` shows that exactly those break the heap.
- Scheduler.TimerBeforeDeadlines: deadlines are taken to fit the word (`KeysFit`).
- Trace.DumpPrintsStored: stated for a dump that starts right, which `Trace.DumpStartsRightIff` characterises; of any other dump only the first byte is described (`Trace.FirstPrinted`), and runs do not go on after it.
