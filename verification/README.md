# Alien domain runtime — a Dafny model

Alien is a RISC-V kernel that runs drivers, file systems and services as
isolated *domains*. A domain can crash or be hot-swapped at run time. This
project models the bookkeeping that the kernel keeps around that runtime, plus
a few self-contained kernel data structures, as pure state-transition
functions over maps and sequences, and proves properties of them:

- **Domain proxies** (`DomainProxy`, `domain_proxy.dfy`). The live domain
  slot, its loader and the saved init resource. `replace` and `reload` are
  modelled as traces of effects: lock the loader, read the old id, swap the
  pointer, SRCU grace period, forget the old instance, release its resources,
  `init` the new instance, store the loader. The DevFs placeholder
  `DevFsDomainEmptyImpl` is included.
- **Crash-guard proxy** (`NetProxy`, `net_proxy.dfy`). `NetDomainProxy`
  forwards every call. Every call except `init` first asks the inner domain
  whether it is alive and answers `DOMAINCRASH` when it is not.
- **Resource ledger** (`ResourceLedger`, `ledger.dfy`). The page ranges and
  the boxed data-map pointer recorded per domain id.
  `free_domain_resource` releases the shared data, then the page ranges, then
  the box.
- **Cross-domain references** (`SharedRef`, `rref.dfy`). `RRef<T>` is
  modelled as a handle to a slot of the shared heap. A slot holds the owner
  cell, the borrow count, the value, the type tag and the layout.
- **Futex wait queues** (`Futex`, `futex.dfy`). `FutexWaitManager` with
  `add_waiter`, `wake`, `requeue`, `wake_for_timeout`, `wake_for_signal`
  and `delete_empty_waiters`. Tasks pushed onto the run queue and timeout
  flags that are set become output sequences.
- **Kernel address space** (`KernelVm`, `vmm.dfy`; `KernelSatpValue`,
  `satp.dfy`). The bump pointer `KERNEL_MAP_MAX`, the argument checks of
  `map_region_to_kernel` and `unmap_region_from_kernel`, the probe loop of
  `is_in_kernel_space`, and the `satp` encoding on 64-bit words.
- **Initial domain registration** (`DomainInit`, `domain_init.dfy`). The
  image map built from the initrd's entries, and the registration of
  `INIT_DOMAIN_LIST` in order.
- **Kernel stacks** (`KernelStack`, `stack.dfy`). `Stack::new` and
  `Stack::top`.

`common.dfy` (`Kernel`) holds the shared definitions:

- the 64-bit word bounds;
- the 4 KiB page geometry (`FRAME_BITS = 12`, `FRAME_SIZE = 4096`);
- the result type `Result`. It extends `AlienResult` with a third outcome,
  `Abort`, for a Rust panic: an `unwrap` on `None` or `Err`, a failed
  `assert!`, an index out of bounds, or an explicit `panic!`. Every
  `unwrap`, `assert!` and index in the modelled code becomes an `Abort`
  path, so that no precondition hides it.

Code outside the modelled files is not part of this model. It becomes a parameter:

- the loader (`load`, `call`), `alloc_domain_id`, the result of a new
  instance's `init`;
- the shared heap's `alloc`;
- the page table's acceptance of `map` and `unmap`, and the root table address;
- `frame_alloc_contiguous`;
- the signal receivers' `have_signal` and the timer reading.

The drop of an `RRef` only hands the slot back to the heap, as the code does.
No destructor of the value runs.

## Model

| member | source | states |
|---|---|---|
| Kernel.ShlFrame | kernel/src/domain_helper/resource.rs:61 | `page_start << FRAME_BITS` on a 64-bit word: always a page-aligned word, and equal to `page_start * 4096` whenever that fits in 64 bits |
| ResourceLedger.InsertPageMap | kernel/src/domain_helper/resource.rs:25-28 | the range is appended to the id's list (an absent list counts as empty); other ids and the box map are unchanged |
| ResourceLedger.DropStart | kernel/src/domain_helper/resource.rs:32 | `retain`: a range is kept exactly when it was there and does not start at `page` |
| ResourceLedger.FreePageMap | kernel/src/domain_helper/resource.rs:30-33 | panics exactly when the id has no list; otherwise that list loses every range starting at `page`, and everything else is kept |
| ResourceLedger.InsertBoxData | kernel/src/domain_helper/resource.rs:35-37 | the id's box pointer becomes `data`, replacing any earlier one; nothing else changes |
| ResourceLedger.RegisterDomainResource | kernel/src/domain_helper/resource.rs:40-42 | registration adds the id to the box map with the given pointer and leaves the other ids and the page map alone |
| ResourceLedger.FreeDomainResource | kernel/src/domain_helper/resource.rs:44-72 | the id leaves both maps and nothing else changes; the effects are the shared-data release first, then one `free_frames(start << 12, n)` per recorded range in list order, then the box drop when a box was recorded |
| ResourceLedger.FrameReleasesAt | kernel/src/domain_helper/resource.rs:53-62 | the i-th frame release is the i-th recorded range, shifted to an address |
| ResourceLedger.FreeTwiceIsNoop | kernel/src/domain_helper/resource.rs:52-67 | a second release of the same id frees no pages and no box, and leaves the ledger as the first release left it |
| ResourceLedger.FreeKeepsOthers | kernel/src/domain_helper/resource.rs:52-66 | releasing one id leaves every other id's ranges and box untouched |
| ResourceLedger.RegisterThenFreeDropsBox | kernel/src/domain_helper/resource.rs:66-69 | the pointer registered last is the one the next release drops |
| ResourceLedger.DropStartAppend | kernel/src/domain_helper/resource.rs:32 | retaining distributes over concatenation, so the kept ranges keep their order |
| ResourceLedger.DropStartNoMatch | kernel/src/domain_helper/resource.rs:32 | a list with no range at `page` is left unchanged |
| ResourceLedger.InsertThenFreePageMap | kernel/src/domain_helper/resource.rs:25-33 | recording a range and then freeing its start page restores the ledger, provided no other range of that id starts there |
| DomainProxy.Build | kernel/src/domain_proxy/mod.rs:25-28 | a built proxy holds the given instance and loader, and no saved resource yet |
| DomainProxy.BuildEmptyDevFs | kernel/src/domain_proxy/mod.rs:55-63 | the placeholder proxy reports id `u64::MAX` and is inactive |
| DomainProxy.DomainIdOf | kernel/src/domain_proxy/mod.rs:56-59 | an instance answers its own id, and the placeholder answers `u64::MAX` |
| DomainProxy.IsActive | kernel/src/domain_proxy/mod.rs:60-62 | an instance answers its own liveness, and the placeholder is never active |
| DomainProxy.ProxyIsActive | kernel/src/domain_proxy/mod.rs:71-76 | the proxy is active exactly when its live slot holds a loaded instance that is active; the placeholder makes it inactive |
| DomainProxy.ProxyDomainId | kernel/src/domain_proxy/mod.rs:64-70 | the proxy's id is the live instance's id, and `u64::MAX` for the placeholder |
| DomainProxy.InitArgsFor | kernel/src/domain_proxy/mod.rs:105-107 | which saved resource each swap path hands to `init`: a `String` for ShadowBlock, a `Range<usize>` for Gpu, Input, NetDevice and Blk (lines 133-134, 178-179), none for Log (line 157); a missing or mistyped resource panics |
| DomainProxy.Replace | kernel/src/domain_proxy/mod.rs:84-111 | the swap completes exactly when the resource fits and `init` succeeds; the proxy then holds the new instance and loader; the ledger and the released effects are exactly those of `free_domain_resource(old_id)` (lines 103 and 131): the old id leaves both maps, every other id keeps its records, the shared data goes first, then each recorded range once, then the box; every release in the trace is of the old id; the Log, Gpu, Input and NetDevice paths at lines 142-241 are the same |
| DomainProxy.Reload | kernel/src/domain_proxy/mod.rs:114-140 | a failed `load` panics before anything else happens; otherwise the swap completes exactly when the range resource is there and `init` succeeds; the new instance is the one built for the fresh id; only the old id is released, and the ledger and released effects are exactly those of `free_domain_resource(old_id)` at line 131 |
| DomainProxy.SwapTraceShape | kernel/src/domain_proxy/mod.rs:90-109 | after its own prefix every swap path swaps the pointer, waits for the grace period, forgets the old instance and releases its id, in that order, and afterwards only initialises and stores the loader |
| DomainProxy.ReplaceOrdering | kernel/src/domain_proxy/mod.rs:90-109 | the old id is read before the swap; the old instance is forgotten and its id released only after the grace period; the release and the grace period each happen exactly once; `init` comes after the release and before the loader is stored |
| DomainProxy.ReloadTrace | kernel/src/domain_proxy/mod.rs:116-137 | a reload's trace is the common swap trace after the lock, load, old-id read, id allocation and build |
| DomainProxy.ReloadTraceFacts | kernel/src/domain_proxy/mod.rs:119-131 | in that trace the old id is released exactly once, the fresh id never (when it differs), the old id is read before the allocation, and the allocation comes before the swap |
| DomainProxy.ReloadFreesOldId | kernel/src/domain_proxy/mod.rs:119-131 | `reload` releases the id that was live before it and never the freshly allocated one, and installs the fresh instance only after the old id is captured |
| DomainProxy.ReplaceRevivesProxy | kernel/src/domain_proxy/mod.rs:90-110 | once the resource fits, replacing with an active instance whose `init` succeeds makes the proxy report that instance's id and liveness, and releases the previous id |
| NetProxy.New | base/proxy/src/net.rs:13-15 | the proxy stores the given id and domain unchanged |
| NetProxy.IsActive | base/proxy/src/net.rs:104-106 | the proxy's liveness is the inner domain's answer, obtained by one query |
| NetProxy.Call | base/proxy/src/net.rs:19-100 | `init` is forwarded without a check; every other operation queries liveness first, answers `DOMAINCRASH` without invoking the inner operation when the domain is inactive, and otherwise returns the inner answer |
| NetProxy.CrashedIgnoresInner | base/proxy/src/net.rs:23-28 | for an inactive domain the answer does not depend on the inner domain at all and is `DOMAINCRASH` |
| NetProxy.ActiveIsTransparent | base/proxy/src/net.rs:23-91 | for an active domain every answer, errors included, is the inner one, and the inner operation runs exactly once |
| NetProxy.CrashReportedIffInactive | base/proxy/src/net.rs:94-100 | unless the inner domain itself answers `DOMAINCRASH`, the proxy reports a crash exactly when the domain is inactive and the call is not `init` |
| SharedRef.NewWithLayout | domain-tools/rref/src/rref.rs:22-41 | panics exactly when the heap is not initialised or the allocation fails; otherwise one fresh slot appears, owned by the current domain, with borrow count 0, the value, `T`'s type tag and the layout; old slots are untouched |
| SharedRef.New | domain-tools/rref/src/rref.rs:42-45 | `new` allocates with the size and alignment of `T` |
| SharedRef.NewAligned | domain-tools/rref/src/rref.rs:46-50 | `new_aligned` allocates with the size of `T` and the caller's alignment |
| SharedRef.MoveTo | domain-tools/rref/src/rref.rs:52-56 | only the owner cell changes: the borrow count, value, type tag and every other slot stay |
| SharedRef.Deref | domain-tools/rref/src/rref.rs:59-64 | `deref` reads the slot's value: writing back what was read leaves the heap unchanged |
| SharedRef.DerefMut | domain-tools/rref/src/rref.rs:66-70 | a write through `deref_mut` changes only that slot's value |
| SharedRef.Drop | domain-tools/rref/src/rref.rs:72-76 | dropping removes exactly the handle's slot and keeps all others |
| SharedRef.NewThenDrop | domain-tools/rref/src/rref.rs:72-76 | allocating and then dropping leaves the heap's live slots as they were |
| SharedRef.MoveKeepsPayload | domain-tools/rref/src/rref.rs:52-63 | moving ownership keeps the value readable and unchanged |
| SharedRef.WriteThenRead | domain-tools/rref/src/rref.rs:59-70 | `deref` reads back what `deref_mut` wrote |
| SharedRef.NewThenMove | domain-tools/rref/src/rref.rs:32-56 | a fresh reference belongs to its allocator; after a move it is the same slot with the new owner |
| Futex.NewWaiter | kernel/src/ipc/futex.rs:38-44 | a new waiter keeps its wait time and flag and holds its task, so its first wake succeeds and hands that task back |
| Futex.WakeWaiter | kernel/src/ipc/futex.rs:46-48 | taking the task panics exactly when it was already taken; otherwise it yields the task and leaves the waiter without one |
| Futex.AddWaiter | kernel/src/ipc/futex.rs:59-61 | the waiter goes to the back of its futex's queue, which is created when absent; other futexes are unchanged |
| Futex.DeleteEmptyWaiters | kernel/src/ipc/futex.rs:112-122 | exactly the keys with an empty queue are removed; non-empty queues are kept unchanged |
| Futex.Wake | kernel/src/ipc/futex.rs:125-142 | an unknown futex is `Err(Other)`; a waiter among the first `min(num, len)` whose task is gone panics, which never happens on waiting tasks; otherwise `min(num, len)` waiters are woken from the front in order and their tasks pushed, the rest stay in order under the same key, and no other futex changes |
| Futex.WakeSplitsQueue | kernel/src/ipc/futex.rs:128-137 | on waiting tasks, the pushed tasks followed by those still queued are exactly the tasks that were queued |
| Futex.WakeIsFifo | kernel/src/ipc/futex.rs:125-137 | of two waiters added in turn, waking one wakes the first and keeps the second |
| Futex.Reverse | kernel/src/ipc/futex.rs:160-163 | popping from the tail and pushing appends the moved waiters in reverse order |
| Futex.Requeue | kernel/src/ipc/futex.rs:145-169 | `num == 0` changes nothing and returns 0; otherwise an absent old futex panics, the count is `min(num, len)`, the tail is moved reversed onto the target, and the old key stays exactly when waiters remain |
| Futex.RequeueConservesWaiters | kernel/src/ipc/futex.rs:155-167 | between distinct futexes no waiter is lost or duplicated |
| Futex.RequeueOntoItselfDropsMoved | kernel/src/ipc/futex.rs:155-167 | requeueing a futex onto itself while waiters remain keeps only the remainder, although the count reports the moved waiters |
| Futex.SelectedIndices | kernel/src/ipc/futex.rs:67-79 | the indices a sweep records are ascending, each belongs to a woken waiter, and every woken waiter's index is there |
| Futex.ScanFrom | kernel/src/ipc/futex.rs:67-79 | the enumerate loop panics exactly when a waiter it reaches has no task; otherwise it marks exactly the woken waiters as taken and records exactly their indices |
| Futex.ScanPushesSelected | kernel/src/ipc/futex.rs:92-99 | the loop pushes exactly the woken waiters' tasks in queue order and, on a timeout, sets exactly their flags |
| Futex.RemoveEach | kernel/src/ipc/futex.rs:80-82 | `Vec::remove` of each recorded index in turn never returns an error, and when no index runs past the end the queue loses exactly one waiter per index |
| Futex.KeepUnselected | kernel/src/ipc/futex.rs:80-82 | the intended result of the removals: a waiter stays exactly when it was there and is not woken |
| Futex.SweepQueue | kernel/src/ipc/futex.rs:90-106 | one queue's sweep succeeds only without a panicking waiter, pushes the woken tasks and sets their flags; the corrected removal leaves exactly the waiters not woken |
| Futex.MinKey | kernel/src/ipc/futex.rs:65 | the `BTreeMap` visits the least remaining key first |
| Futex.SweepKeys | kernel/src/ipc/futex.rs:65-83 | the sweep over all queues succeeds exactly when every queue's part does, keeps the key set, replaces each swept queue by its result, and pushes exactly the tasks the queues push |
| Futex.SweepAll | kernel/src/ipc/futex.rs:64-85 | a whole sweep succeeds exactly when every queue's part does; afterwards a key remains exactly when its swept queue is non-empty, and holds that queue |
| Futex.SweepPushesSelected | kernel/src/ipc/futex.rs:92-99 | a sweep pushes the task of every waiter it wakes in any queue and nothing else, and on a timeout sets exactly those waiters' flags |
| Futex.WakeForTimeout | kernel/src/ipc/futex.rs:88-109 | as written: no empty queue remains after a timeout sweep |
| Futex.WakeForSignal | kernel/src/ipc/futex.rs:64-85 | as written: no empty queue remains after a signal sweep |
| Futex.WakeForTimeoutFixed | kernel/src/ipc/futex.rs:88-109 | with exact removal: never panics on waiting tasks, keeps every queue waiting, and leaves no expired waiter queued |
| Futex.WakeForSignalFixed | kernel/src/ipc/futex.rs:64-85 | with exact removal: never panics on waiting tasks, keeps every queue waiting, and leaves no signalled waiter queued |
| Futex.SweepPreservesWellFormed | kernel/src/ipc/futex.rs:103-108 | the exact sweep of queues of waiting tasks succeeds and leaves only waiting tasks |
| Futex.ExactLeavesNoneSelected | kernel/src/ipc/futex.rs:103-105 | after an exact sweep no queued waiter is one the sweep wakes |
| Futex.SingleWakeAgrees | kernel/src/ipc/futex.rs:80-82 | while at most one waiter of a queue wakes, removal by recorded index equals exact removal |
| Futex.ExactSweepConservesTasks | kernel/src/ipc/futex.rs:92-105 | the exact sweep loses and invents no task: the queued tasks are the pushed ones plus those left queued |
| Futex.TimeoutTwoExpiredPanics | kernel/src/ipc/futex.rs:103-105 | two expired waiters in one queue make the second removal panic, while the exact sweep succeeds |
| Futex.SignalTwoPendingPanics | kernel/src/ipc/futex.rs:80-82 | two signalled waiters in one queue make the second removal panic, while the exact sweep succeeds |
| Futex.TimeoutShiftLosesWaiter | kernel/src/ipc/futex.rs:103-105 | with two expired waiters followed by one without a timeout, the removal keeps a woken waiter and drops the waiting one, and the next timeout sweep panics on it |
| KernelVm.BuildKernelAddressSpace | base/mem/src/vmm.rs:117 | the store sets the bump pointer to `memory_end`; the section and device mappings made before it are not modelled, so the model's area map is not touched |
| KernelVm.AllocFreeRegion | base/mem/src/vmm.rs:130-133 | panics exactly on a size that is zero or not a page multiple; otherwise returns the old bump pointer and advances it by `size`, wrapping at 2^64 |
| KernelVm.BuildThenAlloc | base/mem/src/vmm.rs:117-133 | the first region after the build starts at the end of memory |
| KernelVm.AllocAdjacentDisjoint | base/mem/src/vmm.rs:130-133 | two successive allocations that do not wrap are adjacent and disjoint |
| KernelVm.MapRegionToKernel | base/mem/src/vmm.rs:135-147 | succeeds exactly on a valid size, an aligned address and an accepted map; then `size / FRAME_SIZE` frames are allocated, every address of the range is mapped, and other areas are unchanged |
| KernelVm.UnmapRegionFromKernel | base/mem/src/vmm.rs:149-154 | succeeds exactly on an aligned address and an accepted unmap, and removes exactly that area |
| KernelVm.MapThenUnmap | base/mem/src/vmm.rs:135-154 | mapping a fresh area and unmapping it restores the address space |
| KernelVm.AlignDown | base/mem/src/vmm.rs:174 | clearing the page offset gives the start of the page holding the address |
| KernelVm.NextProbe | base/mem/src/vmm.rs:172-174 | as written, the next probe is a page start between one and two pages further on, exactly one page further from an aligned address |
| KernelVm.NextPage | base/mem/src/vmm.rs:172-174 | corrected, the next probe is the start of the following page |
| KernelVm.Probes | base/mem/src/vmm.rs:167-175 | every probed address lies in `[start, end)`, and a non-empty range is probed first at its start |
| KernelVm.ProbeLoop | base/mem/src/vmm.rs:164-177 | the loop answers true exactly when every probed address is mapped |
| KernelVm.ProbesMappedFromAgrees | base/mem/src/vmm.rs:168-175 | the loop's early-exit reading of the check agrees with the list of probed addresses |
| KernelVm.IsInKernelSpace | base/mem/src/vmm.rs:164-177 | as written: true for an empty range, false when the start is unmapped, and otherwise true exactly when every probe is mapped |
| KernelVm.IsInKernelSpaceFixed | base/mem/src/vmm.rs:164-177 | the same check with the corrected step |
| KernelVm.AlignedProbesArePageStarts | base/mem/src/vmm.rs:167-175 | from an aligned start both steps agree, and the probes are exactly the page starts of the range |
| KernelVm.FixedProbeOnPage | base/mem/src/vmm.rs:172-174 | with the corrected step every page that overlaps the range is probed |
| KernelVm.FixedCheckIsExact | base/mem/src/vmm.rs:164-177 | with the corrected step, on whole-page areas, the check holds exactly when every address of the range is mapped |
| KernelVm.UnalignedProbeSkipsPage | base/mem/src/vmm.rs:172-174 | from address 1 the written step jumps to 8192, so an unmapped page at 4096 passes the check; the corrected check rejects it |
| KernelSatpValue.KernelSatp | base/mem/src/vmm.rs:125-127 | the top four bits hold the Sv39 mode 8 and the bits below hold the root table's page number |
| KernelSatpValue.KernelSatpDecodes | base/mem/src/vmm.rs:125-127 | for page-aligned roots the root address can be read back from the value, so distinct roots give distinct values |
| DomainInit.SplitOnce | kernel/src/domain/init.rs:49 | `split_once` finds a split exactly when the character occurs, splitting at its first occurrence |
| DomainInit.KeyOf | kernel/src/domain/init.rs:47-49 | the key of a name starting with `g` is the name without that leading `g` |
| DomainInit.BuildMap | kernel/src/domain/init.rs:43-52 | the image map holds a key exactly when some entry is named `g` + key, and holds the last such entry's image |
| DomainInit.BuildFromAgrees | kernel/src/domain/init.rs:44-52 | the entry loop agrees with the last-match reading, whatever map it starts from |
| DomainInit.RegisterAll | kernel/src/domain/init.rs:54-64 | registration succeeds exactly when the names are distinct and all present; each registration carries the listed name and type and the stored image, in list order; a missing name panics |
| DomainInit.InitDomains | kernel/src/domain/init.rs:33-64 | a missing initrd panics with its message before anything else happens; otherwise the listed domains are registered in order with the last matching image |
| DomainInit.InitListDistinct | kernel/src/domain/init.rs:8-31 | the 22 listed names are pairwise distinct |
| DomainInit.InitSucceedsIffAllPresent | kernel/src/domain/init.rs:54-64 | registration succeeds exactly when every listed domain has an image in the archive |
| DomainInit.LastEntryWins | kernel/src/domain/init.rs:47-50 | a later entry for a key replaces the earlier image, and entries not starting with `g` change nothing |
| KernelStack.New | kernel/src/task/stack.rs:12-19 | always `Some`, with exactly `pages` frames, frame `i` at page `base + i`, where `base` is the allocated address shifted down by 12 |
| KernelStack.Top | kernel/src/task/stack.rs:21-24 | panics exactly on a stack without frames; otherwise the end of the last frame |
| KernelStack.NewIsContiguous | kernel/src/task/stack.rs:13-16 | the frames of a new stack are consecutive and ascending |
| KernelStack.NewThenTop | kernel/src/task/stack.rs:12-24 | a new stack of `pages > 0` frames tops out `pages` pages above the page of its allocated address |
| KernelStack.EmptyStackHasNoTop | kernel/src/task/stack.rs:21-24 | a stack of no pages panics on `top` |

## Left out

- Concurrency is not modelled: the SRCU read locks and `synchronize`, the
  loader and ledger mutexes, and the atomic `fetch_add`. The grace period is
  one step in the swap trace, and each operation is one atomic transition.
- The macro-generated proxies (`gen_for_*`, `impl_for_*`) and the interface
  traits are left out. Only the paths written out in `domain_proxy/mod.rs`
  and `net.rs` are modelled.
- DomainProxy.Build: the generated `build` is not part of this model. The
  contract assumes that it saves no resource.
- DomainProxy.Replace: the new instance's `init` result is the parameter
  `initOk`. The loader is an opaque value, and `load` and `call` are
  parameters of `Reload`.
- ResourceLedger.FreeDomainResource: `resource.rs` takes a second
  `FreeShared` argument that the callers in `domain_proxy/mod.rs` do not
  pass. The release is modelled as a function of the id alone, with the
  shared-data release recorded as its first effect. The log lines are left
  out.
- SharedRef.NewWithLayout: the heap's allocator is the parameter `grant`, a
  fresh address or `None`. The value's size and alignment come in as
  `TypeInfo`. The unchecked layout of `new_aligned` is not validated, just as
  the code does not validate it.
- SharedRef.Drop: the `unwrap` on the heap handle in `drop` is not modelled.
  A handle exists only after an allocation, which needs an initialised heap.
- NetProxy.Call: the inner domain's answers are a parameter, and only the
  crash guard is modelled. The inner operations themselves are not part of
  this model.
- Futex.SweepKeys: the tasks pushed across queues are stated as membership,
  not as the exact cross-queue order.
- Futex: the run queue (`TASK_MANAGER`) is the output sequence of pushed
  task ids. A timeout flag is an id whose setting is recorded. The timer
  reading and `have_signal` are parameters.
- KernelVm.MapRegionToKernel: the page table is abstracted to a map from
  area start to length, and whether `VmSpace::map` and `unmap` accept is a
  parameter. `vaddr + size` is computed without 64-bit wrap-around.
- KernelVm.ProbeLoop: `vaddr + size` and `addr + FRAME_SIZE` are computed on
  unbounded integers. The loop does not model a 64-bit wrap near the top of
  the address space.
- KernelVm.BuildKernelAddressSpace: only the `KERNEL_MAP_MAX` store is
  modelled. The section, trampoline and device mappings and `kernel_info`
  printing are left out.
- KernelSatpValue.KernelSatp: the root address `kernel_pgd()` is a
  parameter.
- DomainInit.InitDomains: gzip decompression and cpio parsing are left out;
  the decoded entry list is the input. Their `unwrap`s are not modelled.
  `register_domain_elf` is recorded as a `Registration`.
- KernelStack.New: `frame_alloc_contiguous` is a parameter. `i + base` is
  not wrapped at 2^64.
- KernelStack.FrameEnd: `FrameTracker` is not part of this model. The end of
  a frame is taken to be `(page + 1) * FRAME_SIZE`.
- The page geometry comes from a configuration crate that is not part of
  this model. The 4 KiB pages of the RISC-V Sv39 target are assumed.
- Futex.WakeForTimeout: the as-written sweep's contract states only that no
  empty queue remains. Its behaviour is stated by `SweepAll`, `SweepKeys`,
  `SweepPushesSelected` and the counterexample lemmas of the findings.
- Futex.WakeForSignal: the same as for `WakeForTimeout`. `have_signal` is a
  predicate on task ids, not the receivers' state.
- ResourceLedger.FreeDomainResource: `page_start + n` in the log line can overflow
  `usize` and panic in a debug build. The model computes nothing for the log
  line and does not represent that panic.
- Futex.RemoveEach: the contract does not state which waiters the shifted
  removals drop. The counterexamples under "## Findings" show it.
- Futex.Requeue: with `requeue_futex == old_futex` the contract states only
  the count and the panic cases. The loss of the moved waiters is stated by
  `RequeueOntoItselfDropsMoved` and is not reported as a finding, because
  the intended behaviour is not evident from the code.

## Findings

| source | as written | input that shows it | evidently intended | confidence | as-written member | corrected member |
|---|---|---|---|---|---|---|
| kernel/src/ipc/futex.rs:103-105 | the recorded indices of the woken waiters are removed one by one in ascending order, and each removal shifts the later waiters one place forward | one queue holding two waiters with wait time 0, swept at time 5: the second removal (index 1) hits a queue of length 1 and panics; with a third waiter without a timeout behind them, the sweep keeps the second woken waiter and drops the waiting one, whose task is then never woken | remove exactly the woken waiters | not executed | Futex.WakeForTimeout, Futex.TimeoutTwoExpiredPanics, Futex.TimeoutShiftLosesWaiter | Futex.WakeForTimeoutFixed, Futex.ExactSweepConservesTasks |
| kernel/src/ipc/futex.rs:80-82 | the same index-by-index removal in the signal sweep | one queue holding two waiters whose tasks both have a pending signal: the second removal (index 1) panics | remove exactly the woken waiters | not executed | Futex.WakeForSignal, Futex.SignalTwoPendingPanics | Futex.WakeForSignalFixed, Futex.SweepPreservesWellFormed |
| base/mem/src/vmm.rs:172-174 | the probe adds `FRAME_SIZE` and then rounds up to a page boundary | `is_in_kernel_space(1, 8192)` with pages 0 and 8192 mapped and page 4096 unmapped: the probes are 1 and 8192, so the answer is true | step to the start of the next page, so every page of the range is probed | not executed | KernelVm.IsInKernelSpace, KernelVm.UnalignedProbeSkipsPage | KernelVm.IsInKernelSpaceFixed, KernelVm.FixedCheckIsExact |
