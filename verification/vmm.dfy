/** The kernel's own address space bookkeeping (`base/mem/src/vmm.rs`): the
    bump pointer `KERNEL_MAP_MAX` behind `alloc_free_region`, the `satp`
    encoding of the root page table, the argument checks of mapping and
    unmapping, and the page-probe loop of `is_in_kernel_space`. The page table
    itself (`VmSpace`) is abstracted to the areas it holds. */
module KernelVm {
  import opened Kernel

  /** `KERNEL_MAP_MAX` and the areas mapped into `KERNEL_SPACE`, each keyed
      by its start address and holding its length in bytes. */
  datatype KernelSpace = KernelSpace(mapMax: Usize, areas: map<nat, nat>)

  /** `KERNEL_MAP_MAX` starts at 0. */
  const BOOT: KernelSpace := KernelSpace(0, map[])

  /** `VmSpace::is_mapped(addr)`: some area covers the address. */
  predicate IsMapped(ks: KernelSpace, a: nat)
  {
    exists s | s in ks.areas :: Covers(ks, s, a)
  }

  /** The area starting at `s` covers the address `a`. */
  predicate Covers(ks: KernelSpace, s: nat, a: nat)
  {
    s in ks.areas && s <= a < s + ks.areas[s]
  }

  /** The `KERNEL_MAP_MAX.store(memory_end)` that ends
      `build_kernel_address_space`. The section and device mappings before it
      are not part of this model, so the model's areas are left as they are. */
  function BuildKernelAddressSpace(ks: KernelSpace, memoryEnd: Usize): (r: KernelSpace)
    ensures r.mapMax == memoryEnd
    ensures r.areas == ks.areas
  {
    ks.(mapMax := memoryEnd)
  }

  /** A size that `alloc_free_region` and `map_region_to_kernel` accept. */
  predicate ValidRegionSize(size: nat)
  {
    size > 0 && size % FRAME_SIZE == 0
  }

  datatype Allocation = Allocation(space: KernelSpace, region: Option<Usize>)

  /** `alloc_free_region(size)`: assert the size, then `fetch_add` on the
      bump pointer, which wraps on overflow; the previous value is the region. */
  function AllocFreeRegion(ks: KernelSpace, size: Usize): (r: Result<Allocation>)
    ensures !r.Err?
    ensures r.Abort? <==> !ValidRegionSize(size)
    ensures r.Ok? ==> r.value.region == Some(ks.mapMax) && r.value.space.areas == ks.areas
    ensures r.Ok? && ks.mapMax + size < WORD_MODULUS ==> r.value.space.mapMax == ks.mapMax + size
    ensures r.Ok? && ks.mapMax + size >= WORD_MODULUS ==> r.value.space.mapMax < ks.mapMax
  {
    if !ValidRegionSize(size) then Abort(AssertFailed("size > 0 && size % FRAME_SIZE == 0"))
    else Ok(Allocation(ks.(mapMax := (ks.mapMax + size) % WORD_MODULUS), Some(ks.mapMax)))
  }

  /** After the address space is built, the first free region starts at the end of memory. */
  lemma BuildThenAlloc(ks: KernelSpace, memoryEnd: Usize, size: Usize)
    requires ValidRegionSize(size)
    ensures AllocFreeRegion(BuildKernelAddressSpace(ks, memoryEnd), size).value.region == Some(memoryEnd)
  {
  }

  /** The ranges `[a, a + m)` and `[b, b + n)` share no address. */
  predicate Disjoint(a: nat, m: nat, b: nat, n: nat)
  {
    a + m <= b || b + n <= a
  }

  /** Two successive allocations that do not wrap are adjacent and disjoint. */
  lemma AllocAdjacentDisjoint(ks: KernelSpace, size1: Usize, size2: Usize)
    requires ValidRegionSize(size1) && ValidRegionSize(size2)
    requires ks.mapMax + size1 + size2 < WORD_MODULUS
    ensures var first := AllocFreeRegion(ks, size1).value;
            var second := AllocFreeRegion(first.space, size2).value;
            var r1 := first.region.value;
            var r2 := second.region.value;
            && r2 == r1 + size1
            && second.space.mapMax == r2 + size2
            && Disjoint(r1, size1, r2, size2)
  {
  }

  datatype Mapping = Mapping(space: KernelSpace, frames: nat)

  /** `map_region_to_kernel(vaddr, size, flags)`: both assertions, one frame
      per page, then `kernel_space.map(..).unwrap()`, whose acceptance by the
      `VmSpace`, which is not modelled, is `accepted`. */
  function MapRegionToKernel(ks: KernelSpace, vaddr: nat, size: nat, accepted: bool): (r: Result<Mapping>)
    ensures !r.Err?
    ensures r.Ok? <==> ValidRegionSize(size) && vaddr % FRAME_SIZE == 0 && accepted
    ensures r.Ok? ==> r.value.frames * FRAME_SIZE == size
    ensures r.Ok? ==> forall a :: vaddr <= a < vaddr + size ==> IsMapped(r.value.space, a)
    ensures r.Ok? ==> r.value.space.mapMax == ks.mapMax
    ensures r.Ok? ==> r.value.space.areas - {vaddr} == ks.areas - {vaddr}
  {
    if !ValidRegionSize(size) then Abort(AssertFailed("size > 0 && size % FRAME_SIZE == 0"))
    else if vaddr % FRAME_SIZE != 0 then Abort(AssertFailed("vaddr % FRAME_SIZE == 0"))
    else if !accepted then Abort(UnwrapErr("kernel_space.map"))
    else
      var space := ks.(areas := ks.areas[vaddr := size]);
      AreaMapsRange(space, vaddr);
      Ok(Mapping(space, size / FRAME_SIZE))
  }

  /** An area maps every address it covers. */
  lemma AreaMapsRange(ks: KernelSpace, start: nat)
    requires start in ks.areas
    ensures forall a :: start <= a < start + ks.areas[start] ==> IsMapped(ks, a)
  {
    forall a | start <= a < start + ks.areas[start]
      ensures IsMapped(ks, a)
    {
      assert Covers(ks, start, a);
    }
  }

  /** `unmap_region_from_kernel(addr)`: the alignment assertion, then
      `kernel_space.unmap(addr).unwrap()`, whose acceptance is `accepted`. */
  function UnmapRegionFromKernel(ks: KernelSpace, addr: nat, accepted: bool): (r: Result<KernelSpace>)
    ensures !r.Err?
    ensures r.Ok? <==> addr % FRAME_SIZE == 0 && accepted
    ensures r.Ok? ==> addr !in r.value.areas && r.value.areas == ks.areas - {addr}
  {
    if addr % FRAME_SIZE != 0 then Abort(AssertFailed("addr % FRAME_SIZE == 0"))
    else if !accepted then Abort(UnwrapErr("kernel_space.unmap"))
    else Ok(ks.(areas := ks.areas - {addr}))
  }

  /** Mapping a fresh area and unmapping it again restores the address space. */
  lemma MapThenUnmap(ks: KernelSpace, vaddr: nat, size: nat)
    requires ValidRegionSize(size) && vaddr % FRAME_SIZE == 0 && vaddr !in ks.areas
    ensures var m := MapRegionToKernel(ks, vaddr, size, true);
            m.Ok? && UnmapRegionFromKernel(m.value.space, vaddr, true) == Ok(ks)
  {
    var m := MapRegionToKernel(ks, vaddr, size, true).value.space;
    assert m.areas - {vaddr} == ks.areas;
  }

  // ---------------------------------------------------------------------
  // is_in_kernel_space

  /** `x & !(FRAME_SIZE - 1)`: clear the offset within the page. */
  function AlignDown(x: nat): (r: nat)
    ensures r % FRAME_SIZE == 0 && r <= x < r + FRAME_SIZE
  {
    x - x % FRAME_SIZE
  }

  /** The probe step as written: `addr += FRAME_SIZE`, then round up. */
  function NextProbe(a: nat): (r: nat)
    ensures r % FRAME_SIZE == 0
    ensures a + FRAME_SIZE <= r < a + 2 * FRAME_SIZE
    ensures a % FRAME_SIZE == 0 ==> r == a + FRAME_SIZE
  {
    AlignDown(a + FRAME_SIZE + FRAME_SIZE - 1)
  }

  /** The probe step evidently intended: the start of the next page. */
  function NextPage(a: nat): (r: nat)
    ensures r % FRAME_SIZE == 0
    ensures a < r <= a + FRAME_SIZE
    ensures r / FRAME_SIZE == a / FRAME_SIZE + 1
  {
    AlignDown(a) + FRAME_SIZE
  }

  function Step(a: nat, exact: bool): (r: nat)
    ensures a < r
  {
    if exact then NextPage(a) else NextProbe(a)
  }

  /** The addresses the loop probes from `start` while below `end`. */
  function Probes(start: nat, end: nat, exact: bool): (r: seq<nat>)
    decreases end - start
    ensures forall i :: 0 <= i < |r| ==> start <= r[i] < end
    ensures start < end ==> |r| > 0 && r[0] == start
  {
    if start >= end then [] else [start] + Probes(Step(start, exact), end, exact)
  }

  /** Every probed address of `[vaddr, vaddr + size)` is mapped. */
  predicate ProbesMapped(ks: KernelSpace, vaddr: nat, size: nat, exact: bool)
  {
    forall a :: a in Probes(vaddr, vaddr + size, exact) ==> IsMapped(ks, a)
  }

  /** The probe loop, with the step as written or as intended. */
  method ProbeLoop(ks: KernelSpace, vaddr: nat, size: nat, exact: bool) returns (r: bool)
    ensures r <==> ProbesMapped(ks, vaddr, size, exact)
  {
    var end := vaddr + size;
    var addr := vaddr;
    while addr < end
      invariant ProbesMappedFrom(ks, vaddr, end, exact) == ProbesMappedFrom(ks, addr, end, exact)
      decreases end - addr
    {
      if !IsMapped(ks, addr) {
        ProbesMappedFromAgrees(ks, vaddr, end, exact);
        return false;
      }
      addr := Step(addr, exact);
    }
    ProbesMappedFromAgrees(ks, vaddr, end, exact);
    return true;
  }

  /** The loop's reading of the check: the probe at `start` and all after it are mapped. */
  predicate ProbesMappedFrom(ks: KernelSpace, start: nat, end: nat, exact: bool)
    decreases end - start
  {
    start >= end || (IsMapped(ks, start) && ProbesMappedFrom(ks, Step(start, exact), end, exact))
  }

  /** The loop's reading agrees with the probe list. */
  lemma {:induction false} ProbesMappedFromAgrees(ks: KernelSpace, start: nat, end: nat, exact: bool)
    decreases end - start
    ensures ProbesMappedFrom(ks, start, end, exact) <==>
            forall a :: a in Probes(start, end, exact) ==> IsMapped(ks, a)
  {
    if start < end {
      var next := Step(start, exact);
      ProbesMappedFromAgrees(ks, next, end, exact);
      assert Probes(start, end, exact) == [start] + Probes(next, end, exact);
    }
  }

  /** `is_in_kernel_space(vaddr, size)` as written. */
  method IsInKernelSpace(ks: KernelSpace, vaddr: nat, size: nat) returns (r: bool)
    ensures r <==> ProbesMapped(ks, vaddr, size, false)
    ensures size == 0 ==> r
    ensures !IsMapped(ks, vaddr) && size > 0 ==> !r
  {
    r := ProbeLoop(ks, vaddr, size, false);
  }

  /** `is_in_kernel_space(vaddr, size)` with the step to the next page. */
  method IsInKernelSpaceFixed(ks: KernelSpace, vaddr: nat, size: nat) returns (r: bool)
    ensures r <==> ProbesMapped(ks, vaddr, size, true)
    ensures size == 0 ==> r
    ensures !IsMapped(ks, vaddr) && size > 0 ==> !r
  {
    r := ProbeLoop(ks, vaddr, size, true);
  }

  /** From a page-aligned start both steps agree, and the probes are exactly
      the page starts in `[vaddr, end)`. */
  lemma {:induction false} AlignedProbesArePageStarts(vaddr: nat, end: nat, exact: bool)
    requires vaddr % FRAME_SIZE == 0
    decreases end - vaddr
    ensures Probes(vaddr, end, exact) == Probes(vaddr, end, !exact)
    ensures forall a :: a in Probes(vaddr, end, exact) <==> vaddr <= a < end && a % FRAME_SIZE == 0
  {
    if vaddr < end {
      var next := vaddr + FRAME_SIZE;
      assert Step(vaddr, exact) == next && Step(vaddr, !exact) == next;
      AlignedProbesArePageStarts(next, end, exact);
      forall a | vaddr <= a < end && a % FRAME_SIZE == 0
        ensures a in Probes(vaddr, end, exact)
      {
        if a != vaddr {
          assert next <= a;
          assert a in Probes(next, end, exact);
        }
      }
    }
  }

  /** With the corrected step every page overlapping `[start, end)` is probed. */
  lemma {:induction false} FixedProbeOnPage(start: nat, end: nat, a: nat) returns (p: nat)
    requires start <= a < end
    decreases end - start
    ensures p in Probes(start, end, true) && p / FRAME_SIZE == a / FRAME_SIZE
  {
    var next := NextPage(start);
    assert Probes(start, end, true) == [start] + Probes(next, end, true);
    if a < next {
      assert AlignDown(start) <= a < AlignDown(start) + FRAME_SIZE;
      p := start;
    } else {
      p := FixedProbeOnPage(next, end, a);
    }
  }

  /** Every address of an address space of whole pages shares its mapping with its page. */
  predicate WholePages(ks: KernelSpace)
  {
    forall s :: s in ks.areas ==> s % FRAME_SIZE == 0 && ks.areas[s] % FRAME_SIZE == 0
  }

  /** With the corrected step, on an address space of whole pages the check
      holds exactly when every address of the range is mapped. */
  lemma FixedCheckIsExact(ks: KernelSpace, vaddr: nat, size: nat)
    requires WholePages(ks)
    ensures ProbesMapped(ks, vaddr, size, true) <==> forall a :: vaddr <= a < vaddr + size ==> IsMapped(ks, a)
  {
    if ProbesMapped(ks, vaddr, size, true) {
      forall a | vaddr <= a < vaddr + size
        ensures IsMapped(ks, a)
      {
        var p := FixedProbeOnPage(vaddr, vaddr + size, a);
        PageMapped(ks, p, a);
      }
    }
  }

  /** On whole pages, a mapped address maps every address of its page. */
  lemma PageMapped(ks: KernelSpace, p: nat, a: nat)
    requires WholePages(ks) && IsMapped(ks, p) && p / FRAME_SIZE == a / FRAME_SIZE
    ensures IsMapped(ks, a)
  {
    var s :| s in ks.areas && Covers(ks, s, p);
    SamePageSameArea(s, ks.areas[s], p, a);
    assert Covers(ks, s, a);
  }

  /** An area of whole pages that covers one address of a page covers the whole page. */
  lemma SamePageSameArea(s: nat, len: nat, p: nat, a: nat)
    requires s % FRAME_SIZE == 0 && len % FRAME_SIZE == 0
    requires s <= p < s + len && p / FRAME_SIZE == a / FRAME_SIZE
    ensures s <= a < s + len
  {
    var page := p / FRAME_SIZE;
    assert s / FRAME_SIZE <= page < (s + len) / FRAME_SIZE;
  }

  /** From the unaligned address 1, the as-written step jumps from 1 straight
      to 8192: the page at 4096 inside `[1, 8193)` is never probed, so with it
      unmapped and its neighbours mapped the check answers `true`. */
  lemma UnalignedProbeSkipsPage()
    ensures Probes(1, 8193, false) == [1, 8192]
    ensures var ks := KernelSpace(0, map[0 := 4096, 8192 := 4096]);
            && ProbesMapped(ks, 1, 8192, false)
            && !IsMapped(ks, 4096)
            && !ProbesMapped(ks, 1, 8192, true)
  {
    assert NextProbe(1) == 8192;
    assert NextProbe(8192) == 12288;
    assert Probes(12288, 8193, false) == [];
    assert Probes(8192, 8193, false) == [8192];
    var ks := KernelSpace(0, map[0 := 4096, 8192 := 4096]);
    assert Covers(ks, 0, 1) && Covers(ks, 8192, 8192);
    assert NextPage(1) == 4096;
    assert 4096 in Probes(1, 8193, true);
  }
}
