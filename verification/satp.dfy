/** The `satp` value of the kernel address space (`base/mem/src/vmm.rs`),
    on 64-bit words. */
module KernelSatpValue {
  import opened Kernel

  /** `FRAME_BITS` as a 64-bit shift amount. */
  const FRAME_SHIFT: bv64 := 12

  lemma FrameShiftIsFrameBits()
    ensures FRAME_SHIFT as int == FRAME_BITS
  {
  }

  /** `kernel_satp()`: `8 << 60 | (pgd >> FRAME_BITS)`, the Sv39 mode in the
      top four bits and the root page table's page number below. The root
      address `kernel_pgd()` reads the page table's `root_paddr`, which is not
      modelled; it is a parameter here. The mode
      field `8 << 60` is written out as its value. */
  function KernelSatp(pgd: bv64): (r: bv64)
    ensures r >> 60 == 8
    ensures r & 0x0FFF_FFFF_FFFF_FFFF == pgd >> FRAME_SHIFT
  {
    0x8000_0000_0000_0000 | (pgd >> FRAME_SHIFT)
  }

  /** Page-aligned root tables have distinct `satp` values, and the root
      address can be read back from the value. */
  lemma KernelSatpDecodes(pgd: bv64, other: bv64)
    requires pgd & 0xFFF == 0 && other & 0xFFF == 0
    ensures (KernelSatp(pgd) & 0x0FFF_FFFF_FFFF_FFFF) << FRAME_SHIFT == pgd
    ensures KernelSatp(pgd) == KernelSatp(other) ==> pgd == other
  {
  }
}
