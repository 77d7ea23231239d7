/**
 How a backend is sized and laid out by the host (host_ivshmem.c) and how the guest checks
 that layout before using it (guest_ivshmem.c). Page size 4096, message size 64.
 */
module ShmemLayout {
  import opened MachineInts

  const PAGE_SIZE: nat := 4096
  const MSG_SIZE: nat := 64
  const NR_MSGS: nat := 64
  const METADATA_PAGES: nat := 1
  const MAGIC: u32 := 0x4856534D
  const VERSION: u32 := 1
  const LATEST_SLOT: u32 := 0
  const FIRST_HISTORY_SLOT: u32 := 1
  const H2G_OFFSET: nat := 4096
  const G2H_OFFSET: nat := 8192

  /** struct ivshmem_header. */
  datatype Header = Header(
    magic: u32, version: u32, latestSlot: u32,
    h2gOffset: u64, h2gSize: u64, g2hOffset: u64, g2hSize: u64)

  function Pow2(k: nat): (r: nat)
    ensures r >= 1
  {
    if k == 0 then 1 else 2 * Pow2(k - 1)
  }

  /** The kernel's fls: position of the highest set bit, counted from one. */
  function Fls(x: nat): nat {
    if x == 0 then 0 else 1 + Fls(x / 2)
  }

  /** The kernel's roundup_pow_of_two. */
  function RoundupPow2(n: nat): nat
    requires n > 0
  {
    Pow2(Fls(n - 1))
  }

  function DivRoundUp(n: nat, d: nat): nat
    requires d > 0
  {
    (n + d - 1) / d
  }

  /** Metadata, the H2G page, and G2H pages for the requested vCPUs. */
  function NbPages(nbCpu: u32): nat {
    METADATA_PAGES + 1 + DivRoundUp(nbCpu * MSG_SIZE, PAGE_SIZE)
  }

  lemma {:induction false} FlsBounds(x: nat)
    ensures x < Pow2(Fls(x)) && (x > 0 ==> Pow2(Fls(x)) <= 2 * x)
  {
    if x == 0 {
    } else {
      FlsBounds(x / 2);
    }
  }

  lemma {:induction false} Pow2Monotone(a: nat, b: nat)
    requires a <= b
    ensures Pow2(a) <= Pow2(b)
  {
    if a == b {
    } else {
      Pow2Monotone(a, b - 1);
    }
  }

  /** The result is the least power of two that is large enough. */
  lemma RoundupPow2Least(n: nat, k: nat)
    requires n > 1
    ensures n <= RoundupPow2(n) < 2 * n
    ensures n <= Pow2(k) ==> RoundupPow2(n) <= Pow2(k)
  {
    FlsBounds(n - 1);
    if k < Fls(n - 1) {
      Pow2Monotone(k, Fls(n - 1) - 1);
    } else {
      Pow2Monotone(Fls(n - 1), k);
    }
  }

  lemma Pow2Of39()
    ensures Pow2(39) == 0x80_0000_0000
  {
    assert Pow2(13) == 8192 by { assert Pow2(6) == 64; }
    assert Pow2(26) == 0x400_0000 by { assert Pow2(20) == 0x10_0000 by { assert Pow2(16) == 65536; } }
    assert Pow2(33) == 0x2_0000_0000 by { assert Pow2(30) == 0x4000_0000; }
  }

  /** new_backend->size. */
  function BackendSize(nbCpu: u32): (size: u64)
    ensures size >= G2H_OFFSET
  {
    RoundedInRange(NbPages(nbCpu) * PAGE_SIZE);
    RoundupPow2(NbPages(nbCpu) * PAGE_SIZE)
  }

  lemma RoundedInRange(need: nat)
    requires 1 < need <= 0x80_0000_0000
    ensures need <= RoundupPow2(need) <= 0x80_0000_0000
  {
    RoundupPow2Least(need, 39);
    Pow2Of39();
  }

  /** What the regions need: a metadata page, an H2G page, and a message for each vCPU. */
  function BytesNeeded(nbCpu: u32): nat {
    2 * PAGE_SIZE + nbCpu * MSG_SIZE
  }

  /** The pages taken are the fewest that hold those bytes. */
  lemma PagesAreFewest(nbCpu: u32)
    ensures (NbPages(nbCpu) - 1) * PAGE_SIZE < BytesNeeded(nbCpu) <= NbPages(nbCpu) * PAGE_SIZE
  {
  }

  lemma {:induction false} Pow2Adds(a: nat, b: nat)
    ensures Pow2(a + b) == Pow2(a) * Pow2(b)
  {
    if a == 0 {
    } else {
      Pow2Adds(a - 1, b);
      assert Pow2(a + b) == 2 * Pow2(a - 1 + b);
    }
  }

  /** A power of two that holds the bytes needed is a whole number of pages. */
  lemma PowerOfTwoPages(k: nat) returns (pages: nat)
    requires Pow2(k) >= 2 * PAGE_SIZE
    ensures Pow2(k) == pages * PAGE_SIZE
  {
    assert Pow2(12) == 4096 by { assert Pow2(6) == 64; }
    if k < 12 {
      Pow2Monotone(k, 12);
    }
    Pow2Adds(k - 12, 12);
    pages := Pow2(k - 12);
  }

  /** The size is the least power of two that holds the bytes needed. */
  lemma BackendSizeLeast(nbCpu: u32, k: nat)
    requires BytesNeeded(nbCpu) <= Pow2(k)
    ensures BackendSize(nbCpu) <= Pow2(k)
  {
    var pages := PowerOfTwoPages(k);
    PagesAreFewest(nbCpu);
    assert pages >= NbPages(nbCpu);
    RoundupPow2Least(NbPages(nbCpu) * PAGE_SIZE, k);
  }

  /**
   For every u32 vCPU count the size is a power of two, at least the bytes needed and below
   twice that, and no intermediate value leaves its C type.
   */
  lemma BackendSizeSound(nbCpu: u32)
    ensures exists k: nat :: k < 40 && BackendSize(nbCpu) == Pow2(k)
    ensures BytesNeeded(nbCpu) <= BackendSize(nbCpu) < 2 * BytesNeeded(nbCpu)
    ensures nbCpu * MSG_SIZE + PAGE_SIZE - 1 < TWO_64
    ensures NbPages(nbCpu) < 0x8000_0000
  {
    var need := NbPages(nbCpu) * PAGE_SIZE;
    RoundupPow2Least(need, 39);
    Pow2Of39();
    PagesAreFewest(nbCpu);
    if Fls(need - 1) >= 40 {
      Pow2Monotone(40, Fls(need - 1));
    }
    RoundupPow2Least(BytesNeeded(nbCpu), 39);
    BackendSizeLeast(nbCpu, Fls(BytesNeeded(nbCpu) - 1));
  }

  /** The header host_ivshmem_create_static_backend writes. */
  function HostHeader(size: u64): Header
    requires size >= G2H_OFFSET
  {
    Header(MAGIC, VERSION, LATEST_SLOT, H2G_OFFSET, PAGE_SIZE, G2H_OFFSET, size - G2H_OFFSET)
  }

  /** guest_ivshmem_probe's checks, in order; the offset sum is a u64 sum. */
  predicate ProbeAccepts(h: Header, barSize: u64) {
    && barSize >= PAGE_SIZE
    && h.magic == MAGIC && h.version == VERSION
    && h.h2gOffset == PAGE_SIZE
    && barSize >= AsU64(h.g2hOffset + h.g2hSize)
  }

  /**
   Metadata, H2G and G2H partition the region; G2H holds a message for every vCPU; and the
   guest accepts the header the host writes.
   */
  lemma LayoutAgrees(nbCpu: u32)
    ensures var h := HostHeader(BackendSize(nbCpu));
      && h.latestSlot == LATEST_SLOT
      && h.h2gOffset == PAGE_SIZE && h.h2gOffset + h.h2gSize == h.g2hOffset
      && h.g2hOffset + h.g2hSize == BackendSize(nbCpu)
      && nbCpu * MSG_SIZE <= h.g2hSize
      && ProbeAccepts(h, BackendSize(nbCpu))
  {
    BackendSizeSound(nbCpu);
  }

  /** All 64 run-state slots that either side may touch lie in the region iff a vCPU was requested. */
  lemma SlotsFitIffVcpus(nbCpu: u32)
    ensures G2H_OFFSET + NR_MSGS * MSG_SIZE <= BackendSize(nbCpu) <==> nbCpu >= 1
  {
    BackendSizeSound(nbCpu);
    if nbCpu == 0 {
      assert Pow2(13) == 8192 by { assert Pow2(6) == 64; }
      BackendSizeLeast(nbCpu, 13);
    } else {
      assert Pow2(13) == 8192 by { assert Pow2(6) == 64; }
      var k: nat :| k < 40 && BackendSize(nbCpu) == Pow2(k);
      if k <= 13 {
        Pow2Monotone(k, 13);
      }
      Pow2Monotone(14, k);
    }
  }

  /**
   What the checks are for: an accepted header puts H2G right behind the metadata page and,
   unless its u64 sum wraps, G2H inside the BAR. Nothing else is refused.
   */
  lemma ProbeAcceptsIff(h: Header, barSize: u64)
    requires h.g2hOffset + h.g2hSize < TWO_64
    ensures ProbeAccepts(h, barSize) <==>
      && h.magic == MAGIC && h.version == VERSION
      && PAGE_SIZE <= barSize && h.h2gOffset == PAGE_SIZE && h.g2hOffset + h.g2hSize <= barSize
  {
    InWord(h.g2hOffset + h.g2hSize);
  }

  /** guest_ivshmem_mmap's range check, with its u64 shift and product. */
  predicate MmapAccepts(h: Header, pgoff: u64, pages: u64) {
    var total := AsU64(PAGE_SIZE + h.h2gSize);
    var offset := AsU64(pgoff * PAGE_SIZE);
    offset < total && AsU64(pages * PAGE_SIZE) <= total - offset
  }

  /** Exactly the mappings inside the metadata and H2G pages are accepted, sizes being those of a 64-bit space. */
  lemma MmapAcceptsIff(h: Header, pgoff: u64, pages: u64)
    requires h.h2gSize == PAGE_SIZE && pgoff * PAGE_SIZE < TWO_64 && pages * PAGE_SIZE < TWO_64
    ensures MmapAccepts(h, pgoff, pages) <==> pgoff < 2 && pgoff + pages <= 2
  {
    InWord(pgoff * PAGE_SIZE);
    InWord(pages * PAGE_SIZE);
    assert AsU64(PAGE_SIZE + h.h2gSize) == G2H_OFFSET;
  }

  /** Every mapping the guest accepts ends below the G2H region, even if the shift wraps. */
  lemma MmapStaysBelowG2h(h: Header, pgoff: u64, pages: u64)
    requires h.h2gSize == PAGE_SIZE && MmapAccepts(h, pgoff, pages)
    ensures AsU64(pgoff * PAGE_SIZE) + AsU64(pages * PAGE_SIZE) <= G2H_OFFSET
  {
    assert AsU64(PAGE_SIZE + h.h2gSize) == G2H_OFFSET;
  }
}
