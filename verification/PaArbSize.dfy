/**
  Sizes, slots and atoms of the arbitrary-size allocator.
 */
module PaArbSize {
  import opened PaMath

  const PA_MMAP_ATOM_SIZE: nat := 4096   // a page
  const PA_ARB_MAX_POW2: nat := 12       // the last slot kept on a free list
  const PA_ARB_MAX_LARGE: nat := 0x1000_0000
  const UINT32: nat := 0x1_0000_0000
  const UINT64: nat := 0x1_0000_0000_0000_0000
  const HEADER_SIZE: nat := 4

  // Position of the highest set bit, counting from one; zero for zero.
  function BitLength(n: nat): nat {
    if n == 0 then 0 else 1 + BitLength(n / 2)
  }

  /** The bit length of n is the one b with 2^(b-1) <= n < 2^b. */
  lemma {:induction false} BitLengthBounds(n: nat)
    requires n > 0
    ensures BitLength(n) > 0 && Pow2(BitLength(n) - 1) <= n < Pow2(BitLength(n))
  {
    if n > 1 {
      BitLengthBounds(n / 2);
    }
  }

  lemma {:induction false} BitLengthUnique(n: nat, b: nat)
    requires b > 0 && Pow2(b - 1) <= n < Pow2(b)
    ensures BitLength(n) == b
  {
    BitLengthBounds(n);
    if BitLength(n) < b {
      Pow2Mono(BitLength(n), b - 1);
    } else if BitLength(n) > b {
      Pow2Mono(b, BitLength(n) - 1);
    }
  }

  /** pa_log2, the portable loop: shifts the mask out and counts. */
  method Log2(size: nat) returns (idx: nat)
    requires size < UINT32
    ensures idx == BitLength(size)
    ensures size > 0 ==> idx > 0 && Pow2(idx - 1) <= size < Pow2(idx)
  {
    var mask := size;
    idx := 0;
    while mask != 0
      invariant BitLength(size) == idx + BitLength(mask)
    {
      mask := mask / 2;
      idx := idx + 1;
    }
    if size > 0 {
      BitLengthBounds(size);
    }
  }

  // pa_arb_slot: pa_log2 takes a 32-bit argument, and the subtraction is on unsigned 32-bit numbers.
  function Slot(size: nat): nat {
    if size < 16 then 0 else (BitLength((size - 1) % UINT32) - 4) % UINT32
  }

  // Bytes in a chunk of a slot, header included.
  function ChunkBytes(slot: nat): nat {
    16 * Pow2(slot)
  }

  lemma {:induction false} ChunkBytesPow2(slot: nat)
    ensures ChunkBytes(slot) == Pow2(slot + 4)
  {
    assert Pow2(slot + 2) == 4 * Pow2(slot);
    assert Pow2(slot + 4) == 4 * Pow2(slot + 2);
  }

  lemma {:induction false} BitLengthAtMost(n: nat, k: nat)
    ensures n < Pow2(k) <==> BitLength(n) <= k
  {
    if n > 0 {
      BitLengthBounds(n);
      if BitLength(n) <= k {
        Pow2Mono(BitLength(n), k);
      } else {
        Pow2Mono(k, BitLength(n) - 1);
      }
    }
  }

  /** The chosen slot is the least one whose chunk holds the size, up to the 32-bit limit. */
  lemma {:induction false} SlotIsLeast(size: nat, s: nat)
    requires 1 <= size <= UINT32
    ensures size <= ChunkBytes(s) <==> Slot(size) <= s
  {
    if size < 16 {
      Pow2Mono(0, s);
    } else {
      Pow2Table();
      BitLengthAtMost(size - 1, 3);
      BitLengthAtMost(size - 1, 32);
      BitLengthAtMost(size - 1, s + 4);
      ChunkBytesPow2(s);
      assert (size - 1) % UINT32 == size - 1;
    }
  }

  /** A request sent to a free list gets a chunk that holds it exactly when it is at most 2^32 bytes. */
  lemma {:induction false} SmallSlotFits(size: nat)
    requires 1 <= size && Slot(size) <= PA_ARB_MAX_POW2
    ensures size <= ChunkBytes(Slot(size)) <==> size <= UINT32
  {
    if size <= UINT32 {
      SlotIsLeast(size, Slot(size));
    } else {
      Pow2Table();
      Pow2Mono(Slot(size), PA_ARB_MAX_POW2);
    }
  }

  /** Four gigabytes and 101 bytes are served from the 128-byte slot. */
  lemma {:induction false} HugeRequestTruncates()
    ensures Slot(UINT32 + 101) == 3 && ChunkBytes(3) == 128
  {
    Pow2Table();
    BitLengthUnique(100, 7);
  }

  // pa_roundup32 to whole pages; sizes stay below 2^28, so nothing wraps.
  function Pages(fullSize: nat): nat {
    (fullSize + PA_MMAP_ATOM_SIZE - 1) / PA_MMAP_ATOM_SIZE
  }

  // prh_size: pages in a 16-bit field.
  function RecordedSize(pages: nat): nat {
    pages % 65536
  }

  /** The recorded size shifts back to the size obtained exactly up to 2^28 - 4096. */
  lemma {:induction false} LargeSizeRecovered(fullSize: nat)
    requires 0 < fullSize < PA_ARB_MAX_LARGE
    ensures fullSize <= Pages(fullSize) * PA_MMAP_ATOM_SIZE < fullSize + PA_MMAP_ATOM_SIZE
    ensures RecordedSize(Pages(fullSize)) * PA_MMAP_ATOM_SIZE == Pages(fullSize) * PA_MMAP_ATOM_SIZE
            <==> fullSize <= PA_ARB_MAX_LARGE - PA_MMAP_ATOM_SIZE
  {
  }

  // ----- pages and atoms

  // pa_arb_chunks_per_page
  function ChunksPerPage(slot: nat): nat
    requires slot <= PA_ARB_MAX_POW2
  {
    var val := Shr(256, slot);
    if val != 0 then val else 1
  }

  // pa_arb_slot_to_size, in pages
  function SlotPages(slot: nat): nat
    requires slot <= PA_ARB_MAX_POW2
  {
    if ChunkBytes(slot) < PA_MMAP_ATOM_SIZE then 1 else ChunkBytes(slot) / PA_MMAP_ATOM_SIZE
  }

  // pa_arb_build_atom: the page above, the offset in 16-byte units below.
  function BuildAtom(matom: nat, slot: nat, chunk: nat): nat {
    matom * 256 + Pow2(slot) * chunk
  }

  // pa_arb_header: where the header of an atom lies, in bytes.
  function HeaderAddr(atom: nat): nat {
    (atom / 256) * PA_MMAP_ATOM_SIZE + (atom % 256) * 16
  }

  lemma {:induction false} ChunksTable()
    ensures ChunksPerPage(0) == 256 && ChunksPerPage(1) == 128 && ChunksPerPage(2) == 64 && ChunksPerPage(3) == 32
    ensures ChunksPerPage(4) == 16 && ChunksPerPage(5) == 8 && ChunksPerPage(6) == 4 && ChunksPerPage(7) == 2
    ensures ChunksPerPage(8) == 1 && ChunksPerPage(9) == 1 && ChunksPerPage(10) == 1
    ensures ChunksPerPage(11) == 1 && ChunksPerPage(12) == 1
  {
  }

  lemma {:induction false} SlotFacts(slot: nat)
    requires slot <= PA_ARB_MAX_POW2
    ensures ChunksPerPage(slot) >= 1
    ensures ChunksPerPage(slot) * ChunkBytes(slot) == SlotPages(slot) * PA_MMAP_ATOM_SIZE
    ensures slot <= 8 ==> ChunksPerPage(slot) * Pow2(slot) == 256 && SlotPages(slot) == 1
    ensures slot > 8 ==> ChunksPerPage(slot) == 1 && Pow2(slot) > 256
  {
    if slot <= 6 {
      SmallSlotFacts(slot);
    } else {
      LargeSlotFacts(slot);
    }
  }

  lemma {:induction false} LargeSlotFacts(slot: nat)
    requires 6 < slot <= PA_ARB_MAX_POW2
    ensures ChunksPerPage(slot) == if slot == 7 then 2 else 1
    ensures ChunksPerPage(slot) * ChunkBytes(slot) == SlotPages(slot) * PA_MMAP_ATOM_SIZE
    ensures if slot <= 8 then ChunksPerPage(slot) * Pow2(slot) == 256 && SlotPages(slot) == 1 else Pow2(slot) > 256
  {
    ChunksTable();
    Pow2Table();
    assert ChunkBytes(slot) == 16 * Pow2(slot);
    assert slot == 7 || slot == 8 || slot == 9 || slot == 10 || slot == 11 || slot == 12;
  }

  lemma {:induction false} SmallSlotFacts(slot: nat)
    requires slot <= 6
    ensures ChunksPerPage(slot) * ChunkBytes(slot) == SlotPages(slot) * PA_MMAP_ATOM_SIZE
    ensures ChunksPerPage(slot) * Pow2(slot) == 256 && SlotPages(slot) == 1
  {
    ChunksTable();
    Pow2Table();
    assert ChunkBytes(slot) == 16 * Pow2(slot);
    assert slot == 0 || slot == 1 || slot == 2 || slot == 3 || slot == 4 || slot == 5 || slot == 6;
  }

  lemma {:induction false} LastMultiple(p: nat, c: nat, n: nat)
    requires c < n
    ensures p * c + p <= n * p && (p * c) * 16 + 16 * p <= n * (16 * p)
  {
    MulMono(p, c + 1, n);
    assert p * (c + 1) == p * c + p;
    assert n * (16 * p) == 16 * (p * n);
  }

  lemma {:induction false} ChunkOffset(slot: nat, chunk: nat)
    requires slot <= PA_ARB_MAX_POW2 && chunk < ChunksPerPage(slot)
    ensures Pow2(slot) * chunk < 256 && (Pow2(slot) * chunk) % Pow2(slot) == 0
    ensures (Pow2(slot) * chunk) / Pow2(slot) == chunk
    ensures Pow2(slot) * chunk * 16 + ChunkBytes(slot) <= SlotPages(slot) * PA_MMAP_ATOM_SIZE
  {
    SlotFacts(slot);
    OffsetFacts(Pow2(slot), chunk, ChunksPerPage(slot), SlotPages(slot));
  }

  lemma {:induction false} OffsetFacts(p: nat, c: nat, n: nat, pages: nat)
    requires c < n && p > 0 && (n * p == 256 || n == 1) && n * (16 * p) == pages * PA_MMAP_ATOM_SIZE
    ensures p * c < 256 && (p * c) % p == 0 && (p * c) / p == c
    ensures p * c * 16 + 16 * p <= pages * PA_MMAP_ATOM_SIZE
  {
    MulDivMod(p, c);
    LastMultiple(p, c, n);
    if n == 1 {
      assert p * c == 0;
    }
  }

  lemma {:induction false} Digits(hi: nat, lo: nat)
    requires lo < 256
    ensures (hi * 256 + lo) / 256 == hi && (hi * 256 + lo) % 256 == lo
  {
  }

  lemma {:induction false} HeaderOf(matom: nat, off: nat)
    requires off < 256
    ensures var a := matom * 256 + off;
      a / 256 == matom && a % 256 == off && HeaderAddr(a) == matom * PA_MMAP_ATOM_SIZE + 16 * off
  {
    Digits(matom, off);
  }

  lemma {:induction false} Sixteen(p: nat, c: nat)
    ensures 16 * p * c == 16 * (p * c)
  {
  }

  /** An atom decodes to the page, slot offset and address it was built from. */
  lemma {:induction false} AtomRoundTrip(matom: nat, slot: nat, chunk: nat)
    requires slot <= PA_ARB_MAX_POW2 && chunk < ChunksPerPage(slot)
    ensures var a := BuildAtom(matom, slot, chunk);
            && a / 256 == matom && a % 256 == Pow2(slot) * chunk && (a % 256) / Pow2(slot) == chunk
            && HeaderAddr(a) == matom * PA_MMAP_ATOM_SIZE + ChunkBytes(slot) * chunk
  {
    ChunkOffset(slot, chunk);
    var off := Pow2(slot) * chunk;
    HeaderOf(matom, off);
    Sixteen(Pow2(slot), chunk);
  }

  /** Distinct chunks have distinct atoms. */
  lemma {:induction false} AtomsDistinct(m: nat, m': nat, slot: nat, chunk: nat, chunk': nat)
    requires slot <= PA_ARB_MAX_POW2 && chunk < ChunksPerPage(slot) && chunk' < ChunksPerPage(slot)
    ensures BuildAtom(m, slot, chunk) == BuildAtom(m', slot, chunk') <==> m == m' && chunk == chunk'
  {
    AtomRoundTrip(m, slot, chunk);
    AtomRoundTrip(m', slot, chunk');
  }
}
