// Where the frame table and the frames lie in physical memory (init_normal_mem_zone, first half), and the
// translation between block heads and addresses. Addresses are 32-bit numbers.

module Layout {
  import opened Basics
  import opened Powers
  import opened Rounding

  const FRAME_SIZE: nat := 4096
  const RECORD_SIZE: nat := 22       // sizeof(page_frame_t), packed
  const PREV_OFFSET: nat := 10       // of prev_frame in a record
  const PREV_SIZE: nat := 4

  function AlignUp(x: nat): (r: nat)
    ensures x <= r < x + FRAME_SIZE && r % FRAME_SIZE == 0
  {
    ((x + 0xFFF) / FRAME_SIZE) * FRAME_SIZE
  }

  // The zone [base, end) starts with the table; one entry is given up for the alignment of the frames.
  function FrameCount(base: nat, end: nat): nat
    requires base <= end && (end - base) / (FRAME_SIZE + RECORD_SIZE) >= 1
  {
    (end - base) / (FRAME_SIZE + RECORD_SIZE) - 1
  }

  function TableEnd(base: nat, n: nat): nat {
    base + n * RECORD_SIZE
  }

  function FrameBase(base: nat, n: nat): nat {
    AlignUp(TableEnd(base, n))
  }

  function Address(frames: nat, i: nat): nat {
    frames + i * FRAME_SIZE
  }

  // physic_free: the distance is taken modulo 2^32.
  function FrameAt(frames: nat, address: nat): nat
    requires frames < TWO32 && address < TWO32
  {
    (if address >= frames then address - frames else address + TWO32 - frames) / FRAME_SIZE
  }

  // A region of at least two records' and frames' worth: a smaller one leaves no frames, or wraps the count.
  predicate Region(base: nat, end: nat) {
    base <= end < TWO32 && (end - base) / (FRAME_SIZE + RECORD_SIZE) >= 2
  }

  lemma RegionHolds(base: nat, end: nat)
    requires Region(base, end)
    ensures var n := FrameCount(base, end);
      0 < n < TWO32 && 0 < FrameBase(base, n) && Address(FrameBase(base, n), n) <= end
  {
  }

  // The count is one short of the largest number of frames that fit into the region together with their records.
  lemma RegionUsed(base: nat, end: nat, n: nat, m: nat)
    requires Region(base, end) && n == FrameCount(base, end)
    ensures (n + 1) * (FRAME_SIZE + RECORD_SIZE) <= end - base < (n + 2) * (FRAME_SIZE + RECORD_SIZE)
    ensures m <= n + 1 <==> m * RECORD_SIZE + m * FRAME_SIZE <= end - base
  {
  }

  // Every block inside the table's range lies above the table and ends inside the zone.
  lemma BlockInZone(base: nat, end: nat, i: nat, l: nat)
    requires base <= end < TWO32 && (end - base) / (FRAME_SIZE + RECORD_SIZE) >= 1
    requires i + Pow2(l) <= FrameCount(base, end)
    ensures var n := FrameCount(base, end);
      && TableEnd(base, n) <= Address(FrameBase(base, n), i)
      && Address(FrameBase(base, n), i + Pow2(l)) <= end
  {
  }

  // An address that physic_alloc returns leads back to the frame, and so does every byte of that frame; an
  // address below the frames never leads into the table.
  lemma AddressRoundTrip(frames: nat, n: nat, i: nat, offset: nat)
    requires i < n && Address(frames, n) <= TWO32 && offset < FRAME_SIZE
    ensures Address(frames, i) + offset < TWO32
    ensures FrameAt(frames, Address(frames, i) + offset) == i
    ensures forall a: nat :: a < frames ==> FrameAt(frames, a) >= n
  {
  }

  // An empty list is represented by index n, and pushing onto it stores the back link of record n, one past the
  // table. The store is clear of the frames if it ends before frame 0.
  predicate Clear(base: nat, n: nat) {
    TableEnd(base, n) + PREV_OFFSET + PREV_SIZE <= FrameBase(base, n)
  }

  // The last byte of that back link.
  function SentinelByte(base: nat, n: nat): nat {
    TableEnd(base, n) + PREV_OFFSET + PREV_SIZE - 1
  }

  lemma BaseFits(base: nat, n: nat)
    requires n > 0
    ensures FrameBase(base, n) > 0 && FrameBase(base, n) % FRAME_SIZE == 0
  {
  }

  // It is so exactly when the table ends in the middle part of a page; otherwise its last byte is in frame 0.
  lemma SentinelClear(base: nat, n: nat)
    ensures Clear(base, n) <==> 0 < TableEnd(base, n) % FRAME_SIZE <= FRAME_SIZE - PREV_OFFSET - PREV_SIZE
    ensures !Clear(base, n) <==> FrameBase(base, n) <= SentinelByte(base, n) < Address(FrameBase(base, n), 1)
  {
  }

  // A table of 28672 records fills whole pages: from a page boundary on, the store falls into frame 0.
  lemma WholePages(base: nat)
    requires base % FRAME_SIZE == 0
    ensures FrameBase(base, 28672) == TableEnd(base, 28672) && !Clear(base, 28672)
  {
  }

  // The number of frames physic_alloc asks for.
  function FramesFor(bytes: nat): nat {
    bytes / FRAME_SIZE + (if bytes % FRAME_SIZE > 0 then 1 else 0)
  }

  // A block is never too small for the request, and a block of half the size would have been.
  lemma RequestFits(bytes: nat, l: nat)
    requires LeastLevel(FramesFor(bytes), l)
    ensures bytes <= Pow2(l) * FRAME_SIZE
    ensures l > 0 ==> Pow2(l - 1) * FRAME_SIZE < bytes
  {
  }
}
