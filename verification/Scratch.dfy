/**
 * The scratch allocator (src/secp256k1/scratch_impl.h) and the space that the multi-multiplication
 * algorithms take from it (src/secp256k1/ecmult_impl.h).
 */
module Scratch {
  import opened Arithmetic
  import opened FixedWnaf

  const ALIGNMENT: nat := 16

  /** `ROUND_TO_ALIGN` */
  function RoundToAlign(size: nat): (r: nat)
    ensures size <= r < size + ALIGNMENT && r % ALIGNMENT == 0
  {
    AlignFacts(size);
    (size + 15) / 16 * ALIGNMENT
  }

  lemma AlignFacts(size: nat)
    ensures size <= (size + 15) / 16 * 16 < size + 16 && (size + 15) / 16 * 16 % 16 == 0
  {
  }

  /** A stack of blocks inside a buffer of fixed size; a block is known by its offset. */
  class ScratchSpace {
    const maxSize: nat
    var allocSize: nat

    ghost predicate Valid()
      reads this
    {
      allocSize <= maxSize
    }

    constructor (size: nat)
      ensures Valid() && maxSize == size && allocSize == 0
    {
      maxSize, allocSize := size, 0;
    }

    method Checkpoint() returns (checkpoint: nat)
      ensures checkpoint == allocSize
    {
      checkpoint := allocSize;
    }

    /** Frees everything allocated since the checkpoint; a checkpoint from the future is refused. */
    method ApplyCheckpoint(checkpoint: nat)
      requires Valid()
      modifies this
      ensures Valid()
      ensures allocSize == if checkpoint > old(allocSize) then old(allocSize) else checkpoint
    {
      if checkpoint > allocSize {
        return;
      }
      allocSize := checkpoint;
    }

    /** What `objects` allocations may take in total, whatever their alignment costs. */
    function MaxAllocation(objects: nat): (m: nat)
      requires Valid()
      reads this
      ensures m > 0 ==> allocSize + m + objects * 15 == maxSize
      ensures m == 0 <==> maxSize - allocSize <= objects * 15
    {
      if maxSize - allocSize <= objects * (ALIGNMENT - 1) then 0
      else maxSize - allocSize - objects * (ALIGNMENT - 1)
    }

    /** The block starts where the previous one ended and lies inside the buffer, or there is no block. */
    method Alloc(size: nat) returns (ok: bool, offset: nat)
      requires Valid()
      modifies this
      ensures Valid()
      ensures ok == (RoundToAlign(size) <= maxSize - old(allocSize))
      ensures ok ==> offset == old(allocSize) && allocSize == offset + RoundToAlign(size)
      ensures !ok ==> allocSize == old(allocSize)
    {
      var rounded := RoundToAlign(size);
      offset := allocSize;
      if rounded > maxSize - allocSize {
        return false, offset;
      }
      allocSize := allocSize + rounded;
      ok := true;
    }

    /** Allocates blocks in order and tells whether all of them were found. */
    method AllocAll(sizes: seq<nat>) returns (ok: bool)
      requires Valid()
      modifies this
      ensures Valid() && allocSize >= old(allocSize)
      ensures ok == (RoundedTotal(sizes) <= maxSize - old(allocSize))
      ensures ok ==> allocSize == old(allocSize) + RoundedTotal(sizes)
    {
      for i := 0 to |sizes|
        invariant Valid() && allocSize == old(allocSize) + RoundedTotal(sizes[..i])
      {
        assert sizes[..i + 1][..i] == sizes[..i];
        RoundedPrefix(sizes, i + 1);
        var got, _ := Alloc(sizes[i]);
        if !got {
          return false;
        }
      }
      assert sizes[..|sizes|] == sizes;
      ok := true;
    }
  }

  /** What blocks of these sizes take, each rounded up. */
  function RoundedTotal(sizes: seq<nat>): nat
  {
    if |sizes| == 0 then 0 else RoundedTotal(sizes[..|sizes| - 1]) + RoundToAlign(sizes[|sizes| - 1])
  }

  lemma {:induction false} RoundedPrefix(sizes: seq<nat>, i: nat)
    requires i <= |sizes|
    ensures RoundedTotal(sizes[..i]) <= RoundedTotal(sizes)
    decreases |sizes|
  {
    if i == |sizes| {
      assert sizes[..i] == sizes;
    } else {
      var n := |sizes| - 1;
      RoundedPrefix(sizes[..n], i);
      assert sizes[..n][..i] == sizes[..i];
    }
  }

  /** Alignment costs at most `ALIGNMENT - 1` bytes a block. */
  lemma {:induction false} RoundingCost(sizes: seq<nat>)
    ensures RoundedTotal(sizes) <= Total(sizes) + |sizes| * (ALIGNMENT - 1)
    decreases |sizes|
  {
    if |sizes| > 0 {
      RoundingCost(sizes[..|sizes| - 1]);
    }
  }

  function Total(sizes: seq<nat>): nat
  {
    if |sizes| == 0 then 0 else Total(sizes[..|sizes| - 1]) + sizes[|sizes| - 1]
  }

  // ----- Pippenger's demand -----

  // Sizes of the C structures on a 64-bit target.
  const SIZEOF_GE: nat := 88
  const SIZEOF_GEJ: nat := 128
  const SIZEOF_FE: nat := 40
  const SIZEOF_SCALAR: nat := 32
  const SIZEOF_INT: nat := 4
  const SIZEOF_POINT_STATE: nat := 16
  const SIZEOF_PIPPENGER_STATE: nat := 16

  /** The next multiple of eight bytes. */
  function Aligned8(n: nat): nat {
    (n + 7) / 8 * 8
  }

  /** The sizes, from the members of the structures: five words, points with a flag, counters and pointers. */
  lemma Layouts()
    ensures SIZEOF_FE == 5 * 8 && SIZEOF_SCALAR == 4 * 8 && SIZEOF_INT == 4
    ensures SIZEOF_GE == Aligned8(2 * SIZEOF_FE + SIZEOF_INT) && SIZEOF_GEJ == Aligned8(3 * SIZEOF_FE + SIZEOF_INT)
    ensures SIZEOF_POINT_STATE == Aligned8(SIZEOF_INT) + 8 && SIZEOF_PIPPENGER_STATE == 2 * 8
    ensures SIZEOF_STRAUSS_POINT_STATE == Aligned8(256 * SIZEOF_INT + SIZEOF_INT) + 8
  {
  }

  const SIZE_MAX: nat := 0xFFFFFFFFFFFFFFFF
  const PIPPENGER_SCRATCH_OBJECTS: nat := 6
  const PIPPENGER_MAX_BUCKET_WINDOW: nat := 12

  /** `secp256k1_pippenger_bucket_window` */
  function BucketWindow(n: nat): (w: nat)
    ensures 1 <= w <= PIPPENGER_MAX_BUCKET_WINDOW
  {
    if n <= 1 then 1
    else if n <= 11 then 2
    else if n <= 45 then 3
    else if n <= 100 then 4
    else if n <= 275 then 5
    else if n <= 625 then 6
    else if n <= 1850 then 7
    else if n <= 3400 then 8
    else if n <= 9630 then 9
    else if n <= 17900 then 10
    else if n <= 32800 then 11
    else PIPPENGER_MAX_BUCKET_WINDOW
  }

  /** `secp256k1_pippenger_bucket_window_inv` */
  function BucketWindowInv(w: nat): nat
  {
    match w
    case 1 => 1
    case 2 => 11
    case 3 => 45
    case 4 => 100
    case 5 => 275
    case 6 => 625
    case 7 => 1850
    case 8 => 3400
    case 9 => 9630
    case 10 => 17900
    case 11 => 32800
    case 12 => SIZE_MAX
    case _ => 0
  }

  /** The number of points from which on the next window is better. */
  const THRESHOLDS: seq<nat> := [1, 11, 45, 100, 275, 625, 1850, 3400, 9630, 17900, 32800]

  /** The window lies behind the thresholds that are passed and before the others. */
  lemma WindowByThresholds(n: nat)
    ensures
      var w := BucketWindow(n);
      (w > 1 ==> n > THRESHOLDS[w - 2]) && (w < 12 ==> n <= THRESHOLDS[w - 1])
  {
  }

  /** The two tables are inverse to each other: a window is chosen exactly up to its limit. */
  lemma WindowAndInverse(n: nat, w: nat)
    requires n <= SIZE_MAX && 1 <= w <= PIPPENGER_MAX_BUCKET_WINDOW
    ensures BucketWindow(n) <= w <==> n <= BucketWindowInv(w)
  {
  }

  /** Bytes per point: the point, its scalar, its state and a row of digits (one spare digit). */
  function EntrySize(bits: nat, w: nat): (s: nat)
    ensures s > 0
  {
    SIZEOF_GE + SIZEOF_SCALAR + SIZEOF_POINT_STATE + (WnafSize(bits, w + 1) + 1) * SIZEOF_INT
  }

  /** Bytes for the buckets and the state header. */
  function FixedSize(w: nat): nat
  {
    SIZEOF_GEJ * Pow2(w) + SIZEOF_PIPPENGER_STATE
  }

  /** `secp256k1_pippenger_scratch_size` */
  function PippengerScratchSize(bits: nat, n: nat, w: nat): nat
  {
    FixedSize(w) + (n + 1) * EntrySize(bits, w)
  }

  lemma ScratchSizeMonotone(bits: nat, m: nat, n: nat, w: nat)
    requires m <= n
    ensures PippengerScratchSize(bits, m, w) <= PippengerScratchSize(bits, n, w)
  {
    MulMonotone(m + 1, n + 1, EntrySize(bits, w));
  }

  /** The six blocks that a Pippenger batch of `n` points asks for. */
  function PippengerBlocks(bits: nat, n: nat, w: nat): seq<nat>
  {
    [(n + 1) * SIZEOF_GE, (n + 1) * SIZEOF_SCALAR, SIZEOF_PIPPENGER_STATE,
     (n + 1) * SIZEOF_POINT_STATE, (n + 1) * WnafSize(bits, w + 1) * SIZEOF_INT, Pow2(w) * SIZEOF_GEJ]
  }

  lemma BlocksFit(bits: nat, n: nat, w: nat)
    ensures Total(PippengerBlocks(bits, n, w)) <= PippengerScratchSize(bits, n, w)
  {
    var e, d := n + 1, WnafSize(bits, w + 1);
    var bs := PippengerBlocks(bits, n, w);
    TotalOfSix(bs);
    EntryProduct(e, d);
  }

  lemma EntryProduct(e: nat, d: nat)
    ensures e * (SIZEOF_GE + SIZEOF_SCALAR + SIZEOF_POINT_STATE + (d + 1) * SIZEOF_INT)
         == e * SIZEOF_GE + e * SIZEOF_SCALAR + e * SIZEOF_POINT_STATE + e * d * SIZEOF_INT + e * SIZEOF_INT
  {
  }

  lemma TotalOfSix(bs: seq<nat>)
    requires |bs| == 6
    ensures Total(bs) == bs[0] + bs[1] + bs[2] + bs[3] + bs[4] + bs[5]
  {
    assert bs[..5][..4] == bs[..4] && bs[..4][..3] == bs[..3] && bs[..3][..2] == bs[..2] && bs[..2][..1] == bs[..1] && bs[..1][..0] == [];
    assert Total(bs[..1]) == bs[0];
    assert Total(bs[..2]) == bs[0] + bs[1];
    assert Total(bs[..3]) == Total(bs[..2]) + bs[2];
    assert Total(bs[..4]) == Total(bs[..3]) + bs[3];
    assert Total(bs[..5]) == Total(bs[..4]) + bs[4];
  }

  /** Every batch of at most `res` points fits, at the window that the batch will choose for itself. */
  ghost predicate Usable(bits: nat, maxAlloc: nat, res: nat) {
    forall n :: 1 <= n <= res && n <= SIZE_MAX ==> PippengerScratchSize(bits, n, BucketWindow(n)) <= maxAlloc
  }

  /** If `limit` points fit at window `w`, every number of points that chooses `w` and is within it fits. */
  lemma UsableExtends(bits: nat, maxAlloc: nat, w: nat, res: nat, limit: nat)
    requires 1 <= w <= PIPPENGER_MAX_BUCKET_WINDOW
    requires Usable(bits, maxAlloc, res) && (w > 1 ==> res == BucketWindowInv(w - 1)) && (w == 1 ==> res == 0)
    requires limit <= BucketWindowInv(w)
    requires limit > 0 ==> PippengerScratchSize(bits, limit, w) <= maxAlloc
    ensures Usable(bits, maxAlloc, if limit > res then limit else res)
  {
    forall n | res < n <= limit && n <= SIZE_MAX
      ensures PippengerScratchSize(bits, n, BucketWindow(n)) <= maxAlloc
    {
      WindowAndInverse(n, w);
      if w > 1 {
        WindowAndInverse(n, w - 1);
      }
      ScratchSizeMonotone(bits, n, limit, w);
    }
  }

  /** How many points of a window's range fit at that window, if its fixed part fits at all. */
  method PointsAtWindow(bits: nat, w: nat, maxAlloc: nat) returns (fits: bool, nPoints: nat)
    ensures fits == (FixedSize(w) + EntrySize(bits, w) <= maxAlloc)
    ensures fits ==> nPoints <= BucketWindowInv(w) && PippengerScratchSize(bits, nPoints, w) <= maxAlloc
    ensures fits && nPoints < BucketWindowInv(w) ==> PippengerScratchSize(bits, nPoints + 1, w) > maxAlloc
  {
    var maxPoints, entrySize := BucketWindowInv(w), EntrySize(bits, w);
    var overhead := FixedSize(w) + entrySize;
    if overhead > maxAlloc {
      return false, 0;
    }
    nPoints := Quotient(maxAlloc - overhead, entrySize);
    MulDistributes(entrySize, nPoints, 1);
    MulDistributes(entrySize, nPoints + 1, 1);
    if nPoints > maxPoints {
      ScratchSizeMonotone(bits, maxPoints, nPoints, w);
      nPoints := maxPoints;
    }
    fits := true;
  }

  /** One point more would not fit. */
  ghost predicate Tight(bits: nat, maxAlloc: nat, res: nat) {
    res < SIZE_MAX ==> PippengerScratchSize(bits, res + 1, BucketWindow(res + 1)) > maxAlloc
  }

  /** Where the search stops inside a window's range, because `n` points no longer fit, the limit is tight. */
  lemma StopsTight(bits: nat, maxAlloc: nat, w: nat, res: nat, n: nat)
    requires 1 <= w <= PIPPENGER_MAX_BUCKET_WINDOW
    requires (if w == 1 then 0 else BucketWindowInv(w - 1)) <= res < BucketWindowInv(w)
    requires n <= res + 1 && PippengerScratchSize(bits, n, w) > maxAlloc
    ensures Tight(bits, maxAlloc, res)
  {
    WindowAndInverse(res + 1, w);
    if w > 1 {
      WindowAndInverse(res + 1, w - 1);
    }
    ScratchSizeMonotone(bits, n, res + 1, w);
  }

  /** `secp256k1_pippenger_max_points`: the largest number of points up to which every batch fits. */
  method PippengerMaxPoints(bits: nat, scratch: ScratchSpace) returns (res: nat)
    requires scratch.Valid()
    ensures Usable(bits, scratch.MaxAllocation(PIPPENGER_SCRATCH_OBJECTS), res)
    ensures Tight(bits, scratch.MaxAllocation(PIPPENGER_SCRATCH_OBJECTS), res)
  {
    var maxAlloc := scratch.MaxAllocation(PIPPENGER_SCRATCH_OBJECTS);
    res := 0;
    var w := 1;
    while w <= PIPPENGER_MAX_BUCKET_WINDOW
      invariant 1 <= w <= PIPPENGER_MAX_BUCKET_WINDOW + 1
      invariant Usable(bits, maxAlloc, res)
      invariant res == if w == 1 then 0 else BucketWindowInv(w - 1)
    {
      var fits, nPoints := PointsAtWindow(bits, w, maxAlloc);
      if !fits {
        StopsTight(bits, maxAlloc, w, res, 0);
        return;
      }
      UsableExtends(bits, maxAlloc, w, res, nPoints);
      if nPoints > res {
        res := nPoints;
      }
      if nPoints < BucketWindowInv(w) {
        StopsTight(bits, maxAlloc, w, res, nPoints + 1);
        return;
      }
      w := w + 1;
    }
  }

  // ----- Strauss' demand -----

  const STRAUSS_SCRATCH_OBJECTS: nat := 6
  const WINDOW_A: nat := 5
  const TABLE_SIZE_A: nat := 8
  const SIZEOF_STRAUSS_POINT_STATE: nat := 1040

  /** `secp256k1_strauss_scratch_size` of one point. */
  const STRAUSS_POINT_SIZE: nat :=
    (SIZEOF_GE + SIZEOF_GEJ + SIZEOF_FE) * TABLE_SIZE_A + SIZEOF_STRAUSS_POINT_STATE + SIZEOF_GEJ + SIZEOF_SCALAR

  /** The six blocks that a Strauss batch of `n` points asks for. */
  function StraussBlocks(n: nat): seq<nat>
  {
    [n * SIZEOF_GEJ, n * SIZEOF_SCALAR, n * TABLE_SIZE_A * SIZEOF_GEJ, n * TABLE_SIZE_A * SIZEOF_FE,
     n * TABLE_SIZE_A * SIZEOF_GE, n * SIZEOF_STRAUSS_POINT_STATE]
  }

  lemma StraussBlocksFit(n: nat)
    ensures Total(StraussBlocks(n)) == n * STRAUSS_POINT_SIZE
  {
    TotalOfSix(StraussBlocks(n));
  }
}
