/**
 * `secp256k1_ecmult_multi_var` and the batches it is made of (src/secp256k1/ecmult_impl.h): the
 * choice of algorithm, the batching and the scratch space never show in the result.
 */
module EcmultMulti {
  import opened Options
  import opened Arithmetic
  import opened Group
  import opened FixedWnaf
  import opened Strauss
  import opened Scratch
  import Pippenger

  const ECMULT_PIPPENGER_THRESHOLD: nat := 160
  const ECMULT_MAX_POINTS_PER_BATCH: nat := 10000000

  /** What the caller's callback delivers for one index. */
  datatype Entry<E> = Entry(scalar: nat, point: E)

  /** The group with its exponent, its generator and the generator's table. */
  datatype Context<!E(!new)> = Context(g: Abelian<E>, n: nat, width: nat, G: E, windowG: nat, preG: seq<E>) {
    ghost predicate Valid() {
      && g.Lawful() && g.HasExponent(n)
      && 13 <= width && 1 <= n < Pow2(width)
      && 2 <= windowG <= 24 && |preG| == Pow2(windowG - 2) && OddMultiples(g, preG, G)
    }
  }

  /** A callback result for every index; scalars are reduced. */
  ghost predicate Callback<E(!new)>(ctx: Context<E>, cb: seq<Option<Entry<E>>>) {
    forall i :: 0 <= i < |cb| && cb[i].Some? ==> cb[i].value.scalar < ctx.n
  }

  ghost predicate AllDelivered<E(!new)>(cb: seq<Option<Entry<E>>>) {
    forall i :: 0 <= i < |cb| ==> cb[i].Some?
  }

  ghost function Scalars<E(!new)>(cb: seq<Option<Entry<E>>>): (s: seq<nat>)
    requires AllDelivered(cb)
    ensures |s| == |cb|
  {
    seq(|cb|, i requires 0 <= i < |cb| => cb[i].value.scalar)
  }

  ghost function Points<E(!new)>(cb: seq<Option<Entry<E>>>): (p: seq<E>)
    requires AllDelivered(cb)
    ensures |p| == |cb|
  {
    seq(|cb|, i requires 0 <= i < |cb| => cb[i].value.point)
  }

  /** The generator's share. */
  ghost function GeneratorTerm<E(!new)>(ctx: Context<E>, ng: Option<nat>): E {
    if ng.Some? then ctx.g.Times(ng.value, ctx.G) else ctx.g.zero
  }

  /** The sum that must come out: the generator's share plus every delivered multiple. */
  ghost function Expected<E(!new)>(ctx: Context<E>, ng: Option<nat>, cb: seq<Option<Entry<E>>>): E
    requires AllDelivered(cb)
  {
    ctx.g.add(GeneratorTerm(ctx, ng), LinComb(ctx.g, Scalars(cb), Points(cb)))
  }

  /** Collects what the callback delivers, up to its first refusal. */
  method Collect<E(!new)>(cb: seq<Option<Entry<E>>>) returns (ok: bool, scalars: seq<nat>, points: seq<E>)
    ensures ok == AllDelivered(cb)
    ensures ok ==> scalars == Scalars(cb) && points == Points(cb)
  {
    scalars, points := [], [];
    for i := 0 to |cb|
      invariant |scalars| == |points| == i
      invariant forall k :: 0 <= k < i ==> cb[k].Some? && scalars[k] == cb[k].value.scalar && points[k] == cb[k].value.point
    {
      if cb[i].None? {
        return false, scalars, points;
      }
      scalars, points := scalars + [cb[i].value.scalar], points + [cb[i].value.point];
    }
    ok := true;
  }

  /** Putting the generator in front of the list, as the Pippenger batch does. */
  lemma GeneratorFirst<E(!new)>(ctx: Context<E>, k: nat, sc: seq<nat>, pt: seq<E>)
    requires ctx.Valid() && |sc| == |pt|
    ensures LinComb(ctx.g, [k] + sc, [ctx.G] + pt) == ctx.g.add(ctx.g.Times(k, ctx.G), LinComb(ctx.g, sc, pt))
  {
    var g := ctx.g;
    LinCombAppend(g, [k], [ctx.G], sc, pt);
    LinCombSnoc(g, [], [], k, ctx.G);
    assert [] + [k] == [k] && [] + [ctx.G] == [ctx.G];
    ZeroLeft(g, g.Times(k, ctx.G));
  }

  /**
   * `secp256k1_ecmult_pippenger_batch`: succeeds whenever its six blocks fit and the callback
   * delivers; every exit gives the scratch space back.
   */
  method PippengerBatch<E(!new, ==)>(ctx: Context<E>, scratch: ScratchSpace, ng: Option<nat>, cb: seq<Option<Entry<E>>>) returns (ok: bool, r: E)
    requires ctx.Valid() && scratch.Valid() && Callback(ctx, cb) && |cb| <= SIZE_MAX
    requires ng.Some? ==> ng.value < ctx.n
    modifies scratch
    ensures scratch.Valid() && scratch.allocSize == old(scratch.allocSize)
    ensures (|cb| >= 1 && PippengerScratchSize(ctx.width, |cb|, BucketWindow(|cb|)) <= old(scratch.MaxAllocation(PIPPENGER_SCRATCH_OBJECTS)))
            ==> ok == AllDelivered(cb)
    ensures ok ==> AllDelivered(cb) && r == Expected(ctx, ng, cb)
  {
    var g := ctx.g;
    r := g.zero;
    if ng.None? && |cb| == 0 {
      assert g.Unit(g.zero);
      return true, r;
    }
    var checkpoint := scratch.Checkpoint();
    var w := BucketWindow(|cb|);
    BlocksFit(ctx.width, |cb|, w);
    RoundingCost(PippengerBlocks(ctx.width, |cb|, w));
    var found := scratch.AllocAll(PippengerBlocks(ctx.width, |cb|, w));
    if !found {
      scratch.ApplyCheckpoint(checkpoint);
      return false, r;
    }
    var delivered, scalars, points := Collect(cb);
    if !delivered {
      scratch.ApplyCheckpoint(checkpoint);
      return false, r;
    }
    r := RunPippenger(ctx, w, PippengerBlocks(ctx.width, |cb|, w), ng, scalars, points);
    scratch.ApplyCheckpoint(checkpoint);
    ok := true;
  }

  /** Runs the bucket method on buffers that are as long as the blocks hold. */
  method RunPippenger<E(!new, ==)>(ctx: Context<E>, w: nat, blocks: seq<nat>, ng: Option<nat>, scalars: seq<nat>, points: seq<E>) returns (r: E)
    requires ctx.Valid() && 1 <= w <= PIPPENGER_MAX_BUCKET_WINDOW && |scalars| == |points|
    requires blocks == PippengerBlocks(ctx.width, |scalars|, w)
    requires forall i :: 0 <= i < |scalars| ==> scalars[i] < ctx.n
    requires ng.Some? ==> ng.value < ctx.n
    ensures r == ctx.g.add(GeneratorTerm(ctx, ng), LinComb(ctx.g, scalars, points))
  {
    var g := ctx.g;
    var sc, pt := scalars, points;
    if ng.Some? {
      sc, pt := [ng.value] + scalars, [ctx.G] + points;
      GeneratorFirst(ctx, ng.value, scalars, points);
    } else {
      ZeroLeft(g, LinComb(g, scalars, points));
    }
    BuffersSuffice(ctx.width, w, |scalars|, |sc|);
    assert |pt| * SIZEOF_GE <= blocks[0] && |sc| * SIZEOF_SCALAR <= blocks[1];
    var ps := new Pippenger.PointState[blocks[3] / SIZEOF_POINT_STATE](_ => Pippenger.PointState(0, 0));
    var wnaf := new int[blocks[4] / SIZEOF_INT];
    var buckets := new E[blocks[5] / SIZEOF_GEJ](_ => g.zero);
    r := Pippenger.PippengerWnaf(g, ctx.width, buckets, w, wnaf, ps, sc, pt);
  }

  lemma BuffersSuffice(bits: nat, w: nat, n: nat, entries: nat)
    requires entries <= n + 1
    ensures
      var blocks := PippengerBlocks(bits, n, w);
      && blocks[3] / SIZEOF_POINT_STATE >= entries && blocks[5] / SIZEOF_GEJ == Pow2(w)
      && blocks[4] / SIZEOF_INT >= Pippenger.RowStart(WnafSize(bits, w + 1), entries)
  {
    var size := WnafSize(bits, w + 1);
    Pippenger.RowStartIsProduct(size, entries);
    MulMonotone(entries, n + 1, size);
    var blocks := PippengerBlocks(bits, n, w);
    assert blocks[4] == ((n + 1) * size) * SIZEOF_INT;
  }

  /** How a Strauss batch ends: the source uses its last block without looking whether it was found. */
  datatype BatchEnd = Failed | Done | NullUsed

  /** The blocks that the source looks at are found. */
  ghost predicate CheckedFit(scratch: ScratchSpace, n: nat)
    reads scratch
  {
    RoundedTotal(StraussBlocks(n)[..5]) <= scratch.maxSize - scratch.allocSize
  }

  ghost predicate AllFit(scratch: ScratchSpace, n: nat)
    reads scratch
  {
    RoundedTotal(StraussBlocks(n)) <= scratch.maxSize - scratch.allocSize
  }

  /** Some term has a state to be written: a scalar that is not zero and a point that is not at infinity. */
  ghost predicate SomeTerm<E(!new)>(ctx: Context<E>, cb: seq<Option<Entry<E>>>) {
    exists i :: 0 <= i < |cb| && cb[i].Some? && cb[i].value.scalar != 0 && cb[i].value.point != ctx.g.zero
  }

  /** `secp256k1_ecmult_strauss_batch` */
  method StraussBatch<E(!new, ==)>(ctx: Context<E>, scratch: ScratchSpace, ng: Option<nat>, cb: seq<Option<Entry<E>>>) returns (end: BatchEnd, r: E)
    requires ctx.Valid() && scratch.Valid() && Callback(ctx, cb)
    requires ng.Some? ==> ng.value < ctx.n
    modifies scratch
    ensures scratch.Valid()
    ensures end.Failed? <==> !old(CheckedFit(scratch, |cb|)) || !AllDelivered(cb)
    ensures end.NullUsed? <==> old(CheckedFit(scratch, |cb|)) && !old(AllFit(scratch, |cb|)) && AllDelivered(cb) && SomeTerm(ctx, cb)
    ensures !end.NullUsed? ==> scratch.allocSize == old(scratch.allocSize)
    ensures end.Done? ==> AllDelivered(cb) && r == Expected(ctx, ng, cb)
  {
    var g := ctx.g;
    r := g.zero;
    var blocks := StraussBlocks(|cb|);
    if ng.None? && |cb| == 0 {
      assert g.Unit(g.zero);
      NoBlocks();
      return Done, r;
    }
    var checkpoint := scratch.Checkpoint();
    var checked := scratch.AllocAll(blocks[..5]);
    if !checked {
      scratch.ApplyCheckpoint(checkpoint);
      return Failed, r;
    }
    var last, _ := scratch.Alloc(blocks[5]);
    var delivered, scalars, points := Collect(cb);
    if !delivered {
      scratch.ApplyCheckpoint(checkpoint);
      return Failed, r;
    }
    RoundedOfSix(blocks);
    TermsWritten(ctx, cb);
    if !last && Written(g, scalars, points) {
      return NullUsed, r;
    }
    r := RunStrauss(ctx, ng, scalars, points);
    scratch.ApplyCheckpoint(checkpoint);
    end := Done;
  }

  /** Whether `strauss_wnaf` writes a point state. */
  predicate Written<E(!new, ==)>(g: Abelian<E>, scalars: seq<nat>, points: seq<E>)
    requires |scalars| == |points|
  {
    exists i :: 0 <= i < |scalars| && scalars[i] != 0 && points[i] != g.zero
  }

  lemma TermsWritten<E(!new)>(ctx: Context<E>, cb: seq<Option<Entry<E>>>)
    requires AllDelivered(cb)
    ensures Written(ctx.g, Scalars(cb), Points(cb)) <==> SomeTerm(ctx, cb)
  {
    if SomeTerm(ctx, cb) {
      var i :| 0 <= i < |cb| && cb[i].Some? && cb[i].value.scalar != 0 && cb[i].value.point != ctx.g.zero;
      assert Scalars(cb)[i] != 0 && Points(cb)[i] != ctx.g.zero;
    }
  }

  lemma NoBlocks()
    ensures RoundedTotal(StraussBlocks(0)) == 0 && RoundedTotal(StraussBlocks(0)[..5]) == 0
  {
    var bs := StraussBlocks(0);
    assert bs == [0, 0, 0, 0, 0, 0];
    RoundedOfSix(bs);
    RoundedPrefix(bs, 5);
  }

  /** One point and 2208 bytes free: five blocks are found, the sixth is not. */
  lemma OnePointTooFew()
    ensures RoundedTotal(StraussBlocks(1)[..5]) <= 2208 < RoundedTotal(StraussBlocks(1))
  {
    var bs := StraussBlocks(1);
    RoundedOfSix(bs);
  }

  lemma RoundedOfSix(bs: seq<nat>)
    requires |bs| == 6
    ensures RoundedTotal(bs) == RoundedTotal(bs[..5]) + RoundToAlign(bs[5])
    ensures RoundedTotal(bs[..5]) == RoundToAlign(bs[0]) + RoundToAlign(bs[1]) + RoundToAlign(bs[2]) + RoundToAlign(bs[3]) + RoundToAlign(bs[4])
  {
    assert bs[..5][..4] == bs[..4] && bs[..4][..3] == bs[..3] && bs[..3][..2] == bs[..2] && bs[..2][..1] == bs[..1] && bs[..1][..0] == [];
    assert RoundedTotal(bs[..1]) == RoundToAlign(bs[0]);
    assert RoundedTotal(bs[..2]) == RoundedTotal(bs[..1]) + RoundToAlign(bs[1]);
    assert RoundedTotal(bs[..3]) == RoundedTotal(bs[..2]) + RoundToAlign(bs[2]);
    assert RoundedTotal(bs[..4]) == RoundedTotal(bs[..3]) + RoundToAlign(bs[3]);
  }

  /** Within `strauss_max_points` all six blocks are found. */
  lemma StraussFits(scratch: ScratchSpace, n: nat)
    requires scratch.Valid() && 1 <= n && n * STRAUSS_POINT_SIZE <= scratch.MaxAllocation(STRAUSS_SCRATCH_OBJECTS)
    ensures CheckedFit(scratch, n) && AllFit(scratch, n)
  {
    StraussBlocksFit(n);
    RoundingCost(StraussBlocks(n));
    RoundedPrefix(StraussBlocks(n), 5);
  }

  method RunStrauss<E(!new, ==)>(ctx: Context<E>, ng: Option<nat>, scalars: seq<nat>, points: seq<E>) returns (r: E)
    requires ctx.Valid() && |scalars| == |points|
    requires forall i :: 0 <= i < |scalars| ==> scalars[i] < ctx.n
    requires ng.Some? ==> ng.value < ctx.n
    ensures r == ctx.g.add(GeneratorTerm(ctx, ng), LinComb(ctx.g, scalars, points))
  {
    r := StraussWnaf(ctx.g, ctx.n, ctx.width, WINDOW_A, ctx.windowG, ctx.G, ctx.preG, points, scalars, ng);
    assert ctx.g.Comm(GeneratorTerm(ctx, ng), LinComb(ctx.g, scalars, points));
  }

  /** A prefix and the batch after it make up the longer prefix. */
  lemma BatchExtends<E(!new)>(ctx: Context<E>, ng: Option<nat>, cb: seq<Option<Entry<E>>>, a: nat, b: nat)
    requires ctx.Valid() && a <= b <= |cb|
    requires AllDelivered(cb[..a]) && AllDelivered(cb[a..b])
    ensures AllDelivered(cb[..b])
    ensures Expected(ctx, ng, cb[..b])
         == ctx.g.add(Expected(ctx, ng, cb[..a]), Expected(ctx, None, cb[a..b]))
  {
    var g := ctx.g;
    forall i | 0 <= i < b
      ensures cb[..b][i].Some?
    {
      if i < a {
        assert cb[..b][i] == cb[..a][i];
      } else {
        assert cb[..b][i] == cb[a..b][i - a];
      }
    }
    var s1, s2, p1, p2 := Scalars(cb[..a]), Scalars(cb[a..b]), Points(cb[..a]), Points(cb[a..b]);
    assert Scalars(cb[..b]) == s1 + s2 && Points(cb[..b]) == p1 + p2;
    LinCombAppend(g, s1, p1, s2, p2);
    assert g.Assoc(GeneratorTerm(ctx, ng), LinComb(g, s1, p1), LinComb(g, s2, p2));
    ZeroLeft(g, LinComb(g, s2, p2));
  }

  lemma NothingYet<E(!new)>(ctx: Context<E>, ng: Option<nat>, cb: seq<Option<Entry<E>>>)
    requires ctx.Valid()
    ensures AllDelivered(cb[..0]) && Expected(ctx, ng, cb[..0]) == GeneratorTerm(ctx, ng)
  {
    assert ctx.g.Unit(GeneratorTerm(ctx, ng));
  }

  /** `secp256k1_ecmult_multi_simple_var`: one multiplication per point, no scratch space. */
  method MultiSimple<E(!new, ==)>(ctx: Context<E>, ng: Option<nat>, cb: seq<Option<Entry<E>>>) returns (ok: bool, r: E)
    requires ctx.Valid() && Callback(ctx, cb)
    requires ng.Some? ==> ng.value < ctx.n
    ensures ok == AllDelivered(cb)
    ensures ok ==> r == Expected(ctx, ng, cb)
  {
    var g := ctx.g;
    r := RunStrauss(ctx, ng, [0], [g.zero]);
    GeneratorAlone(ctx, ng);
    NothingYet(ctx, ng, cb);
    for i := 0 to |cb|
      invariant AllDelivered(cb[..i]) && r == Expected(ctx, ng, cb[..i])
    {
      if cb[i].None? {
        return false, r;
      }
      var one := RunStrauss(ctx, None, [cb[i].value.scalar], [cb[i].value.point]);
      assert Scalars(cb[i..i + 1]) == [cb[i].value.scalar] && Points(cb[i..i + 1]) == [cb[i].value.point];
      BatchExtends(ctx, ng, cb, i, i + 1);
      r := g.add(r, one);
    }
    assert cb[..|cb|] == cb;
    ok := true;
  }

  /** Zero times the point at infinity adds nothing to the generator's share. */
  lemma GeneratorAlone<E(!new)>(ctx: Context<E>, ng: Option<nat>)
    requires ctx.Valid()
    ensures ctx.g.add(GeneratorTerm(ctx, ng), LinComb(ctx.g, [0], [ctx.g.zero])) == GeneratorTerm(ctx, ng)
  {
    var g := ctx.g;
    Pippenger.LinCombZeros(g, [0], [g.zero]);
    assert g.Unit(GeneratorTerm(ctx, ng));
  }

  /** `secp256k1_ecmult_multi_batch_size_helper`: batches of at most the given size, none of them empty. */
  method BatchSizes(maxPoints: nat, n: nat) returns (ok: bool, batches: nat, batchPoints: nat)
    ensures ok == (maxPoints > 0)
    ensures ok && n == 0 ==> batches == 0 && batchPoints == 0
    ensures ok && n > 0 ==> 1 <= batchPoints <= maxPoints && batchPoints <= ECMULT_MAX_POINTS_PER_BATCH
    ensures ok && n > 0 ==> Tiles(n, batches, batchPoints)
  {
    if maxPoints == 0 {
      return false, 0, 0;
    }
    var m := if maxPoints > ECMULT_MAX_POINTS_PER_BATCH then ECMULT_MAX_POINTS_PER_BATCH else maxPoints;
    if n == 0 {
      return true, 0, 0;
    }
    batches := 1 + Quotient(n - 1, m);
    batchPoints := 1 + Quotient(n - 1, batches);
    BatchesTile(n, m, batches, batchPoints);
    Pippenger.RowStartIsProduct(batchPoints, batches - 1);
    Pippenger.RowStartIsProduct(batchPoints, batches);
    ok := true;
  }

  lemma BatchesTile(n: nat, m: nat, batches: nat, points: nat)
    requires n > 0 && m > 0
    requires batches == 1 + Quotient(n - 1, m) && points == 1 + Quotient(n - 1, batches)
    ensures points <= m && (batches - 1) * points < n <= batches * points
  {
    var q, k := batches - 1, points - 1;
    MulDistributes(m, q, 1);
    MulDistributes(batches, k, 1);
    if points > m {
      MulMonotone(m, k, batches);
    }
    MulMonotone(points, m, q);
  }

  /** Batches of `points` indices that tile `n` of them, none of them empty. */
  predicate Tiles(n: nat, batches: nat, points: nat) {
    1 <= batches && 1 <= points && Pippenger.RowStart(points, batches - 1) < n <= Pippenger.RowStart(points, batches)
  }

  lemma BatchPlace(n: nat, batches: nat, points: nat, i: nat)
    requires Tiles(n, batches, points) && i < batches
    ensures Pippenger.RowStart(points, i) < n
    ensures i + 1 < batches ==> Pippenger.RowStart(points, i + 1) < n
  {
    if i + 1 < batches {
      Pippenger.RowsApart(points, i, batches - 1);
      if i + 1 < batches - 1 {
        Pippenger.RowsApart(points, i + 1, batches - 1);
      }
    }
  }

  /** How many indices batches `0 .. i` cover. */
  function Covered(n: nat, batches: nat, points: nat, i: nat): nat
  {
    if i < batches then Pippenger.RowStart(points, i) else n
  }

  /** The batch loop: every index is handed to exactly one batch, in order. */
  method RunBatches<E(!new, ==)>(ctx: Context<E>, scratch: ScratchSpace, ng: Option<nat>, cb: seq<Option<Entry<E>>>,
                                 usePippenger: bool, batches: nat, points: nat) returns (ok: bool, r: E)
    requires ctx.Valid() && scratch.Valid() && Callback(ctx, cb) && 1 <= |cb| <= SIZE_MAX
    requires ng.Some? ==> ng.value < ctx.n
    requires Tiles(|cb|, batches, points)
    requires usePippenger ==> Usable(ctx.width, scratch.MaxAllocation(PIPPENGER_SCRATCH_OBJECTS), points)
    requires !usePippenger ==> points * STRAUSS_POINT_SIZE <= scratch.MaxAllocation(STRAUSS_SCRATCH_OBJECTS)
    modifies scratch
    ensures scratch.Valid() && scratch.allocSize == old(scratch.allocSize)
    ensures ok == AllDelivered(cb)
    ensures ok ==> r == Expected(ctx, ng, cb)
  {
    var n: nat := |cb|;
    ghost var done: nat := 0;
    r := ctx.g.zero;
    NothingYet(ctx, None, cb);
    for i := 0 to batches
      invariant scratch.Valid() && scratch.allocSize == old(scratch.allocSize)
      invariant done == Covered(|cb|, batches, points, i) && done + n == |cb|
      invariant AllDelivered(cb[..done])
      invariant r == Expected(ctx, if i == 0 then None else ng, cb[..done])
    {
      BatchPlace(|cb|, batches, points, i);
      var nbp := if n < points then n else points;
      var offset := Pippenger.RowStart(points, i);
      ok, r := NextBatch(ctx, scratch, ng, cb, usePippenger, points, i, offset, nbp, r);
      if !ok {
        return;
      }
      n, done := n - nbp, done + nbp;
    }
    assert cb[..|cb|] == cb;
    ok := true;
  }

  /** Batch `i`, added to the sum of the earlier ones. */
  method NextBatch<E(!new, ==)>(ctx: Context<E>, scratch: ScratchSpace, ng: Option<nat>, cb: seq<Option<Entry<E>>>,
                                usePippenger: bool, points: nat, i: nat, offset: nat, nbp: nat, r0: E) returns (ok: bool, r: E)
    requires ctx.Valid() && scratch.Valid() && Callback(ctx, cb) && 1 <= nbp <= points && offset + nbp <= |cb| <= SIZE_MAX
    requires ng.Some? ==> ng.value < ctx.n
    requires i == 0 ==> offset == 0
    requires AllDelivered(cb[..offset]) && r0 == Expected(ctx, if i == 0 then None else ng, cb[..offset])
    requires usePippenger ==> Usable(ctx.width, scratch.MaxAllocation(PIPPENGER_SCRATCH_OBJECTS), points)
    requires !usePippenger ==> points * STRAUSS_POINT_SIZE <= scratch.MaxAllocation(STRAUSS_SCRATCH_OBJECTS)
    modifies scratch
    ensures scratch.Valid() && scratch.allocSize == old(scratch.allocSize)
    ensures !ok ==> !AllDelivered(cb)
    ensures ok ==> AllDelivered(cb[..offset + nbp]) && r == Expected(ctx, ng, cb[..offset + nbp])
  {
    ok, r := RunBatch(ctx, scratch, if i == 0 then ng else None, cb[offset..offset + nbp], usePippenger, points);
    if !ok {
      Undelivered(cb, offset, offset + nbp);
      return;
    }
    SumExtends(ctx, ng, cb, offset, offset + nbp, i, r0, r);
    r := ctx.g.add(r0, r);
  }

  /** One batch by the chosen algorithm. */
  method RunBatch<E(!new, ==)>(ctx: Context<E>, scratch: ScratchSpace, ng: Option<nat>, batch: seq<Option<Entry<E>>>,
                               usePippenger: bool, points: nat) returns (ok: bool, r: E)
    requires ctx.Valid() && scratch.Valid() && Callback(ctx, batch) && 1 <= |batch| <= points && |batch| <= SIZE_MAX
    requires ng.Some? ==> ng.value < ctx.n
    requires usePippenger ==> Usable(ctx.width, scratch.MaxAllocation(PIPPENGER_SCRATCH_OBJECTS), points)
    requires !usePippenger ==> points * STRAUSS_POINT_SIZE <= scratch.MaxAllocation(STRAUSS_SCRATCH_OBJECTS)
    modifies scratch
    ensures scratch.Valid() && scratch.allocSize == old(scratch.allocSize)
    ensures ok == AllDelivered(batch)
    ensures ok ==> r == Expected(ctx, ng, batch)
  {
    if usePippenger {
      ok, r := PippengerBatch(ctx, scratch, ng, batch);
    } else {
      MulMonotone(|batch|, points, STRAUSS_POINT_SIZE);
      StraussFits(scratch, |batch|);
      var end: BatchEnd;
      end, r := StraussBatch(ctx, scratch, ng, batch);
      ok := end.Done?;
    }
  }

  lemma Undelivered<E(!new)>(cb: seq<Option<Entry<E>>>, a: nat, b: nat)
    requires a <= b <= |cb| && !AllDelivered(cb[a..b])
    ensures !AllDelivered(cb)
  {
    var i :| 0 <= i < b - a && cb[a..b][i].None?;
    assert cb[a + i].None?;
  }

  /** The first batch brings the generator's share, the others add to it. */
  lemma SumExtends<E(!new)>(ctx: Context<E>, ng: Option<nat>, cb: seq<Option<Entry<E>>>, a: nat, b: nat, i: nat, r: E, tmp: E)
    requires ctx.Valid() && a <= b <= |cb| && (i == 0 ==> a == 0)
    requires AllDelivered(cb[..a]) && AllDelivered(cb[a..b])
    requires r == Expected(ctx, if i == 0 then None else ng, cb[..a])
    requires tmp == Expected(ctx, if i == 0 then ng else None, cb[a..b])
    ensures AllDelivered(cb[..b]) && ctx.g.add(r, tmp) == Expected(ctx, ng, cb[..b])
  {
    if i == 0 {
      NothingYet(ctx, None, cb);
      assert cb[a..b] == cb[..b];
      ZeroLeft(ctx.g, tmp);
    } else {
      BatchExtends(ctx, ng, cb, a, b);
    }
  }

  /**
   * `secp256k1_ecmult_multi_var`: whatever the scratch space (or its absence) makes it choose, it
   * fails exactly when the callback refuses an index, and otherwise returns
   * `ng * G + sum(scalar_i * point_i)`. The scratch space is as full afterwards as before.
   */
  method MultiVar<E(!new, ==)>(ctx: Context<E>, scratch: ScratchSpace?, ng: Option<nat>, cb: seq<Option<Entry<E>>>) returns (ok: bool, r: E)
    requires ctx.Valid() && Callback(ctx, cb) && |cb| <= SIZE_MAX
    requires scratch != null ==> scratch.Valid()
    requires ng.Some? ==> ng.value < ctx.n
    modifies scratch
    ensures scratch != null ==> scratch.Valid() && scratch.allocSize == old(scratch.allocSize)
    ensures ok == AllDelivered(cb)
    ensures ok ==> r == Expected(ctx, ng, cb)
  {
    var n := |cb|;
    if n == 0 {
      NothingYet(ctx, ng, cb);
      assert cb[..0] == cb;
      if ng.None? {
        return true, ctx.g.zero;
      }
      r := RunStrauss(ctx, ng, [0], [ctx.g.zero]);
      GeneratorAlone(ctx, ng);
      return true, r;
    }
    if scratch == null {
      ok, r := MultiSimple(ctx, ng, cb);
      return;
    }
    var maxPoints := PippengerMaxPoints(ctx.width, scratch);
    var enough, batches, points := BatchSizes(maxPoints, n);
    if !enough {
      ok, r := MultiSimple(ctx, ng, cb);
      return;
    }
    var usePippenger := points >= ECMULT_PIPPENGER_THRESHOLD;
    if !usePippenger {
      maxPoints := Quotient(scratch.MaxAllocation(STRAUSS_SCRATCH_OBJECTS), STRAUSS_POINT_SIZE);
      enough, batches, points := BatchSizes(maxPoints, n);
      if !enough {
        ok, r := MultiSimple(ctx, ng, cb);
        return;
      }
    }
    ok, r := RunBatches(ctx, scratch, ng, cb, usePippenger, batches, points);
  }
}
