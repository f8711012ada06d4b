/**
 * Pippenger's multi-multiplication: `secp256k1_ecmult_pippenger_wnaf`
 * (src/secp256k1/ecmult_impl.h), over an arbitrary abelian group.
 */
module Pippenger {
  import opened Arithmetic
  import opened Group
  import opened FixedWnaf

  // ----- What the bucket loop computes -----

  /** bs[0] + bs[1] + ... */
  ghost function Plain<E(!new)>(g: Abelian<E>, bs: seq<E>): E
  {
    if |bs| == 0 then g.zero else g.add(Plain(g, bs[1..]), bs[0])
  }

  /** 1*bs[0] + 2*bs[1] + 3*bs[2] + ... as a sum of running sums. */
  ghost function Ramp<E(!new)>(g: Abelian<E>, bs: seq<E>): E
  {
    if |bs| == 0 then g.zero else g.add(Ramp(g, bs[1..]), Plain(g, bs))
  }

  /** k*bs[0] + (k+2)*bs[1] + (k+4)*bs[2] + ... */
  ghost function Weighted<E(!new)>(g: Abelian<E>, bs: seq<E>, k: int): E
  {
    if |bs| == 0 then g.zero else g.add(Weighted(g, bs[1..], k + 2), g.Times(k, bs[0]))
  }

  /** Running sums compute the weighted sum of the buckets. */
  lemma {:induction false} RunningSumsWeigh<E(!new)>(g: Abelian<E>, bs: seq<E>, k: int)
    requires g.Lawful() && |bs| >= 1
    ensures Weighted(g, bs, k) == g.add(g.Double(Ramp(g, bs[1..])), g.Times(k, Plain(g, bs)))
    decreases |bs|
  {
    var tail := bs[1..];
    var kb := g.Times(k, bs[0]);
    if |tail| == 0 {
      assert g.Unit(g.zero);
      ZeroLeft(g, bs[0]);
    } else {
      var ramp, plain := Ramp(g, tail[1..]), Plain(g, tail);
      RunningSumsWeigh(g, tail, k + 2);
      // 2 ramp + (k + 2) plain + k b0  ==  2 (ramp + plain) + k (plain + b0)
      TimesAdd(g, 2, k, plain);
      DoubleIsTwice(g, plain);
      TimesDistributes(g, k, plain, bs[0]);
      assert g.Assoc(g.Double(ramp), g.Double(plain), g.Times(k, plain));
      Interchange(g, ramp, ramp, plain, plain);
      assert g.Double(g.add(ramp, plain)) == g.add(g.Double(ramp), g.Double(plain)) by {
        Interchange(g, ramp, plain, ramp, plain);
      }
      assert g.Assoc(g.Double(g.add(ramp, plain)), g.Times(k, plain), kb);
    }
  }

  /** Adding a point to bucket `j` adds `(k + 2j)` times the point to the weighted sum. */
  lemma {:induction false} WeightedUpdate<E(!new)>(g: Abelian<E>, bs: seq<E>, k: int, j: nat, p: E)
    requires g.Lawful() && j < |bs|
    ensures Weighted(g, bs[j := g.add(bs[j], p)], k) == g.add(Weighted(g, bs, k), g.Times(k + 2 * j, p))
    decreases |bs|
  {
    var bs' := bs[j := g.add(bs[j], p)];
    var rest, x := Weighted(g, bs[1..], k + 2), g.Times(k, bs[0]);
    if j == 0 {
      assert bs'[1..] == bs[1..];
      TimesDistributes(g, k, bs[0], p);
      assert g.Assoc(rest, x, g.Times(k, p));
    } else {
      assert bs'[1..] == bs[1..][j - 1 := g.add(bs[j], p)];
      WeightedUpdate(g, bs[1..], k + 2, j - 1, p);
      var y := g.Times(k + 2 * j, p);
      assert g.Assoc(rest, y, x) && g.Comm(y, x) && g.Assoc(rest, x, y);
    }
  }

  lemma {:induction false} WeightedOfZeros<E(!new)>(g: Abelian<E>, bs: seq<E>, k: int)
    requires g.Lawful()
    requires forall j :: 0 <= j < |bs| ==> bs[j] == g.zero
    ensures Weighted(g, bs, k) == g.zero
    decreases |bs|
  {
    if |bs| > 0 {
      WeightedOfZeros(g, bs[1..], k + 2);
      TimesZeroPoint(g, k);
      assert g.Unit(g.zero);
    }
  }

  // ----- The digit rows -----

  /** Digits `i` and up of a row, as a number in base `b`. */
  ghost function Upper(d: seq<int>, b: nat, i: nat): int
    requires i <= |d|
    decreases |d| - i
  {
    if i == |d| then 0 else d[i] + b * Upper(d, b, i + 1)
  }

  lemma {:induction false} UpperIsValue(d: seq<int>, b: nat, i: nat)
    requires i <= |d|
    ensures Value(d, b) == Value(d[..i], b) + Scale(b, i, Upper(d, b, i))
    decreases |d| - i
  {
    if i == |d| {
      assert d[..i] == d;
      ScaleZero(b, i);
    } else {
      UpperIsValue(d, b, i + 1);
      assert d[..i + 1] == d[..i] + [d[i]];
      ValueSnoc(d[..i], b, d[i]);
      ScaleAdd(b, i, d[i], b * Upper(d, b, i + 1));
    }
  }

  /** `PointState`: the skew of a recoded scalar and the input it came from. */
  datatype PointState = PointState(skew: int, inputPos: nat)

  /** Where row `k` starts in the flat digit buffer: `k * n`, kept free of products. */
  function RowStart(n: nat, k: nat): nat
  {
    if k == 0 then 0 else RowStart(n, k - 1) + n
  }

  lemma {:induction false} RowStartIsProduct(n: nat, k: nat)
    ensures RowStart(n, k) == k * n
  {
    if k > 0 {
      RowStartIsProduct(n, k - 1);
      MulDistributes(n, k - 1, 1);
    }
  }

  lemma {:induction false} RowsApart(n: nat, k: nat, no: nat)
    requires k < no
    ensures RowStart(n, k) + n <= RowStart(n, no)
  {
    if k + 1 < no {
      RowsApart(n, k, no - 1);
    }
  }

  /** Row `k` of the flat digit buffer. */
  ghost function Row(wnaf: seq<int>, n: nat, k: nat): seq<int>
    requires RowStart(n, k) + n <= |wnaf|
  {
    wnaf[RowStart(n, k)..RowStart(n, k) + n]
  }

  /** Row `k` exists and holds legal digits. */
  ghost predicate RowLegal(wnaf: seq<int>, n: nat, k: nat, b: nat) {
    RowStart(n, k) + n <= |wnaf| && forall i :: 0 <= i < n ==> Digit(Row(wnaf, n, k)[i], b)
  }

  /** The first `no` states refer to inputs below `m`. */
  ghost predicate Refers(ps: seq<PointState>, no: nat, m: nat) {
    no <= |ps| && forall k :: 0 <= k < no ==> ps[k].inputPos < m
  }

  /** Row `k` recodes the scalar that its state refers to. */
  ghost predicate RowRecodes(wnaf: seq<int>, n: nat, b: nat, state: PointState, sc: seq<nat>, k: nat) {
    && RowLegal(wnaf, n, k, b)
    && state.inputPos < |sc|
    && (state.skew == 0 || state.skew == 1)
    && Value(Row(wnaf, n, k), b) - state.skew == sc[state.inputPos]
  }

  /** The first `no` rows recode the scalars of the points they refer to. */
  ghost predicate Recoded(wnaf: seq<int>, n: nat, b: nat, ps: seq<PointState>, sc: seq<nat>, no: nat) {
    && Refers(ps, no, |sc|)
    && forall k {:trigger RowRecodes(wnaf, n, b, ps[k], sc, k)} :: 0 <= k < no ==> RowRecodes(wnaf, n, b, ps[k], sc, k)
  }

  /** The scalars and points that the first `no` states refer to. */
  ghost function Kept<T>(ps: seq<PointState>, xs: seq<T>, no: nat): seq<T>
    requires Refers(ps, no, |xs|)
  {
    seq(no, k requires 0 <= k < no => xs[ps[k].inputPos])
  }

  /** Coefficients contributed by digits `i` and up; the skew is taken off with digit 0. */
  ghost function Coefficients(wnaf: seq<int>, n: nat, b: nat, ps: seq<PointState>, sc: seq<nat>, no: nat, i: nat): (c: seq<int>)
    requires i <= n && Recoded(wnaf, n, b, ps, sc, no)
    ensures |c| == no
  {
    seq(no, k requires 0 <= k < no =>
      assert RowRecodes(wnaf, n, b, ps[k], sc, k);
      Upper(Row(wnaf, n, k), b, i) - (if i == 0 then ps[k].skew else 0))
  }

  /** Digit `i` of each row, with the skew correction. */
  ghost function Column(wnaf: seq<int>, n: nat, b: nat, ps: seq<PointState>, sc: seq<nat>, no: nat, i: nat): (c: seq<int>)
    requires i < n && Recoded(wnaf, n, b, ps, sc, no)
    ensures |c| == no
  {
    seq(no, k requires 0 <= k < no =>
      assert RowRecodes(wnaf, n, b, ps[k], sc, k);
      Row(wnaf, n, k)[i] - (if i == 0 then ps[k].skew else 0))
  }

  /** Writing row `no` and state `no` leaves the earlier rows recoded and adds one more. */
  lemma RecodedExtends<E(!new)>(w0: seq<int>, w1: seq<int>, n: nat, b: nat, ps0: seq<PointState>, ps1: seq<PointState>,
                                sc: seq<nat>, pt: seq<E>, no: nat, np: nat)
    requires |sc| == |pt| && np < |sc| && |w0| == |w1|
    requires Recoded(w0, n, b, ps0, sc, no) && no < |ps0|
    requires forall i :: 0 <= i < |w1| && !(RowStart(n, no) <= i < RowStart(n, no) + n) ==> w1[i] == w0[i]
    requires |ps1| == |ps0| && ps1 == ps0[no := ps1[no]] && ps1[no].inputPos == np
    requires RowRecodes(w1, n, b, ps1[no], sc, no)
    ensures Recoded(w1, n, b, ps1, sc, no + 1)
    ensures Kept(ps1, sc, no + 1) == Kept(ps0, sc, no) + [sc[np]]
    ensures Kept(ps1, pt, no + 1) == Kept(ps0, pt, no) + [pt[np]]
  {
    forall k | 0 <= k < no
      ensures RowRecodes(w1, n, b, ps1[k], sc, k)
    {
      RowsApart(n, k, no);
      assert RowRecodes(w0, n, b, ps0[k], sc, k);
      assert Row(w1, n, k) == Row(w0, n, k);
    }
  }

  /** A zero scalar or the point at infinity contributes nothing. */
  lemma SkippedTerm<E(!new)>(g: Abelian<E>, sc: seq<nat>, pt: seq<E>, np: nat)
    requires g.Lawful() && |sc| == |pt| && np < |sc|
    requires sc[np] == 0 || pt[np] == g.zero
    ensures LinComb(g, sc[..np + 1], pt[..np + 1]) == LinComb(g, sc[..np], pt[..np])
  {
    LinCombTake(g, sc, pt, np);
    TimesZeroPoint(g, sc[np]);
    assert g.Unit(LinComb(g, sc[..np], pt[..np]));
  }

  lemma KeptTerm<E(!new)>(g: Abelian<E>, sc: seq<nat>, pt: seq<E>, np: nat, keptSc: seq<nat>, keptPt: seq<E>)
    requires |sc| == |pt| && np < |sc| && |keptSc| == |keptPt|
    requires LinComb(g, sc[..np], pt[..np]) == LinComb(g, keptSc, keptPt)
    ensures LinComb(g, sc[..np + 1], pt[..np + 1]) == LinComb(g, keptSc + [sc[np]], keptPt + [pt[np]])
  {
    LinCombTake(g, sc, pt, np);
    LinCombSnoc(g, keptSc, keptPt, sc[np], pt[np]);
  }

  /** Recodes scalar `np` into row `no`. */
  method RecodeOne<E(!new)>(bits: nat, w: nat, wnaf: array<int>, ps: array<PointState>, sc: seq<nat>, ghost pt: seq<E>, no: nat, np: nat)
    requires 1 <= w <= bits && |sc| == |pt| && np < |sc| && sc[np] < Pow2(bits)
    requires no < ps.Length && RowStart(WnafSize(bits, w), no) + WnafSize(bits, w) <= wnaf.Length
    requires Recoded(wnaf[..], WnafSize(bits, w), Pow2(w), ps[..], sc, no)
    modifies wnaf, ps
    ensures Recoded(wnaf[..], WnafSize(bits, w), Pow2(w), ps[..], sc, no + 1)
    ensures Kept(ps[..], sc, no + 1) == Kept(old(ps[..]), sc, no) + [sc[np]]
    ensures Kept(ps[..], pt, no + 1) == Kept(old(ps[..]), pt, no) + [pt[np]]
  {
    var n := WnafSize(bits, w);
    ghost var w0 := wnaf[..];
    var skew := WnafFixed(bits, wnaf, RowStart(n, no), sc[np], w);
    ps[no] := PointState(skew, np);
    ghost var w1 := wnaf[..];
    assert Row(w1, n, no) == wnaf[RowStart(n, no)..RowStart(n, no) + n];
    RecodedExtends(w0, w1, n, Pow2(w), old(ps[..]), ps[..], sc, pt, no, np);
  }

  /** First loop: recodes the scalars that matter, compacting them to the front of the buffers. */
  method Recode<E(!new, ==)>(g: Abelian<E>, bits: nat, w: nat, wnaf: array<int>, ps: array<PointState>, sc: seq<nat>, pt: seq<E>)
    returns (no: nat)
    requires g.Lawful()
    requires 1 <= w <= bits && |sc| == |pt|
    requires forall i :: 0 <= i < |sc| ==> sc[i] < Pow2(bits)
    requires ps.Length >= |sc| && wnaf.Length >= RowStart(WnafSize(bits, w), |sc|)
    modifies wnaf, ps
    ensures no <= |sc|
    ensures Recoded(wnaf[..], WnafSize(bits, w), Pow2(w), ps[..], sc, no)
    ensures LinComb(g, sc, pt) == LinComb(g, Kept(ps[..], sc, no), Kept(ps[..], pt, no))
  {
    ghost var n := WnafSize(bits, w);
    no := 0;
    ghost var keptSc: seq<nat>, keptPt: seq<E> := [], [];
    for np := 0 to |sc|
      invariant no <= np
      invariant Recoded(wnaf[..], n, Pow2(w), ps[..], sc, no)
      invariant keptSc == Kept(ps[..], sc, no) && keptPt == Kept(ps[..], pt, no)
      invariant LinComb(g, sc[..np], pt[..np]) == LinComb(g, keptSc, keptPt)
    {
      if sc[np] == 0 || pt[np] == g.zero {
        SkippedTerm(g, sc, pt, np);
      } else {
        assert LinComb(g, sc[..np + 1], pt[..np + 1]) == LinComb(g, keptSc + [sc[np]], keptPt + [pt[np]]) by {
          KeptTerm(g, sc, pt, np, keptSc, keptPt);
        }
        keptSc, keptPt := keptSc + [sc[np]], keptPt + [pt[np]];
        assert RowStart(n, no) + n <= RowStart(n, |sc|) by { RowsApart(n, no, |sc|); }
        RecodeOne(bits, w, wnaf, ps, sc, pt, no, np);
        no := no + 1;
      }
    }
    assert sc[..|sc|] == sc && pt[..|pt|] == pt;
  }

  // ----- The main loop -----

  /** Digit `n` of a point goes to bucket `(|n| - 1) / 2`, negated if it is negative. */
  method AddToBucket<E(!new)>(g: Abelian<E>, buckets: array<E>, n: int, p: E)
    requires g.Lawful()
    requires Digit(n, 2 * buckets.Length)
    modifies buckets
    ensures Weighted(g, buckets[..], 1) == g.add(old(Weighted(g, buckets[..], 1)), g.Times(n, p))
  {
    ghost var before := buckets[..];
    if n > 0 {
      var idx := (n - 1) / 2;
      buckets[idx] := g.add(buckets[idx], p);
      assert buckets[..] == before[idx := g.add(before[idx], p)];
      WeightedUpdate(g, before, 1, idx, p);
    } else if n < 0 {
      var idx := -(n + 1) / 2;
      buckets[idx] := g.add(buckets[idx], g.neg(p));
      assert buckets[..] == before[idx := g.add(before[idx], g.neg(p))];
      WeightedUpdate(g, before, 1, idx, g.neg(p));
      TimesOfNeg(g, n, p);
    } else {
      assert g.Unit(Weighted(g, before, 1));
    }
  }

  lemma TimesOfNeg<E(!new)>(g: Abelian<E>, n: int, p: E)
    requires g.Lawful()
    ensures g.Times(-n, g.neg(p)) == g.Times(n, p)
  {
    TimesOne(g, p);
    TimesTimes(g, -n, -1, p);
    MulNegates(n, -1);
  }

  method ClearBuckets<E(!new)>(g: Abelian<E>, buckets: array<E>)
    requires g.Lawful()
    modifies buckets
    ensures Weighted(g, buckets[..], 1) == g.zero
  {
    for j := 0 to buckets.Length
      invariant forall k :: 0 <= k < j ==> buckets[k] == g.zero
    {
      buckets[j] := g.zero;
    }
    WeightedOfZeros(g, buckets[..], 1);
  }

  /** A digit with its skew correction; bucket 0, which takes the correction, has weight one. */
  method AddDigit<E(!new)>(g: Abelian<E>, buckets: array<E>, digit: int, skew: int, p: E)
    requires g.Lawful() && buckets.Length > 0
    requires Digit(digit, 2 * buckets.Length) && (skew == 0 || skew == 1)
    modifies buckets
    ensures Weighted(g, buckets[..], 1) == g.add(old(Weighted(g, buckets[..], 1)), g.Times(digit - skew, p))
  {
    ghost var start := Weighted(g, buckets[..], 1);
    if skew != 0 {
      AddToBucket(g, buckets, -1, p);
      TimesAdd(g, -1, digit, p);
      assert g.Assoc(start, g.Times(-1, p), g.Times(digit, p));
    }
    AddToBucket(g, buckets, digit, p);
  }

  /** Where the main loop finds the digit of row `np`. */
  lemma ColumnDigit(wnaf: seq<int>, n: nat, b: nat, ps: seq<PointState>, sc: seq<nat>, no: nat, i: nat, np: nat)
    requires i < n && Recoded(wnaf, n, b, ps, sc, no) && np < no
    ensures RowStart(n, np) + i < |wnaf| && Digit(wnaf[RowStart(n, np) + i], b)
    ensures ps[np].skew == 0 || ps[np].skew == 1
    ensures Column(wnaf, n, b, ps, sc, no, i)[np] == wnaf[RowStart(n, np) + i] - (if i == 0 then ps[np].skew else 0)
  {
    assert RowRecodes(wnaf, n, b, ps[np], sc, np);
    assert Row(wnaf, n, np)[i] == wnaf[RowStart(n, np) + i];
  }

  /** Takes the digit of row `np` to its bucket. */
  method AddRowDigit<E(!new)>(g: Abelian<E>, buckets: array<E>, wnaf: seq<int>, n: nat, ps: seq<PointState>, ghost sc: seq<nat>, pt: seq<E>,
                              ghost no: nat, i: nat, np: nat)
    requires g.Lawful() && |sc| == |pt| && i < n && buckets.Length > 0 && np < no
    requires Recoded(wnaf, n, 2 * buckets.Length, ps, sc, no)
    modifies buckets
    ensures Weighted(g, buckets[..], 1)
         == g.add(old(Weighted(g, buckets[..], 1)), g.Times(Column(wnaf, n, 2 * buckets.Length, ps, sc, no, i)[np], Kept(ps, pt, no)[np]))
  {
    ColumnDigit(wnaf, n, 2 * buckets.Length, ps, sc, no, i, np);
    var digit := wnaf[RowStart(n, np) + i];
    AddDigit(g, buckets, digit, if i == 0 then ps[np].skew else 0, pt[ps[np].inputPos]);
  }

  /** Distributes column `i` of the digits over the buckets. */
  method FillBuckets<E(!new)>(g: Abelian<E>, buckets: array<E>, wnaf: seq<int>, n: nat, ps: seq<PointState>, sc: seq<nat>, pt: seq<E>, no: nat, i: nat)
    requires g.Lawful() && |sc| == |pt| && i < n && buckets.Length > 0
    requires Recoded(wnaf, n, 2 * buckets.Length, ps, sc, no)
    modifies buckets
    ensures Weighted(g, buckets[..], 1) == LinComb(g, Column(wnaf, n, 2 * buckets.Length, ps, sc, no, i), Kept(ps, pt, no))
  {
    ghost var b := 2 * buckets.Length;
    ghost var column, points := Column(wnaf, n, b, ps, sc, no, i), Kept(ps, pt, no);
    ClearBuckets(g, buckets);
    for np := 0 to no
      invariant Weighted(g, buckets[..], 1) == LinComb(g, column[..np], points[..np])
    {
      AddRowDigit(g, buckets, wnaf, n, ps, sc, pt, no, i, np);
      LinCombTake(g, column, points, np);
    }
    assert column[..no] == column && points[..no] == points;
  }

  /** Shifts the accumulator by one window and adds the weighted buckets to it. */
  method CollapseBuckets<E(!new)>(g: Abelian<E>, buckets: array<E>, bucketWindow: nat, r0: E) returns (r: E)
    requires g.Lawful() && buckets.Length == Pow2(bucketWindow)
    ensures r == g.add(g.Times(2 * buckets.Length, r0), Weighted(g, buckets[..], 1))
  {
    r := r0;
    TimesOne(g, r0);
    for j := 0 to bucketWindow
      invariant r == g.Times(Pow2(j), r0)
    {
      DoubleIsTwice(g, r);
      TimesTimes(g, 2, Pow2(j), r0);
      r := g.Double(r);
    }
    ghost var shifted, bs := r, buckets[..];

    var runningSum := g.zero;
    var j := buckets.Length - 1;
    assert bs[j + 1..] == [];
    assert g.Unit(shifted);
    while j > 0
      invariant 0 <= j < buckets.Length
      invariant runningSum == Plain(g, bs[j + 1..])
      invariant r == g.add(shifted, Ramp(g, bs[j + 1..]))
    {
      assert bs[j..][1..] == bs[j + 1..];
      runningSum := g.add(runningSum, buckets[j]);
      assert g.Assoc(shifted, Ramp(g, bs[j + 1..]), Plain(g, bs[j..]));
      r := g.add(r, runningSum);
      j := j - 1;
    }
    runningSum := g.add(runningSum, buckets[0]);
    r := g.Double(r);
    r := g.add(r, runningSum);

    CollapsedSum(g, shifted, bs);
    TimesTimes(g, 2, buckets.Length, r0);
    DoubleIsTwice(g, shifted);
  }

  /** 2(s + ramp) + plain == 2s + weighted */
  lemma CollapsedSum<E(!new)>(g: Abelian<E>, s: E, bs: seq<E>)
    requires g.Lawful() && |bs| >= 1
    ensures g.add(g.Double(g.add(s, Ramp(g, bs[1..]))), Plain(g, bs)) == g.add(g.Double(s), Weighted(g, bs, 1))
  {
    var ramp, plain := Ramp(g, bs[1..]), Plain(g, bs);
    RunningSumsWeigh(g, bs, 1);
    TimesOne(g, plain);
    Interchange(g, s, ramp, s, ramp);
    assert g.Assoc(g.Double(s), g.Double(ramp), plain);
  }

  lemma {:induction false} LinCombZeros<E(!new)>(g: Abelian<E>, coeffs: seq<int>, points: seq<E>)
    requires g.Lawful() && |coeffs| == |points|
    requires forall k :: 0 <= k < |coeffs| ==> coeffs[k] == 0
    ensures LinComb(g, coeffs, points) == g.zero
    decreases |coeffs|
  {
    if |coeffs| > 0 {
      LinCombZeros(g, coeffs[..|coeffs| - 1], points[..|points| - 1]);
      assert g.Unit(g.zero);
    }
  }

  /** One window: the coefficients from digit `i` up are `b` times those above plus the column. */
  lemma WindowStep<E(!new)>(g: Abelian<E>, wnaf: seq<int>, n: nat, b: nat, ps: seq<PointState>, sc: seq<nat>, no: nat, points: seq<E>, i: nat)
    requires g.Lawful() && i < n && |points| == no && Recoded(wnaf, n, b, ps, sc, no)
    ensures LinComb(g, Coefficients(wnaf, n, b, ps, sc, no, i), points)
         == g.add(g.Times(b, LinComb(g, Coefficients(wnaf, n, b, ps, sc, no, i + 1), points)),
                  LinComb(g, Column(wnaf, n, b, ps, sc, no, i), points))
  {
    var above, column, all := Coefficients(wnaf, n, b, ps, sc, no, i + 1), Column(wnaf, n, b, ps, sc, no, i), Coefficients(wnaf, n, b, ps, sc, no, i);
    forall k | 0 <= k < no
      ensures all[k] == b * above[k] + column[k]
    {
      assert RowRecodes(wnaf, n, b, ps[k], sc, k);
    }
    LinCombLinear(g, b, above, column, all, points);
  }

  /** With every digit in, the coefficients are the scalars. */
  lemma AllDigits(wnaf: seq<int>, n: nat, b: nat, ps: seq<PointState>, sc: seq<nat>, no: nat)
    requires Recoded(wnaf, n, b, ps, sc, no)
    ensures Coefficients(wnaf, n, b, ps, sc, no, 0) == Kept(ps, sc, no)
  {
    var all := Coefficients(wnaf, n, b, ps, sc, no, 0);
    forall k | 0 <= k < no
      ensures all[k] == Kept(ps, sc, no)[k]
    {
      assert RowRecodes(wnaf, n, b, ps[k], sc, k);
      var row := Row(wnaf, n, k);
      UpperIsValue(row, b, 0);
      assert row[..0] == [];
    }
  }

  /** The window loop, from the most significant column of digits down. */
  method SumWindows<E(!new)>(g: Abelian<E>, buckets: array<E>, bucketWindow: nat, digits: seq<int>, n: nat, states: seq<PointState>,
                             sc: seq<nat>, pt: seq<E>, no: nat) returns (r: E)
    requires g.Lawful() && |sc| == |pt| && n >= 1
    requires buckets.Length == Pow2(bucketWindow)
    requires Recoded(digits, n, Pow2(bucketWindow + 1), states, sc, no)
    modifies buckets
    ensures r == LinComb(g, Kept(states, sc, no), Kept(states, pt, no))
  {
    ghost var b, points := 2 * buckets.Length, Kept(states, pt, no);
    r := g.zero;
    var i := n;
    ghost var none := Coefficients(digits, n, b, states, sc, no, n);
    forall k | 0 <= k < no
      ensures none[k] == 0
    {
      assert RowRecodes(digits, n, b, states[k], sc, k);
    }
    LinCombZeros(g, none, points);
    while i > 0
      invariant 0 <= i <= n
      invariant r == LinComb(g, Coefficients(digits, n, b, states, sc, no, i), points)
    {
      i := i - 1;
      FillBuckets(g, buckets, digits, n, states, sc, pt, no, i);
      r := CollapseBuckets(g, buckets, bucketWindow, r);
      WindowStep(g, digits, n, b, states, sc, no, points, i);
    }
    AllDigits(digits, n, b, states, sc, no);
  }

  /**
   * `secp256k1_ecmult_pippenger_wnaf`: for every list of scalars and points the bucket method
   * returns exactly the sum of the multiples, with every bucket and buffer index in range.
   */
  method PippengerWnaf<E(!new, ==)>(g: Abelian<E>, bits: nat, buckets: array<E>, bucketWindow: nat,
                                    wnaf: array<int>, ps: array<PointState>, sc: seq<nat>, pt: seq<E>) returns (r: E)
    requires g.Lawful()
    requires bucketWindow + 1 <= bits && |sc| == |pt|
    requires forall i :: 0 <= i < |sc| ==> sc[i] < Pow2(bits)
    requires buckets.Length == Pow2(bucketWindow)
    requires ps.Length >= |sc| && wnaf.Length >= RowStart(WnafSize(bits, bucketWindow + 1), |sc|)
    modifies buckets, wnaf, ps
    ensures r == LinComb(g, sc, pt)
  {
    var n := WnafSize(bits, bucketWindow + 1);
    var no := Recode(g, bits, bucketWindow + 1, wnaf, ps, sc, pt);
    WindowsCover(bits, bucketWindow + 1);
    r := g.zero;
    if no == 0 {
      return;
    }
    r := SumWindows(g, buckets, bucketWindow, wnaf[..], n, ps[..], sc, pt, no);
  }
}
