/** Fields of characteristic two, where addition undoes itself: powers and sums. */
module BinaryField {
  import opened Group
  import opened LinearRegister

  datatype Field<!F(!new)> = Field(plus: Abelian<F>, one: F, mul: (F, F) -> F, inv: F -> F) {

    ghost predicate MulAssoc(x: F, y: F, z: F) {
      mul(mul(x, y), z) == mul(x, mul(y, z))
    }

    ghost predicate MulComm(x: F, y: F) {
      mul(x, y) == mul(y, x)
    }

    ghost predicate MulOne(x: F) {
      mul(x, one) == x
    }

    ghost predicate Distributes(x: F, y: F, z: F) {
      mul(x, plus.add(y, z)) == plus.add(mul(x, y), mul(x, z))
    }

    ghost predicate Invertible(x: F) {
      x != plus.zero ==> mul(x, inv(x)) == one
    }

    /** A commutative ring in which twice anything is zero. */
    ghost predicate Ring() {
      && plus.Lawful() && SelfInverse(plus)
      && (forall x, y, z :: MulAssoc(x, y, z))
      && (forall x, y :: MulComm(x, y))
      && (forall x :: MulOne(x))
      && (forall x, y, z :: Distributes(x, y, z))
    }

    ghost predicate Lawful() {
      Ring() && (forall x :: Invertible(x))
    }

    function Product(s: seq<F>): F {
      if |s| == 0 then one else mul(Product(s[..|s| - 1]), s[|s| - 1])
    }

    function Pow(x: F, n: nat): F {
      Product(seq(n, _ => x))
    }
  }

  // ----- Products -----

  lemma Twice<F(!new)>(f: Field<F>, x: F)
    requires f.Ring()
    ensures f.plus.add(x, x) == f.plus.zero
  {
    assert f.plus.neg(x) == x && f.plus.Inverse(x);
  }

  lemma MulZero<F(!new)>(f: Field<F>, x: F)
    requires f.Ring()
    ensures f.mul(x, f.plus.zero) == f.plus.zero && f.mul(f.plus.zero, x) == f.plus.zero
  {
    var z := f.plus.zero;
    assert f.plus.Unit(z) && f.Distributes(x, z, z);
    Twice(f, f.mul(x, z));
    assert f.MulComm(x, z);
  }

  lemma RightDistributes<F(!new)>(f: Field<F>, x: F, y: F, z: F)
    requires f.Ring()
    ensures f.mul(f.plus.add(x, y), z) == f.plus.add(f.mul(x, z), f.mul(y, z))
  {
    assert f.MulComm(f.plus.add(x, y), z) && f.Distributes(z, x, y) && f.MulComm(z, x) && f.MulComm(z, y);
  }

  /** (a b) (c d) == (a c) (b d) */
  lemma MulInterchange<F(!new)>(f: Field<F>, a: F, b: F, c: F, d: F)
    requires f.Ring()
    ensures f.mul(f.mul(a, b), f.mul(c, d)) == f.mul(f.mul(a, c), f.mul(b, d))
  {
    assert f.MulAssoc(a, b, f.mul(c, d)) && f.MulAssoc(b, c, d);
    assert f.MulComm(b, c) && f.MulAssoc(c, b, d) && f.MulAssoc(a, c, f.mul(b, d));
  }

  lemma NoZeroDivisors<F(!new)>(f: Field<F>, x: F, y: F)
    requires f.Lawful() && f.mul(x, y) == f.plus.zero && y != f.plus.zero
    ensures x == f.plus.zero
  {
    assert f.MulAssoc(x, y, f.inv(y)) && f.Invertible(y) && f.MulOne(x);
    MulZero(f, f.inv(y));
  }

  // ----- Powers -----

  lemma PowZero<F(!new)>(f: Field<F>, x: F)
    ensures f.Pow(x, 0) == f.one
  {
  }

  lemma PowStep<F(!new)>(f: Field<F>, x: F, n: nat)
    ensures f.Pow(x, n + 1) == f.mul(f.Pow(x, n), x)
  {
    assert seq(n + 1, _ => x)[..n] == seq(n, _ => x);
  }

  lemma {:induction false} PowAdd<F(!new)>(f: Field<F>, x: F, m: nat, n: nat)
    requires f.Ring()
    ensures f.Pow(x, m + n) == f.mul(f.Pow(x, m), f.Pow(x, n))
    decreases n
  {
    if n == 0 {
      PowZero(f, x);
      assert f.MulOne(f.Pow(x, m));
    } else {
      PowAdd(f, x, m, n - 1);
      PowStep(f, x, m + n - 1);
      PowStep(f, x, n - 1);
      assert f.MulAssoc(f.Pow(x, m), f.Pow(x, n - 1), x);
    }
  }

  lemma {:induction false} PowProduct<F(!new)>(f: Field<F>, x: F, y: F, n: nat)
    requires f.Ring()
    ensures f.Pow(f.mul(x, y), n) == f.mul(f.Pow(x, n), f.Pow(y, n))
    decreases n
  {
    if n == 0 {
      PowZero(f, x);
      PowZero(f, y);
      PowZero(f, f.mul(x, y));
      assert f.MulOne(f.one);
    } else {
      PowProduct(f, x, y, n - 1);
      PowStep(f, x, n - 1);
      PowStep(f, y, n - 1);
      PowStep(f, f.mul(x, y), n - 1);
      MulInterchange(f, f.Pow(x, n - 1), f.Pow(y, n - 1), x, y);
    }
  }

  lemma {:induction false} PowPow<F(!new)>(f: Field<F>, x: F, m: nat, n: nat)
    requires f.Ring()
    ensures f.Pow(x, m * n) == f.Pow(f.Pow(x, m), n)
    decreases n
  {
    if n == 0 {
      PowZero(f, x);
      PowZero(f, f.Pow(x, m));
    } else {
      PowPow(f, x, m, n - 1);
      PowStep(f, f.Pow(x, m), n - 1);
      PowAdd(f, x, m * (n - 1), m);
      assert m * n == m * (n - 1) + m;
    }
  }

  lemma PowOne<F(!new)>(f: Field<F>, x: F)
    requires f.Ring()
    ensures f.Pow(x, 1) == x
  {
    PowStep(f, x, 0);
    PowZero(f, x);
    assert f.MulComm(f.one, x) && f.MulOne(x);
  }

  lemma PowTwice<F(!new)>(f: Field<F>, x: F, n: nat)
    requires f.Ring()
    ensures f.Pow(x, 2 * n) == f.mul(f.Pow(x, n), f.Pow(x, n))
  {
    PowAdd(f, x, n, n);
  }

  lemma {:induction false} PowOfOne<F(!new)>(f: Field<F>, n: nat)
    requires f.Ring()
    ensures f.Pow(f.one, n) == f.one
    decreases n
  {
    if n == 0 {
      PowZero(f, f.one);
    } else {
      PowOfOne(f, n - 1);
      PowStep(f, f.one, n - 1);
      assert f.MulOne(f.one);
    }
  }

  /** Powers repeat after an exponent that gives one. */
  lemma PowCycle<F(!new)>(f: Field<F>, x: F, n: nat, m: nat, k: nat)
    requires f.Ring() && f.Pow(x, n) == f.one
    ensures f.Pow(x, m + n * k) == f.Pow(x, m)
  {
    PowAdd(f, x, m, n * k);
    PowPow(f, x, n, k);
    PowOfOne(f, k);
    assert f.MulOne(f.Pow(x, m));
  }

  // ----- Raising to a power of two respects sums -----

  ghost predicate AddsAt<F(!new)>(f: Field<F>, k: nat, x: F, y: F) {
    f.Pow(f.plus.add(x, y), k) == f.plus.add(f.Pow(x, k), f.Pow(y, k))
  }

  ghost predicate Additive<F(!new)>(f: Field<F>, k: nat) {
    forall x, y :: AddsAt(f, k, x, y)
  }

  lemma SquareAdds<F(!new)>(f: Field<F>, x: F, y: F)
    requires f.Ring()
    ensures f.mul(f.plus.add(x, y), f.plus.add(x, y)) == f.plus.add(f.mul(x, x), f.mul(y, y))
  {
    var g, s := f.plus, f.plus.add(x, y);
    RightDistributes(f, x, y, s);
    assert f.Distributes(x, x, y) && f.Distributes(y, x, y) && f.MulComm(x, y);
    var xx, xy, yy := f.mul(x, x), f.mul(x, y), f.mul(y, y);
    assert g.Comm(xy, yy);
    Interchange(g, xx, xy, yy, xy);
    Twice(f, xy);
    assert g.Unit(g.add(xx, yy));
  }

  lemma AdditiveTwice<F(!new)>(f: Field<F>, k: nat)
    requires f.Ring() && Additive(f, k)
    ensures Additive(f, 2 * k)
  {
    forall x, y ensures AddsAt(f, 2 * k, x, y) {
      PowTwice(f, x, k);
      PowTwice(f, y, k);
      PowTwice(f, f.plus.add(x, y), k);
      assert AddsAt(f, k, x, y);
      SquareAdds(f, f.Pow(x, k), f.Pow(y, k));
    }
  }

  lemma Additive32<F(!new)>(f: Field<F>)
    requires f.Ring()
    ensures Additive(f, 32)
  {
    forall x, y ensures AddsAt(f, 1, x, y) {
      PowOne(f, x);
      PowOne(f, y);
      PowOne(f, f.plus.add(x, y));
    }
    AdditiveTwice(f, 1);
    AdditiveTwice(f, 2);
    AdditiveTwice(f, 4);
    AdditiveTwice(f, 8);
    AdditiveTwice(f, 16);
  }

  // ----- Sums -----

  ghost function Total<F(!new)>(f: Field<F>, s: seq<F>): F {
    if |s| == 0 then f.plus.zero else f.plus.add(Total(f, s[..|s| - 1]), s[|s| - 1])
  }

  lemma {:induction false} TotalScaled<F(!new)>(f: Field<F>, c: F, s: seq<F>, t: seq<F>)
    requires f.Ring() && |s| == |t| && forall i :: 0 <= i < |s| ==> t[i] == f.mul(c, s[i])
    ensures Total(f, t) == f.mul(c, Total(f, s))
    decreases |s|
  {
    if |s| == 0 {
      MulZero(f, c);
    } else {
      var n := |s| - 1;
      TotalScaled(f, c, s[..n], t[..n]);
      assert f.Distributes(c, Total(f, s[..n]), s[n]);
    }
  }

  lemma {:induction false} TotalAdds<F(!new)>(f: Field<F>, s: seq<F>, t: seq<F>, u: seq<F>)
    requires f.Ring() && Sum(f.plus, s, t, u)
    ensures Total(f, u) == f.plus.add(Total(f, s), Total(f, t))
    decreases |s|
  {
    if |s| == 0 {
      assert f.plus.Unit(f.plus.zero);
    } else {
      var n := |s| - 1;
      TotalAdds(f, s[..n], t[..n], u[..n]);
      Interchange(f.plus, Total(f, s[..n]), Total(f, t[..n]), s[n], t[n]);
    }
  }

  /** Only one element counts. */
  lemma {:induction false} TotalSingle<F(!new)>(f: Field<F>, s: seq<F>, p: nat)
    requires f.Ring() && forall i :: 0 <= i < |s| && i != p ==> s[i] == f.plus.zero
    ensures Total(f, s) == if p < |s| then s[p] else f.plus.zero
    decreases |s|
  {
    if |s| > 0 {
      var n := |s| - 1;
      TotalSingle(f, s[..n], p);
      if p == n {
        ZeroLeft(f.plus, s[n]);
      } else {
        assert f.plus.Unit(Total(f, s[..n]));
      }
    }
  }

  // ----- Products bit by bit -----

  ghost predicate PreservesAt<D(!new)>(h: Abelian<D>, m: D -> D, x: D, y: D) {
    m(h.add(x, y)) == h.add(m(x), m(y))
  }

  ghost predicate Preserves<D(!new)>(h: Abelian<D>, m: D -> D) {
    forall x, y :: PreservesAt(h, m, x, y)
  }

  function AddIf<D(!new)>(h: Abelian<D>, x: D, b: bool, y: D): D {
    if b then h.add(x, y) else x
  }

  /** The multiples of `x` by 1, a, a^2, a^3 and a^4, where there is a bit; `dbl` multiplies by a. */
  function ByBits<D(!new)>(h: Abelian<D>, dbl: D -> D, x: D, b: Bits): D {
    var x2 := dbl(x);
    var x4 := dbl(x2);
    var x8 := dbl(x4);
    AddIf(h, AddIf(h, AddIf(h, AddIf(h, AddIf(h, h.zero, b.b0, x), b.b1, x2), b.b2, x4), b.b3, x8), b.b4, dbl(x8))
  }

  lemma AddIfAdds<D(!new)>(h: Abelian<D>, x: D, w: D, b: bool, y: D, z: D)
    requires h.Lawful()
    ensures AddIf(h, h.add(x, w), b, h.add(y, z)) == h.add(AddIf(h, x, b, y), AddIf(h, w, b, z))
  {
    Interchange(h, x, w, y, z);
  }

  lemma ByBitsAdds<D(!new)>(h: Abelian<D>, dbl: D -> D, x: D, w: D, b: Bits)
    requires h.Lawful() && Preserves(h, dbl)
    ensures ByBits(h, dbl, h.add(x, w), b) == h.add(ByBits(h, dbl, x, b), ByBits(h, dbl, w, b))
  {
    var x2, w2 := dbl(x), dbl(w);
    var x4, w4 := dbl(x2), dbl(w2);
    var x8, w8 := dbl(x4), dbl(w4);
    assert PreservesAt(h, dbl, x, w) && PreservesAt(h, dbl, x2, w2) && PreservesAt(h, dbl, x4, w4) && PreservesAt(h, dbl, x8, w8);
    var s0, t0 := AddIf(h, h.zero, b.b0, x), AddIf(h, h.zero, b.b0, w);
    var s1, t1 := AddIf(h, s0, b.b1, x2), AddIf(h, t0, b.b1, w2);
    var s2, t2 := AddIf(h, s1, b.b2, x4), AddIf(h, t1, b.b2, w4);
    var s3, t3 := AddIf(h, s2, b.b3, x8), AddIf(h, t2, b.b3, w8);
    assert h.Unit(h.zero);
    AddIfAdds(h, h.zero, h.zero, b.b0, x, w);
    AddIfAdds(h, s0, t0, b.b1, x2, w2);
    AddIfAdds(h, s1, t1, b.b2, x4, w4);
    AddIfAdds(h, s2, t2, b.b3, x8, w8);
    AddIfAdds(h, s3, t3, b.b4, dbl(x8), dbl(w8));
  }

  lemma AddIfThrough<D(!new)>(h: Abelian<D>, m: D -> D, x: D, b: bool, y: D)
    requires Preserves(h, m)
    ensures m(AddIf(h, x, b, y)) == AddIf(h, m(x), b, m(y))
  {
    assert PreservesAt(h, m, x, y);
  }

  /** A map that respects sums and `dbl` respects products. */
  lemma ByBitsThrough<D(!new)>(h: Abelian<D>, dbl: D -> D, m: D -> D, x: D, b: Bits)
    requires h.Lawful() && Preserves(h, m) && m(h.zero) == h.zero && forall y :: m(dbl(y)) == dbl(m(y))
    ensures m(ByBits(h, dbl, x, b)) == ByBits(h, dbl, m(x), b)
  {
    var x2 := dbl(x);
    var x4 := dbl(x2);
    var x8 := dbl(x4);
    var s0 := AddIf(h, h.zero, b.b0, x);
    var s1 := AddIf(h, s0, b.b1, x2);
    var s2 := AddIf(h, s1, b.b2, x4);
    var s3 := AddIf(h, s2, b.b3, x8);
    AddIfThrough(h, m, h.zero, b.b0, x);
    AddIfThrough(h, m, s0, b.b1, x2);
    AddIfThrough(h, m, s1, b.b2, x4);
    AddIfThrough(h, m, s2, b.b3, x8);
    AddIfThrough(h, m, s3, b.b4, dbl(x8));
  }

  // ----- Orders -----

  /** The product of two powers. */
  lemma NextPower<F(!new)>(f: Field<F>, x: F, m: nat, n: nat, p: F, q: F, r: F)
    requires f.Ring() && f.Pow(x, m) == p && f.Pow(x, n) == q && f.mul(p, q) == r
    ensures f.Pow(x, m + n) == r
  {
    PowAdd(f, x, m, n);
  }

  /** Two exponents that give one have a common divisor that does. */
  lemma {:induction false} CommonPeriod<F(!new)>(f: Field<F>, x: F, a: nat, b: nat) returns (g: nat, j: nat, k: nat)
    requires f.Ring() && a > 0 && b > 0 && f.Pow(x, a) == f.one && f.Pow(x, b) == f.one
    ensures a == g * j && b == g * k && f.Pow(x, g) == f.one
    decreases a + b
  {
    if a == b {
      g, j, k := a, 1, 1;
    } else if a < b {
      PowDifference(f, x, b, a);
      g, j, k := CommonPeriod(f, x, a, b - a);
      k := k + j;
    } else {
      PowDifference(f, x, a, b);
      g, j, k := CommonPeriod(f, x, a - b, b);
      j := j + k;
    }
  }

  lemma PowDifference<F(!new)>(f: Field<F>, x: F, a: nat, b: nat)
    requires f.Ring() && b <= a && f.Pow(x, b) == f.one
    ensures f.Pow(x, a - b) == f.Pow(x, a)
  {
    PowAdd(f, x, a - b, b);
    assert f.MulOne(f.Pow(x, a - b));
  }
}
