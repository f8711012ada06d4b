/**
 * How many coefficients a polynomial with given roots must have: the bound of Hartmann and Tzeng for roots in
 * two progressions, over a field of characteristic two.
 */
module RootBound {
  import opened Group
  import opened LinearRegister
  import opened BinaryField

  // ----- Weights at distinct points -----

  /** The sum of the weights, each times a power of its point. */
  ghost function Moment<F(!new)>(f: Field<F>, w: seq<F>, x: seq<F>, k: nat): F
    requires |w| == |x|
  {
    Total(f, Terms(f, w, x, k))
  }

  ghost function Terms<F(!new)>(f: Field<F>, w: seq<F>, x: seq<F>, k: nat): seq<F>
    requires |w| == |x|
  {
    seq(|w|, i requires 0 <= i < |w| => f.mul(w[i], f.Pow(x[i], k)))
  }

  ghost predicate Distinct<F(!new)>(x: seq<F>) {
    forall i, j :: 0 <= i < j < |x| ==> x[i] != x[j]
  }

  /** The weights are zero outside `at`. */
  ghost predicate Supported<F(!new)>(f: Field<F>, w: seq<F>, at: set<nat>) {
    forall i :: 0 <= i < |w| && i !in at ==> w[i] == f.plus.zero
  }

  /** The weights times the distance of their point from `z[p]`: the weight at `p` goes. */
  ghost function Without<F(!new)>(f: Field<F>, w: seq<F>, z: seq<F>, p: nat): seq<F>
    requires |w| == |z| && p < |z|
  {
    seq(|w|, i requires 0 <= i < |w| => f.mul(w[i], f.plus.add(z[i], z[p])))
  }

  lemma WithoutSupported<F(!new)>(f: Field<F>, w: seq<F>, z: seq<F>, p: nat, at: set<nat>)
    requires f.Ring() && |w| == |z| && p < |z| && Supported(f, w, at)
    ensures Supported(f, Without(f, w, z, p), at - {p})
  {
    var v := Without(f, w, z, p);
    forall i | 0 <= i < |v| && i !in at - {p}
      ensures v[i] == f.plus.zero
    {
      if i == p {
        Twice(f, z[p]);
        MulZero(f, w[p]);
      } else {
        MulZero(f, f.plus.add(z[i], z[p]));
      }
    }
  }

  /** If nothing is left without `p`, only the weight at `p` can be other than zero. */
  lemma OnlyLeft<F(!new)>(f: Field<F>, w: seq<F>, z: seq<F>, p: nat)
    requires f.Lawful() && |w| == |z| && p < |z| && Distinct(z) && Supported(f, Without(f, w, z, p), {})
    ensures forall i :: 0 <= i < |w| && i != p ==> w[i] == f.plus.zero
  {
    forall i | 0 <= i < |w| && i != p
      ensures w[i] == f.plus.zero
    {
      assert Without(f, w, z, p)[i] == f.plus.zero;
      assert z[i] != z[p];
      SumZero(f.plus, z[i], z[p]);
      NoZeroDivisors(f, w[i], f.plus.add(z[i], z[p]));
    }
  }

  lemma NothingLeft<F(!new)>(f: Field<F>, w: seq<F>, x: seq<F>, p: nat)
    requires f.Ring() && |w| == |x| && p < |w| && Moment(f, w, x, 0) == f.plus.zero
    requires forall i :: 0 <= i < |w| && i != p ==> w[i] == f.plus.zero
    ensures Supported(f, w, {})
  {
    var t := Terms(f, w, x, 0);
    forall i | 0 <= i < |w| ensures t[i] == w[i] { PowZero(f, x[i]); assert f.MulOne(w[i]); }
    TotalSingle(f, t, p);
  }

  /** v[i] == w[i] (y[i] + c), summed. */
  lemma MomentSplit<F(!new)>(f: Field<F>, a: seq<F>, b: seq<F>, c: F, s: seq<F>)
    requires f.Ring() && |a| == |b| == |s| && Total(f, a) == f.plus.zero && Total(f, b) == f.plus.zero
    requires forall i :: 0 <= i < |s| ==> s[i] == f.plus.add(b[i], f.mul(c, a[i]))
    ensures Total(f, s) == f.plus.zero
  {
    var ca := seq(|a|, i requires 0 <= i < |a| => f.mul(c, a[i]));
    TotalScaled(f, c, a, ca);
    TotalAdds(f, b, ca, s);
    MulZero(f, c);
    assert f.plus.Unit(f.plus.zero);
  }

  /** w (y + c) x == w (x y) + c (w x) */
  lemma Spread<F(!new)>(f: Field<F>, w: F, y: F, c: F, x: F)
    requires f.Ring()
    ensures f.mul(f.mul(w, f.plus.add(y, c)), x) == f.plus.add(f.mul(w, f.mul(x, y)), f.mul(c, f.mul(w, x)))
  {
    var s := f.plus.add(y, c);
    assert f.MulAssoc(w, s, x) && f.MulComm(s, x) && f.Distributes(x, y, c);
    assert f.Distributes(w, f.mul(x, y), f.mul(x, c));
    assert f.MulAssoc(w, x, c) && f.MulComm(f.mul(w, x), c);
  }

  /** The moments without `p` vanish with the moments. */
  lemma MomentWithout<F(!new)>(f: Field<F>, w: seq<F>, x: seq<F>, p: nat, k: nat)
    requires f.Ring() && |w| == |x| && p < |x|
    requires Moment(f, w, x, k) == f.plus.zero && Moment(f, w, x, k + 1) == f.plus.zero
    ensures Moment(f, Without(f, w, x, p), x, k) == f.plus.zero
  {
    var s := Terms(f, Without(f, w, x, p), x, k);
    forall i | 0 <= i < |w|
      ensures s[i] == f.plus.add(Terms(f, w, x, k + 1)[i], f.mul(x[p], Terms(f, w, x, k)[i]))
    {
      var y := f.Pow(x[i], k);
      PowStep(f, x[i], k);
      Spread(f, w[i], x[i], x[p], y);
    }
    MomentSplit(f, Terms(f, w, x, k), Terms(f, w, x, k + 1), x[p], s);
  }

  ghost predicate Vanish<F(!new)>(f: Field<F>, w: seq<F>, x: seq<F>, m: nat)
    requires |w| == |x|
  {
    forall k :: 0 <= k < m ==> Moment(f, w, x, k) == f.plus.zero
  }

  /** As many vanishing moments as weights at distinct points: the weights are zero. */
  lemma {:induction false} Vandermonde<F(!new)>(f: Field<F>, w: seq<F>, x: seq<F>, at: set<nat>, m: nat)
    requires f.Lawful() && |w| == |x| && Distinct(x) && Supported(f, w, at) && |at| <= m && Vanish(f, w, x, m)
    ensures Supported(f, w, {})
    decreases m
  {
    if p :| p in at && p < |w| {
      var v := Without(f, w, x, p);
      WithoutSupported(f, w, x, p, at);
      forall k | 0 <= k < m - 1 ensures Moment(f, v, x, k) == f.plus.zero { MomentWithout(f, w, x, p, k); }
      Vandermonde(f, v, x, at - {p}, m - 1);
      OnlyLeft(f, w, x, p);
      NothingLeft(f, w, x, p);
    }
  }

  /**
   * The bound of Hartmann and Tzeng: where `m` moments vanish for the weights and for the weights times
   * further points, `m + 1` weights are zero.
   */
  lemma TwoProgressions<F(!new)>(f: Field<F>, w: seq<F>, x: seq<F>, z: seq<F>, wz: seq<F>, at: set<nat>, m: nat)
    requires f.Lawful() && |w| == |x| == |z| == |wz| && Distinct(x) && Distinct(z)
    requires forall i :: 0 <= i < |w| ==> wz[i] == f.mul(w[i], z[i])
    requires Supported(f, w, at) && |at| <= m + 1 && m > 0 && Vanish(f, w, x, m) && Vanish(f, wz, x, m)
    ensures Supported(f, w, {})
  {
    if p :| p in at && p < |w| {
      var v := Without(f, w, z, p);
      WithoutSupported(f, w, z, p, at);
      forall k | 0 <= k < m ensures Moment(f, v, x, k) == f.plus.zero { OtherMoment(f, w, x, z, wz, p, k); }
      Vandermonde(f, v, x, at - {p}, m);
      OnlyLeft(f, w, z, p);
      NothingLeft(f, w, x, p);
    }
  }

  lemma OtherMoment<F(!new)>(f: Field<F>, w: seq<F>, x: seq<F>, z: seq<F>, wz: seq<F>, p: nat, k: nat)
    requires f.Ring() && |w| == |x| == |z| == |wz| && p < |z|
    requires forall i :: 0 <= i < |w| ==> wz[i] == f.mul(w[i], z[i])
    requires Moment(f, w, x, k) == f.plus.zero && Moment(f, wz, x, k) == f.plus.zero
    ensures Moment(f, Without(f, w, z, p), x, k) == f.plus.zero
  {
    var s := Terms(f, Without(f, w, z, p), x, k);
    forall i | 0 <= i < |w|
      ensures s[i] == f.plus.add(Terms(f, wz, x, k)[i], f.mul(z[p], Terms(f, w, x, k)[i]))
    {
      var y := f.Pow(x[i], k);
      Spread(f, w[i], z[i], z[p], y);
      assert f.MulAssoc(w[i], z[i], y) && f.MulComm(z[i], y);
      assert Terms(f, wz, x, k)[i] == f.mul(wz[i], y) == f.mul(w[i], f.mul(y, z[i]));
    }
    MomentSplit(f, Terms(f, w, x, k), Terms(f, wz, x, k), z[p], s);
  }

  // ----- Polynomials -----

  /** The value at `b` of the polynomial with coefficients `e`, highest first. */
  ghost function Eval<F(!new), D(!new)>(f: Field<F>, emb: D -> F, b: F, e: seq<D>): F {
    if |e| == 0 then f.plus.zero else f.plus.add(f.mul(Eval(f, emb, b, e[..|e| - 1]), b), emb(e[|e| - 1]))
  }

  /** The map takes one operation to the other. */
  ghost predicate Carries<F(!new), D(!new)>(emb: D -> F, op: (D, D) -> D, op': (F, F) -> F) {
    forall c, d :: CarriesAt(emb, op, op', c, d)
  }

  ghost predicate CarriesAt<F(!new), D(!new)>(emb: D -> F, op: (D, D) -> D, op': (F, F) -> F, c: D, d: D) {
    emb(op(c, d)) == op'(emb(c), emb(d))
  }

  lemma {:induction false} EvalAdds<F(!new), D(!new)>(f: Field<F>, h: Abelian<D>, emb: D -> F, b: F, u: seq<D>, v: seq<D>, w: seq<D>)
    requires f.Ring() && Sum(h, u, v, w) && Carries(emb, h.add, f.plus.add)
    ensures Eval(f, emb, b, w) == f.plus.add(Eval(f, emb, b, u), Eval(f, emb, b, v))
    decreases |w|
  {
    if |w| == 0 {
      assert f.plus.Unit(f.plus.zero);
    } else {
      var n := |w| - 1;
      var p, q := Eval(f, emb, b, u[..n]), Eval(f, emb, b, v[..n]);
      EvalAdds(f, h, emb, b, u[..n], v[..n], w[..n]);
      assert CarriesAt(emb, h.add, f.plus.add, u[n], v[n]);
      RightDistributes(f, p, q, b);
      Interchange(f.plus, f.mul(p, b), f.mul(q, b), emb(u[n]), emb(v[n]));
    }
  }

  lemma {:induction false} EvalScaled<F(!new), D(!new)>(f: Field<F>, emb: D -> F, b: F, s: F, u: seq<D>, w: seq<D>)
    requires f.Ring() && |u| == |w| && forall i :: 0 <= i < |w| ==> emb(w[i]) == f.mul(s, emb(u[i]))
    ensures Eval(f, emb, b, w) == f.mul(s, Eval(f, emb, b, u))
    decreases |w|
  {
    if |w| == 0 {
      MulZero(f, s);
    } else {
      var n := |w| - 1;
      var p := Eval(f, emb, b, u[..n]);
      EvalScaled(f, emb, b, s, u[..n], w[..n]);
      assert f.MulAssoc(s, p, b) && f.Distributes(s, f.mul(p, b), emb(u[n]));
    }
  }

  /** The first coefficient counts with the highest power. */
  lemma {:induction false} EvalFront<F(!new), D(!new)>(f: Field<F>, emb: D -> F, b: F, s: D, e: seq<D>)
    requires f.Ring()
    ensures Eval(f, emb, b, [s] + e) == f.plus.add(f.mul(emb(s), f.Pow(b, |e|)), Eval(f, emb, b, e))
    decreases |e|
  {
    var n, all := |e|, [s] + e;
    assert all[..n] == if n == 0 then [] else [s] + e[..n - 1];
    if n == 0 {
      PowZero(f, b);
      MulZero(f, b);
      ZeroLeft(f.plus, emb(s));
      assert f.MulOne(emb(s)) && f.plus.Unit(emb(s));
    } else {
      var p, c := Eval(f, emb, b, e[..n - 1]), f.mul(emb(s), f.Pow(b, n - 1));
      EvalFront(f, emb, b, s, e[..n - 1]);
      RightDistributes(f, c, p, b);
      PowStep(f, b, n - 1);
      assert f.MulAssoc(emb(s), f.Pow(b, n - 1), b);
      assert f.plus.Assoc(f.mul(c, b), f.mul(p, b), emb(e[n - 1]));
    }
  }

  /** At a root of a polynomial with first coefficient one, the rest is the highest power. */
  lemma MonicRoot<F(!new), D(!new)>(f: Field<F>, emb: D -> F, b: F, one: D, check: seq<D>)
    requires f.Ring() && emb(one) == f.one && Eval(f, emb, b, [one] + check) == f.plus.zero
    ensures Eval(f, emb, b, check) == f.Pow(b, |check|)
  {
    EvalFront(f, emb, b, one, check);
    assert f.MulComm(f.one, f.Pow(b, |check|)) && f.MulOne(f.Pow(b, |check|));
    SumZero(f.plus, f.Pow(b, |check|), Eval(f, emb, b, check));
  }

  /**
   * A polynomial `s` x^n + `rest`, of degree below n + 1, is multiplied by x, gets the coefficient `d` and is
   * reduced by a multiple of `check` so that its degree does not grow: at a root of x^(n + 1) + `check` its
   * value follows.
   */
  lemma ReducedStep<F(!new), D(!new)>(f: Field<F>, h: Abelian<D>, emb: D -> F, b: F, s: D, rest: seq<D>, d: D, check: seq<D>, scaled: seq<D>, next: seq<D>)
    requires f.Ring() && Carries(emb, h.add, f.plus.add)
    requires |check| == |scaled| == |rest| + 1 && forall i :: 0 <= i < |check| ==> emb(scaled[i]) == f.mul(emb(s), emb(check[i]))
    requires Sum(h, rest + [d], scaled, next) && Eval(f, emb, b, check) == f.Pow(b, |check|)
    ensures Eval(f, emb, b, next) == f.plus.add(f.mul(Eval(f, emb, b, [s] + rest), b), emb(d))
  {
    var g, n := f.plus, |rest|;
    var low, c, all := Eval(f, emb, b, rest), f.mul(emb(s), f.Pow(b, n)), rest + [d];
    EvalAdds(f, h, emb, b, all, scaled, next);
    EvalScaled(f, emb, b, emb(s), check, scaled);
    EvalFront(f, emb, b, s, rest);
    assert all[..n] == rest && all[n] == d;
    RightDistributes(f, c, low, b);
    PowStep(f, b, n);
    assert f.MulAssoc(emb(s), f.Pow(b, n), b);
    var hi, lo := f.mul(c, b), f.mul(low, b);
    assert g.Comm(g.add(lo, emb(d)), hi) && g.Assoc(hi, lo, emb(d));
  }

  /** A power that respects sums and keeps the coefficients takes values to values. */
  lemma {:induction false} EvalPower<F(!new), D(!new)>(f: Field<F>, emb: D -> F, k: nat, b: F, e: seq<D>)
    requires f.Ring() && Additive(f, k) && k > 0 && forall d :: f.Pow(emb(d), k) == emb(d)
    ensures Eval(f, emb, f.Pow(b, k), e) == f.Pow(Eval(f, emb, b, e), k)
    decreases |e|
  {
    if |e| == 0 {
      PowStep(f, f.plus.zero, k - 1);
      MulZero(f, f.Pow(f.plus.zero, k - 1));
    } else {
      var n := |e| - 1;
      var p := Eval(f, emb, b, e[..n]);
      EvalPower(f, emb, k, b, e[..n]);
      PowProduct(f, p, b, k);
      assert AddsAt(f, k, f.mul(p, b), emb(e[n]));
    }
  }

  /** The terms of the polynomial at `b`. */
  ghost function Monomials<F(!new), D(!new)>(f: Field<F>, emb: D -> F, b: F, e: seq<D>): seq<F> {
    seq(|e|, i requires 0 <= i < |e| => f.mul(emb(e[i]), f.Pow(b, |e| - 1 - i)))
  }

  lemma {:induction false} EvalIsTotal<F(!new), D(!new)>(f: Field<F>, emb: D -> F, b: F, e: seq<D>)
    requires f.Ring()
    ensures Eval(f, emb, b, e) == Total(f, Monomials(f, emb, b, e))
    decreases |e|
  {
    if |e| > 0 {
      var n := |e| - 1;
      var front, terms := Monomials(f, emb, b, e[..n]), Monomials(f, emb, b, e);
      EvalIsTotal(f, emb, b, e[..n]);
      forall i | 0 <= i < n
        ensures terms[..n][i] == f.mul(b, front[i])
      {
        var y := f.Pow(b, n - 1 - i);
        PowStep(f, b, n - 1 - i);
        assert f.MulAssoc(emb(e[i]), y, b) && f.MulComm(f.mul(emb(e[i]), y), b);
      }
      TotalScaled(f, b, front, terms[..n]);
      assert f.MulComm(b, Total(f, front));
      PowZero(f, b);
      assert f.MulOne(emb(e[n]));
    }
  }

  function Product(s: nat, q: nat): nat {
    s * q
  }

  /** The powers of `g` with exponents `r`, 2 `r`, and so on, lowest last. */
  ghost function Powers<F(!new)>(f: Field<F>, g: F, r: nat, n: nat): seq<F> {
    seq(n, i requires 0 <= i < n => f.Pow(g, Product(r, n - 1 - i)))
  }

  /** The coefficients with the powers of `g` from exponent `s` on. */
  ghost function Weights<F(!new), D(!new)>(f: Field<F>, emb: D -> F, g: F, s: nat, e: seq<D>): seq<F> {
    seq(|e|, i requires 0 <= i < |e| => f.mul(emb(e[i]), f.Pow(g, Product(s, |e| - 1 - i))))
  }

  /** Moments at powers are values at powers. */
  lemma MomentIsValue<F(!new), D(!new)>(f: Field<F>, emb: D -> F, g: F, s: nat, r: nat, e: seq<D>, a: nat)
    requires f.Ring()
    ensures Moment(f, Weights(f, emb, g, s, e), Powers(f, g, r, |e|), a) == Eval(f, emb, f.Pow(g, s + r * a), e)
  {
    var w, x, b := Weights(f, emb, g, s, e), Powers(f, g, r, |e|), f.Pow(g, s + r * a);
    forall i | 0 <= i < |e|
      ensures Terms(f, w, x, a)[i] == Monomials(f, emb, b, e)[i]
    {
      var q := |e| - 1 - i;
      ExponentOfTerm(s, r, q, a);
      PowerOfTerm(f, emb(e[i]), g, Product(s, q), Product(r, q), a, Product(Product(r, q), a), s + r * a, q, Product(s + r * a, q));
    }
    assert Terms(f, w, x, a) == Monomials(f, emb, b, e);
    EvalIsTotal(f, emb, b, e);
  }

  lemma PowerOfTerm<F(!new)>(f: Field<F>, c: F, g: F, u: nat, v: nat, a: nat, va: nat, k: nat, q: nat, kq: nat)
    requires f.Ring() && va == v * a && kq == k * q && u + va == kq
    ensures f.mul(f.mul(c, f.Pow(g, u)), f.Pow(f.Pow(g, v), a)) == f.mul(c, f.Pow(f.Pow(g, k), q))
  {
    assert f.Pow(f.Pow(g, v), a) == f.Pow(g, va) by { PowPow(f, g, v, a); }
    assert f.Pow(f.Pow(g, k), q) == f.Pow(g, kq) by { PowPow(f, g, k, q); }
    WeightFurther(f, c, g, u, va);
  }

  lemma ExponentOfTerm(s: nat, r: nat, q: nat, a: nat)
    ensures Product(s + r * a, q) == Product(s, q) + Product(Product(r, q), a)
  {
  }

  /** `g` and its powers are not zero. */
  lemma {:induction false} PowNotZero<F(!new)>(f: Field<F>, g: F, n: nat)
    requires f.Lawful() && g != f.plus.zero && f.one != f.plus.zero
    ensures f.Pow(g, n) != f.plus.zero
    decreases n
  {
    if n == 0 {
      PowZero(f, g);
    } else {
      PowNotZero(f, g, n - 1);
      PowStep(f, g, n - 1);
      if f.Pow(g, n) == f.plus.zero {
        NoZeroDivisors(f, f.Pow(g, n - 1), g);
      }
    }
  }

  /** The polynomial vanishes at g^s, g^(s + r), ..., `m` of them. */
  ghost predicate Roots<F(!new), D(!new)>(f: Field<F>, emb: D -> F, g: F, s: nat, r: nat, m: nat, e: seq<D>) {
    forall a :: 0 <= a < m ==> Eval(f, emb, f.Pow(g, s + r * a), e) == f.plus.zero
  }

  /**
   * A polynomial with `m` roots in progression, and as many `t` steps further, has more than `m + 1`
   * coefficients, or none.
   */
  lemma FewCoefficients<F(!new), D(!new)>(f: Field<F>, emb: D -> F, g: F, s: nat, r: nat, t: nat, m: nat, e: seq<D>, at: set<nat>)
    requires f.Lawful() && g != f.plus.zero && f.one != f.plus.zero && 0 < m
    requires Distinct(Powers(f, g, r, |e|)) && Distinct(Powers(f, g, t, |e|))
    requires Roots(f, emb, g, s, r, m, e) && Roots(f, emb, g, s + t, r, m, e)
    requires |at| <= m + 1 && forall i :: 0 <= i < |e| && i !in at ==> emb(e[i]) == f.plus.zero
    ensures forall i :: 0 <= i < |e| ==> emb(e[i]) == f.plus.zero
  {
    var w, x, z, wz := Weights(f, emb, g, s, e), Powers(f, g, r, |e|), Powers(f, g, t, |e|), Weights(f, emb, g, s + t, e);
    WeightsFurther(f, emb, g, s, t, e);
    WeightsSupported(f, emb, g, s, e, at);
    RootsAreMoments(f, emb, g, s, r, m, e);
    RootsAreMoments(f, emb, g, s + t, r, m, e);
    TwoProgressions(f, w, x, z, wz, at, m);
    WeightsZero(f, emb, g, s, e);
  }

  lemma WeightFurther<F(!new)>(f: Field<F>, c: F, g: F, u: nat, v: nat)
    requires f.Ring()
    ensures f.mul(c, f.Pow(g, u + v)) == f.mul(f.mul(c, f.Pow(g, u)), f.Pow(g, v))
  {
    PowAdd(f, g, u, v);
    assert f.MulAssoc(c, f.Pow(g, u), f.Pow(g, v));
  }

  lemma WeightsFurther<F(!new), D(!new)>(f: Field<F>, emb: D -> F, g: F, s: nat, t: nat, e: seq<D>)
    requires f.Ring()
    ensures
      var w, z, wz := Weights(f, emb, g, s, e), Powers(f, g, t, |e|), Weights(f, emb, g, s + t, e);
      forall i :: 0 <= i < |e| ==> wz[i] == f.mul(w[i], z[i])
  {
    forall i | 0 <= i < |e|
      ensures Weights(f, emb, g, s + t, e)[i] == f.mul(Weights(f, emb, g, s, e)[i], Powers(f, g, t, |e|)[i])
    {
      var q := |e| - 1 - i;
      assert Product(s + t, q) == Product(s, q) + Product(t, q);
      WeightFurther(f, emb(e[i]), g, Product(s, q), Product(t, q));
    }
  }

  lemma WeightsSupported<F(!new), D(!new)>(f: Field<F>, emb: D -> F, g: F, s: nat, e: seq<D>, at: set<nat>)
    requires f.Ring() && forall i :: 0 <= i < |e| && i !in at ==> emb(e[i]) == f.plus.zero
    ensures Supported(f, Weights(f, emb, g, s, e), at)
  {
    forall i | 0 <= i < |e| && i !in at
      ensures Weights(f, emb, g, s, e)[i] == f.plus.zero
    {
      MulZero(f, f.Pow(g, Product(s, |e| - 1 - i)));
    }
  }

  lemma WeightsZero<F(!new), D(!new)>(f: Field<F>, emb: D -> F, g: F, s: nat, e: seq<D>)
    requires f.Lawful() && g != f.plus.zero && f.one != f.plus.zero && Supported(f, Weights(f, emb, g, s, e), {})
    ensures forall i :: 0 <= i < |e| ==> emb(e[i]) == f.plus.zero
  {
    forall i | 0 <= i < |e|
      ensures emb(e[i]) == f.plus.zero
    {
      assert Weights(f, emb, g, s, e)[i] == f.plus.zero;
      PowNotZero(f, g, Product(s, |e| - 1 - i));
      NoZeroDivisors(f, emb(e[i]), f.Pow(g, Product(s, |e| - 1 - i)));
    }
  }

  lemma RootsAreMoments<F(!new), D(!new)>(f: Field<F>, emb: D -> F, g: F, s: nat, r: nat, m: nat, e: seq<D>)
    requires f.Ring() && Roots(f, emb, g, s, r, m, e)
    ensures Vanish(f, Weights(f, emb, g, s, e), Powers(f, g, r, |e|), m)
  {
    forall a | 0 <= a < m
      ensures Moment(f, Weights(f, emb, g, s, e), Powers(f, g, r, |e|), a) == f.plus.zero
    {
      MomentIsValue(f, emb, g, s, r, e, a);
    }
  }

  // ----- Distinct powers -----

  /** `g` has order `n`. */
  ghost predicate HasOrder<F(!new)>(f: Field<F>, g: F, n: nat) {
    f.Pow(g, n) == f.one && forall m :: 0 < m < n ==> f.Pow(g, m) != f.one
  }

  lemma PowersDiffer<F(!new)>(f: Field<F>, g: F, n: nat, p: nat, q: nat)
    requires f.Lawful() && g != f.plus.zero && f.one != f.plus.zero && HasOrder(f, g, n) && q < p < n
    ensures f.Pow(g, p) != f.Pow(g, q)
  {
    var y, s := f.Pow(g, q), f.plus.add(f.Pow(g, p - q), f.one);
    PowAdd(f, g, p - q, q);
    if f.Pow(g, p) == y {
      RightDistributes(f, f.Pow(g, p - q), f.one, y);
      assert f.MulComm(f.one, y) && f.MulOne(y);
      Twice(f, y);
      PowNotZero(f, g, q);
      NoZeroDivisors(f, s, y);
      SumZero(f.plus, f.Pow(g, p - q), f.one);
      assert false;
    }
  }

  /** If `r` has the inverse `k` modulo the order, the powers with exponents 0, r, 2 r, ... differ. */
  lemma PowersDistinct<F(!new)>(f: Field<F>, g: F, n: nat, r: nat, k: nat, c: nat, length: nat)
    requires f.Lawful() && g != f.plus.zero && f.one != f.plus.zero && HasOrder(f, g, n) && r * k == 1 + n * c && length <= n
    ensures Distinct(Powers(f, g, r, length))
  {
    forall i, j | 0 <= i < j < length
      ensures Powers(f, g, r, length)[i] != Powers(f, g, r, length)[j]
    {
      var p, q := length - 1 - i, length - 1 - j;
      BackToPower(f, g, n, r, k, c, p);
      BackToPower(f, g, n, r, k, c, q);
      PowersDiffer(f, g, n, p, q);
    }
  }

  lemma BackToPower<F(!new)>(f: Field<F>, g: F, n: nat, r: nat, k: nat, c: nat, p: nat)
    requires f.Ring() && f.Pow(g, n) == f.one && r * k == 1 + n * c
    ensures f.Pow(f.Pow(g, Product(r, p)), k) == f.Pow(g, p)
  {
    PowPow(f, g, Product(r, p), k);
    Rotate(r, p, k, n, c);
    PowCycle(f, g, n, p, c * p);
  }

  lemma Rotate(r: nat, p: nat, k: nat, n: nat, c: nat)
    requires r * k == 1 + n * c
    ensures Product(r, p) * k == p + n * (c * p)
  {
    assert r * p * k == (r * k) * p;
    assert (n * c) * p == n * (c * p);
  }
}
