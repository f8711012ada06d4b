/**
 * An element `x` of a field with its inverse `y`, where x + y lies in a smaller field: x^n + y^n does too, and
 * polynomials at x are linear in x over the smaller field.
 */
module Traces {
  import opened Group
  import opened LinearRegister
  import opened BinaryField
  import opened RootBound

  /** The smaller field `k` inside `f`. */
  datatype Inside<!K(!new), !F(!new)> = Inside(k: Field<K>, f: Field<F>, lift: K -> F) {

    ghost predicate AddsAt(u: K, v: K) {
      lift(k.plus.add(u, v)) == f.plus.add(lift(u), lift(v))
    }

    ghost predicate MultipliesAt(u: K, v: K) {
      lift(k.mul(u, v)) == f.mul(lift(u), lift(v))
    }

    ghost predicate Lawful() {
      && k.Ring() && f.Lawful() && f.one != f.plus.zero && lift(k.plus.zero) == f.plus.zero
      && (forall u, v :: AddsAt(u, v))
      && (forall u, v :: MultipliesAt(u, v))
    }

    ghost predicate Trace(x: F, y: F, n: nat, u: K) {
      f.plus.add(f.Pow(x, n), f.Pow(y, n)) == lift(u)
    }
  }

  // ----- Traces of powers -----

  lemma TraceTwice<K(!new), F(!new)>(i: Inside<K, F>, x: F, y: F, n: nat, u: K, v: K)
    requires i.Lawful() && i.Trace(x, y, n, u) && i.k.mul(u, u) == v
    ensures i.Trace(x, y, 2 * n, v)
  {
    PowTwice(i.f, x, n);
    PowTwice(i.f, y, n);
    SquareAdds(i.f, i.f.Pow(x, n), i.f.Pow(y, n));
    assert i.MultipliesAt(u, u);
  }

  lemma {:induction false} InversePowers<F(!new)>(f: Field<F>, x: F, y: F, n: nat)
    requires f.Ring() && f.mul(x, y) == f.one
    ensures f.mul(f.Pow(x, n), f.Pow(y, n)) == f.one
  {
    PowProduct(f, x, y, n);
    PowOfOne(f, n);
  }

  /** x^(n + 1) y^n == x */
  lemma CancelPowers<F(!new)>(f: Field<F>, x: F, y: F, n: nat)
    requires f.Ring() && f.mul(x, y) == f.one
    ensures f.mul(f.Pow(x, n + 1), f.Pow(y, n)) == x
  {
    PowStep(f, x, n);
    InversePowers(f, x, y, n);
    assert f.MulComm(f.Pow(x, n), x) && f.MulAssoc(x, f.Pow(x, n), f.Pow(y, n)) && f.MulOne(x);
  }

  /** (a + b) (c + d) == a c + b d + (a d + b c) */
  lemma FourProducts<F(!new)>(f: Field<F>, a: F, b: F, c: F, d: F)
    requires f.Ring()
    ensures f.mul(f.plus.add(a, b), f.plus.add(c, d))
         == f.plus.add(f.plus.add(f.mul(a, c), f.mul(b, d)), f.plus.add(f.mul(a, d), f.mul(b, c)))
  {
    var s := f.plus.add(c, d);
    RightDistributes(f, a, b, s);
    assert f.Distributes(a, c, d) && f.Distributes(b, c, d);
    assert f.plus.Comm(f.mul(b, c), f.mul(b, d));
    Interchange(f.plus, f.mul(a, c), f.mul(a, d), f.mul(b, d), f.mul(b, c));
  }

  /** From n and n + 1 to 2 n + 1. */
  lemma TraceNext<K(!new), F(!new)>(i: Inside<K, F>, x: F, y: F, n: nat, u: K, v: K, t: K, w: K)
    requires i.Lawful() && i.f.mul(x, y) == i.f.one && i.Trace(x, y, n, u) && i.Trace(x, y, n + 1, v) && i.Trace(x, y, 1, t)
    requires i.k.plus.add(i.k.mul(v, u), t) == w
    ensures i.Trace(x, y, 2 * n + 1, w)
  {
    var f := i.f;
    FourProducts(f, f.Pow(x, n + 1), f.Pow(y, n + 1), f.Pow(x, n), f.Pow(y, n));
    PowAdd(f, x, n + 1, n);
    PowAdd(f, y, n + 1, n);
    CancelPowers(f, x, y, n);
    assert f.MulComm(x, y);
    CancelPowers(f, y, x, n);
    PowOne(f, x);
    PowOne(f, y);
    assert i.MultipliesAt(v, u) && i.AddsAt(i.k.mul(v, u), t);
    Twice(f, i.lift(t));
    AddBack(f.plus, f.plus.add(f.Pow(x, 2 * n + 1), f.Pow(y, 2 * n + 1)), i.lift(t));
  }

  /** (a + b) + b == a */
  lemma AddBack<D(!new)>(g: Abelian<D>, a: D, b: D)
    requires g.Lawful() && g.add(b, b) == g.zero
    ensures g.add(g.add(a, b), b) == a
  {
    assert g.Assoc(a, b, b) && g.Unit(a);
  }

  /** A power is one only if its trace is zero, and then its square is. */
  lemma TraceOfOne<K(!new), F(!new)>(i: Inside<K, F>, x: F, y: F, n: nat, u: K)
    requires i.Lawful() && i.f.mul(x, y) == i.f.one && i.Trace(x, y, n, u)
    ensures i.f.Pow(x, n) == i.f.one <==> i.lift(u) == i.f.plus.zero
  {
    var f, p, q := i.f, i.f.Pow(x, n), i.f.Pow(y, n);
    InversePowers(f, x, y, n);
    SumZero(f.plus, p, q);
    if p == f.one {
      assert f.MulComm(f.one, q) && f.MulOne(q);
    }
    if p == q {
      SquareIsOne(f, p);
    }
  }

  lemma SquareIsOne<F(!new)>(f: Field<F>, p: F)
    requires f.Lawful() && f.mul(p, p) == f.one
    ensures p == f.one
  {
    var s := f.plus.add(p, f.one);
    SquareAdds(f, p, f.one);
    assert f.MulOne(f.one);
    Twice(f, f.one);
    if s != f.plus.zero {
      NoZeroDivisors(f, s, s);
    }
    SumZero(f.plus, p, f.one);
  }

  /** x^n is a root of b^2 + u b + 1. */
  lemma TraceIsQuadratic<K(!new), F(!new)>(i: Inside<K, F>, x: F, y: F, n: nat, u: K)
    requires i.Lawful() && i.f.mul(x, y) == i.f.one && i.Trace(x, y, n, u)
    ensures
      var b := i.f.Pow(x, n);
      i.f.mul(b, b) == i.f.plus.add(i.f.mul(i.lift(u), b), i.f.one)
  {
    var f, b, c := i.f, i.f.Pow(x, n), i.f.Pow(y, n);
    InversePowers(f, x, y, n);
    RightDistributes(f, b, c, b);
    assert f.MulComm(c, b);
    Twice(f, f.one);
    AddBack(f.plus, f.mul(b, b), f.one);
  }

  // ----- Polynomials at such an element -----

  /** lo + hi b */
  datatype Linear<!K(!new)> = Linear(lo: K, hi: K)

  ghost function Value<K(!new), F(!new)>(i: Inside<K, F>, b: F, p: Linear<K>): F {
    i.f.plus.add(i.lift(p.lo), i.f.mul(i.lift(p.hi), b))
  }

  /** (lo + hi b) b + d, modulo b^2 + u b + 1. */
  ghost function Advanced<K(!new), D(!new)>(k: Field<K>, emb: D -> K, u: K, p: Linear<K>, d: D): Linear<K> {
    Linear(k.plus.add(p.hi, emb(d)), k.plus.add(p.lo, k.mul(u, p.hi)))
  }

  /** The polynomial modulo b^2 + u b + 1. */
  ghost function Reduced<K(!new), D(!new)>(k: Field<K>, emb: D -> K, u: K, e: seq<D>): Linear<K> {
    if |e| == 0 then Linear(k.plus.zero, k.plus.zero)
    else Advanced(k, emb, u, Reduced(k, emb, u, e[..|e| - 1]), e[|e| - 1])
  }

  /** (lo + hi b) b + d == (hi + d) + (lo + u hi) b */
  lemma TimesRoot<K(!new), F(!new)>(i: Inside<K, F>, b: F, u: K, p: Linear<K>, d: K)
    requires i.Lawful() && i.f.mul(b, b) == i.f.plus.add(i.f.mul(i.lift(u), b), i.f.one)
    ensures i.f.plus.add(i.f.mul(Value(i, b, p), b), i.lift(d))
         == Value(i, b, Linear(i.k.plus.add(p.hi, d), i.k.plus.add(p.lo, i.k.mul(u, p.hi))))
  {
    var f, g, lo, hi, v := i.f, i.f.plus, i.lift(p.lo), i.lift(p.hi), i.lift(u);
    assert i.AddsAt(p.hi, d) && i.MultipliesAt(u, p.hi) && i.AddsAt(p.lo, i.k.mul(u, p.hi));
    var vhb, lob := f.mul(f.mul(v, hi), b), f.mul(lo, b);
    assert f.mul(f.mul(hi, b), b) == g.add(vhb, hi) by { HighTimesRoot(f, b, v, hi); }
    RightDistributes(f, lo, f.mul(hi, b), b);
    RightDistributes(f, lo, f.mul(v, hi), b);
    Rearrange(g, lob, vhb, hi, i.lift(d));
  }

  lemma HighTimesRoot<F(!new)>(f: Field<F>, b: F, v: F, hi: F)
    requires f.Ring() && f.mul(b, b) == f.plus.add(f.mul(v, b), f.one)
    ensures f.mul(f.mul(hi, b), b) == f.plus.add(f.mul(f.mul(v, hi), b), hi)
  {
    assert f.MulAssoc(hi, b, b) && f.Distributes(hi, f.mul(v, b), f.one) && f.MulOne(hi);
    assert f.MulAssoc(hi, v, b) && f.MulComm(hi, v);
  }

  /** (a + (b + c)) + d == (c + d) + (a + b) */
  lemma Rearrange<D(!new)>(g: Abelian<D>, a: D, b: D, c: D, d: D)
    requires g.Lawful()
    ensures g.add(g.add(a, g.add(b, c)), d) == g.add(g.add(c, d), g.add(a, b))
  {
    assert g.Assoc(a, b, c) && g.Assoc(g.add(a, b), c, d) && g.Comm(g.add(a, b), g.add(c, d));
  }

  lemma {:induction false} ReducedValue<K(!new), F(!new), D(!new)>(i: Inside<K, F>, emb: D -> K, full: D -> F, b: F, u: K, e: seq<D>)
    requires i.Lawful() && (forall d :: full(d) == i.lift(emb(d))) && i.f.mul(b, b) == i.f.plus.add(i.f.mul(i.lift(u), b), i.f.one)
    ensures Eval(i.f, full, b, e) == Value(i, b, Reduced(i.k, emb, u, e))
    decreases |e|
  {
    if |e| == 0 {
      MulZero(i.f, b);
      assert i.f.plus.Unit(i.f.plus.zero);
    } else {
      var n := |e| - 1;
      ReducedValue(i, emb, full, b, u, e[..n]);
      TimesRoot(i, b, u, Reduced(i.k, emb, u, e[..n]), emb(e[n]));
    }
  }

  lemma NextReduced<K(!new), D(!new)>(k: Field<K>, emb: D -> K, u: K, e: seq<D>, n: nat)
    requires n < |e|
    ensures Reduced(k, emb, u, e[..n + 1]) == Advanced(k, emb, u, Reduced(k, emb, u, e[..n]), e[n])
  {
    assert e[..n + 1][..n] == e[..n];
  }

  /** The reduction of nine coefficients, from its steps. */
  lemma ReducedNine<K(!new), D(!new)>(k: Field<K>, emb: D -> K, u: K, e: seq<D>, v0: Linear<K>, v1: Linear<K>, v2: Linear<K>,
                                      v3: Linear<K>, v4: Linear<K>, v5: Linear<K>, v6: Linear<K>, v7: Linear<K>, v8: Linear<K>, v9: Linear<K>)
    requires |e| == 9 && v0 == Linear(k.plus.zero, k.plus.zero)
    requires v1 == Advanced(k, emb, u, v0, e[0]) && v2 == Advanced(k, emb, u, v1, e[1]) && v3 == Advanced(k, emb, u, v2, e[2])
    requires v4 == Advanced(k, emb, u, v3, e[3]) && v5 == Advanced(k, emb, u, v4, e[4]) && v6 == Advanced(k, emb, u, v5, e[5])
    requires v7 == Advanced(k, emb, u, v6, e[6]) && v8 == Advanced(k, emb, u, v7, e[7]) && v9 == Advanced(k, emb, u, v8, e[8])
    ensures Reduced(k, emb, u, e) == v9
  {
    NextReduced(k, emb, u, e, 0);
    NextReduced(k, emb, u, e, 1);
    NextReduced(k, emb, u, e, 2);
    NextReduced(k, emb, u, e, 3);
    NextReduced(k, emb, u, e, 4);
    NextReduced(k, emb, u, e, 5);
    NextReduced(k, emb, u, e, 6);
    NextReduced(k, emb, u, e, 7);
    NextReduced(k, emb, u, e, 8);
    assert e[..9] == e;
  }

  /** A polynomial that reduces to zero has the power as a root. */
  lemma VanishesAt<K(!new), F(!new), D(!new)>(i: Inside<K, F>, emb: D -> K, full: D -> F, x: F, y: F, n: nat, u: K, e: seq<D>)
    requires i.Lawful() && i.f.mul(x, y) == i.f.one && i.Trace(x, y, n, u)
    requires Reduced(i.k, emb, u, e) == Linear(i.k.plus.zero, i.k.plus.zero)
    requires forall d :: full(d) == i.lift(emb(d))
    ensures Eval(i.f, full, i.f.Pow(x, n), e) == i.f.plus.zero
  {
    var b := i.f.Pow(x, n);
    TraceIsQuadratic(i, x, y, n, u);
    ReducedValue(i, emb, full, b, u, e);
    MulZero(i.f, b);
    assert i.f.plus.Unit(i.f.plus.zero);
  }
}
