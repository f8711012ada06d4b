/** A field of characteristic two with a root `y` of y^2 + y + c put in. */
module QuadraticExtension {
  import opened Group
  import opened LinearRegister
  import opened BinaryField

  /** lo + hi y */
  datatype Pair<!F(!new)> = Pair(lo: F, hi: F)

  /** No element is a root already. */
  ghost predicate NoRoot<F(!new)>(f: Field<F>, c: F) {
    forall z :: NotRoot(f, c, z)
  }

  ghost predicate NotRoot<F(!new)>(f: Field<F>, c: F, z: F) {
    f.mul(z, f.plus.add(z, f.one)) != c
  }

  function AddPairs<F(!new)>(f: Field<F>, p: Pair<F>, q: Pair<F>): Pair<F> {
    Pair(f.plus.add(p.lo, q.lo), f.plus.add(p.hi, q.hi))
  }

  function Scale<F(!new)>(f: Field<F>, s: F, p: Pair<F>): Pair<F> {
    Pair(f.mul(s, p.lo), f.mul(s, p.hi))
  }

  /** Multiplication by y. */
  function TimesY<F(!new)>(f: Field<F>, c: F, p: Pair<F>): Pair<F> {
    Pair(f.mul(c, p.hi), f.plus.add(p.lo, p.hi))
  }

  function MulPairs<F(!new)>(f: Field<F>, c: F, p: Pair<F>, q: Pair<F>): Pair<F> {
    AddPairs(f, Scale(f, p.lo, q), Scale(f, p.hi, TimesY(f, c, q)))
  }

  /** The product with the other root of y^2 + y + c in place of y. */
  function Norm<F(!new)>(f: Field<F>, c: F, p: Pair<F>): F {
    f.plus.add(f.mul(p.lo, f.plus.add(p.lo, p.hi)), f.mul(p.hi, f.mul(c, p.hi)))
  }

  function Conjugate<F(!new)>(f: Field<F>, p: Pair<F>): Pair<F> {
    Pair(f.plus.add(p.lo, p.hi), p.hi)
  }

  function Embed<F(!new)>(f: Field<F>, x: F): Pair<F> {
    Pair(x, f.plus.zero)
  }

  function Extension<F(!new)>(f: Field<F>, c: F): Field<Pair<F>> {
    Field(Abelian(Embed(f, f.plus.zero), (p, q) => AddPairs(f, p, q), p => p), Embed(f, f.one),
          (p, q) => MulPairs(f, c, p, q), p => Scale(f, f.inv(Norm(f, c, p)), Conjugate(f, p)))
  }

  // ----- Pairs as vectors -----

  lemma PairsLawful<F(!new)>(f: Field<F>, c: F)
    requires f.Ring()
    ensures Extension(f, c).plus.Lawful() && SelfInverse(Extension(f, c).plus)
  {
    var e := Extension(f, c);
    var g := e.plus;
    forall p, q, r ensures g.Assoc(p, q, r) { assert f.plus.Assoc(p.lo, q.lo, r.lo) && f.plus.Assoc(p.hi, q.hi, r.hi); }
    forall p, q ensures g.Comm(p, q) { assert f.plus.Comm(p.lo, q.lo) && f.plus.Comm(p.hi, q.hi); }
    forall p ensures g.Unit(p) { assert f.plus.Unit(p.lo) && f.plus.Unit(p.hi); }
    forall p ensures g.Inverse(p) { Twice(f, p.lo); Twice(f, p.hi); }
  }

  lemma ScaleAdds<F(!new)>(f: Field<F>, s: F, p: Pair<F>, q: Pair<F>)
    requires f.Ring()
    ensures Scale(f, s, AddPairs(f, p, q)) == AddPairs(f, Scale(f, s, p), Scale(f, s, q))
  {
    assert f.Distributes(s, p.lo, q.lo) && f.Distributes(s, p.hi, q.hi);
  }

  lemma ScaleScale<F(!new)>(f: Field<F>, s: F, t: F, p: Pair<F>)
    requires f.Ring()
    ensures Scale(f, s, Scale(f, t, p)) == Scale(f, t, Scale(f, s, p))
  {
    assert f.MulAssoc(s, t, p.lo) && f.MulAssoc(t, s, p.lo) && f.MulAssoc(s, t, p.hi) && f.MulAssoc(t, s, p.hi);
    assert f.MulComm(s, t);
  }

  lemma TimesYAdds<F(!new)>(f: Field<F>, c: F, p: Pair<F>, q: Pair<F>)
    requires f.Ring()
    ensures TimesY(f, c, AddPairs(f, p, q)) == AddPairs(f, TimesY(f, c, p), TimesY(f, c, q))
  {
    assert f.Distributes(c, p.hi, q.hi);
    Interchange(f.plus, p.lo, q.lo, p.hi, q.hi);
  }

  lemma TimesYScale<F(!new)>(f: Field<F>, c: F, s: F, p: Pair<F>)
    requires f.Ring()
    ensures TimesY(f, c, Scale(f, s, p)) == Scale(f, s, TimesY(f, c, p))
  {
    assert f.MulAssoc(c, s, p.hi) && f.MulAssoc(s, c, p.hi) && f.MulComm(c, s);
    assert f.Distributes(s, p.lo, p.hi);
  }

  // ----- Products of pairs -----

  lemma PairsDistribute<F(!new)>(f: Field<F>, c: F, p: Pair<F>, q: Pair<F>, r: Pair<F>)
    requires f.Ring()
    ensures MulPairs(f, c, p, AddPairs(f, q, r)) == AddPairs(f, MulPairs(f, c, p, q), MulPairs(f, c, p, r))
  {
    TimesYAdds(f, c, q, r);
    ScaleAdds(f, p.lo, q, r);
    ScaleAdds(f, p.hi, TimesY(f, c, q), TimesY(f, c, r));
    PairsLawful(f, c);
    Interchange(Extension(f, c).plus, Scale(f, p.lo, q), Scale(f, p.lo, r), Scale(f, p.hi, TimesY(f, c, q)), Scale(f, p.hi, TimesY(f, c, r)));
  }

  lemma PairsScale<F(!new)>(f: Field<F>, c: F, s: F, p: Pair<F>, q: Pair<F>)
    requires f.Ring()
    ensures MulPairs(f, c, p, Scale(f, s, q)) == Scale(f, s, MulPairs(f, c, p, q))
  {
    ScaleScale(f, p.lo, s, q);
    TimesYScale(f, c, s, q);
    ScaleScale(f, p.hi, s, TimesY(f, c, q));
    ScaleAdds(f, s, Scale(f, p.lo, q), Scale(f, p.hi, TimesY(f, c, q)));
  }

  lemma PairsTimesY<F(!new)>(f: Field<F>, c: F, p: Pair<F>, q: Pair<F>)
    requires f.Ring()
    ensures MulPairs(f, c, p, TimesY(f, c, q)) == TimesY(f, c, MulPairs(f, c, p, q))
  {
    TimesYAdds(f, c, Scale(f, p.lo, q), Scale(f, p.hi, TimesY(f, c, q)));
    TimesYScale(f, c, p.lo, q);
    TimesYScale(f, c, p.hi, TimesY(f, c, q));
  }

  lemma PairsComm<F(!new)>(f: Field<F>, c: F, p: Pair<F>, q: Pair<F>)
    requires f.Ring()
    ensures MulPairs(f, c, p, q) == MulPairs(f, c, q, p)
  {
    assert f.MulComm(p.lo, q.lo);
    assert f.mul(p.hi, f.mul(c, q.hi)) == f.mul(q.hi, f.mul(c, p.hi)) by {
      assert f.MulAssoc(p.hi, c, q.hi) && f.MulComm(p.hi, c) && f.MulComm(f.mul(c, p.hi), q.hi);
    }
    HighComm(f, p, q);
  }

  lemma HighComm<F(!new)>(f: Field<F>, p: Pair<F>, q: Pair<F>)
    requires f.Ring()
    ensures f.plus.add(f.mul(p.lo, q.hi), f.mul(p.hi, f.plus.add(q.lo, q.hi)))
         == f.plus.add(f.mul(q.lo, p.hi), f.mul(q.hi, f.plus.add(p.lo, p.hi)))
  {
    var g, a, b, d := f.plus, f.mul(p.lo, q.hi), f.mul(p.hi, q.lo), f.mul(p.hi, q.hi);
    assert f.Distributes(p.hi, q.lo, q.hi) && f.Distributes(q.hi, p.lo, p.hi);
    assert f.MulComm(p.lo, q.hi) && f.MulComm(p.hi, q.lo) && f.MulComm(p.hi, q.hi);
    assert g.Assoc(a, b, d) && g.Comm(a, b) && g.Assoc(b, a, d);
  }

  /** (p q) r == p (q r): both are the parts of p applied to q r. */
  lemma PairsAssoc<F(!new)>(f: Field<F>, c: F, p: Pair<F>, q: Pair<F>, r: Pair<F>)
    requires f.Ring()
    ensures MulPairs(f, c, MulPairs(f, c, p, q), r) == MulPairs(f, c, p, MulPairs(f, c, q, r))
  {
    var yq := TimesY(f, c, q);
    PairsComm(f, c, MulPairs(f, c, p, q), r);
    PairsDistribute(f, c, r, Scale(f, p.lo, q), Scale(f, p.hi, yq));
    PairsScale(f, c, p.lo, r, q);
    PairsScale(f, c, p.hi, r, yq);
    PairsTimesY(f, c, r, q);
    PairsComm(f, c, q, r);
  }

  lemma PairsOne<F(!new)>(f: Field<F>, c: F, p: Pair<F>)
    requires f.Ring()
    ensures MulPairs(f, c, p, Embed(f, f.one)) == p
  {
    PairsComm(f, c, p, Embed(f, f.one));
    ScaleEmbedded(f, c, f.one, p);
    assert f.MulComm(f.one, p.lo) && f.MulComm(f.one, p.hi) && f.MulOne(p.lo) && f.MulOne(p.hi);
  }

  lemma ScaleEmbedded<F(!new)>(f: Field<F>, c: F, s: F, p: Pair<F>)
    requires f.Ring()
    ensures MulPairs(f, c, Embed(f, s), p) == Scale(f, s, p)
  {
    var y := TimesY(f, c, p);
    MulZero(f, y.lo);
    MulZero(f, y.hi);
    assert f.plus.Unit(f.mul(s, p.lo)) && f.plus.Unit(f.mul(s, p.hi));
  }

  lemma ExtensionIsRing<F(!new)>(f: Field<F>, c: F)
    requires f.Ring()
    ensures Extension(f, c).Ring()
  {
    var e := Extension(f, c);
    PairsLawful(f, c);
    forall p, q, r ensures e.MulAssoc(p, q, r) { PairsAssoc(f, c, p, q, r); }
    forall p, q ensures e.MulComm(p, q) { PairsComm(f, c, p, q); }
    forall p ensures e.MulOne(p) { PairsOne(f, c, p); }
    forall p, q, r ensures e.Distributes(p, q, r) { PairsDistribute(f, c, p, q, r); }
  }

  // ----- Inverses -----

  lemma NormIsProduct<F(!new)>(f: Field<F>, c: F, p: Pair<F>)
    requires f.Ring()
    ensures MulPairs(f, c, p, Conjugate(f, p)) == Embed(f, Norm(f, c, p))
  {
    var s := f.plus.add(p.lo, p.hi);
    assert f.plus.add(s, p.hi) == p.lo by {
      assert f.plus.Assoc(p.lo, p.hi, p.hi) && f.plus.Unit(p.lo);
      Twice(f, p.hi);
    }
    assert f.MulComm(p.hi, p.lo);
    Twice(f, f.mul(p.lo, p.hi));
  }

  /** With hi = b and lo = z b the norm is b b (z (z + 1) + c). */
  lemma NormFactors<F(!new)>(f: Field<F>, c: F, z: F, b: F)
    requires f.Ring()
    ensures Norm(f, c, Pair(f.mul(z, b), b)) == f.mul(f.plus.add(f.mul(z, f.plus.add(z, f.one)), c), f.mul(b, b))
  {
    var zb, z1, bb := f.mul(z, b), f.plus.add(z, f.one), f.mul(b, b);
    RightDistributes(f, z, f.one, b);
    assert f.MulComm(f.one, b) && f.MulOne(b);
    assert f.plus.add(zb, b) == f.mul(z1, b);
    MulInterchange(f, z, b, z1, b);
    assert f.mul(b, f.mul(c, b)) == f.mul(c, bb) by {
      assert f.MulAssoc(b, c, b) && f.MulComm(b, c) && f.MulAssoc(c, b, b);
    }
    RightDistributes(f, f.mul(z, z1), c, bb);
  }

  lemma NormNotZero<F(!new)>(f: Field<F>, c: F, p: Pair<F>)
    requires f.Lawful() && NoRoot(f, c) && p != Embed(f, f.plus.zero)
    ensures Norm(f, c, p) != f.plus.zero
  {
    var zero, a, b := f.plus.zero, p.lo, p.hi;
    if b == zero {
      MulZero(f, f.mul(c, b));
      assert f.plus.Unit(a) && f.plus.Unit(f.mul(a, a));
      if f.mul(a, a) == zero {
        NoZeroDivisors(f, a, a);
      }
    } else {
      var z := f.mul(a, f.inv(b));
      assert f.mul(z, b) == a by {
        assert f.MulAssoc(a, f.inv(b), b) && f.MulComm(f.inv(b), b) && f.Invertible(b) && f.MulOne(a);
      }
      NormFactors(f, c, z, b);
      var n := f.mul(z, f.plus.add(z, f.one));
      assert NotRoot(f, c, z);
      SumZero(f.plus, n, c);
      if f.mul(f.plus.add(n, c), f.mul(b, b)) == zero {
        assert f.MulComm(f.plus.add(n, c), f.mul(b, b));
        NoZeroDivisors(f, f.mul(b, b), f.plus.add(n, c));
        NoZeroDivisors(f, b, b);
      }
    }
  }

  lemma PairsInvert<F(!new)>(f: Field<F>, c: F, p: Pair<F>)
    requires f.Lawful() && NoRoot(f, c)
    ensures Extension(f, c).Invertible(p)
  {
    if p != Embed(f, f.plus.zero) {
      var n := Norm(f, c, p);
      NormNotZero(f, c, p);
      PairsScale(f, c, f.inv(n), p, Conjugate(f, p));
      NormIsProduct(f, c, p);
      assert f.Invertible(n) && f.MulComm(f.inv(n), n);
      MulZero(f, f.inv(n));
    }
  }

  lemma ExtensionLawful<F(!new)>(f: Field<F>, c: F)
    requires f.Lawful() && NoRoot(f, c)
    ensures Extension(f, c).Lawful()
  {
    ExtensionIsRing(f, c);
    forall p ensures Extension(f, c).Invertible(p) { PairsInvert(f, c, p); }
  }

  /** An element of the extension is no value of z (z + 1) if its upper part is none below. */
  lemma NoRootAbove<F(!new)>(f: Field<F>, c: F, d: Pair<F>)
    requires f.Ring() && NoRoot(f, d.hi)
    ensures NoRoot(Extension(f, c), d)
  {
    var e := Extension(f, c);
    forall z: Pair<F> ensures NotRoot(e, d, z) {
      assert NotRoot(f, d.hi, z.hi);
      UpperPart(f, c, z);
    }
  }

  lemma UpperPart<F(!new)>(f: Field<F>, c: F, z: Pair<F>)
    requires f.Ring()
    ensures MulPairs(f, c, z, AddPairs(f, z, Embed(f, f.one))).hi == f.mul(z.hi, f.plus.add(z.hi, f.one))
  {
    var g, a, b := f.plus, z.lo, z.hi;
    assert g.Unit(b);
    // a b + b ((a + 1) + b) == b (b + 1)
    assert g.add(g.add(a, f.one), b) == g.add(a, g.add(b, f.one)) by { assert g.Assoc(a, f.one, b) && g.Comm(f.one, b); }
    assert f.Distributes(b, a, g.add(b, f.one)) && f.MulComm(a, b);
    var ab, rest := f.mul(b, a), f.mul(b, g.add(b, f.one));
    assert g.Assoc(ab, ab, rest);
    Twice(f, ab);
    ZeroLeft(g, rest);
  }

  // ----- The smaller field inside -----

  lemma EmbedAdds<F(!new)>(f: Field<F>, c: F, x: F, y: F)
    requires f.Ring()
    ensures Extension(f, c).plus.add(Embed(f, x), Embed(f, y)) == Embed(f, f.plus.add(x, y))
  {
    assert f.plus.Unit(f.plus.zero);
  }

  lemma EmbedMultiplies<F(!new)>(f: Field<F>, c: F, x: F, y: F)
    requires f.Ring()
    ensures Extension(f, c).mul(Embed(f, x), Embed(f, y)) == Embed(f, f.mul(x, y))
  {
    ScaleEmbedded(f, c, x, Embed(f, y));
    MulZero(f, x);
  }

  lemma {:induction false} EmbedPow<F(!new)>(f: Field<F>, c: F, x: F, n: nat)
    requires f.Ring()
    ensures Extension(f, c).Pow(Embed(f, x), n) == Embed(f, f.Pow(x, n))
    decreases n
  {
    var e := Extension(f, c);
    if n == 0 {
      PowZero(f, x);
      PowZero(e, Embed(f, x));
    } else {
      EmbedPow(f, c, x, n - 1);
      PowStep(f, x, n - 1);
      PowStep(e, Embed(f, x), n - 1);
      EmbedMultiplies(f, c, f.Pow(x, n - 1), x);
    }
  }
}
