/**
 * Point arithmetic over an arbitrary abelian group.
 *
 * The curve group is left abstract: an algorithm gets the operations as a value and may rely on
 * nothing but the group laws. Each law is a named predicate, so that a proof picks the instance it
 * needs by asserting it.
 */
module Group {

  datatype Abelian<!E(!new)> = Abelian(zero: E, add: (E, E) -> E, neg: E -> E) {

    ghost predicate Assoc(x: E, y: E, z: E) {
      add(add(x, y), z) == add(x, add(y, z))
    }

    ghost predicate Comm(x: E, y: E) {
      add(x, y) == add(y, x)
    }

    ghost predicate Unit(x: E) {
      add(x, zero) == x
    }

    ghost predicate Inverse(x: E) {
      add(x, neg(x)) == zero
    }

    ghost predicate Lawful() {
      && (forall x, y, z :: Assoc(x, y, z))
      && (forall x, y :: Comm(x, y))
      && (forall x :: Unit(x))
      && (forall x :: Inverse(x))
    }

    function Double(x: E): E {
      add(x, x)
    }

    /** `k` times `p`, for every integer `k`. */
    function Times(k: int, p: E): E
      decreases if k < 0 then 1 - k else k
    {
      if k == 0 then zero
      else if k > 0 then add(Times(k - 1, p), p)
      else neg(Times(-k, p))
    }

    /** Every point is annihilated by `n`. */
    ghost predicate HasExponent(n: nat) {
      forall p :: Times(n, p) == zero
    }
  }

  lemma ZeroLeft<E(!new)>(g: Abelian<E>, x: E)
    requires g.Lawful()
    ensures g.add(g.zero, x) == x
  {
    assert g.Comm(g.zero, x) && g.Unit(x);
  }

  /** Cancellation in the form the proofs use: an element whose sum with `x` is zero is `neg(x)`. */
  lemma InverseUnique<E(!new)>(g: Abelian<E>, x: E, y: E)
    requires g.Lawful()
    requires g.add(x, y) == g.zero
    ensures y == g.neg(x)
  {
    calc {
      y;
    == { ZeroLeft(g, y); assert g.Inverse(x); }
      g.add(g.add(x, g.neg(x)), y);
    == { assert g.Comm(x, g.neg(x)); assert g.Assoc(g.neg(x), x, y); }
      g.add(g.neg(x), g.zero);
    == { assert g.Unit(g.neg(x)); }
      g.neg(x);
    }
  }

  lemma NegNeg<E(!new)>(g: Abelian<E>, x: E)
    requires g.Lawful()
    ensures g.neg(g.neg(x)) == x
  {
    assert g.Inverse(x) && g.Comm(x, g.neg(x));
    InverseUnique(g, g.neg(x), x);
  }

  lemma NegZero<E(!new)>(g: Abelian<E>)
    requires g.Lawful()
    ensures g.neg(g.zero) == g.zero
  {
    assert g.Unit(g.zero);
    InverseUnique(g, g.zero, g.zero);
  }

  /** (a + b) + (c + d) == (a + c) + (b + d) */
  lemma Interchange<E(!new)>(g: Abelian<E>, a: E, b: E, c: E, d: E)
    requires g.Lawful()
    ensures g.add(g.add(a, b), g.add(c, d)) == g.add(g.add(a, c), g.add(b, d))
  {
    assert g.Assoc(a, b, g.add(c, d)) && g.Assoc(b, c, d);
    assert g.Comm(b, c) && g.Assoc(c, b, d) && g.Assoc(a, c, g.add(b, d));
  }

  lemma NegAdd<E(!new)>(g: Abelian<E>, x: E, y: E)
    requires g.Lawful()
    ensures g.neg(g.add(x, y)) == g.add(g.neg(x), g.neg(y))
  {
    Interchange(g, x, y, g.neg(x), g.neg(y));
    assert g.Inverse(x) && g.Inverse(y) && g.Unit(g.zero);
    InverseUnique(g, g.add(x, y), g.add(g.neg(x), g.neg(y)));
  }

  lemma TimesNeg<E(!new)>(g: Abelian<E>, k: int, p: E)
    requires g.Lawful()
    ensures g.Times(-k, p) == g.neg(g.Times(k, p))
  {
    if k == 0 {
      NegZero(g);
    } else if k < 0 {
      NegNeg(g, g.Times(-k, p));
    }
  }

  lemma TimesSucc<E(!new)>(g: Abelian<E>, k: int, p: E)
    requires g.Lawful()
    ensures g.Times(k + 1, p) == g.add(g.Times(k, p), p)
  {
    if k < 0 {
      var m := -k - 1;
      // Times(k) == neg(Times(m) + p) and Times(k + 1) == neg(Times(m))
      TimesNeg(g, k + 1, p);
      assert g.Times(k, p) == g.neg(g.add(g.Times(m, p), p));
      TimesNeg(g, m, p);
      NegAdd(g, g.Times(m, p), p);
      assert g.Assoc(g.neg(g.Times(m, p)), g.neg(p), p);
      assert g.Inverse(p) && g.Comm(g.neg(p), p) && g.Unit(g.neg(g.Times(m, p)));
    }
  }

  /** (j + k)p == jp + kp */
  lemma {:induction false} TimesAdd<E(!new)>(g: Abelian<E>, j: int, k: int, p: E)
    requires g.Lawful()
    ensures g.Times(j + k, p) == g.add(g.Times(j, p), g.Times(k, p))
    decreases if k < 0 then -k else k
  {
    if k == 0 {
      assert g.Unit(g.Times(j, p));
    } else if k > 0 {
      TimesAdd(g, j, k - 1, p);
      TimesSucc(g, j + k - 1, p);
      assert g.Assoc(g.Times(j, p), g.Times(k - 1, p), p);
    } else {
      TimesAdd(g, j, k + 1, p);
      TimesSucc(g, j + k, p);
      TimesSucc(g, k, p);
      CancelRight(g, g.Times(j + k, p), g.add(g.Times(j, p), g.Times(k, p)), p) by {
        assert g.Assoc(g.Times(j, p), g.Times(k, p), p);
      }
    }
  }

  lemma CancelRight<E(!new)>(g: Abelian<E>, x: E, y: E, z: E)
    requires g.Lawful()
    requires g.add(x, z) == g.add(y, z)
    ensures x == y
  {
    assert g.Assoc(x, z, g.neg(z)) && g.Assoc(y, z, g.neg(z));
    assert g.Inverse(z) && g.Unit(x) && g.Unit(y);
  }

  /** (jk)p == j(kp) */
  lemma {:induction false} TimesTimes<E(!new)>(g: Abelian<E>, j: int, k: int, p: E)
    requires g.Lawful()
    ensures g.Times(j * k, p) == g.Times(j, g.Times(k, p))
    decreases if j < 0 then 1 - j else j
  {
    if j > 0 {
      TimesTimes(g, j - 1, k, p);
      TimesAdd(g, (j - 1) * k, k, p);
      assert j * k == (j - 1) * k + k;
    } else if j < 0 {
      TimesTimes(g, -j, k, p);
      TimesNeg(g, j * k, p);
      TimesNeg(g, j, g.Times(k, p));
      assert (-j) * k == -(j * k);
      NegNeg(g, g.Times(j * k, p));
    }
  }

  /** k(p + q) == kp + kq */
  lemma {:induction false} TimesDistributes<E(!new)>(g: Abelian<E>, k: int, p: E, q: E)
    requires g.Lawful()
    ensures g.Times(k, g.add(p, q)) == g.add(g.Times(k, p), g.Times(k, q))
    decreases if k < 0 then 1 - k else k
  {
    if k == 0 {
      assert g.Unit(g.zero);
    } else if k > 0 {
      TimesDistributes(g, k - 1, p, q);
      Interchange(g, g.Times(k - 1, p), g.Times(k - 1, q), p, q);
    } else {
      TimesDistributes(g, -k, p, q);
      NegAdd(g, g.Times(-k, p), g.Times(-k, q));
    }
  }

  lemma TimesOne<E(!new)>(g: Abelian<E>, p: E)
    requires g.Lawful()
    ensures g.Times(1, p) == p
    ensures g.Times(-1, p) == g.neg(p)
  {
    assert g.Times(1, p) == g.add(g.Times(0, p), p);
    ZeroLeft(g, p);
  }

  lemma {:induction false} TimesZeroPoint<E(!new)>(g: Abelian<E>, k: int)
    requires g.Lawful()
    ensures g.Times(k, g.zero) == g.zero
    decreases if k < 0 then 1 - k else k
  {
    if k > 0 {
      TimesZeroPoint(g, k - 1);
      assert g.Unit(g.zero);
    } else if k < 0 {
      TimesZeroPoint(g, -k);
      NegZero(g);
    }
  }

  /** Doubling is multiplication by two. */
  lemma DoubleIsTwice<E(!new)>(g: Abelian<E>, p: E)
    requires g.Lawful()
    ensures g.Double(p) == g.Times(2, p)
  {
    TimesOne(g, p);
    TimesAdd(g, 1, 1, p);
  }

  /** Congruent multipliers give the same multiple in a group of exponent `n`. */
  lemma TimesCongruent<E(!new)>(g: Abelian<E>, n: nat, j: int, k: int, m: int, p: E)
    requires g.Lawful() && g.HasExponent(n)
    requires j == k + m * n
    ensures g.Times(j, p) == g.Times(k, p)
  {
    TimesAdd(g, k, m * n, p);
    TimesTimes(g, m, n, p);
    TimesZeroPoint(g, m);
    assert g.Unit(g.Times(k, p));
  }

  /** Sum of `coeffs[i] * points[i]`: what every multi-multiplication must return. */
  ghost function LinComb<E(!new)>(g: Abelian<E>, coeffs: seq<int>, points: seq<E>): E
    requires |coeffs| == |points|
  {
    if |coeffs| == 0 then g.zero
    else g.add(LinComb(g, coeffs[..|coeffs| - 1], points[..|points| - 1]),
               g.Times(coeffs[|coeffs| - 1], points[|points| - 1]))
  }

  lemma LinCombSnoc<E(!new)>(g: Abelian<E>, coeffs: seq<int>, points: seq<E>, k: int, p: E)
    requires |coeffs| == |points|
    ensures LinComb(g, coeffs + [k], points + [p]) == g.add(LinComb(g, coeffs, points), g.Times(k, p))
  {
    assert (coeffs + [k])[..|coeffs|] == coeffs;
    assert (points + [p])[..|points|] == points;
  }

  lemma LinCombTake<E(!new)>(g: Abelian<E>, coeffs: seq<int>, points: seq<E>, i: nat)
    requires |coeffs| == |points| && i < |coeffs|
    ensures LinComb(g, coeffs[..i + 1], points[..i + 1])
         == g.add(LinComb(g, coeffs[..i], points[..i]), g.Times(coeffs[i], points[i]))
  {
    assert coeffs[..i + 1] == coeffs[..i] + [coeffs[i]] && points[..i + 1] == points[..i] + [points[i]];
    LinCombSnoc(g, coeffs[..i], points[..i], coeffs[i], points[i]);
  }

  lemma {:induction false} LinCombAppend<E(!new)>(g: Abelian<E>, c1: seq<int>, p1: seq<E>, c2: seq<int>, p2: seq<E>)
    requires g.Lawful()
    requires |c1| == |p1| && |c2| == |p2|
    ensures LinComb(g, c1 + c2, p1 + p2) == g.add(LinComb(g, c1, p1), LinComb(g, c2, p2))
    decreases |c2|
  {
    if |c2| == 0 {
      assert c1 + c2 == c1 && p1 + p2 == p1;
      assert g.Unit(LinComb(g, c1, p1));
    } else {
      var n := |c2| - 1;
      LinCombAppend(g, c1, p1, c2[..n], p2[..n]);
      assert c1 + c2 == (c1 + c2[..n]) + [c2[n]];
      assert p1 + p2 == (p1 + p2[..n]) + [p2[n]];
      LinCombSnoc(g, c1 + c2[..n], p1 + p2[..n], c2[n], p2[n]);
      assert g.Assoc(LinComb(g, c1, p1), LinComb(g, c2[..n], p2[..n]), g.Times(c2[n], p2[n]));
    }
  }

  /** The combination with coefficients `m * a[i] + b[i]`, by linearity. */
  lemma {:induction false} LinCombLinear<E(!new)>(g: Abelian<E>, m: int, a: seq<int>, b: seq<int>, c: seq<int>, points: seq<E>)
    requires g.Lawful()
    requires |a| == |b| == |c| == |points|
    requires forall i :: 0 <= i < |a| ==> c[i] == m * a[i] + b[i]
    ensures LinComb(g, c, points) == g.add(g.Times(m, LinComb(g, a, points)), LinComb(g, b, points))
    decreases |a|
  {
    if |a| == 0 {
      TimesZeroPoint(g, m);
      assert g.Unit(g.zero);
    } else {
      var n := |a| - 1;
      var p := points[n];
      var la, lb := LinComb(g, a[..n], points[..n]), LinComb(g, b[..n], points[..n]);
      LinCombLinear(g, m, a[..n], b[..n], c[..n], points[..n]);
      TimesAdd(g, m * a[n], b[n], p);
      TimesTimes(g, m, a[n], p);
      TimesDistributes(g, m, la, g.Times(a[n], p));
      Interchange(g, g.Times(m, la), lb, g.Times(m, g.Times(a[n], p)), g.Times(b[n], p));
    }
  }
}
