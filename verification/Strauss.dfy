/**
 * Strauss' interleaved double-and-add: `secp256k1_ecmult_strauss_wnaf`
 * (src/secp256k1/ecmult_impl.h), over an arbitrary abelian group of exponent `n`.
 */
module Strauss {
  import opened Options
  import opened Arithmetic
  import opened Group
  import opened FixedWnaf
  import opened Wnaf
  import Pippenger

  /** `table[i]` is `(2i + 1)` times `p`. */
  ghost predicate OddMultiples<E(!new)>(g: Abelian<E>, table: seq<E>, p: E) {
    forall i :: 0 <= i < |table| ==> table[i] == g.Times(2 * i + 1, p)
  }

  /** `secp256k1_ecmult_odd_multiples_table`: repeated addition of the double. */
  method OddMultiplesTable<E(!new)>(g: Abelian<E>, n: nat, p: E) returns (table: seq<E>)
    requires g.Lawful() && n >= 1
    ensures |table| == n && OddMultiples(g, table, p)
  {
    var d := g.Double(p);
    TimesOne(g, p);
    DoubleIsTwice(g, p);
    table := [p];
    for i := 1 to n
      invariant |table| == i && OddMultiples(g, table, p)
    {
      TimesAdd(g, 2 * i - 1, 2, p);
      table := table + [g.add(table[i - 1], d)];
    }
  }

  /** `ECMULT_TABLE_GET_GE`: the multiple that an odd digit selects. */
  function TableGet<E(!new)>(g: Abelian<E>, table: seq<E>, n: int): E
    requires n != 0 && Digit(n, 2 * |table|)
  {
    if n > 0 then table[(n - 1) / 2] else g.neg(table[(-n - 1) / 2])
  }

  lemma TableGetIsMultiple<E(!new)>(g: Abelian<E>, table: seq<E>, p: E, n: int)
    requires g.Lawful() && OddMultiples(g, table, p)
    requires n != 0 && Digit(n, 2 * |table|)
    ensures TableGet(g, table, n) == g.Times(n, p)
  {
    if n > 0 {
      assert table[(n - 1) / 2] == g.Times(n, p) by { OddIndex(n); }
    } else {
      assert table[(-n - 1) / 2] == g.Times(-n, p) by { OddIndex(-n); }
      TimesNeg(g, -n, p);
    }
  }

  lemma OddIndex(n: nat)
    requires n % 2 == 1
    ensures 2 * ((n - 1) / 2) + 1 == n
  {
  }

  /** A recoded scalar with the table of its point. */
  datatype Term<E> = Term(digits: seq<int>, count: nat, table: seq<E>)

  /** The term stands for `s` times `p` modulo the order. */
  ghost predicate Represents<E(!new)>(g: Abelian<E>, n: nat, width: nat, t: Term<E>, s: nat, p: E) {
    && |t.digits| == width && t.count <= width
    && (forall k :: t.count <= k < width ==> t.digits[k] == 0)
    && (forall k :: 0 <= k < width ==> Digit(t.digits[k], 2 * |t.table|))
    && (Value(t.digits, 2) == s || Value(t.digits, 2) == s - n)
    && OddMultiples(g, t.table, p)
  }

  ghost predicate AllRepresent<E(!new)>(g: Abelian<E>, n: nat, width: nat, terms: seq<Term<E>>, sc: seq<nat>, pt: seq<E>) {
    && |terms| == |sc| == |pt|
    && forall k {:trigger Represents(g, n, width, terms[k], sc[k], pt[k])} ::
         0 <= k < |terms| ==> Represents(g, n, width, terms[k], sc[k], pt[k])
  }

  /** Digits `i` and up of every term, as coefficients. */
  ghost function BitCoefficients<E(!new)>(g: Abelian<E>, n: nat, width: nat, terms: seq<Term<E>>, sc: seq<nat>, pt: seq<E>, i: nat): (c: seq<int>)
    requires AllRepresent(g, n, width, terms, sc, pt) && i <= width
    ensures |c| == |terms|
  {
    seq(|terms|, k requires 0 <= k < |terms| =>
      assert Represents(g, n, width, terms[k], sc[k], pt[k]);
      Pippenger.Upper(terms[k].digits, 2, i))
  }

  ghost function BitColumn<E(!new)>(g: Abelian<E>, n: nat, width: nat, terms: seq<Term<E>>, sc: seq<nat>, pt: seq<E>, i: nat): (c: seq<int>)
    requires AllRepresent(g, n, width, terms, sc, pt) && i < width
    ensures |c| == |terms|
  {
    seq(|terms|, k requires 0 <= k < |terms| =>
      assert Represents(g, n, width, terms[k], sc[k], pt[k]);
      terms[k].digits[i])
  }

  lemma BitStep<E(!new)>(g: Abelian<E>, n: nat, width: nat, terms: seq<Term<E>>, sc: seq<nat>, pt: seq<E>, i: nat)
    requires g.Lawful() && AllRepresent(g, n, width, terms, sc, pt) && i < width
    ensures LinComb(g, BitCoefficients(g, n, width, terms, sc, pt, i), pt)
         == g.add(g.Times(2, LinComb(g, BitCoefficients(g, n, width, terms, sc, pt, i + 1), pt)),
                  LinComb(g, BitColumn(g, n, width, terms, sc, pt, i), pt))
  {
    var above, column, all := BitCoefficients(g, n, width, terms, sc, pt, i + 1), BitColumn(g, n, width, terms, sc, pt, i), BitCoefficients(g, n, width, terms, sc, pt, i);
    forall k | 0 <= k < |terms|
      ensures all[k] == 2 * above[k] + column[k]
    {
      assert Represents(g, n, width, terms[k], sc[k], pt[k]);
    }
    LinCombLinear(g, 2, above, column, all, pt);
  }

  /** Coefficients that differ by multiples of the exponent give the same combination. */
  lemma {:induction false} LinCombCongruent<E(!new)>(g: Abelian<E>, n: nat, c: seq<int>, d: seq<int>, pt: seq<E>)
    requires g.Lawful() && g.HasExponent(n) && |c| == |d| == |pt|
    requires forall k :: 0 <= k < |c| ==> c[k] == d[k] || c[k] == d[k] - n
    ensures LinComb(g, c, pt) == LinComb(g, d, pt)
    decreases |c|
  {
    if |c| > 0 {
      var m := |c| - 1;
      LinCombCongruent(g, n, c[..m], d[..m], pt[..m]);
      if c[m] == d[m] - n {
        TimesCongruent(g, n, d[m], c[m], 1, pt[m]);
      }
    }
  }

  /** Every digit read, the coefficients are the scalars modulo the order. */
  lemma AllDigits<E(!new)>(g: Abelian<E>, n: nat, width: nat, terms: seq<Term<E>>, sc: seq<nat>, pt: seq<E>)
    requires g.Lawful() && g.HasExponent(n) && AllRepresent(g, n, width, terms, sc, pt)
    ensures LinComb(g, BitCoefficients(g, n, width, terms, sc, pt, 0), pt) == LinComb(g, sc, pt)
  {
    var all := BitCoefficients(g, n, width, terms, sc, pt, 0);
    forall k | 0 <= k < |terms|
      ensures all[k] == sc[k] || all[k] == sc[k] - n
    {
      assert Represents(g, n, width, terms[k], sc[k], pt[k]);
      Pippenger.UpperIsValue(terms[k].digits, 2, 0);
      assert terms[k].digits[..0] == [];
    }
    LinCombCongruent(g, n, all, sc, pt);
  }

  /** Adds digit `i` of every term to the accumulator. */
  method AddColumn<E(!new)>(g: Abelian<E>, ghost n: nat, width: nat, terms: seq<Term<E>>, ghost sc: seq<nat>, ghost pt: seq<E>, i: nat, r0: E)
    returns (r: E)
    requires g.Lawful() && AllRepresent(g, n, width, terms, sc, pt) && i < width
    ensures r == g.add(r0, LinComb(g, BitColumn(g, n, width, terms, sc, pt, i), pt))
  {
    ghost var column := BitColumn(g, n, width, terms, sc, pt, i);
    r := r0;
    assert g.Unit(r0);
    for np := 0 to |terms|
      invariant r == g.add(r0, LinComb(g, column[..np], pt[..np]))
    {
      assert Represents(g, n, width, terms[np], sc[np], pt[np]);
      ghost var sum, p := LinComb(g, column[..np], pt[..np]), pt[np];
      LinCombTake(g, column, pt, np);
      if i < terms[np].count && terms[np].digits[i] != 0 {
        TableGetIsMultiple(g, terms[np].table, p, column[np]);
        r := g.add(r, TableGet(g, terms[np].table, terms[np].digits[i]));
        assert g.Assoc(r0, sum, g.Times(column[np], p));
      } else {
        assert g.Unit(sum);
      }
    }
    assert column[..|terms|] == column && pt[..|terms|] == pt;
  }

  /** The double-and-add loop from the highest digit in use. */
  method DoubleAndAdd<E(!new)>(g: Abelian<E>, ghost n: nat, width: nat, terms: seq<Term<E>>, ghost sc: seq<nat>, ghost pt: seq<E>, bits: nat)
    returns (r: E)
    requires g.Lawful() && g.HasExponent(n) && AllRepresent(g, n, width, terms, sc, pt)
    requires bits <= width && forall k :: 0 <= k < |terms| ==> terms[k].count <= bits
    ensures r == LinComb(g, sc, pt)
  {
    r := g.zero;
    NothingAboveBits(g, n, width, terms, sc, pt, bits);
    var i := bits;
    while i > 0
      invariant 0 <= i <= bits
      invariant r == LinComb(g, BitCoefficients(g, n, width, terms, sc, pt, i), pt)
    {
      i := i - 1;
      DoubleIsTwice(g, r);
      BitStep(g, n, width, terms, sc, pt, i);
      r := g.Double(r);
      r := AddColumn(g, n, width, terms, sc, pt, i, r);
    }
    AllDigits(g, n, width, terms, sc, pt);
  }

  lemma {:induction false} UpperOfZeros(d: seq<int>, i: nat)
    requires i <= |d| && forall k :: i <= k < |d| ==> d[k] == 0
    ensures Pippenger.Upper(d, 2, i) == 0
    decreases |d| - i
  {
    if i < |d| {
      UpperOfZeros(d, i + 1);
    }
  }

  lemma NothingAboveBits<E(!new)>(g: Abelian<E>, n: nat, width: nat, terms: seq<Term<E>>, sc: seq<nat>, pt: seq<E>, bits: nat)
    requires g.Lawful() && AllRepresent(g, n, width, terms, sc, pt)
    requires bits <= width && forall k :: 0 <= k < |terms| ==> terms[k].count <= bits
    ensures LinComb(g, BitCoefficients(g, n, width, terms, sc, pt, bits), pt) == g.zero
  {
    var none := BitCoefficients(g, n, width, terms, sc, pt, bits);
    forall k | 0 <= k < |terms|
      ensures none[k] == 0
    {
      assert Represents(g, n, width, terms[k], sc[k], pt[k]);
      UpperOfZeros(terms[k].digits, bits);
    }
    Pippenger.LinCombZeros(g, none, pt);
  }

  /** One recoded scalar with its table. */
  method MakeTerm<E(!new)>(g: Abelian<E>, n: nat, width: nat, w: nat, table: seq<E>, s: nat, ghost p: E) returns (t: Term<E>)
    requires 2 <= w <= 24 && width >= 1 && s < n < Pow2(width)
    requires |table| == Pow2(w - 2) && OddMultiples(g, table, p)
    ensures Represents(g, n, width, t, s, p)
  {
    var buffer := new int[width];
    var count := EcmultWnaf(buffer, s, n, w);
    t := Term(buffer[..], count, table);
  }

  /**
   * `secp256k1_ecmult_strauss_wnaf`: returns the sum of `na[i] * a[i]`, plus `ng * G` when a scalar
   * for the generator is given.
   */
  method StraussWnaf<E(!new, ==)>(g: Abelian<E>, n: nat, width: nat, windowA: nat, windowG: nat, G: E, preG: seq<E>,
                                  a: seq<E>, na: seq<nat>, ng: Option<nat>) returns (r: E)
    requires g.Lawful() && g.HasExponent(n) && n < Pow2(width) && width >= 1
    requires 2 <= windowA <= 24 && 2 <= windowG <= 24
    requires |preG| == Pow2(windowG - 2) && OddMultiples(g, preG, G)
    requires |a| == |na| && forall i :: 0 <= i < |na| ==> na[i] < n
    requires ng.Some? ==> ng.value < n
    ensures r == g.add(LinComb(g, na, a), if ng.Some? then g.Times(ng.value, G) else g.zero)
  {
    var terms: seq<Term<E>>, bits: nat := [], 0;
    ghost var sc: seq<nat>, pt: seq<E> := [], [];
    for np := 0 to |a|
      invariant AllRepresent(g, n, width, terms, sc, pt)
      invariant bits <= width && forall k :: 0 <= k < |terms| ==> terms[k].count <= bits
      invariant LinComb(g, na[..np], a[..np]) == LinComb(g, sc, pt)
    {
      if na[np] == 0 || a[np] == g.zero {
        Pippenger.SkippedTerm(g, na, a, np);
      } else {
        var table := OddMultiplesTable(g, Pow2(windowA - 2), a[np]);
        var t := MakeTerm(g, n, width, windowA, table, na[np], a[np]);
        Pippenger.KeptTerm(g, na, a, np, sc, pt);
        terms, sc, pt := terms + [t], sc + [na[np]], pt + [a[np]];
        if t.count > bits {
          bits := t.count;
        }
      }
    }
    assert na[..|a|] == na && a[..|a|] == a;
    if ng.Some? {
      var t := MakeTerm(g, n, width, windowG, preG, ng.value, G);
      LinCombSnoc(g, sc, pt, ng.value, G);
      terms, sc, pt := terms + [t], sc + [ng.value], pt + [G];
      if t.count > bits {
        bits := t.count;
      }
    } else {
      assert g.Unit(LinComb(g, na, a));
    }
    r := DoubleAndAdd(g, n, width, terms, sc, pt, bits);
  }
}
