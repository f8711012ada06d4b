/**
 * Multiplication of the generator with a blinded table: `secp256k1_ecmult_gen_context_build`,
 * `secp256k1_ecmult_gen` and `secp256k1_ecmult_gen_blind` (src/secp256k1/ecmult_gen_impl.h).
 */
module EcmultGen {
  import opened Arithmetic
  import opened Group

  /** Multiplier of the offset point in row `j` of `rows`: powers of two that the last row cancels. */
  function OffsetFactor(rows: nat, j: nat): int
    requires rows >= 1
  {
    if j < rows - 1 then Pow2(j) else 1 - Pow2(rows - 1)
  }

  ghost function OffsetSum(rows: nat, j: nat): int
    requires rows >= 1
  {
    if j == 0 then 0 else OffsetSum(rows, j - 1) + OffsetFactor(rows, j - 1)
  }

  /** The offsets of all rows cancel. */
  lemma OffsetsCancel(rows: nat)
    requires rows >= 1
    ensures OffsetSum(rows, rows) == 0
  {
    OffsetPrefix(rows, rows - 1);
  }

  lemma {:induction false} OffsetPrefix(rows: nat, j: nat)
    requires rows >= 1 && j <= rows - 1
    ensures OffsetSum(rows, j) == Pow2(j) - 1
  {
    if j > 0 {
      OffsetPrefix(rows, j - 1);
    }
  }

  /** Entry `i` of row `j`: the row's offset plus `i * b^j` times the generator. */
  ghost function TableEntry<E(!new)>(g: Abelian<E>, G: E, nums: E, rows: nat, b: nat, j: nat, i: nat): E
    requires rows >= 1
  {
    g.add(g.Times(OffsetFactor(rows, j), nums), g.Times(Scale(b, j, i), G))
  }

  ghost predicate RowCorrect<E(!new)>(g: Abelian<E>, G: E, nums: E, rows: nat, b: nat, j: nat, row: seq<E>)
    requires rows >= 1
  {
    |row| == b && forall i :: 0 <= i < b ==> row[i] == TableEntry(g, G, nums, rows, b, j, i)
  }

  ghost predicate TableCorrect<E(!new)>(g: Abelian<E>, G: E, nums: E, rows: nat, b: nat, prec: seq<seq<E>>)
    requires rows >= 1
  {
    |prec| == rows && forall j :: 0 <= j < rows ==> RowCorrect(g, G, nums, rows, b, j, prec[j])
  }

  /** One row by repeated addition of the row's base. */
  method BuildRow<E(!new)>(g: Abelian<E>, G: E, ghost nums: E, ghost rows: nat, b: nat, ghost j: nat, start: E, base: E) returns (row: seq<E>)
    requires g.Lawful() && rows >= 1 && b >= 1
    requires start == g.Times(OffsetFactor(rows, j), nums) && base == g.Times(Scale(b, j, 1), G)
    ensures RowCorrect(g, G, nums, rows, b, j, row)
  {
    row := [start];
    ScaleZero(b, j);
    assert g.Unit(start);
    for i := 1 to b
      invariant |row| == i
      invariant forall k :: 0 <= k < i ==> row[k] == TableEntry(g, G, nums, rows, b, j, k)
    {
      ScaleAdd(b, j, i - 1, 1);
      TimesAdd(g, Scale(b, j, i - 1), Scale(b, j, 1), G);
      assert g.Assoc(start, g.Times(Scale(b, j, i - 1), G), base);
      row := row + [g.add(row[i - 1], base)];
    }
  }

  /** `p` doubled `k` times. */
  method DoubleMany<E(!new)>(g: Abelian<E>, p: E, k: nat) returns (r: E)
    requires g.Lawful()
    ensures r == g.Times(Pow2(k), p)
  {
    r := p;
    TimesOne(g, p);
    for i := 0 to k
      invariant r == g.Times(Pow2(i), p)
    {
      DoubleIsTwice(g, r);
      TimesTimes(g, 2, Pow2(i), p);
      r := g.Double(r);
    }
  }

  /** The offset of the next row: doubled, and turned into the cancelling one before the last row. */
  method NextOffset<E(!new)>(g: Abelian<E>, nums: E, rows: nat, j: nat, offset: E) returns (next: E)
    requires g.Lawful() && rows >= 2 && j <= rows - 2
    requires offset == g.Times(OffsetFactor(rows, j), nums)
    ensures next == g.Times(OffsetFactor(rows, j + 1), nums)
  {
    DoubleIsTwice(g, offset);
    TimesTimes(g, 2, Pow2(j), nums);
    next := g.Double(offset);
    if j == rows - 2 {
      TimesNeg(g, Pow2(j + 1), nums);
      TimesOne(g, nums);
      TimesAdd(g, -(Pow2(j + 1) as int), 1, nums);
      next := g.add(g.neg(next), nums);
    }
  }

  /** The base of the next row: multiplied by `b = 2^bits`. */
  lemma NextBase<E(!new)>(g: Abelian<E>, G: E, b: nat, j: nat)
    requires g.Lawful()
    ensures g.Times(b, g.Times(Scale(b, j, 1), G)) == g.Times(Scale(b, j + 1, 1), G)
  {
    TimesTimes(g, b, Scale(b, j, 1), G);
    ScaleOut(b, j, 1);
    assert Scale(b, j + 1, 1) == Scale(b, j, b * 1);
  }

  lemma {:induction false} ScaleOut(b: int, k: nat, x: int)
    ensures Scale(b, k, b * x) == b * Scale(b, k, x)
  {
    if k > 0 {
      ScaleOut(b, k - 1, b * x);
    }
  }

  /** `secp256k1_ecmult_gen_context_build`: the precomputed table. */
  method BuildTable<E(!new)>(g: Abelian<E>, G: E, nums: E, rows: nat, bits: nat) returns (prec: seq<seq<E>>)
    requires g.Lawful() && rows >= 2
    ensures TableCorrect(g, G, nums, rows, Pow2(bits), prec)
  {
    var b := Pow2(bits);
    var base, offset := G, nums;
    TimesOne(g, G);
    TimesOne(g, nums);
    prec := [];
    for j := 0 to rows
      invariant |prec| == j
      invariant forall k :: 0 <= k < j ==> RowCorrect(g, G, nums, rows, b, k, prec[k])
      invariant j < rows ==> base == g.Times(Scale(b, j, 1), G) && offset == g.Times(OffsetFactor(rows, j), nums)
    {
      var row := BuildRow(g, G, nums, rows, b, j, offset, base);
      prec := prec + [row];
      if j < rows - 1 {
        NextBase(g, G, b, j);
        base := DoubleMany(g, base, bits);
        offset := NextOffset(g, nums, rows, j, offset);
      }
    }
  }

  /** The context of the source: table, blinding scalar and the point that undoes it. */
  class GenContext<E(!new)> {
    const g: Abelian<E>
    const n: nat
    const G: E
    ghost const nums: E
    const rows: nat
    const bits: nat
    const prec: seq<seq<E>>
    var blind: nat
    var initial: E

    /** The table is right and the initial point is minus the blinding multiple. */
    ghost predicate Valid()
      reads this
    {
      && g.Lawful() && g.HasExponent(n)
      && rows >= 2 && bits >= 1 && 1 < n <= Pow2(rows * bits)
      && TableCorrect(g, G, nums, rows, Pow2(bits), prec)
      && blind < n && initial == g.neg(g.Times(blind, G))
    }

    /** Builds the table and resets the blinding; `random` stands for the generator's output. */
    constructor (g: Abelian<E>, n: nat, G: E, nums: E, rows: nat, bits: nat, random: nat)
      requires g.Lawful() && g.HasExponent(n)
      requires rows >= 2 && bits >= 1 && 1 < n <= Pow2(rows * bits) && random < n
      ensures Valid() && this.g == g && this.n == n && this.G == G
    {
      var table := BuildTable(g, G, nums, rows, bits);
      this.g, this.n, this.G, this.nums, this.rows, this.bits := g, n, G, nums, rows, bits;
      prec := table;
      blind, initial := 1, g.neg(G);
      new;
      TimesOne(g, G);
      Blind(true, random);
    }

    /** `secp256k1_ecmult_gen`: `gn` times the generator, whatever the blinding. */
    method EcmultGen(gn: nat) returns (r: E)
      requires Valid() && gn < n
      ensures r == g.Times(gn, G)
    {
      var b := Pow2(bits);
      var gnb := (gn + blind) % n;
      r := initial;
      StartSum(gnb, b);
      ghost var low := 0;
      assert r == Sum(0, 0) by {
        assert g.Unit(g.zero) && g.Unit(initial);
      }
      for j := 0 to rows
        invariant low + Scale(b, j, High(gnb, b, j)) == gnb
        invariant r == Sum(OffsetSum(rows, j), low)
      {
        var field := Bits(gnb, j * bits, bits);
        FieldIsDigit(gnb, bits, j);
        ScaleAdd(b, j, field, b * High(gnb, b, j + 1));
        assert RowCorrect(g, G, nums, rows, b, j, prec[j]);
        var adds := Select(prec[j], field);
        AddEntry(OffsetSum(rows, j), low, j, field);
        r := g.add(r, adds);
        low := low + Scale(b, j, field);
      }
      FinishSum(gnb, b, low, gn);
    }

    /** The accumulator after some rows: initial point, offsets so far, digits so far. */
    ghost function Sum(offsets: int, low: int): E
      reads this
    {
      g.add(initial, g.add(g.Times(offsets, nums), g.Times(low, G)))
    }

    lemma AddEntry(offsets: int, low: int, j: nat, field: nat)
      requires g.Lawful() && rows >= 1
      ensures g.add(Sum(offsets, low), TableEntry(g, G, nums, rows, Pow2(bits), j, field))
           == Sum(offsets + OffsetFactor(rows, j), low + Scale(Pow2(bits), j, field))
    {
      var u, d := OffsetFactor(rows, j), Scale(Pow2(bits), j, field);
      var x, y := g.add(g.Times(offsets, nums), g.Times(low, G)), g.add(g.Times(u, nums), g.Times(d, G));
      assert g.Assoc(initial, x, y);
      Interchange(g, g.Times(offsets, nums), g.Times(low, G), g.Times(u, nums), g.Times(d, G));
      TimesAdd(g, offsets, u, nums);
      TimesAdd(g, low, d, G);
    }

    lemma StartSum(gnb: nat, b: nat)
      requires b > 0
      ensures 0 + Scale(b, 0, High(gnb, b, 0)) == gnb
    {
    }

    /** Offsets gone and blinding undone, only the wanted multiple is left. */
    lemma FinishSum(gnb: nat, b: nat, low: int, gn: nat)
      requires Valid() && b == Pow2(bits) && gn < n && gnb == (gn + blind) % n
      requires low + Scale(b, rows, High(gnb, b, rows)) == gnb
      ensures Sum(OffsetSum(rows, rows), low) == g.Times(gn, G)
    {
      OffsetsCancel(rows);
      HighIsQuotient(gnb, bits, rows);
      NothingAbove(gnb, rows * bits);
      ScaleZero(b, rows);
      ZeroLeft(g, g.Times(low, G));
      // low == gnb == gn + blind (modulo n)
      BlindedScalar(gn, blind, n, low);
      TimesCongruent(g, n, gn + blind, low, (gn + blind) / n, G);
      TimesNeg(g, blind, G);
      TimesAdd(g, -(blind as int), gn + blind, G);
    }

    /** `secp256k1_ecmult_gen_blind`: with a reset when there is no seed; zero is never used. */
    method Blind(reset: bool, random: nat)
      requires Valid() && random < n
      modifies this
      ensures Valid()
      ensures blind == n - (if random == 0 then 1 else random)
    {
      if reset {
        TimesOne(g, G);
        initial := g.neg(G);
        blind := 1;
      }
      var b := if random == 0 then 1 else random;
      var gb := EcmultGen(b);
      blind := n - b;
      initial := gb;
      // b G == -((n - b) G)
      TimesCongruent(g, n, b, b - n, 1, G);
      TimesNeg(g, n - b, G);
    }
  }

  lemma BlindedScalar(gn: nat, blind: nat, n: nat, low: int)
    requires n > 0 && low == (gn + blind) % n
    ensures gn + blind == low + (gn + blind) / n * n
  {
  }

  /** Field `j` of the scalar is its digit `j` in base 2^bits. */
  lemma FieldIsDigit(s: nat, bits: nat, j: nat)
    ensures Bits(s, j * bits, bits) < Pow2(bits)
    ensures High(s, Pow2(bits), j) == Bits(s, j * bits, bits) + Pow2(bits) * High(s, Pow2(bits), j + 1)
  {
    BitsSplit(s, j * bits, bits);
    HighIsQuotient(s, bits, j);
    HighIsQuotient(s, bits, j + 1);
    MulDistributes(bits, j, 1);
  }

  /** The conditional-move loop: touches every entry and keeps the selected one. */
  method Select<E>(row: seq<E>, index: nat) returns (adds: E)
    requires index < |row|
    ensures adds == row[index]
  {
    adds := row[0];
    for i := 0 to |row|
      invariant adds == if i <= index then row[0] else row[index]
    {
      if i == index {
        adds := row[i];
      }
    }
  }
}
