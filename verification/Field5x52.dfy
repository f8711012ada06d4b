/**
 * Multiplication in the field of order p = 2^256 - 0x1000003D1 on five 52-bit limbs
 * (src/secp256k1/field_5x52_int128_impl.h).
 *
 * Accumulators have the machine types of the source, so every assignment carries the proof that it
 * does not overflow.
 */
module Field5x52 {

  const P: nat := 0xFFFFFFFFFFFFFFFFFFFFFFFFFFFFFFFFFFFFFFFFFFFFFFFFFFFFFFFEFFFFFC2F
  const B52: nat := 0x10000000000000
  const B48: nat := 0x1000000000000
  const B56: nat := 0x100000000000000
  const B49: nat := 0x2000000000000
  const R: nat := 0x1000003D10

  type Word = x: int | 0 <= x < 0x10000000000000000
  type SignedWord = x: int | -0x8000000000000000 <= x < 0x8000000000000000
  type DoubleWord = x: int | 0 <= x < 0x100000000000000000000000000000000

  /** 2^52, 2^104, 2^156 and 2^208: the weights of limbs 1 to 4. */
  const W1: nat := 0x10000000000000
  const W2: nat := 0x100000000000000000000000000
  const W3: nat := 0x1000000000000000000000000000000000000000
  const W4: nat := 0x10000000000000000000000000000000000000000000000000000

  /** The number that five limbs represent. */
  function Number(n: seq<int>): int
    requires |n| == 5
  {
    n[0] + W1 * n[1] + W2 * n[2] + W3 * n[3] + W4 * n[4]
  }

  /** The input bounds: limbs 0 to 3 below 2^56, limb 4 below 2^52. */
  predicate InBounds(n: seq<int>) {
    && |n| == 5
    && 0 <= n[0] < B56 && 0 <= n[1] < B56 && 0 <= n[2] < B56 && 0 <= n[3] < B56
    && 0 <= n[4] < B52
  }

  /** The output bounds: limbs 0 to 3 below 2^52, limb 4 below 2^49. */
  predicate Reduced(n: seq<int>) {
    && |n| == 5
    && 0 <= n[0] < B52 && 0 <= n[1] < B52 && 0 <= n[2] < B52 && 0 <= n[3] < B52
    && 0 <= n[4] < B49
  }

  /** The coefficients of the product of two limb polynomials. */
  datatype Product = Product(p0: int, p1: int, p2: int, p3: int, p4: int, p5: int, p6: int, p7: int, p8: int) {

    function Number(): int {
      p0 + W1 * p1 + W2 * p2 + W3 * p3 + W4 * p4
      + W1 * W4 * p5 + W2 * W4 * p6 + W3 * W4 * p7 + W4 * W4 * p8
    }

    /** Bounds of the coefficients when both factors are in bounds. */
    predicate Bounded() {
      && 0 <= p0 <= 0x10000000000000000000000000000
      && 0 <= p1 <= 0x20000000000000000000000000000
      && 0 <= p2 <= 0x30000000000000000000000000000
      && 0 <= p3 <= 0x40000000000000000000000000000
      && 0 <= p4 <= 0x32000000000000000000000000000
      && 0 <= p5 <= 0x22000000000000000000000000000
      && 0 <= p6 <= 0x12000000000000000000000000000
      && 0 <= p7 <= 0x2000000000000000000000000000
      && 0 <= p8 <= 0x100000000000000000000000000
    }
  }

  function Convolve(a: seq<int>, b: seq<int>): Product
    requires |a| == |b| == 5
  {
    Product(
      a[0] * b[0],
      a[0] * b[1] + a[1] * b[0],
      a[0] * b[2] + a[1] * b[1] + a[2] * b[0],
      a[0] * b[3] + a[1] * b[2] + a[2] * b[1] + a[3] * b[0],
      a[0] * b[4] + a[1] * b[3] + a[2] * b[2] + a[3] * b[1] + a[4] * b[0],
      a[1] * b[4] + a[2] * b[3] + a[3] * b[2] + a[4] * b[1],
      a[2] * b[4] + a[3] * b[3] + a[4] * b[2],
      a[3] * b[4] + a[4] * b[3],
      a[4] * b[4])
  }

  lemma ProductBound(x: int, y: int, m: nat, n: nat)
    requires 0 <= x < m && 0 <= y < n
    ensures 0 <= x * y <= m * n
  {
    assert x * y <= m * y;
    assert m * y <= m * n;
  }

  lemma ConvolveBounded(a: seq<int>, b: seq<int>)
    requires InBounds(a) && InBounds(b)
    ensures Convolve(a, b).Bounded()
  {
    forall i, j | 0 <= i < 4 && 0 <= j < 4
      ensures 0 <= a[i] * b[j] <= 0x10000000000000000000000000000
    {
      ProductBound(a[i], b[j], B56, B56);
    }
    forall i | 0 <= i < 4
      ensures 0 <= a[i] * b[4] <= 0x1000000000000000000000000000 && 0 <= a[4] * b[i] <= 0x1000000000000000000000000000
    {
      ProductBound(a[i], b[4], B56, B52);
      ProductBound(a[4], b[i], B52, B56);
    }
    ProductBound(a[4], b[4], B52, B52);
  }

  lemma ConvolveIsProduct(a: seq<int>, b: seq<int>)
    requires |a| == |b| == 5
    ensures Number(a) * Number(b) == Convolve(a, b).Number()
  {
    var n := Number(b);
    assert Number(a) * n == a[0] * n + W1 * (a[1] * n) + W2 * (a[2] * n) + W3 * (a[3] * n) + W4 * (a[4] * n);
    forall i | 0 <= i < 5
      ensures a[i] * n == a[i] * b[0] + W1 * (a[i] * b[1]) + W2 * (a[i] * b[2]) + W3 * (a[i] * b[3]) + W4 * (a[i] * b[4])
    {
      RowProduct(a[i], b);
    }
  }

  lemma RowProduct(x: int, b: seq<int>)
    requires |b| == 5
    ensures x * Number(b) == x * b[0] + W1 * (x * b[1]) + W2 * (x * b[2]) + W3 * (x * b[3]) + W4 * (x * b[4])
  {
  }

  // The accumulators of the source after each multiplication step, for a given product polynomial.

  function D0(p: Product): int { p.p3 + (p.p8 % B52) * R }
  function D1(p: Product): int { D0(p) / B52 + p.p4 + (p.p8 / B52) * R }
  function D2(p: Product): int { D1(p) / B52 + p.p5 }
  function D3(p: Product): int { D2(p) / B52 + p.p6 }
  function D4(p: Product): int { D3(p) / B52 + p.p7 }
  function U0(p: Product): int { (D2(p) % B52) * 16 + (D1(p) % B52) / B48 }
  function C0(p: Product): int { p.p0 + U0(p) * (R / 16) }
  function C1(p: Product): int { C0(p) / B52 + p.p1 + (D3(p) % B52) * R }
  function C2(p: Product): int { C1(p) / B52 + p.p2 + (D4(p) % B52) * R }
  function C3(p: Product): int { C2(p) / B52 + (D4(p) / B52) * R + D0(p) % B52 }

  function Reduce(p: Product): (r: seq<int>)
    ensures |r| == 5
  {
    [C0(p) % B52, C1(p) % B52, C2(p) % B52, C3(p) % B52, C3(p) / B52 + (D1(p) % B52) % B48]
  }

  /** How often p was taken off the product. */
  function Quotient(p: Product): int
  {
    U0(p) + 16 * (W3 * (p.p8 % B52) + W4 * (p.p8 / B52) + W1 * (D3(p) % B52) + W2 * (D4(p) % B52) + W3 * (D4(p) / B52))
  }

  /** Reduction is exact: it takes a multiple of p off the product. */
  lemma ReduceIsExact(p: Product)
    ensures Number(Reduce(p)) == p.Number() - P * Quotient(p)
  {
  }

  lemma Carry(x: int, k: int)
    requires 0 <= x < k * B52
    ensures 0 <= x / B52 < k && 0 <= x % B52 < B52
  {
  }

  /** No accumulator comes near 2^128, and the carries fit a word. */
  lemma DBounds(p: Product)
    requires p.Bounded()
    ensures 0 <= p.p8 / B52 <= B52 && 0 <= p.p8 % B52 < B52
    ensures 0 <= D0(p) / B52 < 0x4100000000000000 && 0 <= D1(p) / B52 < 0x4000000000000000
    ensures 0 <= D2(p) / B52 < 0x3000000000000000 && 0 <= D3(p) / B52 < 0x2000000000000000
    ensures 0 <= D4(p) / B52 < 0x300000000000000
    ensures 0 <= U0(p) < B56
  {
    Carry(p.p8, B52 + 1);
    Carry(D0(p), 0x4100000000000000);
    Carry(D1(p), 0x4000000000000000);
    Carry(D2(p), 0x3000000000000000);
    Carry(D3(p), 0x2000000000000000);
    Carry(D4(p), 0x300000000000000);
  }

  lemma CBounds(p: Product)
    requires p.Bounded()
    ensures 0 <= C0(p) / B52 < 0x1100000000000000 && 0 <= C1(p) / B52 < 0x2100000000000000
    ensures 0 <= C2(p) / B52 < 0x3100000000000000 && 0 <= C3(p) / B52 < B48
  {
    DBounds(p);
    CBound0(p);
    CBound1(p);
    CBound2(p);
    Carry(D0(p), 0x4100000000000000);
    Carry(C3(p), B48);
  }

  lemma CBound0(p: Product)
    requires p.Bounded() && 0 <= U0(p) < B56
    ensures 0 <= C0(p) / B52 < 0x1100000000000000
  {
    Carry(C0(p), 0x1100000000000000);
  }

  lemma CBound1(p: Product)
    requires p.Bounded() && 0 <= C0(p) / B52 < 0x1100000000000000
    ensures 0 <= C1(p) / B52 < 0x2100000000000000
  {
    var digit := D3(p) % B52;
    Carry(C1(p), 0x2100000000000000);
  }

  lemma CBound2(p: Product)
    requires p.Bounded() && 0 <= C1(p) / B52 < 0x2100000000000000
    ensures 0 <= C2(p) / B52 < 0x3100000000000000
  {
    var digit := D4(p) % B52;
    Carry(C2(p), 0x3100000000000000);
  }

  lemma ReduceBounds(p: Product)
    requires p.Bounded()
    ensures Reduced(Reduce(p))
  {
    CBounds(p);
  }

  predicate Congruent(x: int, y: int) {
    (x - y) % P == 0
  }

  /** The reduced limbs represent the product of the inputs modulo p, within the output bounds. */
  lemma ReducedProduct(a: seq<int>, b: seq<int>)
    requires InBounds(a) && InBounds(b)
    ensures Reduced(Reduce(Convolve(a, b)))
    ensures Congruent(Number(Reduce(Convolve(a, b))), Number(a) * Number(b))
  {
    var p := Convolve(a, b);
    ConvolveBounded(a, b);
    ReduceBounds(p);
    ConvolveIsProduct(a, b);
    ReduceIsExact(p);
    TakingMultiplesOff(Number(Reduce(p)), Number(a) * Number(b), Quotient(p));
  }

  lemma TakingMultiplesOff(x: int, y: int, q: int)
    requires x == y - P * q
    ensures Congruent(x, y)
  {
    assert x - y == P * -q;
  }

  /** The first half of the multiplication: coefficients 3, 4 and 8, folded into limbs 3 and 4. */
  method MulTop(a: seq<int>, b: seq<int>) returns (t3: Word, t4: Word, tx: Word, d: DoubleWord)
    requires InBounds(a) && InBounds(b)
    ensures var p := Convolve(a, b);
      t3 == D0(p) % B52 && t4 == (D1(p) % B52) % B48 && tx == (D1(p) % B52) / B48 && d == D1(p) / B52
  {
    ghost var p := Convolve(a, b);
    ConvolveBounded(a, b);
    DBounds(p);
    var c: DoubleWord;
    d := a[0] * b[3] + a[1] * b[2] + a[2] * b[1] + a[3] * b[0];
    c := a[4] * b[4];
    d := d + (c % B52) * R;
    c := c / B52;
    assert d == D0(p) && c == p.p8 / B52;
    t3 := d % B52;
    d := d / B52;

    d := d + a[0] * b[4] + a[1] * b[3] + a[2] * b[2] + a[3] * b[1] + a[4] * b[0];
    d := d + c * R;
    assert d == D1(p);
    t4 := d % B52;
    d := d / B52;
    tx := t4 / B48;
    t4 := t4 % B48;
  }

  /** `secp256k1_fe_mul_inner`: `r` may be `a` but not `b`. */
  method FeMulInner(r: array<int>, a: array<int>, b: array<int>)
    requires r.Length == a.Length == b.Length == 5 && r != b
    requires InBounds(a[..]) && InBounds(b[..])
    modifies r
    ensures r[..] == Reduce(Convolve(old(a[..]), old(b[..])))
    ensures Reduced(r[..]) && Congruent(Number(r[..]), Number(old(a[..])) * Number(old(b[..])))
  {
    ReducedProduct(a[..], b[..]);
    MulLimbs(r, a, b);
  }

  /** The accumulators of the multiplication, step by step. */
  method MulLimbs(r: array<int>, a: array<int>, b: array<int>)
    requires r.Length == a.Length == b.Length == 5 && r != b
    requires InBounds(a[..]) && InBounds(b[..])
    modifies r
    ensures r[..] == Reduce(Convolve(old(a[..]), old(b[..])))
  {
    ghost var p := Convolve(a[..], b[..]);
    ConvolveBounded(a[..], b[..]);
    var a0: Word, a1: Word, a2: Word, a3: Word, a4: Word := a[0], a[1], a[2], a[3], a[4];
    var c: DoubleWord, d: DoubleWord;
    var t3: Word, t4: Word, tx: Word, u0: Word;

    DBounds(p);
    CBounds(p);

    t3, t4, tx, d := MulTop(a[..], b[..]);

    c := a0 * b[0];
    d := d + a1 * b[4] + a2 * b[3] + a3 * b[2] + a4 * b[1];
    assert d == D2(p) && c == p.p0;
    u0 := d % B52;
    d := d / B52;
    u0 := u0 * 16 + tx;
    c := c + u0 * (R / 16);
    assert c == C0(p);
    r[0] := c % B52;
    c := c / B52;

    c := c + a0 * b[1] + a1 * b[0];
    d := d + a2 * b[4] + a3 * b[3] + a4 * b[2];
    assert d == D3(p);
    c := c + (d % B52) * R;
    d := d / B52;
    assert c == C1(p);
    r[1] := c % B52;
    c := c / B52;

    c := c + a0 * b[2] + a1 * b[1] + a2 * b[0];
    d := d + a3 * b[4] + a4 * b[3];
    assert d == D4(p);
    c := c + (d % B52) * R;
    d := d / B52;
    assert c == C2(p);
    r[2] := c % B52;
    c := c / B52;

    c := c + d * R + t3;
    assert c == C3(p);
    r[3] := c % B52;
    c := c / B52;
    c := c + t4;
    r[4] := c;
    assert r[..] == [r[0], r[1], r[2], r[3], r[4]];
  }

  lemma CrossTerm(x: int, y: int)
    ensures x * 2 * y == x * y + y * x && x * (y * 2) == x * y + y * x
  {
  }

  /** The coefficients of a square, with the cross products doubled. */
  lemma SquareCoefficients(a: seq<int>, p: Product)
    requires |a| == 5 && p == Convolve(a, a)
    ensures p.p3 == a[0] * 2 * a[3] + a[1] * 2 * a[2] && p.p8 == a[4] * a[4]
    ensures p.p4 == a[0] * (a[4] * 2) + a[1] * 2 * a[3] + a[2] * a[2] && p.p0 == a[0] * a[0]
    ensures p.p5 == a[1] * (a[4] * 2) + a[2] * 2 * a[3] && p.p1 == a[0] * 2 * a[1]
    ensures p.p6 == a[2] * (a[4] * 2) + a[3] * a[3] && p.p2 == a[0] * 2 * a[2] + a[1] * a[1]
    ensures p.p7 == a[3] * (a[4] * 2)
  {
    CrossTerm(a[0], a[1]);
    CrossTerm(a[0], a[2]);
    CrossTerm(a[0], a[3]);
    CrossTerm(a[0], a[4]);
    CrossTerm(a[1], a[2]);
    CrossTerm(a[1], a[3]);
    CrossTerm(a[1], a[4]);
    CrossTerm(a[2], a[3]);
    CrossTerm(a[2], a[4]);
    CrossTerm(a[3], a[4]);
  }

  /** The first half of the squaring. */
  method SqrTop(a: seq<int>) returns (t3: SignedWord, t4: SignedWord, tx: SignedWord, d: DoubleWord)
    requires InBounds(a)
    ensures var p := Convolve(a, a);
      t3 == D0(p) % B52 && t4 == (D1(p) % B52) % B48 && tx == (D1(p) % B52) / B48 && d == D1(p) / B52
  {
    ghost var p := Convolve(a, a);
    ConvolveBounded(a, a);
    SquareCoefficients(a, p);
    DBounds(p);
    var c: DoubleWord;
    d := a[0] * 2 * a[3] + a[1] * 2 * a[2];
    c := a[4] * a[4];
    d := d + (c % B52) * R;
    c := c / B52;
    assert d == D0(p) && c == p.p8 / B52;
    t3 := d % B52;
    d := d / B52;

    var a4: Word := a[4] * 2;
    d := d + a[0] * a4 + a[1] * 2 * a[3] + a[2] * a[2];
    d := d + c * R;
    assert d == D1(p);
    t4 := d % B52;
    d := d / B52;
    tx := t4 / B48;
    t4 := t4 % B48;
  }

  /** Limb 0 of the square, with the carry into limb 1 and what is left of the upper accumulator. */
  method SqrMiddle(a: seq<int>, tx: SignedWord, d0: DoubleWord) returns (r0: Word, c: DoubleWord, d: DoubleWord)
    requires InBounds(a)
    requires var p := Convolve(a, a); tx == (D1(p) % B52) / B48 && d0 == D1(p) / B52
    ensures var p := Convolve(a, a); r0 == C0(p) % B52 && c == C0(p) / B52 && d == D2(p) / B52
  {
    ghost var p := Convolve(a, a);
    ConvolveBounded(a, a);
    SquareCoefficients(a, p);
    DBounds(p);
    CBounds(p);
    var a4: Word := a[4] * 2;
    c := a[0] * a[0];
    d := d0 + a[1] * a4 + a[2] * 2 * a[3];
    assert d == D2(p);
    var u0: SignedWord := d % B52;
    d := d / B52;
    u0 := u0 * 16 + tx;
    c := c + u0 * (R / 16);
    assert c == C0(p);
    r0 := c % B52;
    c := c / B52;
  }

  /** Limbs 1 to 4 of the square. */
  method SqrBottom(a: seq<int>, t3: SignedWord, t4: SignedWord, c0: DoubleWord, d0: DoubleWord)
    returns (r1: Word, r2: Word, r3: Word, r4: Word)
    requires InBounds(a)
    requires var p := Convolve(a, a);
      t3 == D0(p) % B52 && t4 == (D1(p) % B52) % B48 && c0 == C0(p) / B52 && d0 == D2(p) / B52
    ensures var p := Convolve(a, a); Reduce(p) == [C0(p) % B52, r1, r2, r3, r4]
  {
    ghost var p := Convolve(a, a);
    ConvolveBounded(a, a);
    SquareCoefficients(a, p);
    DBounds(p);
    CBounds(p);
    var a0: Word, a4: Word := a[0] * 2, a[4] * 2;
    var c: DoubleWord, d: DoubleWord;
    c := c0 + a0 * a[1];
    d := d0 + a[2] * a4 + a[3] * a[3];
    assert d == D3(p);
    c := c + (d % B52) * R;
    d := d / B52;
    assert c == C1(p);
    r1 := c % B52;
    c := c / B52;

    c := c + a0 * a[2] + a[1] * a[1];
    d := d + a[3] * a4;
    assert d == D4(p);
    c := c + (d % B52) * R;
    d := d / B52;
    assert c == C2(p);
    r2 := c % B52;
    c := c / B52;

    c := c + d * R + t3;
    assert c == C3(p);
    r3 := c % B52;
    c := c / B52;
    c := c + t4;
    r4 := c;
  }

  /**
   * `secp256k1_fe_sqr_inner`: the doubled cross products give limb for limb what multiplying `a` by
   * itself gives. `r` may be `a`.
   */
  method FeSqrInner(r: array<int>, a: array<int>)
    requires r.Length == a.Length == 5 && InBounds(a[..])
    modifies r
    ensures r[..] == Reduce(Convolve(old(a[..]), old(a[..])))
    ensures Reduced(r[..]) && Congruent(Number(r[..]), Number(old(a[..])) * Number(old(a[..])))
  {
    ReducedProduct(a[..], a[..]);
    ghost var p := Convolve(a[..], a[..]);
    var limbs := a[..];
    var t3, t4, tx, d := SqrTop(limbs);
    var c: DoubleWord;
    r[0], c, d := SqrMiddle(limbs, tx, d);
    r[1], r[2], r[3], r[4] := SqrBottom(limbs, t3, t4, c, d);
    assert r[..] == Reduce(p);
  }
}
