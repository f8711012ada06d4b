/** Powers of two and the bit fields that `scalar_get_bits_var` reads. */
module Arithmetic {

  function Pow2(k: nat): (p: nat)
    ensures p >= 1
  {
    if k == 0 then 1 else 2 * Pow2(k - 1)
  }

  lemma {:induction false} Pow2Add(i: nat, j: nat)
    ensures Pow2(i + j) == Pow2(i) * Pow2(j)
  {
    if i > 0 {
      Pow2Add(i - 1, j);
      MulAssoc(2, Pow2(i - 1), Pow2(j));
    }
  }

  lemma {:induction false} Pow2Monotone(i: nat, j: nat)
    requires i <= j
    ensures Pow2(i) <= Pow2(j)
  {
    if i < j {
      Pow2Monotone(i, j - 1);
    }
  }

  lemma Pow2Even(k: nat)
    requires k >= 1
    ensures Pow2(k) % 2 == 0
  {
  }

  /** Division splits a number into the unique quotient and remainder. */
  lemma DivModUnique(x: int, d: int, q: int, r: int)
    requires d > 0 && 0 <= r < d
    requires x == q * d + r
    ensures x / d == q && x % d == r
  {
    var q', r' := x / d, x % d;
    assert x == q' * d + r' && 0 <= r' < d;
    assert (q' + 1) * d == q' * d + d && (q + 1) * d == q * d + d;
    if q > q' {
      MulMonotone(q' + 1, q, d);
    } else if q < q' {
      MulMonotone(q + 1, q', d);
    }
  }

  /** How many times `d` goes into `x`. */
  function Quotient(x: nat, d: nat): (q: nat)
    requires d > 0
    ensures q * d <= x < q * d + d
  {
    x / d
  }

  /** Dividing by a product is dividing twice. */
  lemma DivDiv(x: nat, a: nat, b: nat)
    requires a > 0 && b > 0
    ensures a * b > 0
    ensures (x / a) / b == x / (a * b)
  {
    var q, r := x / a, x % a;
    var q', r' := q / b, q % b;
    assert x == (q' * b + r') * a + r;
    assert r' * a + r < a * b by {
      assert r' <= b - 1;
      MulMonotone(r', b - 1, a);
      assert (b - 1) * a == a * b - a;
    }
    assert (q' * b) * a == q' * (a * b);
    assert x == q' * (a * b) + (r' * a + r);
    assert r' * a >= 0;
    DivModUnique(x, a * b, q', r' * a + r);
  }

  lemma MulMonotone(x: int, y: int, k: int)
    requires x <= y && 0 <= k
    ensures x * k <= y * k
  {
    assert (y - x) * k >= 0;
  }

  /** Bits `offset .. offset + count` of `s`, as a number. */
  function Bits(s: nat, offset: nat, count: nat): (b: nat)
  {
    (s / Pow2(offset)) % Pow2(count)
  }

  lemma BitsFromZero(s: nat, count: nat)
    ensures Bits(s, 0, count) == s % Pow2(count)
  {
    assert s / Pow2(0) == s;
  }

  /** Reading a field splits the number above `offset` into the field and what lies above it. */
  lemma BitsSplit(s: nat, offset: nat, count: nat)
    ensures Bits(s, offset, count) < Pow2(count)
    ensures s / Pow2(offset) == Bits(s, offset, count) + Pow2(count) * (s / Pow2(offset + count))
  {
    var x := s / Pow2(offset);
    DivDiv(s, Pow2(offset), Pow2(count));
    Pow2Add(offset, count);
    assert x == (x / Pow2(count)) * Pow2(count) + x % Pow2(count);
  }

  /** Above the top bit there is nothing. */
  lemma NothingAbove(s: nat, k: nat)
    requires s < Pow2(k)
    ensures s / Pow2(k) == 0
  {
    DivModUnique(s, Pow2(k), 0, s);
  }

  /** `x` times the `k`-th power of `b`. */
  function Scale(b: int, k: nat, x: int): int
  {
    if k == 0 then x else Scale(b, k - 1, b * x)
  }

  lemma {:induction false} ScaleAdd(b: int, k: nat, x: int, y: int)
    ensures Scale(b, k, x + y) == Scale(b, k, x) + Scale(b, k, y)
  {
    if k > 0 {
      MulDistributes(b, x, y);
      ScaleAdd(b, k - 1, b * x, b * y);
    }
  }

  lemma {:induction false} ScaleZero(b: int, k: nat)
    ensures Scale(b, k, 0) == 0
  {
    if k > 0 {
      ScaleZero(b, k - 1);
    }
  }

  lemma ScaleNeg(b: int, k: nat, x: int)
    ensures Scale(b, k, -x) == -Scale(b, k, x)
  {
    ScaleAdd(b, k, x, -x);
    ScaleZero(b, k);
  }

  /** What is left of `s` above its `k` lowest digits in base `b`. */
  function High(s: nat, b: nat, k: nat): (h: nat)
    requires b > 0
  {
    if k == 0 then s else High(s, b, k - 1) / b
  }

  lemma {:induction false} HighIsQuotient(s: nat, w: nat, k: nat)
    ensures High(s, Pow2(w), k) == s / Pow2(k * w)
  {
    if k == 0 {
      assert k * w == 0;
    } else {
      HighIsQuotient(s, w, k - 1);
      DivDiv(s, Pow2((k - 1) * w), Pow2(w));
      assert k * w == (k - 1) * w + w;
      Pow2Add((k - 1) * w, w);
    }
  }

  // Facts about products, kept apart so that no other proof needs nonlinear reasoning.

  lemma MulAssoc(x: int, y: int, z: int)
    ensures (x * y) * z == x * (y * z)
  {
  }

  lemma MulDistributes(x: int, y: int, z: int)
    ensures x * (y + z) == x * y + x * z
    ensures (y + z) * x == y * x + z * x
  {
  }

  lemma MulNegates(x: int, y: int)
    ensures (-x) * y == -(x * y)
    ensures x * (-y) == -(x * y)
  {
  }
}
