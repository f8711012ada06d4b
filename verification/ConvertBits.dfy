/**
 * Regrouping of bits (`convertBits`, include/gs++/scriptpubkey.hpp): a list of digits in base 2^from
 * becomes one in base 2^to. What is kept is the number that the digits write.
 */
module ConvertBits {
  import opened Arithmetic

  type Digits = seq<nat>

  /** The width of the accumulator. */
  const ACCUMULATOR: nat := 32

  /** The 8-bit result index wraps here. */
  const INDEX: nat := 256

  ghost predicate Small(ds: Digits, width: nat) {
    forall i :: 0 <= i < |ds| ==> ds[i] < Pow2(width)
  }

  /** The number that digits write in base 2^width. */
  ghost function Value(ds: Digits, width: nat): nat {
    if |ds| == 0 then 0 else Value(ds[..|ds| - 1], width) * Pow2(width) + ds[|ds| - 1]
  }

  /** Digits of one length that write one number are the same. */
  lemma {:induction false} ValueUnique(a: Digits, b: Digits, width: nat)
    requires |a| == |b| && Small(a, width) && Small(b, width) && Value(a, width) == Value(b, width)
    ensures a == b
    decreases |a|
  {
    if |a| > 0 {
      var n := |a| - 1;
      DivModUnique(Value(a, width), Pow2(width), Value(a[..n], width), a[n]);
      DivModUnique(Value(b, width), Pow2(width), Value(b[..n], width), b[n]);
      ValueUnique(a[..n], b[..n], width);
      assert a == a[..n] + [a[n]] && b == b[..n] + [b[n]];
    }
  }

  // ----- Number facts -----

  lemma PowersMultiply(i: nat, j: nat, k: nat)
    requires i + j == k
    ensures Pow2(i) * Pow2(j) == Pow2(k)
  {
    Pow2Add(i, j);
  }

  /** A digit that comes in leaves the number above it as it was. */
  lemma Enter(n: nat, v: nat, width: nat, bits: nat)
    requires v < Pow2(width)
    ensures (n * Pow2(width) + v) / Pow2(bits + width) == n / Pow2(bits)
  {
    var n' := n * Pow2(width) + v;
    DivModUnique(n', Pow2(width), n, v);
    DivDiv(n', Pow2(width), Pow2(bits));
    PowersMultiply(width, bits, bits + width);
  }

  /** Remainders modulo a power of two commute with the next digit coming in. */
  lemma EnterMod(n: nat, v: nat, p: nat, m: nat)
    requires m > 0
    ensures (n % m * p + v) % m == (n * p + v) % m
  {
    var q := n / m;
    assert n == q * m + n % m;
    var x := n % m * p + v;
    assert n * p + v == x + (q * p) * m by {
      assert n * p == (q * m) * p + n % m * p by { MulDistributes(p, q * m, n % m); }
      assert (q * m) * p == (q * p) * m;
    }
    ModPlus(x, q * p, m);
  }

  lemma ModPlus(x: nat, k: nat, m: nat)
    requires m > 0
    ensures (x + k * m) % m == x % m
  {
    DivModUnique(x + k * m, m, x / m + k, x % m) by {
      assert x == x / m * m + x % m;
      MulDistributes(m, x / m, k);
    }
  }

  /** A field below bit `top` may be read from the number modulo 2^top. */
  lemma FieldOfMod(n: nat, offset: nat, count: nat, top: nat)
    requires offset + count <= top
    ensures Bits(n % Pow2(top), offset, count) == Bits(n, offset, count)
  {
    var rest := top - offset - count;
    PowersMultiply(rest, count, top - offset);
    PowersMultiply(top - offset, offset, top);
    FieldOfRemainder(n, Pow2(offset), Pow2(count), Pow2(rest));
  }

  lemma FieldOfRemainder(n: nat, a: nat, b: nat, c: nat)
    requires a > 0 && b > 0 && c > 0
    ensures (c * b) * a > 0
    ensures (n % ((c * b) * a)) / a % b == n / a % b
  {
    assert c * b > 0;
    assert (c * b) * a > 0;
    var m := (c * b) * a;
    var q, r := n / m, n % m;
    assert q * m == (q * (c * b)) * a by { MulAssoc(q, c * b, a); }
    assert q * (c * b) == (q * c) * b by { MulAssoc(q, c, b); }
    assert n == r + ((q * c) * b) * a;
    DivPlus(r, (q * c) * b, a);
    ModPlus(r / a, q * c, b);
  }

  lemma DivPlus(x: nat, k: nat, m: nat)
    requires m > 0
    ensures (x + k * m) / m == x / m + k
  {
    DivModUnique(x + k * m, m, x / m + k, x % m) by {
      assert x == x / m * m + x % m;
      MulDistributes(m, x / m, k);
    }
  }

  // ----- The loop -----

  /** The accumulator holds the low bits of what came in. */
  ghost predicate Accumulated(n: nat, accumulator: nat) {
    accumulator == n % Pow2(ACCUMULATOR)
  }

  /** `total` bits came in, of which `bits` wait; `k` digits went out. */
  ghost predicate Counted(total: nat, to: nat, bits: nat, k: nat) {
    total == to * k + bits
  }

  /** The digits that went out write the number above the waiting bits. */
  ghost predicate Written(n: nat, to: nat, bits: nat, out: Digits) {
    Small(out, to) && Value(out, to) == n / Pow2(bits)
  }

  /** The digits stored one after the other at an index of eight bits, into `length` zeros. */
  ghost function Folded(out: Digits, length: nat): (r: Digits)
    requires |out| <= length
    ensures |r| == length
  {
    if |out| == 0 then seq(length, _ => 0)
    else Folded(out[..|out| - 1], length)[(|out| - 1) % INDEX := out[|out| - 1]]
  }

  /** The result holds the digits that went out, as far as the index reaches. */
  ghost predicate Stored(out: Digits, index: nat, result: Digits) {
    |out| <= |result| && index == |out| % INDEX && result == Folded(out, |result|)
  }

  /** Up to 256 digits are stored in order, and zeros follow. */
  lemma {:induction false} FoldedShort(out: Digits, length: nat)
    requires |out| <= length && |out| <= 256
    ensures Folded(out, length) == out + seq(length - |out|, _ => 0)
    decreases |out|
  {
    if |out| > 0 {
      FoldedShort(out[..|out| - 1], length);
    }
  }

  /** Of more, each place holds the last digit that was stored there. */
  lemma {:induction false} FoldedAt(out: Digits, length: nat, j: nat)
    requires |out| <= length && j < length
    ensures Folded(out, length)[j] == if j < 256 && j < |out| then out[j + (|out| - 1 - j) / 256 * 256] else 0
    decreases |out|
  {
    if |out| > 0 {
      var n := |out| - 1;
      FoldedAt(out[..n], length, j);
      if j < INDEX {
        LastPlace(n, j);
      }
    }
  }

  lemma LastPlace(n: nat, j: nat)
    requires j < INDEX
    ensures j <= n && n % INDEX == j ==> j + (n - j) / INDEX * INDEX == n
    ensures j < n && n % INDEX != j ==> j + (n - j) / INDEX * INDEX == j + (n - 1 - j) / INDEX * INDEX < n
    ensures j == n ==> n % INDEX == j
  {
  }

  lemma EnterAccumulated(n: nat, v: nat, width: nat, accumulator: nat)
    requires Accumulated(n, accumulator)
    ensures Accumulated(n * Pow2(width) + v, (accumulator * Pow2(width) + v) % Pow2(ACCUMULATOR))
  {
    EnterMod(n, v, Pow2(width), Pow2(ACCUMULATOR));
  }

  lemma EnterWritten(n: nat, v: nat, width: nat, to: nat, bits: nat, out: Digits)
    requires Written(n, to, bits, out) && v < Pow2(width)
    ensures Written(n * Pow2(width) + v, to, bits + width, out)
  {
    Enter(n, v, width, bits);
  }

  lemma EmitCounted(total: nat, to: nat, bits: nat, k: nat, length: nat)
    requires Counted(total, to, bits, k) && 0 < to <= bits && total < to * length + to
    ensures Counted(total, to, bits - to, k + 1) && k < length
  {
    MulDistributes(to, k, 1);
    if k >= length {
      MulMonotone(length, k, to);
    }
  }

  lemma EmitDigit(n: nat, to: nat, bits: nat)
    requires to <= bits
    ensures Bits(n, bits - to, to) < Pow2(to)
    ensures n / Pow2(bits) * Pow2(to) + Bits(n, bits - to, to) == n / Pow2(bits - to)
  {
    BitsSplit(n, bits - to, to);
    Commute(n / Pow2(bits), Pow2(to));
  }

  lemma Commute(x: nat, y: nat)
    ensures x * y == y * x
  {
  }

  lemma EmitWritten(n: nat, to: nat, bits: nat, out: Digits)
    requires Written(n, to, bits, out) && to <= bits
    ensures Written(n, to, bits - to, out + [Bits(n, bits - to, to)])
  {
    EmitDigit(n, to, bits);
    assert (out + [Bits(n, bits - to, to)])[..|out|] == out;
  }

  lemma EmitStored(out: Digits, index: nat, result: Digits, d: nat)
    requires Stored(out, index, result) && |out| < |result|
    ensures index < |result| && Stored(out + [d], (index + 1) % INDEX, result[index := d])
  {
    assert (out + [d])[..|out|] == out;
  }

  // ----- The method -----

  function CeilDiv(x: nat, d: nat): nat
    requires d > 0
  {
    (x + d - 1) / d
  }

  /** How many digits a conversion makes: whole ones only, or with a padded last one. */
  function ResultLength(total: nat, to: nat, strict: bool): nat
    requires to > 0
  {
    if strict then total / to else CeilDiv(total, to)
  }

  datatype Conversion = Refused | Converted(digits: Digits)

  /** Padded: the number moves up to the end of the last digit. */
  ghost predicate Padded(data: Digits, from_: nat, to: nat, out: Digits) {
    && Small(out, to) && 0 <= to * |out| - from_ * |data| < to
    && Value(out, to) == Value(data, from_) * Pow2(to * |out| - from_ * |data|)
  }

  /** Strict: whole digits only; the bits behind them are dropped. */
  ghost predicate Whole(data: Digits, from_: nat, to: nat, out: Digits)
    requires to > 0
  {
    && Small(out, to) && |out| == from_ * |data| / to
    && Value(out, to) == Value(data, from_) / Pow2(from_ * |data| % to)
  }

  /** What is dropped is fewer bits than a digit of the input, and zero. */
  ghost predicate Droppable(data: Digits, from_: nat, to: nat)
    requires to > 0
  {
    var rest := from_ * |data| % to;
    rest < from_ && Value(data, from_) % Pow2(rest) == 0
  }

  lemma LengthFits(total: nat, to: nat, bits: nat, k: nat)
    requires Counted(total, to, bits, k) && bits < to
    ensures total / to == k && total % to == bits && CeilDiv(total, to) == k + (if bits == 0 then 0 else 1)
  {
    Commute(k, to);
    DivModUnique(total, to, k, bits);
    if bits == 0 {
      DivModUnique(total + to - 1, to, k, to - 1);
    } else {
      MulDistributes(to, k, 1);
      Commute(k + 1, to);
      DivModUnique(total + to - 1, to, k + 1, bits - 1);
    }
  }

  lemma LengthBound(total: nat, to: nat, strict: bool)
    requires to > 0
    ensures total < to * ResultLength(total, to, strict) + to
  {
    var q, r := total / to, total % to;
    assert Counted(total, to, r, q) by { Commute(q, to); }
    LengthFits(total, to, r, q);
    if ResultLength(total, to, strict) == q + 1 {
      MulDistributes(to, q, 1);
    }
  }

  ghost predicate LoopState(data: Digits, i: nat, from_: nat, to: nat, accumulator: nat, bits: nat, out: Digits)
    requires i <= |data|
  {
    && Accumulated(Value(data[..i], from_), accumulator)
    && Counted(from_ * i, to, bits, |out|)
    && Written(Value(data[..i], from_), to, bits, out)
  }

  lemma StartState(data: Digits, from_: nat, to: nat)
    ensures LoopState(data, 0, from_, to, 0, 0, [])
  {
    NothingAbove(0, 0);
    assert 0 % Pow2(ACCUMULATOR) == 0;
  }

  /** One digit comes in: the body of the loop before the inner one. */
  lemma EnterLoop(data: Digits, i: nat, from_: nat, to: nat, accumulator: nat, bits: nat, out: Digits)
    requires i < |data| && Small(data, from_) && LoopState(data, i, from_, to, accumulator, bits, out)
    ensures LoopState(data, i + 1, from_, to, (accumulator * Pow2(from_) + data[i]) % Pow2(ACCUMULATOR), bits + from_, out)
  {
    assert data[..i + 1][..i] == data[..i];
    EnterAccumulated(Value(data[..i], from_), data[i], from_, accumulator);
    EnterWritten(Value(data[..i], from_), data[i], from_, to, bits, out);
    MulDistributes(from_, i, 1);
  }

  /** One digit goes out. */
  lemma EmitOne(n: nat, total: nat, to: nat, accumulator: nat, bits: nat, out: Digits, length: nat)
    requires 0 < to <= bits <= ACCUMULATOR && total < to * length + to
    requires Accumulated(n, accumulator) && Counted(total, to, bits, |out|) && Written(n, to, bits, out)
    ensures |out| < length && Counted(total, to, bits - to, |out| + 1)
    ensures Written(n, to, bits - to, out + [Bits(accumulator, bits - to, to)])
  {
    EmitCounted(total, to, bits, |out|, length);
    FieldOfMod(n, bits - to, to, ACCUMULATOR);
    EmitWritten(n, to, bits, out);
  }

  /** The inner loop: digits go out while there are bits for one. */
  method Emit(to: nat, accumulator: nat, bits0: nat, index0: nat, result0: Digits,
              ghost data: Digits, ghost i: nat, ghost from_: nat, ghost out0: Digits)
    returns (bits: nat, index: nat, result: Digits, ghost out: Digits)
    requires 0 < to && bits0 <= ACCUMULATOR && i <= |data| && from_ * i < to * |result0| + to
    requires LoopState(data, i, from_, to, accumulator, bits0, out0) && Stored(out0, index0, result0)
    ensures LoopState(data, i, from_, to, accumulator, bits, out) && Stored(out, index, result)
    ensures bits < to && |result| == |result0|
  {
    bits, index, result, out := bits0, index0, result0, out0;
    while bits >= to
      invariant bits <= ACCUMULATOR && |result| == |result0|
      invariant LoopState(data, i, from_, to, accumulator, bits, out) && Stored(out, index, result)
    {
      EmitOne(Value(data[..i], from_), from_ * i, to, accumulator, bits, out, |result|);
      bits := bits - to;
      var d := Bits(accumulator, bits, to);
      EmitStored(out, index, result, d);
      result := result[index := d];
      index := (index + 1) % INDEX;
      out := out + [d];
    }
  }

  /** The low bits of what is left, moved to the top of a digit of their own. */
  function LastDigit(accumulator: nat, to: nat, bits: nat): nat
    requires bits <= to
  {
    (accumulator * Pow2(to - bits)) % Pow2(ACCUMULATOR) % Pow2(to)
  }

  lemma LastDigitIs(n: nat, to: nat, bits: nat, accumulator: nat)
    requires bits <= to <= ACCUMULATOR && Accumulated(n, accumulator)
    ensures LastDigit(accumulator, to, bits) == Bits(n * Pow2(to - bits), 0, to)
  {
    var moved, acc := n * Pow2(to - bits), (accumulator * Pow2(to - bits)) % Pow2(ACCUMULATOR);
    assert Accumulated(moved, acc) by { EnterAccumulated(n, 0, to - bits, accumulator); }
    LowField(moved, acc, to);
  }

  lemma LowField(n: nat, accumulator: nat, to: nat)
    requires to <= ACCUMULATOR && Accumulated(n, accumulator)
    ensures accumulator % Pow2(to) == Bits(n, 0, to)
  {
    FieldOfMod(n, 0, to, ACCUMULATOR);
    BitsFromZero(accumulator, to);
  }

  lemma PadDigit(n: nat, to: nat, bits: nat, accumulator: nat, out: Digits)
    requires bits <= to <= ACCUMULATOR && Accumulated(n, accumulator) && Written(n, to, bits, out)
    ensures Written(n * Pow2(to - bits), to, 0, out + [LastDigit(accumulator, to, bits)])
  {
    LastDigitIs(n, to, bits, accumulator);
    var moved := n * Pow2(to - bits);
    assert Written(moved, to, to, out) by { EnterWritten(n, 0, to - bits, to, bits, out); }
    EmitWritten(moved, to, to, out);
  }

  /** The last digit is zero where the waiting bits are. */
  lemma LastDigitZero(n: nat, to: nat, bits: nat, accumulator: nat)
    requires bits <= to <= ACCUMULATOR && Accumulated(n, accumulator)
    ensures LastDigit(accumulator, to, bits) == 0 <==> n % Pow2(bits) == 0
  {
    LastDigitIs(n, to, bits, accumulator);
    MovedZero(n, to, bits);
  }

  lemma MovedZero(n: nat, to: nat, bits: nat)
    requires bits <= to
    ensures Bits(n * Pow2(to - bits), 0, to) == 0 <==> n % Pow2(bits) == 0
  {
    PowersMultiply(bits, to - bits, to);
    ScaledZero(n, Pow2(to - bits), Pow2(bits), Pow2(to));
    BitsFromZero(n * Pow2(to - bits), to);
  }

  lemma ScaledZero(n: nat, p: nat, b: nat, t: nat)
    requires p > 0 && b > 0 && b * p == t && t > 0
    ensures (n * p) % t == 0 <==> n % b == 0
  {
    ModScaled(n, p, b);
    ZeroProduct(n % b, p);
  }

  lemma ZeroProduct(x: nat, p: nat)
    requires p > 0
    ensures x * p == 0 <==> x == 0
  {
  }

  lemma ModScaled(n: nat, p: nat, b: nat)
    requires p > 0 && b > 0
    ensures b * p > 0 && (n * p) % (b * p) == (n % b) * p
  {
    assert b * p > 0;
    var q, r := n / b, n % b;
    assert n * p == q * (b * p) + r * p by {
      assert n == q * b + r;
      MulDistributes(p, q * b, r);
      MulAssoc(q, b, p);
    }
    assert r * p < b * p by {
      MulMonotone(r, b - 1, p);
      MulDistributes(p, b, -1);
    }
    DivModUnique(n * p, b * p, q, r * p);
  }

  ghost predicate Roomy(data: Digits, from_: nat, to: nat, length: nat) {
    from_ * |data| < to * length + to
  }

  lemma StillRoomy(data: Digits, i: nat, from_: nat, to: nat, length: nat)
    requires i < |data| && Roomy(data, from_, to, length)
    ensures from_ * (i + 1) < to * length + to
  {
    MulMonotone(i + 1, |data|, from_);
  }

  /** The outer loop of `convertBits`. */
  method Regroup(data: Digits, from_: nat, to: nat, length: nat)
    returns (accumulator: nat, bits: nat, index: nat, result: Digits, ghost out: Digits)
    requires 1 <= from_ <= 8 && 1 <= to <= 8 && Small(data, from_) && Roomy(data, from_, to, length)
    ensures LoopState(data, |data|, from_, to, accumulator, bits, out) && Stored(out, index, result) && bits < to && |result| == length
  {
    result := seq(length, _ => 0);
    index, accumulator, bits, out := 0, 0, 0, [];
    StartState(data, from_, to);
    for i := 0 to |data|
      invariant |result| == length && bits < to
      invariant LoopState(data, i, from_, to, accumulator, bits, out) && Stored(out, index, result)
    {
      accumulator, bits, index, result, out := Round(data, i, from_, to, accumulator, bits, index, result, out);
    }
  }

  /** The body of the outer loop. */
  method Round(data: Digits, i: nat, from_: nat, to: nat, accumulator0: nat, bits0: nat, index0: nat, result0: Digits, ghost out0: Digits)
    returns (accumulator: nat, bits: nat, index: nat, result: Digits, ghost out: Digits)
    requires i < |data| && 1 <= from_ <= 8 && 1 <= to <= 8 && Small(data, from_) && Roomy(data, from_, to, |result0|)
    requires LoopState(data, i, from_, to, accumulator0, bits0, out0) && Stored(out0, index0, result0) && bits0 < to
    ensures LoopState(data, i + 1, from_, to, accumulator, bits, out) && Stored(out, index, result) && bits < to && |result| == |result0|
  {
    accumulator, bits := TakeDigit(data, i, from_, to, accumulator0, bits0, out0);
    StillRoomy(data, i, from_, to, |result0|);
    bits, index, result, out := Emit(to, accumulator, bits, index0, result0, data, i + 1, from_, out0);
  }

  /** One digit comes in. */
  method TakeDigit(data: Digits, i: nat, from_: nat, to: nat, accumulator0: nat, bits0: nat, ghost out: Digits)
    returns (accumulator: nat, bits: nat)
    requires i < |data| && Small(data, from_) && LoopState(data, i, from_, to, accumulator0, bits0, out)
    ensures LoopState(data, i + 1, from_, to, accumulator, bits, out) && bits == bits0 + from_
  {
    EnterLoop(data, i, from_, to, accumulator0, bits0, out);
    accumulator := (accumulator0 * Pow2(from_) + data[i]) % Pow2(ACCUMULATOR);
    bits := bits0 + from_;
  }

  /**
   * `convertBits`: `out` are the digits it makes, and the result is what its 8-bit index leaves of them. The
   * source computes the result length in floating point, which is exact for lists of less than two million digits.
   */
  method Convert(data: Digits, from_: nat, to: nat, strict: bool) returns (r: Conversion, ghost out: Digits)
    requires 1 <= from_ <= 8 && 1 <= to <= 8 && Small(data, from_)
    ensures !strict ==> Padded(data, from_, to, out) && r == Converted(Folded(out, |out|))
    ensures strict ==> Whole(data, from_, to, out) && r == if Droppable(data, from_, to) then Converted(Folded(out, |out|)) else Refused
  {
    LengthBound(from_ * |data|, to, strict);
    var accumulator: nat, bits: nat, index: nat, result: Digits;
    accumulator, bits, index, result, out := Regroup(data, from_, to, ResultLength(from_ * |data|, to, strict));
    assert data[..|data|] == data;
    LengthFits(from_ * |data|, to, bits, |out|);
    if strict {
      var clean := LastDigit(accumulator, to, bits) == 0;
      LastDigitZero(Value(data, from_), to, bits, accumulator);
      if bits < from_ && clean {
        return Converted(result), out;
      }
      return Refused, out;
    }
    if bits > 0 {
      var d := LastDigit(accumulator, to, bits);
      PadDigit(Value(data, from_), to, bits, accumulator, out);
      EmitStored(out, index, result, d);
      result := result[index := d];
      FinishPadded(data, from_, to, bits, out, d);
      out := out + [d];
    } else {
      FinishWhole(data, from_, to, out);
    }
    return Converted(result), out;
  }

  lemma FinishPadded(data: Digits, from_: nat, to: nat, bits: nat, out: Digits, d: nat)
    requires Counted(from_ * |data|, to, bits, |out|) && 0 < bits < to
    requires Written(Value(data, from_) * Pow2(to - bits), to, 0, out + [d])
    ensures Padded(data, from_, to, out + [d])
  {
    MulDistributes(to, |out|, 1);
    assert Pow2(0) == 1;
  }

  lemma FinishWhole(data: Digits, from_: nat, to: nat, out: Digits)
    requires to > 0 && Counted(from_ * |data|, to, 0, |out|) && Written(Value(data, from_), to, 0, out)
    ensures Padded(data, from_, to, out)
  {
    assert Pow2(0) == 1;
  }
}
