/**
 * Sliding-window signed digits: `secp256k1_ecmult_wnaf` (src/secp256k1/ecmult_impl.h), for scalars
 * of any width `bits` modulo an order below 2^bits.
 */
module Wnaf {
  import opened Arithmetic
  import opened FixedWnaf

  function Signed(sign: int, x: int): int {
    if sign < 0 then -x else x
  }

  lemma {:induction false} ScaleJump(k: nat, j: nat, x: int)
    ensures Scale(2, k + j, x) == Scale(2, k, Pow2(j) * x)
    decreases j
  {
    if j > 0 {
      ScaleJump(k + 1, j - 1, x);
      MulAssoc(2, Pow2(j - 1), x);
    }
  }

  lemma ScaleSigned(k: nat, sign: int, x: int)
    ensures Scale(2, k, Signed(sign, x)) == Signed(sign, Scale(2, k, x))
  {
    ScaleNeg(2, k, x);
  }

  /** The field of `now` bits at `bit` and what lies above it. */
  lemma FieldSplit(s: nat, bit: nat, now: nat)
    ensures Bits(s, bit, now) < Pow2(now)
    ensures High(s, 2, bit) == Bits(s, bit, now) + Pow2(now) * High(s, 2, bit + now)
  {
    BitsSplit(s, bit, now);
    assert Pow2(1) == 2 && bit * 1 == bit && (bit + now) * 1 == bit + now;
    HighIsQuotient(s, 1, bit);
    HighIsQuotient(s, 1, bit + now);
  }

  lemma OneBit(s: nat, bit: nat)
    ensures Bits(s, bit, 1) == High(s, 2, bit) % 2
    ensures High(s, 2, bit) == Bits(s, bit, 1) + 2 * High(s, 2, bit + 1)
  {
    assert Pow2(1) == 2;
    FieldSplit(s, bit, 1);
  }

  lemma {:induction false} HighBound(s: nat, bit: nat, k: nat)
    requires s < Pow2(k) && bit <= k
    ensures High(s, 2, bit) < Pow2(k - bit)
    decreases bit
  {
    if bit > 0 {
      HighBound(s, bit - 1, k);
    }
  }

  /** The digit that a window gives and the carry it leaves. */
  function WindowCarry(word: nat, w: nat): nat
    requires w >= 1
  {
    (word / Pow2(w - 1)) % 2
  }

  /** The window as a signed digit: `word - (carry << w)`. */
  function Centered(word: nat, w: nat): int
    requires w >= 1
  {
    if WindowCarry(word, w) == 1 then word - Pow2(w) else word
  }

  lemma CarryIsTopBit(word: nat, w: nat)
    requires w >= 1 && word < Pow2(w)
    ensures WindowCarry(word, w) == if word >= Pow2(w - 1) then 1 else 0
  {
    var half := Pow2(w - 1);
    if word >= half {
      DivModUnique(word, half, 1, word - half);
    } else {
      DivModUnique(word, half, 0, word);
    }
  }

  lemma SignedDigit(word: nat, w: nat, now: nat)
    requires 2 <= w && 1 <= now <= w && word % 2 == 1 && word < Pow2(now)
    ensures WindowCarry(word, w) == if word >= Pow2(w - 1) then 1 else 0
    ensures now < w ==> WindowCarry(word, w) == 0
    ensures Digit(Centered(word, w), Pow2(w - 1)) && Centered(word, w) != 0
  {
    Pow2Monotone(now, w);
    CarryIsTopBit(word, w);
    Pow2Even(w - 1);
    CenteredDigit(word, Pow2(w - 1));
    if now < w {
      Pow2Monotone(now, w - 1);
    }
  }

  lemma CenteredDigit(word: nat, half: nat)
    requires word % 2 == 1 && half % 2 == 0 && word < 2 * half
    ensures word >= half ==> Digit(word - 2 * half, half)
    ensures word < half ==> Digit(word, half)
  {
    OddBelow(word, half);
  }

  /** An odd number is not an even one, and stays odd when an even one is taken off. */
  lemma OddBelow(word: nat, half: nat)
    requires word % 2 == 1 && half % 2 == 0
    ensures word != half && (word - 2 * half) % 2 == 1
  {
    assert word - 2 * half == 2 * (word / 2 - half) + 1;
  }

  lemma ParityOfField(x: nat, field: nat, half: nat, h: nat)
    requires x == field + 2 * half * h
    ensures x % 2 == field % 2
  {
    MulAssoc(2, half, h);
  }

  /** A window plus the carry is odd, so it still fits the window. */
  lemma WordFits(s: nat, bit: nat, now: nat, carry: nat)
    requires now >= 1 && carry <= 1 && Bits(s, bit, 1) != carry
    ensures (Bits(s, bit, now) + carry) % 2 == 1
    ensures Bits(s, bit, now) + carry < Pow2(now)
    ensures High(s, 2, bit) + carry == Bits(s, bit, now) + carry + Pow2(now) * High(s, 2, bit + now)
  {
    assert Bits(s, bit, 1) == High(s, 2, bit) % 2 by { OneBit(s, bit); }
    FieldSplit(s, bit, now);
    assert High(s, 2, bit) % 2 == Bits(s, bit, now) % 2 by {
      ParityOfField(High(s, 2, bit), Bits(s, bit, now), Pow2(now - 1), High(s, 2, bit + now));
    }
    assert Pow2(now) % 2 == 0 by { Pow2Even(now); }
    OddFits(Bits(s, bit, now), carry, Pow2(now));
  }

  lemma OddFits(field: nat, carry: nat, limit: nat)
    requires field < limit && limit % 2 == 0 && carry <= 1 && field % 2 != carry
    ensures (field + carry) % 2 == 1 && field + carry < limit
  {
  }

  /** The digits below `bit` plus the unread part and the carry make up the signed scalar. */
  ghost predicate Balanced(d: seq<int>, s: nat, sign: int, carry: int)
  {
    Value(d, 2) + Signed(sign, Scale(2, |d|, High(s, 2, |d|) + carry)) == Signed(sign, s)
  }

  lemma SkipKeeps(d: seq<int>, s: nat, sign: int, carry: nat)
    requires Balanced(d, s, sign, carry) && carry <= 1 && Bits(s, |d|, 1) == carry
    ensures Balanced(d + [0], s, sign, carry)
  {
    OneBit(s, |d|);
    ValueSnoc(d, 2, 0);
    ScaleZero(2, |d|);
    assert High(s, 2, |d|) + carry == 2 * (High(s, 2, |d| + 1) + carry);
  }

  /** A digit followed by `now - 1` zeros. */
  lemma {:induction false} ValueOfDigit(d: seq<int>, x: int, d': seq<int>)
    requires |d'| > |d| && d'[..|d|] == d && d'[|d|] == x
    requires forall k :: |d| < k < |d'| ==> d'[k] == 0
    ensures Value(d', 2) == Value(d, 2) + Scale(2, |d|, x)
  {
    ValueLeadingZeros(d', 2, |d| + 1);
    assert d'[..|d| + 1] == d + [x];
    ValueSnoc(d, 2, x);
  }

  lemma DigitKeeps(d: seq<int>, s: nat, sign: int, carry: nat, now: nat, digit: int, carry': nat, d': seq<int>)
    requires Balanced(d, s, sign, carry)
    requires |d'| == |d| + now && now >= 1 && d'[..|d|] == d && (forall k :: |d| < k < |d'| ==> d'[k] == 0)
    requires d'[|d|] == Signed(sign, digit)
    requires High(s, 2, |d|) + carry == digit + Pow2(now) * (High(s, 2, |d| + now) + carry')
    ensures Balanced(d', s, sign, carry')
  {
    var n := |d|;
    var above := High(s, 2, n + now) + carry';
    ValueOfDigit(d, Signed(sign, digit), d');
    ScaleSigned(n, sign, digit);
    ScaleAdd(2, n, digit, Pow2(now) * above);
    ScaleJump(n, now, above);
  }

  /** Reading a window: the unread part splits into the digit and what is above, carry included. */
  lemma WindowSplits(s: nat, bit: nat, w: nat, now: nat, carry: nat, word: nat)
    requires 2 <= w && 1 <= now <= w && carry <= 1 && Bits(s, bit, 1) != carry
    requires word == Bits(s, bit, now) + carry
    ensures Digit(Centered(word, w), Pow2(w - 1)) && Centered(word, w) != 0
    ensures WindowCarry(word, w) <= 1 && (now < w ==> WindowCarry(word, w) == 0)
    ensures High(s, 2, bit) + carry == Centered(word, w) + Pow2(now) * (High(s, 2, bit + now) + WindowCarry(word, w))
  {
    WordFits(s, bit, now, carry);
    SignedDigit(word, w, now);
    MulDistributes(Pow2(now), High(s, 2, bit + now), WindowCarry(word, w));
  }

  /** Nonzero digits are at least `w` places apart. */
  predicate Sparse(d: seq<int>, w: nat) {
    forall i, j :: 0 <= i < j < |d| && d[i] != 0 && d[j] != 0 ==> j - i >= w
  }

  /** The digit loop before it looks at `bit`: everything from there on is still zero. */
  ghost predicate LoopState(d: seq<int>, bit: nat, s: nat, sign: int, carry: nat, w: nat)
    requires w >= 1
  {
    && bit <= |d| && carry <= 1
    && Balanced(d[..bit], s, sign, carry)
    && Shape(d, bit, w)
    && (bit == |d| ==> carry == 0)
  }

  ghost predicate Shape(d: seq<int>, bit: nat, w: nat)
    requires w >= 1
  {
    && Legal(d, Pow2(w - 1)) && Sparse(d, w)
    && (forall k :: bit <= k < |d| ==> d[k] == 0)
    && (forall k :: 0 <= k < bit && k < |d| && d[k] != 0 ==> k + w <= bit || bit == |d|)
  }

  /** A bit equal to the carry leaves a zero digit; the top bit is zero, so the carry dies there. */
  lemma SkipState(d: seq<int>, bit: nat, s: nat, sign: int, carry: nat, w: nat)
    requires w >= 1 && LoopState(d, bit, s, sign, carry, w) && bit < |d| && s < Pow2(|d| - 1)
    requires Bits(s, bit, 1) == carry
    ensures LoopState(d, bit + 1, s, sign, carry, w)
  {
    SkipKeeps(d[..bit], s, sign, carry);
    assert d[..bit + 1] == d[..bit] + [0];
    if bit + 1 == |d| {
      HighBound(s, bit, bit);
      assert Pow2(0) == 1;
      OneBit(s, bit);
    }
  }

  lemma FieldBelow(x: nat, field: nat, p: nat, h: nat)
    requires x == field + p * h
    ensures field <= x
  {
    MulMonotone(0, h, p);
  }

  /** The last window leaves no carry. */
  lemma LastCarry(s: nat, bit: nat, w: nat, len: nat, carry: nat, word: nat)
    requires 2 <= w && carry <= 1 && bit + w == len && s < Pow2(len - 1) && Bits(s, bit, 1) != carry
    requires word == Bits(s, bit, w) + carry
    ensures WindowCarry(word, w) == 0
  {
    WordFits(s, bit, w, carry);
    assert Bits(s, bit, w) <= High(s, 2, bit) < Pow2(w - 1) by {
      HighBound(s, bit, len - 1);
      FieldSplit(s, bit, w);
      FieldBelow(High(s, 2, bit), Bits(s, bit, w), Pow2(w), High(s, 2, bit + w));
    }
    Pow2Even(w - 1);
    CarryIsTopBit(word, w);
  }

  lemma DigitShape(d: seq<int>, bit: nat, w: nat, now: nat, x: int)
    requires w >= 2 && Shape(d, bit, w) && bit < |d|
    requires now == (if w > |d| - bit then |d| - bit else w)
    requires Digit(x, Pow2(w - 1))
    ensures Shape(d[bit := x], bit + now, w)
  {
  }

  lemma DigitBalance(d: seq<int>, bit: nat, s: nat, sign: int, carry: nat, now: nat, digit: int, carry': nat)
    requires 1 <= now && bit + now <= |d| && Balanced(d[..bit], s, sign, carry)
    requires forall k :: bit <= k < |d| ==> d[k] == 0
    requires High(s, 2, bit) + carry == digit + Pow2(now) * (High(s, 2, bit + now) + carry')
    ensures Balanced(d[bit := Signed(sign, digit)][..bit + now], s, sign, carry')
  {
    var low := d[bit := Signed(sign, digit)][..bit + now];
    assert low[..bit] == d[..bit];
    DigitKeeps(d[..bit], s, sign, carry, now, digit, carry', low);
  }

  lemma DigitState(d: seq<int>, bit: nat, s: nat, sign: int, carry: nat, w: nat, now: nat, word: nat)
    requires w >= 2 && LoopState(d, bit, s, sign, carry, w) && bit < |d| && s < Pow2(|d| - 1)
    requires Bits(s, bit, 1) != carry
    requires now == (if w > |d| - bit then |d| - bit else w)
    requires word == Bits(s, bit, now) + carry
    ensures LoopState(d[bit := Signed(sign, Centered(word, w))], bit + now, s, sign, WindowCarry(word, w), w)
    ensures Signed(sign, Centered(word, w)) != 0
  {
    var digit, carry' := Centered(word, w), WindowCarry(word, w);
    WindowSplits(s, bit, w, now, carry, word);
    var d' := d[bit := Signed(sign, digit)];
    assert Shape(d', bit + now, w) by {
      NegatedDigit(digit, Pow2(w - 1));
      DigitShape(d, bit, w, now, Signed(sign, digit));
    }
    assert Balanced(d'[..bit + now], s, sign, carry') by {
      DigitBalance(d, bit, s, sign, carry, now, digit, carry');
    }
    if bit + now == |d| && now == w {
      LastCarry(s, bit, w, |d|, carry, word);
    }
  }

  lemma NegatedDigit(x: int, b: nat)
    requires Digit(x, b)
    ensures Digit(-x, b)
  {
  }

  /**
   * `secp256k1_ecmult_wnaf`: the digits denote `a` modulo `n`; each is zero or odd with magnitude
   * below 2^(w-1); nonzero ones are at least `w` places apart; none is set from `count` on.
   */
  method EcmultWnaf(wnaf: array<int>, a: nat, n: nat, w: nat) returns (count: nat)
    requires 2 <= w <= 31 && wnaf.Length >= 1
    requires a < n < Pow2(wnaf.Length)
    modifies wnaf
    ensures Value(wnaf[..], 2) == a || Value(wnaf[..], 2) == a - n
    ensures Legal(wnaf[..], Pow2(w - 1)) && Sparse(wnaf[..], w)
    ensures count <= wnaf.Length && forall k :: count <= k < wnaf.Length ==> wnaf[k] == 0
    ensures count > 0 ==> wnaf[count - 1] != 0
  {
    var len := wnaf.Length;
    for i := 0 to len
      invariant forall k :: 0 <= k < i ==> wnaf[k] == 0
    {
      wnaf[i] := 0;
    }
    var s, sign := a, 1;
    if Bits(s, len - 1, 1) != 0 {
      s, sign := n - a, -1;
    }
    TopBit(a, len);

    count := SetDigits(wnaf, s, sign, w);
  }

  /** The digit loop on a cleared buffer. */
  method SetDigits(wnaf: array<int>, s: nat, sign: int, w: nat) returns (count: nat)
    requires 2 <= w && wnaf.Length >= 1 && s < Pow2(wnaf.Length - 1)
    requires forall k :: 0 <= k < wnaf.Length ==> wnaf[k] == 0
    modifies wnaf
    ensures Value(wnaf[..], 2) == Signed(sign, s)
    ensures Legal(wnaf[..], Pow2(w - 1)) && Sparse(wnaf[..], w)
    ensures count <= wnaf.Length && forall k :: count <= k < wnaf.Length ==> wnaf[k] == 0
    ensures count > 0 ==> wnaf[count - 1] != 0
  {
    var len := wnaf.Length;
    count := 0;
    var bit, carry := 0, 0;
    StartState(wnaf[..], s, sign, w);
    while bit < len
      invariant LoopState(wnaf[..], bit, s, sign, carry, w)
      invariant count <= bit && Ends(wnaf[..], count)
    {
      if Bits(s, bit, 1) == carry {
        SkipState(wnaf[..], bit, s, sign, carry, w);
        bit := bit + 1;
      } else {
        var now := if w > len - bit then len - bit else w;
        var word := Bits(s, bit, now) + carry;
        ghost var before := wnaf[..];
        DigitState(before, bit, s, sign, carry, w, now, word);
        wnaf[bit] := Signed(sign, Centered(word, w));
        assert wnaf[..] == before[bit := Signed(sign, Centered(word, w))];
        NewEnd(before, count, bit, Signed(sign, Centered(word, w)));
        carry := WindowCarry(word, w);
        count := bit + 1;
        bit := bit + now;
      }
    }
    EndState(wnaf[..], s, sign, w);
  }

  /** The digits end with the last non-zero one, at `count - 1`. */
  ghost predicate Ends(d: seq<int>, count: nat) {
    count <= |d| && (forall k :: count <= k < |d| ==> d[k] == 0) && (count > 0 ==> d[count - 1] != 0)
  }

  lemma NewEnd(d: seq<int>, count: nat, bit: nat, x: int)
    requires Ends(d, count) && count <= bit < |d| && x != 0
    ensures Ends(d[bit := x], bit + 1)
  {
  }

  lemma StartState(d: seq<int>, s: nat, sign: int, w: nat)
    requires w >= 1 && |d| >= 1 && forall k :: 0 <= k < |d| ==> d[k] == 0
    ensures LoopState(d, 0, s, sign, 0, w)
  {
    assert d[..0] == [];
  }

  lemma EndState(d: seq<int>, s: nat, sign: int, w: nat)
    requires w >= 1 && s < Pow2(|d|) && LoopState(d, |d|, s, sign, 0, w)
    ensures Value(d, 2) == Signed(sign, s)
  {
    assert d[..|d|] == d;
    HighBound(s, |d|, |d|);
    assert Pow2(0) == 1;
    ScaleZero(2, |d|);
  }

  /** The top bit tells whether the scalar or its negation is below half the range. */
  lemma TopBit(a: nat, len: nat)
    requires len >= 1 && a < Pow2(len)
    ensures Bits(a, len - 1, 1) == if a >= Pow2(len - 1) then 1 else 0
  {
    assert Pow2(1) == 2;
    var half := Pow2(len - 1);
    if a >= half {
      DivModUnique(a, half, 1, a - half);
    } else {
      DivModUnique(a, half, 0, a);
    }
  }
}
