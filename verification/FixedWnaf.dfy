/**
 * Fixed-position signed digits of a scalar, as the Pippenger multi-multiplication uses them
 * (src/secp256k1/ecmult_impl.h). The scalar width is a parameter: 256 in the plain configuration.
 */
module FixedWnaf {
  import opened Arithmetic

  /** Number of windows of `w` bits that cover a scalar. */
  function WnafSize(bits: nat, w: nat): (n: nat)
    requires w > 0
  {
    (bits + w - 1) / w
  }

  /** The windows tile the scalar: the last one is nonempty and covers the top bit. */
  lemma WindowsCover(bits: nat, w: nat)
    requires 1 <= w <= bits
    ensures WnafSize(bits, w) >= 1
    ensures (WnafSize(bits, w) - 1) * w < bits <= WnafSize(bits, w) * w
  {
    var n := WnafSize(bits, w);
    var x := bits + w - 1;
    assert x == n * w + x % w;
    MulDistributes(w, n, -1);
    if n <= 0 {
      MulMonotone(n, 0, w);
    }
  }

  /** Width of window `pos`: `w`, except that the last one stops at the top bit. */
  function Width(bits: nat, w: nat, pos: nat): (c: int)
    requires w > 0
  {
    if pos == WnafSize(bits, w) - 1 then bits - (WnafSize(bits, w) - 1) * w else w
  }

  lemma WidthInRange(bits: nat, w: nat, pos: nat)
    requires 1 <= w <= bits && pos < WnafSize(bits, w)
    ensures 1 <= Width(bits, w, pos) <= w
    ensures pos * w + Width(bits, w, pos) <= bits
  {
    WindowsCover(bits, w);
    var n := WnafSize(bits, w);
    MulDistributes(w, n, -1);
    if pos < n - 1 {
      MulMonotone(pos + 1, n - 1, w);
      MulDistributes(w, pos, 1);
    }
  }

  /** Window `pos` of the scalar; the field read never passes the top bit. */
  function Window(bits: nat, s: nat, w: nat, pos: nat): (v: nat)
    requires 1 <= w <= bits && pos < WnafSize(bits, w)
  {
    WidthInRange(bits, w, pos);
    Bits(s, pos * w, Width(bits, w, pos))
  }

  lemma InnerWindow(bits: nat, s: nat, w: nat, pos: nat)
    requires 1 <= w <= bits && pos + 1 < WnafSize(bits, w)
    ensures Window(bits, s, w, pos) < Pow2(w)
    ensures High(s, Pow2(w), pos) == Window(bits, s, w, pos) + Pow2(w) * High(s, Pow2(w), pos + 1)
  {
    BitsSplit(s, pos * w, w);
    HighIsQuotient(s, w, pos);
    HighIsQuotient(s, w, pos + 1);
    MulDistributes(w, pos, 1);
  }

  lemma LastWindow(bits: nat, s: nat, w: nat, pos: nat)
    requires 1 <= w <= bits && pos + 1 == WnafSize(bits, w) && s < Pow2(bits)
    ensures Window(bits, s, w, pos) < Pow2(w)
    ensures High(s, Pow2(w), pos) == Window(bits, s, w, pos)
  {
    WidthInRange(bits, w, pos);
    var c := Width(bits, w, pos);
    BitsSplit(s, pos * w, c);
    assert pos * w + c == bits;
    NothingAbove(s, bits);
    HighIsQuotient(s, w, pos);
    Pow2Monotone(c, w);
  }

  /** Window `pos` is digit `pos` of the scalar in base 2^w, also where the last window is narrower. */
  lemma WindowIsDigit(bits: nat, s: nat, w: nat, pos: nat)
    requires 1 <= w <= bits && pos < WnafSize(bits, w) && s < Pow2(bits)
    ensures Window(bits, s, w, pos) < Pow2(w)
    ensures High(s, Pow2(w), pos) == Window(bits, s, w, pos) + Pow2(w) * High(s, Pow2(w), pos + 1)
  {
    if pos + 1 == WnafSize(bits, w) {
      LastWindow(bits, s, w, pos);
      LastIsTop(bits, s, w);
    } else {
      InnerWindow(bits, s, w, pos);
    }
  }

  lemma LastIsTop(bits: nat, s: nat, w: nat)
    requires 1 <= w <= bits && s < Pow2(bits)
    ensures High(s, Pow2(w), WnafSize(bits, w)) == 0
  {
    WindowsCover(bits, w);
    var n := WnafSize(bits, w);
    Pow2Monotone(bits, n * w);
    NothingAbove(s, n * w);
    HighIsQuotient(s, w, n);
  }

  /** The number that digits in base `b` denote, least significant digit first. */
  ghost function Value(digits: seq<int>, b: nat): int
  {
    if |digits| == 0 then 0
    else Value(digits[..|digits| - 1], b) + Scale(b, |digits| - 1, digits[|digits| - 1])
  }

  lemma ValueSnoc(digits: seq<int>, b: nat, x: int)
    ensures Value(digits + [x], b) == Value(digits, b) + Scale(b, |digits|, x)
  {
    assert (digits + [x])[..|digits|] == digits;
  }

  lemma {:induction false} ValueUpdate(digits: seq<int>, b: nat, k: nat, delta: int)
    requires k < |digits|
    ensures Value(digits[k := digits[k] + delta], b) == Value(digits, b) + Scale(b, k, delta)
  {
    var n := |digits| - 1;
    var d' := digits[k := digits[k] + delta];
    if k == n {
      assert d'[..n] == digits[..n];
      ScaleAdd(b, k, digits[k], delta);
    } else {
      ValueUpdate(digits[..n], b, k, delta);
      assert d'[..n] == digits[..n][k := digits[k] + delta];
    }
  }

  /** Moving one unit of digit `k + 1` into `b` units of digit `k` leaves the value alone. */
  lemma ValueCarry(digits: seq<int>, b: nat, k: nat, unit: int)
    requires k + 1 < |digits|
    ensures Value(digits[k := digits[k] + b * unit][k + 1 := digits[k + 1] - unit], b) == Value(digits, b)
  {
    var d1 := digits[k := digits[k] + b * unit];
    ValueUpdate(digits, b, k, b * unit);
    ValueUpdate(d1, b, k + 1, -unit);
    ScaleNeg(b, k + 1, unit);
  }

  lemma {:induction false} ValueLeadingZeros(digits: seq<int>, b: nat, n: nat)
    requires n <= |digits|
    requires forall k :: n <= k < |digits| ==> digits[k] == 0
    ensures Value(digits, b) == Value(digits[..n], b)
    decreases |digits|
  {
    if n == |digits| {
      assert digits[..n] == digits;
    } else {
      var m := |digits| - 1;
      ValueLeadingZeros(digits[..m], b, n);
      assert digits[..m][..n] == digits[..n];
      ScaleZero(b, m);
    }
  }

  /** Zero, or odd with magnitude below `b`. */
  predicate Digit(x: int, b: nat) {
    x == 0 || (x % 2 == 1 && -x < b && x < b)
  }

  /** An odd digit stays legal when it is moved across zero by an even radix. */
  lemma ShiftedDigit(x: int, b: nat)
    requires Digit(x, b) && x != 0 && b % 2 == 0
    ensures x < 0 ==> Digit(x + b, b) && x + b > 0
    ensures x > 0 ==> Digit(x - b, b)
  {
    assert b == 2 * (b / 2);
  }

  predicate Legal(d: seq<int>, b: nat) {
    forall k :: 0 <= k < |d| ==> Digit(d[k], b)
  }

  /** The state of the digit loop before it handles window `|d|`. */
  ghost predicate Partial(d: seq<int>, s: nat, skew: int, b: nat)
    requires b > 0
  {
    Balanced(d, s, skew, b) && Digits(d, b)
  }

  /** Digits read so far plus the unread part make up the skewed scalar. */
  ghost predicate Balanced(d: seq<int>, s: nat, skew: int, b: nat)
    requires b > 0
  {
    Value(d, b) + Scale(b, |d|, High(s, b, |d|)) == s + skew
  }

  /** All digits legal, the newest one positive. */
  predicate Digits(d: seq<int>, b: nat) {
    && |d| >= 1
    && Legal(d, b)
    && d[|d| - 1] > 0
  }

  /** The first window, made odd by the skew. */
  lemma FirstWindow(s: nat, b: nat, first: int, skew: int)
    requires b > 0 && b % 2 == 0
    requires skew == (if s % 2 == 0 then 1 else 0)
    requires first == s % b + skew
    ensures Partial([first], s, skew, b)
  {
    EvenRadix(s, b);
    ValueSnoc([], b, first);
    assert [] + [first] == [first];
    assert Scale(b, 1, High(s, b, 1)) == Scale(b, 0, b * (s / b));
  }

  lemma FirstWindowRead(s: nat, w: nat, skew: int)
    requires w >= 1 && skew == (if s % 2 == 0 then 1 else 0)
    ensures Partial([Bits(s, 0, w) + skew], s, skew, Pow2(w))
  {
    BitsFromZero(s, w);
    Pow2Even(w);
    FirstWindow(s, Pow2(w), Bits(s, 0, w) + skew, skew);
  }

  lemma EvenRadix(s: nat, b: nat)
    requires b > 0 && b % 2 == 0
    ensures s == s % b + b * (s / b)
    ensures (s % b) % 2 == s % 2
  {
    var h, q := b / 2, s / b;
    assert s == s % b + b * q;
    assert b * q == 2 * (h * q) by { MulAssoc(2, h, q); }
  }

  /** Appending digit `|d|`: an even window borrows `b` from the digit below it. */
  function Extend(d: seq<int>, b: nat, val: nat): seq<int>
    requires |d| >= 1
  {
    if val % 2 == 0 then d[|d| - 1 := d[|d| - 1] - b] + [val + 1] else d + [val]
  }

  lemma BorrowValue(d: seq<int>, b: nat, val: nat, d': seq<int>)
    requires |d| >= 1
    requires d' == d[|d| - 1 := d[|d| - 1] - b]
    ensures Value(d' + [val + 1], b) == Value(d, b) + Scale(b, |d|, val)
  {
    var n := |d|;
    var borrow: int := b;
    ValueUpdate(d, b, n - 1, -borrow);
    ScaleNeg(b, n - 1, borrow);
    ValueSnoc(d', b, val + 1);
    ScaleAdd(b, n, val, 1);
    assert Scale(b, n, 1) == Scale(b, n - 1, borrow);
  }

  lemma ExtendValue(d: seq<int>, b: nat, val: nat)
    requires |d| >= 1
    ensures Value(Extend(d, b, val), b) == Value(d, b) + Scale(b, |d|, val)
  {
    if val % 2 == 0 {
      BorrowValue(d, b, val, d[|d| - 1 := d[|d| - 1] - b]);
    } else {
      ValueSnoc(d, b, val);
    }
  }

  lemma ExtendDigits(d: seq<int>, b: nat, val: nat)
    requires b % 2 == 0 && val < b && Digits(d, b)
    ensures Digits(Extend(d, b, val), b)
  {
    ShiftedDigit(d[|d| - 1], b);
  }

  lemma NextWindow(d: seq<int>, s: nat, skew: int, b: nat, val: nat)
    requires b > 0 && b % 2 == 0
    requires Partial(d, s, skew, b)
    requires val < b && High(s, b, |d|) == val + b * High(s, b, |d| + 1)
    ensures Partial(Extend(d, b, val), s, skew, b)
  {
    ScaleAdd(b, |d|, val, b * High(s, b, |d| + 1));
    ExtendValue(d, b, val);
    ExtendDigits(d, b, val);
  }

  /** What the zeroing rule does to the two digits below the newest one. */
  function Settle(d: seq<int>, b: nat): seq<int>
    requires |d| >= 3
  {
    var n := |d| - 1;
    if d[n - 1] == 1 && d[n - 2] < 0 then d[n - 2 := d[n - 2] + b][n - 1 := 0]
    else if d[n - 1] == -1 && d[n - 2] > 0 then d[n - 2 := d[n - 2] - b][n - 1 := 0]
    else d
  }

  lemma SettleValue(d: seq<int>, b: nat)
    requires |d| >= 3
    ensures Value(Settle(d, b), b) == Value(d, b)
  {
    var n := |d| - 1;
    if d[n - 1] == 1 && d[n - 2] < 0 {
      ValueCarry(d, b, n - 2, 1);
    } else if d[n - 1] == -1 && d[n - 2] > 0 {
      ValueCarry(d, b, n - 2, -1);
    }
  }

  lemma SettleDigits(d: seq<int>, b: nat)
    requires b % 2 == 0 && |d| >= 3 && Digits(d, b)
    ensures Digits(Settle(d, b), b)
  {
    if d[|d| - 3] != 0 {
      ShiftedDigit(d[|d| - 3], b);
    }
  }

  lemma SettleKeeps(d: seq<int>, s: nat, skew: int, b: nat)
    requires b > 0 && b % 2 == 0 && |d| >= 3 && Partial(d, s, skew, b)
    ensures Partial(Settle(d, b), s, skew, b)
  {
    SettleValue(d, b);
    SettleDigits(d, b);
  }

  /** Appends window `pos` to the row, in place. */
  method ExtendRow(wnaf: array<int>, base: nat, pos: nat, val: nat, b: nat)
    requires 1 <= pos && base + pos < wnaf.Length
    modifies wnaf
    ensures wnaf[base..base + pos + 1] == Extend(old(wnaf[base..base + pos]), b, val)
    ensures forall k :: 0 <= k < wnaf.Length && !(base <= k <= base + pos) ==> wnaf[k] == old(wnaf[k])
  {
    var i := base + pos;
    if val % 2 == 0 {
      wnaf[i - 1] := wnaf[i - 1] - b;
      wnaf[i] := val + 1;
    } else {
      wnaf[i] := val;
    }
  }

  /** The zeroing step at window `pos`, in place. */
  method SettleRow(wnaf: array<int>, base: nat, pos: nat, b: nat)
    requires 2 <= pos && base + pos < wnaf.Length
    modifies wnaf
    ensures wnaf[base..base + pos + 1] == Settle(old(wnaf[base..base + pos + 1]), b)
    ensures forall k :: 0 <= k < wnaf.Length && !(base <= k < base + pos) ==> wnaf[k] == old(wnaf[k])
  {
    var i := base + pos;
    ghost var row := wnaf[base..i + 1];
    assert row[pos - 1] == wnaf[i - 1] && row[pos - 2] == wnaf[i - 2];
    if (wnaf[i - 1] == 1 && wnaf[i - 2] < 0) || (wnaf[i - 1] == -1 && wnaf[i - 2] > 0) {
      if wnaf[i - 1] == 1 {
        wnaf[i - 2] := wnaf[i - 2] + b;
      } else {
        wnaf[i - 2] := wnaf[i - 2] - b;
      }
      wnaf[i - 1] := 0;
    }
    assert forall k :: 0 <= k <= pos ==> wnaf[base..i + 1][k] == Settle(row, b)[k];
  }

  /** Zeroes the digits of the empty windows at the top and returns the highest window in use. */
  method ClearLeading(bits: nat, wnaf: array<int>, base: nat, s: nat, w: nat) returns (maxPos: nat)
    requires 1 <= w <= bits && s < Pow2(bits)
    requires base + WnafSize(bits, w) <= wnaf.Length
    modifies wnaf
    ensures maxPos < WnafSize(bits, w)
    ensures High(s, Pow2(w), maxPos + 1) == 0
    ensures forall k :: base + maxPos < k < base + WnafSize(bits, w) ==> wnaf[k] == 0
    ensures forall k :: 0 <= k < wnaf.Length && !(base < k < base + WnafSize(bits, w)) ==> wnaf[k] == old(wnaf[k])
  {
    var size := WnafSize(bits, w);
    WindowsCover(bits, w);
    LastIsTop(bits, s, w);
    maxPos := size - 1;
    while maxPos > 0
      invariant 0 <= maxPos < size
      invariant High(s, Pow2(w), maxPos + 1) == 0
      invariant forall k :: base + maxPos < k < base + size ==> wnaf[k] == 0
      invariant forall k :: 0 <= k < wnaf.Length && !(base < k < base + size) ==> wnaf[k] == old(wnaf[k])
    {
      var val := Window(bits, s, w, maxPos);
      if val != 0 {
        break;
      }
      WindowIsDigit(bits, s, w, maxPos);
      wnaf[base + maxPos] := 0;
      maxPos := maxPos - 1;
    }
  }

  /** Reads windows 1 to `maxPos` into a row that holds the first one. */
  method ReadWindows(bits: nat, wnaf: array<int>, base: nat, s: nat, w: nat, ghost skew: int, maxPos: nat)
    requires 1 <= w <= bits && s < Pow2(bits)
    requires maxPos < WnafSize(bits, w) && base + WnafSize(bits, w) <= wnaf.Length
    requires Partial(wnaf[base..base + 1], s, skew, Pow2(w))
    modifies wnaf
    ensures Partial(wnaf[base..base + maxPos + 1], s, skew, Pow2(w))
    ensures forall k :: 0 <= k < wnaf.Length && !(base <= k <= base + maxPos) ==> wnaf[k] == old(wnaf[k])
  {
    var b := Pow2(w);
    var pos := 1;
    while pos <= maxPos
      invariant 1 <= pos <= maxPos + 1
      invariant Partial(wnaf[base..base + pos], s, skew, b)
      invariant forall k :: 0 <= k < wnaf.Length && !(base <= k <= base + maxPos) ==> wnaf[k] == old(wnaf[k])
    {
      ReadWindow(bits, wnaf, base, s, w, skew, pos);
      pos := pos + 1;
    }
  }

  /** Window `pos`, and what it does to the two before it. */
  method ReadWindow(bits: nat, wnaf: array<int>, base: nat, s: nat, w: nat, ghost skew: int, pos: nat)
    requires 1 <= w <= bits && s < Pow2(bits)
    requires 1 <= pos < WnafSize(bits, w) && base + WnafSize(bits, w) <= wnaf.Length
    requires Partial(wnaf[base..base + pos], s, skew, Pow2(w))
    modifies wnaf
    ensures Partial(wnaf[base..base + pos + 1], s, skew, Pow2(w))
    ensures forall k :: 0 <= k < wnaf.Length && !(base <= k <= base + pos) ==> wnaf[k] == old(wnaf[k])
  {
    var b := Pow2(w);
    var val := Window(bits, s, w, pos);
    WindowIsDigit(bits, s, w, pos);
    NextWindow(wnaf[base..base + pos], s, skew, b, val);
    ExtendRow(wnaf, base, pos, val, b);
    if pos >= 2 {
      SettleKeeps(wnaf[base..base + pos + 1], s, skew, b);
      SettleRow(wnaf, base, pos, b);
    }
  }

  method ClearRow(wnaf: array<int>, base: nat, size: nat)
    requires base + size <= wnaf.Length
    modifies wnaf
    ensures forall k :: base <= k < base + size ==> wnaf[k] == 0
    ensures forall k :: 0 <= k < wnaf.Length && !(base <= k < base + size) ==> wnaf[k] == old(wnaf[k])
  {
    var i := 0;
    while i < size
      invariant 0 <= i <= size
      invariant forall k :: base <= k < base + i ==> wnaf[k] == 0
      invariant forall k :: 0 <= k < wnaf.Length && !(base <= k < base + size) ==> wnaf[k] == old(wnaf[k])
    {
      wnaf[base + i] := 0;
      i := i + 1;
    }
  }

  /** A row whose digits above `pos` are zero, with nothing of the scalar left unread. */
  lemma CompleteRow(row: seq<int>, pos: nat, s: nat, skew: int, b: nat)
    requires b > 0 && 1 <= pos <= |row|
    requires Partial(row[..pos], s, skew, b) && High(s, b, pos) == 0
    requires forall k :: pos <= k < |row| ==> row[k] == 0
    ensures Value(row, b) == s + skew
    ensures Legal(row, b)
  {
    ValueLeadingZeros(row, b, pos);
    ScaleZero(b, pos);
    forall k | 0 <= k < |row|
      ensures Digit(row[k], b)
    {
      if k < pos {
        assert row[k] == row[..pos][k];
      }
    }
  }

  /** The row of a nonzero scalar, once its skew is known. */
  method FillRow(bits: nat, wnaf: array<int>, base: nat, s: nat, w: nat, skew: int)
    requires 1 <= w <= bits && s < Pow2(bits) && skew == (if s % 2 == 0 then 1 else 0)
    requires base + WnafSize(bits, w) <= wnaf.Length
    modifies wnaf
    ensures Value(wnaf[base..base + WnafSize(bits, w)], Pow2(w)) == s + skew
    ensures Legal(wnaf[base..base + WnafSize(bits, w)], Pow2(w))
    ensures forall k :: 0 <= k < wnaf.Length && !(base <= k < base + WnafSize(bits, w)) ==> wnaf[k] == old(wnaf[k])
  {
    WindowsCover(bits, w);
    wnaf[base] := Bits(s, 0, w) + skew;
    FirstWindowRead(s, w, skew);
    var maxPos := ClearLeading(bits, wnaf, base, s, w);
    assert wnaf[base..base + 1] == [wnaf[base]];
    ReadWindows(bits, wnaf, base, s, w, skew, maxPos);
    ghost var row := wnaf[base..base + WnafSize(bits, w)];
    assert row[..maxPos + 1] == wnaf[base..base + maxPos + 1];
    CompleteRow(row, maxPos + 1, s, skew, Pow2(w));
  }

  /**
   * `secp256k1_wnaf_fixed`: fills the row of `wnaf` that starts at `base` and returns the skew.
   * The row denotes `s + skew` in base 2^w, every digit is zero or odd and below 2^w in magnitude,
   * and nothing outside the row is touched.
   */
  method WnafFixed(bits: nat, wnaf: array<int>, base: nat, s: nat, w: nat) returns (skew: int)
    requires 1 <= w <= bits && s < Pow2(bits)
    requires base + WnafSize(bits, w) <= wnaf.Length
    modifies wnaf
    ensures skew == 0 || skew == 1
    ensures Value(wnaf[base..base + WnafSize(bits, w)], Pow2(w)) - skew == s
    ensures forall k :: base <= k < base + WnafSize(bits, w) ==> Digit(wnaf[k], Pow2(w))
    ensures forall k :: 0 <= k < wnaf.Length && !(base <= k < base + WnafSize(bits, w)) ==> wnaf[k] == old(wnaf[k])
  {
    if s == 0 {
      ClearRow(wnaf, base, WnafSize(bits, w));
      ValueLeadingZeros(wnaf[base..base + WnafSize(bits, w)], Pow2(w), 0);
      return 0;
    }
    skew := if s % 2 == 0 then 1 else 0;
    FillRow(bits, wnaf, base, s, w, skew);
    ghost var row := wnaf[base..base + WnafSize(bits, w)];
    forall k | base <= k < base + WnafSize(bits, w)
      ensures Digit(wnaf[k], Pow2(w))
    {
      assert wnaf[k] == row[k - base];
    }
  }
}
