/**
 * Shift registers with linear feedback over an arbitrary group, as used by checksums.
 */
module LinearRegister {
  import opened Group

  /** Addition undoes itself, as exclusive or does. */
  ghost predicate SelfInverse<T(!new)>(g: Abelian<T>) {
    forall x :: g.neg(x) == x
  }

  /** The bits of a symbol. */
  datatype Bits = Bits(b0: bool, b1: bool, b2: bool, b3: bool, b4: bool)

  function Differ(p: Bits, q: Bits): Bits {
    Bits(p.b0 != q.b0, p.b1 != q.b1, p.b2 != q.b2, p.b3 != q.b3, p.b4 != q.b4)
  }

  /** The feedback words, one for each bit of the symbol that leaves the register. */
  datatype Taps<T> = Taps(k0: T, k1: T, k2: T, k3: T, k4: T)

  /**
   * A register: a symbol enters with `input`, the bits that leave are `top`, and each of them
   * conditionally adds its tap.
   */
  datatype Register<!S(!new), !D(!new)> = Register(input: (S, D) -> S, top: S -> Bits, addIf: (S, bool, S) -> S, taps: Taps<S>) {

    function Feed(x: S, b: Bits): S {
      addIf(addIf(addIf(addIf(addIf(x, b.b0, taps.k0), b.b1, taps.k1), b.b2, taps.k2), b.b3, taps.k3), b.b4, taps.k4)
    }

    function Step(c: S, d: D): S {
      Feed(input(c, d), top(c))
    }

    function Run(c: S, v: seq<D>): S {
      if |v| == 0 then c else Step(Run(c, v[..|v| - 1]), v[|v| - 1])
    }

    method Advance(before: S, d: D) returns (c: S)
      ensures c == Step(before, d)
    {
      var c0 := top(before);
      c := input(before, d);
      c := addIf(c, c0.b0, taps.k0);
      c := addIf(c, c0.b1, taps.k1);
      c := addIf(c, c0.b2, taps.k2);
      c := addIf(c, c0.b3, taps.k3);
      c := addIf(c, c0.b4, taps.k4);
    }

    method AdvanceAll(start: S, v: seq<D>) returns (c: S)
      ensures c == Run(start, v)
    {
      c := start;
      for i := 0 to |v|
        invariant c == Run(start, v[..i])
      {
        assert v[..i + 1][..i] == v[..i];
        c := Advance(c, v[i]);
      }
      assert v[..|v|] == v;
    }

    // ----- Laws -----

    ghost predicate InputLinearAt(g: Abelian<S>, h: Abelian<D>, a: S, b: S, d: D, e: D) {
      input(g.add(a, b), h.add(d, e)) == g.add(input(a, d), input(b, e))
    }

    ghost predicate TopLinearAt(g: Abelian<S>, a: S, b: S) {
      top(g.add(a, b)) == Differ(top(a), top(b))
    }

    /** The parts of the register respect addition in the groups of states and symbols. */
    ghost predicate Linear(g: Abelian<S>, h: Abelian<D>) {
      && g.Lawful() && SelfInverse(g)
      && (forall a, b, d, e :: InputLinearAt(g, h, a, b, d, e))
      && (forall a, b :: TopLinearAt(g, a, b))
      && (forall x, k :: addIf(x, true, k) == g.add(x, k))
      && (forall x, k :: addIf(x, false, k) == x)
    }

    /** On the states of `ok`, which steps keep, only the zero state steps to zero without input. */
    ghost predicate Faithful(g: Abelian<S>, h: Abelian<D>, ok: S -> bool) {
      && (forall a, d :: ok(a) ==> ok(Step(a, d)))
      && (forall a, b :: ok(a) && ok(b) ==> ok(g.add(a, b)))
      && (forall a :: ok(a) && Step(a, h.zero) == g.zero ==> a == g.zero)
    }
  }

  lemma AddIfLinear<S(!new), D(!new)>(r: Register<S, D>, g: Abelian<S>, h: Abelian<D>, x: S, y: S, p: bool, q: bool, k: S)
    requires r.Linear(g, h)
    ensures r.addIf(g.add(x, y), p != q, k) == g.add(r.addIf(x, p, k), r.addIf(y, q, k))
  {
    assert g.neg(k) == k && g.Inverse(k);
    if p && q {
      Interchange(g, x, k, y, k);
      assert g.Unit(g.add(x, y));
    } else if p {
      assert g.Assoc(x, k, y) && g.Comm(k, y) && g.Assoc(x, y, k);
    } else if q {
      assert g.Assoc(x, y, k);
    }
  }

  lemma FeedLinear<S(!new), D(!new)>(r: Register<S, D>, g: Abelian<S>, h: Abelian<D>, x: S, y: S, p: Bits, q: Bits)
    requires r.Linear(g, h)
    ensures r.Feed(g.add(x, y), Differ(p, q)) == g.add(r.Feed(x, p), r.Feed(y, q))
  {
    var x1, y1 := r.addIf(x, p.b0, r.taps.k0), r.addIf(y, q.b0, r.taps.k0);
    var x2, y2 := r.addIf(x1, p.b1, r.taps.k1), r.addIf(y1, q.b1, r.taps.k1);
    var x3, y3 := r.addIf(x2, p.b2, r.taps.k2), r.addIf(y2, q.b2, r.taps.k2);
    var x4, y4 := r.addIf(x3, p.b3, r.taps.k3), r.addIf(y3, q.b3, r.taps.k3);
    AddIfLinear(r, g, h, x, y, p.b0, q.b0, r.taps.k0);
    AddIfLinear(r, g, h, x1, y1, p.b1, q.b1, r.taps.k1);
    AddIfLinear(r, g, h, x2, y2, p.b2, q.b2, r.taps.k2);
    AddIfLinear(r, g, h, x3, y3, p.b3, q.b3, r.taps.k3);
    AddIfLinear(r, g, h, x4, y4, p.b4, q.b4, r.taps.k4);
  }

  /** A step respects addition. */
  lemma StepLinear<S(!new), D(!new)>(r: Register<S, D>, g: Abelian<S>, h: Abelian<D>, a: S, b: S, d: D, e: D)
    requires r.Linear(g, h)
    ensures r.Step(g.add(a, b), h.add(d, e)) == g.add(r.Step(a, d), r.Step(b, e))
  {
    assert r.InputLinearAt(g, h, a, b, d, e) && r.TopLinearAt(g, a, b);
    FeedLinear(r, g, h, r.input(a, d), r.input(b, e), r.top(a), r.top(b));
  }

  /** Input and feedback are added. */
  lemma StepSplits<S(!new), D(!new)>(r: Register<S, D>, g: Abelian<S>, h: Abelian<D>, c: S, d: D)
    requires r.Linear(g, h)
    ensures r.Step(c, d) == g.add(r.input(c, d), r.Feed(g.zero, r.top(c)))
  {
    var none, x := Bits(false, false, false, false, false), r.input(c, d);
    FeedLinear(r, g, h, x, g.zero, none, r.top(c));
    assert Differ(none, r.top(c)) == r.top(c) && g.Unit(x);
  }

  lemma {:induction false} RunConcat<S(!new), D(!new)>(r: Register<S, D>, c: S, u: seq<D>, v: seq<D>)
    ensures r.Run(c, u + v) == r.Run(r.Run(c, u), v)
    decreases |v|
  {
    if |v| == 0 {
      assert u + v == u;
    } else {
      var n := |v| - 1;
      assert (u + v)[..|u + v| - 1] == u + v[..n];
      RunConcat(r, c, u, v[..n]);
    }
  }

  /** The pointwise sum. */
  ghost predicate Sum<D(!new)>(h: Abelian<D>, u: seq<D>, v: seq<D>, w: seq<D>) {
    |u| == |v| == |w| && forall i :: 0 <= i < |w| ==> w[i] == h.add(u[i], v[i])
  }

  /** A run respects addition. */
  lemma {:induction false} RunLinear<S(!new), D(!new)>(r: Register<S, D>, g: Abelian<S>, h: Abelian<D>,
                                                       a: S, b: S, u: seq<D>, v: seq<D>, w: seq<D>)
    requires r.Linear(g, h) && Sum(h, u, v, w)
    ensures r.Run(g.add(a, b), w) == g.add(r.Run(a, u), r.Run(b, v))
    decreases |w|
  {
    if |w| > 0 {
      var n := |w| - 1;
      RunLinear(r, g, h, a, b, u[..n], v[..n], w[..n]);
      StepLinear(r, g, h, r.Run(a, u[..n]), r.Run(b, v[..n]), u[n], v[n]);
    }
  }

  lemma {:induction false} RunKeeps<S(!new), D(!new)>(r: Register<S, D>, g: Abelian<S>, h: Abelian<D>, ok: S -> bool, a: S, v: seq<D>)
    requires r.Faithful(g, h, ok) && ok(a)
    ensures ok(r.Run(a, v))
    decreases |v|
  {
    if |v| > 0 {
      RunKeeps(r, g, h, ok, a, v[..|v| - 1]);
    }
  }

  /** In a self-inverse group only equal elements add up to zero. */
  lemma SumZero<S(!new)>(g: Abelian<S>, a: S, b: S)
    requires g.Lawful() && SelfInverse(g)
    ensures g.add(a, b) == g.zero <==> a == b
  {
    assert g.neg(a) == a && g.Inverse(a);
    if g.add(a, b) == g.zero {
      InverseUnique(g, a, b);
    }
  }

  lemma SumSolve<S(!new)>(g: Abelian<S>, a: S, p: S, k: S)
    requires g.Lawful() && SelfInverse(g)
    ensures g.add(g.add(a, p), k) == g.zero <==> p == g.add(a, k)
  {
    assert g.Comm(a, p) && g.Assoc(p, a, k);
    SumZero(g, p, g.add(a, k));
  }

  /** Distinct states stay distinct, whatever comes in. */
  lemma {:induction false} RunInjective<S(!new), D(!new)>(r: Register<S, D>, g: Abelian<S>, h: Abelian<D>, ok: S -> bool, a: S, b: S, v: seq<D>)
    requires r.Linear(g, h) && r.Faithful(g, h, ok) && h.Lawful() && SelfInverse(h) && ok(a) && ok(b) && a != b
    ensures r.Run(a, v) != r.Run(b, v)
    decreases |v|
  {
    if |v| > 0 {
      var n := |v| - 1;
      var x, y, d := r.Run(a, v[..n]), r.Run(b, v[..n]), v[n];
      RunKeeps(r, g, h, ok, a, v[..n]);
      RunKeeps(r, g, h, ok, b, v[..n]);
      RunInjective(r, g, h, ok, a, b, v[..n]);
      SumZero(h, d, d);
      StepLinear(r, g, h, x, y, d, d);
      SumZero(g, x, y);
      SumZero(g, r.Step(x, d), r.Step(y, d));
    }
  }

  // ----- What a register holds -----

  /** Reads a state as a list of symbols: the last symbol, the state without it, and how many there are. */
  datatype Packing<!S(!new), !D(!new)> = Packing(empty: S, high: S -> S, low: S -> D, within: (S, nat) -> bool) {

    function Digits(x: S, n: nat): (ds: seq<D>)
      ensures |ds| == n
    {
      if n == 0 then [] else Digits(high(x), n - 1) + [low(x)]
    }

    /** The state without its last `k` symbols. */
    function Drop(x: S, k: nat): S
      decreases k
    {
      if k == 0 then x else Drop(high(x), k - 1)
    }

    /** While there is room, a step of `r` appends a symbol. */
    ghost predicate Holds(r: Register<S, D>, width: nat) {
      && (forall x :: within(x, 0) <==> x == empty)
      && (forall x, n: nat :: 0 < n <= width ==> (within(x, n) <==> within(high(x), n - 1)))
      && (forall c, d, n: nat :: n < width && within(c, n) ==> high(r.Step(c, d)) == c && low(r.Step(c, d)) == d)
      && (forall x, n: nat :: 0 < n <= width && within(x, n) ==> r.Step(high(x), low(x)) == x)
    }
  }

  lemma {:induction false} DigitAt<S(!new), D(!new)>(p: Packing<S, D>, x: S, n: nat, i: nat)
    requires i < n
    ensures p.Digits(x, n)[i] == p.low(p.Drop(x, n - 1 - i))
    decreases n
  {
    if i < n - 1 {
      DigitAt(p, p.high(x), n - 1, i);
    }
  }

  /** Packing respects sums. */
  ghost predicate PacksSums<S(!new), D(!new)>(p: Packing<S, D>, g: Abelian<S>, h: Abelian<D>) {
    forall a, b :: p.low(g.add(a, b)) == h.add(p.low(a), p.low(b)) && p.high(g.add(a, b)) == g.add(p.high(a), p.high(b))
  }

  lemma {:induction false} DigitsAdd<S(!new), D(!new)>(p: Packing<S, D>, g: Abelian<S>, h: Abelian<D>, a: S, b: S, n: nat)
    requires PacksSums(p, g, h)
    ensures Sum(h, p.Digits(a, n), p.Digits(b, n), p.Digits(g.add(a, b), n))
    decreases n
  {
    if n > 0 {
      DigitsAdd(p, g, h, p.high(a), p.high(b), n - 1);
    }
  }

  lemma EightDigits<S(!new), D(!new)>(p: Packing<S, D>, x: S)
    ensures
      var x1 := p.high(x);
      var x2 := p.high(x1);
      var x3 := p.high(x2);
      var x4 := p.high(x3);
      var x5 := p.high(x4);
      var x6 := p.high(x5);
      var x7 := p.high(x6);
      p.Digits(x, 8) == [p.low(x7), p.low(x6), p.low(x5), p.low(x4), p.low(x3), p.low(x2), p.low(x1), p.low(x)]
  {
    var x2 := p.high(p.high(x));
    var x4 := p.high(p.high(x2));
    var x6 := p.high(p.high(x4));
    assert p.Digits(x6, 2) == [p.low(p.high(x6)), p.low(x6)];
    assert p.Digits(x4, 4) == p.Digits(x6, 2) + [p.low(p.high(x4)), p.low(x4)];
    assert p.Digits(x2, 6) == p.Digits(x4, 4) + [p.low(p.high(x2)), p.low(x2)];
    assert p.Digits(x, 8) == p.Digits(x2, 6) + [p.low(p.high(x)), p.low(x)];
  }

  /** An empty register holds the symbols that come in as they are. */
  lemma {:induction false} Packs<S(!new), D(!new)>(p: Packing<S, D>, r: Register<S, D>, width: nat, e: seq<D>)
    requires p.Holds(r, width) && |e| <= width
    ensures p.within(r.Run(p.empty, e), |e|) && p.Digits(r.Run(p.empty, e), |e|) == e
    decreases |e|
  {
    if |e| > 0 {
      var n := |e| - 1;
      var c, d := r.Run(p.empty, e[..n]), e[n];
      Packs(p, r, width, e[..n]);
      assert p.high(r.Step(c, d)) == c && p.low(r.Step(c, d)) == d;
      assert p.Digits(r.Step(c, d), |e|) == p.Digits(c, n) + [d];
      assert e == e[..n] + [d];
    }
  }

  lemma {:induction false} Unpacks<S(!new), D(!new)>(p: Packing<S, D>, r: Register<S, D>, width: nat, x: S, n: nat)
    requires p.Holds(r, width) && n <= width && p.within(x, n)
    ensures r.Run(p.empty, p.Digits(x, n)) == x
    decreases n
  {
    if n > 0 {
      Unpacks(p, r, width, p.high(x), n - 1);
      var ds := p.Digits(x, n);
      assert ds[..n - 1] == p.Digits(p.high(x), n - 1);
    }
  }

  /** Two inputs of one length that fit leave different states. */
  lemma PacksInjective<S(!new), D(!new)>(p: Packing<S, D>, r: Register<S, D>, width: nat, e: seq<D>, f: seq<D>)
    requires p.Holds(r, width) && |e| == |f| <= width && r.Run(p.empty, e) == r.Run(p.empty, f)
    ensures e == f
  {
    Packs(p, r, width, e);
    Packs(p, r, width, f);
  }

  /** One input of full width leaves a given state. */
  lemma InputOfState<S(!new), D(!new)>(p: Packing<S, D>, r: Register<S, D>, width: nat, x: S, t: seq<D>)
    requires p.Holds(r, width) && |t| == width && p.within(x, width)
    ensures r.Run(p.empty, t) == x <==> t == p.Digits(x, width)
  {
    Packs(p, r, width, t);
    Unpacks(p, r, width, x, width);
  }

  // ----- Bursts -----

  ghost predicate AllZero<D(!new)>(h: Abelian<D>, w: seq<D>) {
    forall i :: 0 <= i < |w| ==> w[i] == h.zero
  }

  /** An empty register tells every short input from zeros. */
  ghost predicate TellsShort<S(!new), D(!new)>(r: Register<S, D>, g: Abelian<S>, h: Abelian<D>, width: nat) {
    forall w :: |w| <= width && r.Run(g.zero, w) == g.zero ==> AllZero(h, w)
  }

  /** From one state, inputs lead to one state only if their difference leaves an empty register empty. */
  lemma DifferenceRun<S(!new), D(!new)>(r: Register<S, D>, g: Abelian<S>, h: Abelian<D>, c: S, u: seq<D>, v: seq<D>, w: seq<D>)
    requires r.Linear(g, h) && Sum(h, u, v, w)
    ensures r.Run(c, u) == r.Run(c, v) <==> r.Run(g.zero, w) == g.zero
  {
    SumZero(g, c, c);
    RunLinear(r, g, h, c, c, u, v, w);
    SumZero(g, r.Run(c, u), r.Run(c, v));
  }

  lemma NoDifference<D(!new)>(h: Abelian<D>, u: seq<D>, v: seq<D>, w: seq<D>)
    requires h.Lawful() && SelfInverse(h) && Sum(h, u, v, w) && AllZero(h, w)
    ensures u == v
  {
    forall i | 0 <= i < |u| ensures u[i] == v[i] {
      assert w[i] == h.zero;
      SumZero(h, u[i], v[i]);
    }
  }

  lemma ShortDiffers<S(!new), D(!new)>(r: Register<S, D>, g: Abelian<S>, h: Abelian<D>, c: S, u: seq<D>, v: seq<D>, width: nat)
    requires r.Linear(g, h) && TellsShort(r, g, h, width) && h.Lawful() && SelfInverse(h)
    requires |u| == |v| <= width && u != v
    ensures r.Run(c, u) != r.Run(c, v)
  {
    var w := seq(|u|, i requires 0 <= i < |u| => h.add(u[i], v[i]));
    DifferenceRun(r, g, h, c, u, v, w);
    if AllZero(h, w) {
      NoDifference(h, u, v, w);
    }
  }

  /** What differs after a window differs at the end. */
  lemma WindowDiffers<S(!new), D(!new)>(r: Register<S, D>, g: Abelian<S>, h: Abelian<D>, ok: S -> bool, c: S,
                                        front: seq<D>, u: seq<D>, v: seq<D>, back: seq<D>)
    requires r.Linear(g, h) && r.Faithful(g, h, ok) && h.Lawful() && SelfInverse(h) && ok(c)
    requires r.Run(r.Run(c, front), u) != r.Run(r.Run(c, front), v)
    ensures r.Run(c, front + u + back) != r.Run(c, front + v + back)
  {
    var x, y := r.Run(r.Run(c, front), u), r.Run(r.Run(c, front), v);
    RunParts(r, c, front, u, back);
    RunParts(r, c, front, v, back);
    assert ok(x) && ok(y) by {
      RunKeeps(r, g, h, ok, c, front);
      RunKeeps(r, g, h, ok, r.Run(c, front), u);
      RunKeeps(r, g, h, ok, r.Run(c, front), v);
    }
    RunInjective(r, g, h, ok, x, y, back);
  }

  lemma RunParts<S(!new), D(!new)>(r: Register<S, D>, c: S, front: seq<D>, u: seq<D>, back: seq<D>)
    ensures r.Run(c, front + u + back) == r.Run(r.Run(r.Run(c, front), u), back)
  {
    RunConcat(r, c, front, u);
    RunConcat(r, c, front + u, back);
  }

  /** Inputs of any length that differ in one short window never lead to the same state. */
  lemma BurstDiffers<S(!new), D(!new)>(r: Register<S, D>, g: Abelian<S>, h: Abelian<D>, ok: S -> bool, c: S,
                                       front: seq<D>, u: seq<D>, v: seq<D>, back: seq<D>, width: nat)
    requires r.Linear(g, h) && r.Faithful(g, h, ok) && TellsShort(r, g, h, width) && h.Lawful() && SelfInverse(h) && ok(c)
    requires |u| == |v| <= width && u != v
    ensures r.Run(c, front + u + back) != r.Run(c, front + v + back)
  {
    ShortDiffers(r, g, h, r.Run(c, front), u, v, width);
    WindowDiffers(r, g, h, ok, c, front, u, v, back);
  }
}
