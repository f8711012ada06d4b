/**
 * Scattered errors (src/cashaddr/cashaddr.cpp): the checksum notices up to four wrong symbols anywhere among
 * 1025. The register holds a polynomial modulo the check polynomial, so its state keeps the values of the
 * input at the roots of that polynomial; and a polynomial with these roots has more than four coefficients.
 */
module CashAddrDistance {
  import opened Group
  import opened LinearRegister
  import opened BinaryField
  import opened QuadraticExtension
  import opened RootBound
  import opened CashAddrChecksum
  import opened CashAddrField
  import opened CashAddrRoots

  const CHECK: seq<Symbol> := [19, 3, 25, 11, 25, 3, 19, 1]

  // ----- A step of the register, symbol by symbol -----

  ghost function State(c: Word): (s: seq<Symbol>)
    ensures |s| == 8
  {
    PACKING.Digits(c, 8)
  }

  lemma LowXor(a: Word, b: Word)
    ensures Low(Xor(a, b)) == XorSymbol(Low(a), Low(b))
  {
  }

  lemma HighXor(a: Word, b: Word)
    ensures High(Xor(a, b)) == Xor(High(a), High(b))
  {
  }

  lemma StateXor(a: Word, b: Word)
    ensures Sum(SYMBOLS, State(a), State(b), State(Xor(a, b)))
  {
    PackingAdds();
    DigitsAdd(PACKING, WORDS, SYMBOLS, a, b, 8);
  }

  lemma PackingAdds()
    ensures PacksSums(PACKING, WORDS, SYMBOLS)
  {
    forall a, b
      ensures PACKING.low(WORDS.add(a, b)) == SYMBOLS.add(PACKING.low(a), PACKING.low(b))
      ensures PACKING.high(WORDS.add(a, b)) == WORDS.add(PACKING.high(a), PACKING.high(b))
    {
      LowXor(a, b);
      HighXor(a, b);
    }
  }

  /** The symbols of a state, first to last. */
  function Symbols(c: Word): seq<Symbol> {
    [Low(c >> 35), Low(c >> 30), Low(c >> 25), Low(c >> 20), Low(c >> 15), Low(c >> 10), Low(c >> 5), Low(c)]
  }

  lemma Shifts(c: Word)
    ensures High(c) == c >> 5 && High(c >> 5) == c >> 10 && High(c >> 10) == c >> 15 && High(c >> 15) == c >> 20
    ensures High(c >> 20) == c >> 25 && High(c >> 25) == c >> 30 && High(c >> 30) == c >> 35
  {
  }

  lemma StateIs(c: Word)
    ensures State(c) == Symbols(c)
  {
    EightDigits(PACKING, c);
    Shifts(c);
  }

  lemma InputSymbols(c: Word, d: Symbol)
    ensures Symbols(Input(c, d)) == Symbols(c)[1..] + [d]
  {
    var x, y := Input(c, d), c & 0x07ffffffff;
    InputShifts(c, d);
    UpperSymbols(x);
    LowerSymbols(c);
  }

  lemma InputShifts(c: Word, d: Symbol)
    ensures Input(c, d) >> 5 == c & 0x07ffffffff && Low(Input(c, d)) == d
  {
  }

  lemma UpperSymbols(x: Word)
    ensures
      var y := x >> 5;
      && x >> 35 == y >> 30 && x >> 30 == y >> 25 && x >> 25 == y >> 20 && x >> 20 == y >> 15
      && x >> 15 == y >> 10 && x >> 10 == y >> 5
  {
  }

  lemma LowerSymbols(c: Word)
    ensures
      var y := c & 0x07ffffffff;
      && Low(y >> 30) == Low(c >> 30) && Low(y >> 25) == Low(c >> 25) && Low(y >> 20) == Low(c >> 20) && Low(y >> 15) == Low(c >> 15)
      && Low(y >> 10) == Low(c >> 10) && Low(y >> 5) == Low(c >> 5) && Low(y) == Low(c)
  {
  }

  lemma TopIs(c: Word)
    ensures Top(c) == BitsOf(Low(c >> 35))
  {
  }

  function Feedback(s: Symbol): Word {
    CODE.Feed(0, BitsOf(s))
  }

  /** The taps, symbol by symbol. */
  const TAPS: seq<seq<Symbol>> :=
    [[19, 3, 25, 11, 25, 3, 19, 1], [15, 6, 27, 22, 27, 6, 15, 2], [30, 12, 31, 5, 31, 12, 30, 4],
     [21, 24, 23, 10, 23, 24, 21, 8], [3, 25, 7, 20, 7, 25, 3, 16]]

  lemma TapSymbols()
    ensures Symbols(CODE.taps.k0) == TAPS[0] && Symbols(CODE.taps.k1) == TAPS[1] && Symbols(CODE.taps.k2) == TAPS[2]
    ensures Symbols(CODE.taps.k3) == TAPS[3] && Symbols(CODE.taps.k4) == TAPS[4]
  {
  }

  /** Each tap is the one before, times a. */
  lemma TapsDouble(i: nat)
    requires i < 8
    ensures TAPS[0][i] == CHECK[i] && TAPS[1][i] == Double(TAPS[0][i]) && TAPS[2][i] == Double(TAPS[1][i])
    ensures TAPS[3][i] == Double(TAPS[2][i]) && TAPS[4][i] == Double(TAPS[3][i])
  {
    assert Double(19) == 15 && Double(15) == 30 && Double(30) == 21 && Double(21) == 3;
    assert Double(3) == 6 && Double(6) == 12 && Double(12) == 24 && Double(24) == 25;
    assert Double(25) == 27 && Double(27) == 31 && Double(31) == 23 && Double(23) == 7;
    assert Double(11) == 22 && Double(22) == 5 && Double(5) == 10 && Double(10) == 20;
    assert Double(1) == 2 && Double(2) == 4 && Double(4) == 8 && Double(8) == 16;
    assert i == 0 || i == 1 || i == 2 || i == 3 || i == 4 || i == 5 || i == 6 || i == 7;
  }

  /** What of a state is at place `i`. */
  ghost function Place(i: nat, c: Word): Bits
    requires i < 8
  {
    BitsOf(State(c)[i])
  }

  lemma PlaceXor(i: nat, a: Word, b: Word)
    requires i < 8
    ensures Place(i, Xor(a, b)) == Differ(Place(i, a), Place(i, b))
  {
    StateXor(a, b);
    BitsOfXor(State(a)[i], State(b)[i]);
  }

  lemma PlaceZero(i: nat)
    requires i < 8
    ensures Place(i, 0) == ZERO
  {
    PlaceXor(i, 0, 0);
    assert Xor(0, 0) == 0;
  }

  lemma PlaceIf(i: nat, c: Word, b: bool, k: Word)
    requires i < 8
    ensures Place(i, XorIf(c, b, k)) == PlusIf(Place(i, c), b, Place(i, k))
  {
    PlaceXor(i, c, k);
  }

  lemma TapPlaces(i: nat)
    requires i < 8
    ensures Place(i, CODE.taps.k0) == BitsOf(CHECK[i]) && Place(i, CODE.taps.k1) == TimesA(Place(i, CODE.taps.k0))
    ensures Place(i, CODE.taps.k2) == TimesA(Place(i, CODE.taps.k1)) && Place(i, CODE.taps.k3) == TimesA(Place(i, CODE.taps.k2))
    ensures Place(i, CODE.taps.k4) == TimesA(Place(i, CODE.taps.k3))
  {
    TapSymbols();
    StateIs(CODE.taps.k0);
    StateIs(CODE.taps.k1);
    StateIs(CODE.taps.k2);
    StateIs(CODE.taps.k3);
    StateIs(CODE.taps.k4);
    TapsDouble(i);
    TimesAIsDouble(TAPS[0][i]);
    TimesAIsDouble(TAPS[1][i]);
    TimesAIsDouble(TAPS[2][i]);
    TimesAIsDouble(TAPS[3][i]);
  }

  ghost predicate ReadsAt<S(!new), D(!new)>(r: Register<S, D>, place: S -> Bits, c: S, p: bool, k: S) {
    place(r.addIf(c, p, k)) == PlusIf(place(c), p, place(k))
  }

  /** The same for anything that is read off a state and respects sums. */
  lemma FeedThrough<S(!new), D(!new)>(r: Register<S, D>, zero: S, place: S -> Bits, b: Bits)
    requires place(zero) == ZERO && forall c, p, k :: ReadsAt(r, place, c, p, k)
    requires place(r.taps.k1) == TimesA(place(r.taps.k0)) && place(r.taps.k2) == TimesA(place(r.taps.k1))
    requires place(r.taps.k3) == TimesA(place(r.taps.k2)) && place(r.taps.k4) == TimesA(place(r.taps.k3))
    ensures place(r.Feed(zero, b)) == Times(place(r.taps.k0), b)
  {
    var t := r.taps;
    var c0 := r.addIf(zero, b.b0, t.k0);
    var c1 := r.addIf(c0, b.b1, t.k1);
    var c2 := r.addIf(c1, b.b2, t.k2);
    var c3 := r.addIf(c2, b.b3, t.k3);
    assert ReadsAt(r, place, zero, b.b0, t.k0) && ReadsAt(r, place, c0, b.b1, t.k1) && ReadsAt(r, place, c1, b.b2, t.k2);
    assert ReadsAt(r, place, c2, b.b3, t.k3) && ReadsAt(r, place, c3, b.b4, t.k4);
  }

  lemma FeedPlaces(i: nat, b: Bits)
    requires i < 8
    ensures Place(i, CODE.Feed(0, b)) == Times(BitsOf(CHECK[i]), b)
  {
    var place := (c: Word) => Place(i, c);
    PlaceZero(i);
    forall c, p, k ensures ReadsAt(CODE, place, c, p, k) { PlaceIf(i, c, p, k); }
    TapPlaces(i);
    FeedThrough(CODE, 0, place, b);
  }

  /** What is fed back for a symbol is its product with the check polynomial. */
  lemma FeedbackIsProduct(s: Symbol, i: nat)
    requires i < 8
    ensures BitsOf(State(Feedback(s))[i]) == Times(BitsOf(s), BitsOf(CHECK[i]))
  {
    FeedPlaces(i, BitsOf(s));
    ProductsCommute(BitsOf(CHECK[i]), BitsOf(s));
  }

  /** A step shifts the symbols and adds a multiple of the check polynomial. */
  lemma StepSymbols(c: Word, d: Symbol)
    ensures Sum(SYMBOLS, State(c)[1..] + [d], State(Feedback(State(c)[0])), State(CODE.Step(c, d)))
  {
    var s := Low(c >> 35);
    CodeLinear();
    StepSplits(CODE, WORDS, SYMBOLS, c, d);
    TopIs(c);
    StateXor(Input(c, d), Feedback(s));
    StateIs(c);
    StateIs(Input(c, d));
    InputSymbols(c, d);
  }

  // ----- The value of a state at a root -----

  /** What is fed back is a multiple of the check polynomial. */
  ghost predicate FeedsBack(f: Field<Element>, emb: Symbol -> Element) {
    forall s, i :: 0 <= i < 8 ==> FeedsBackAt(f, emb, s, i)
  }

  ghost predicate FeedsBackAt(f: Field<Element>, emb: Symbol -> Element, s: Symbol, i: nat)
    requires i < 8
  {
    emb(State(Feedback(s))[i]) == f.mul(emb(s), emb(CHECK[i]))
  }

  /** The coefficients are taken into the field, and `b` is a root of the check polynomial. */
  ghost predicate RootAt(f: Field<Element>, emb: Symbol -> Element, b: Element) {
    && f.Ring()
    && Carries(emb, SYMBOLS.add, f.plus.add) && FeedsBack(f, emb)
    && Eval(f, emb, b, CHECK) == f.Pow(b, 8)
  }

  lemma StepValue(f: Field<Element>, emb: Symbol -> Element, b: Element, c: Word, d: Symbol)
    requires RootAt(f, emb, b)
    ensures Eval(f, emb, b, State(CODE.Step(c, d))) == f.plus.add(f.mul(Eval(f, emb, b, State(c)), b), emb(d))
  {
    var s, rest := State(c)[0], State(c)[1..];
    var fed := StepParts(f, emb, c, d);
    ReducedStep(f, SYMBOLS, emb, b, s, rest, d, CHECK, fed, State(CODE.Step(c, d)));
    assert [s] + rest == State(c);
  }

  lemma StepParts(f: Field<Element>, emb: Symbol -> Element, c: Word, d: Symbol) returns (fed: seq<Symbol>)
    requires FeedsBack(f, emb)
    ensures |fed| == 8 && Sum(SYMBOLS, State(c)[1..] + [d], fed, State(CODE.Step(c, d)))
    ensures forall i :: 0 <= i < 8 ==> emb(fed[i]) == f.mul(emb(State(c)[0]), emb(CHECK[i]))
  {
    var s := State(c)[0];
    fed := State(Feedback(s));
    StepSymbols(c, d);
    forall i | 0 <= i < 8 ensures emb(fed[i]) == f.mul(emb(s), emb(CHECK[i])) { assert FeedsBackAt(f, emb, s, i); }
  }

  lemma ZeroValue(f: Field<Element>, emb: Symbol -> Element, b: Element)
    requires RootAt(f, emb, b)
    ensures Eval(f, emb, b, State(0)) == f.plus.zero
  {
    StateXor(0, 0);
    assert Xor(0, 0) == 0;
    EvalAdds(f, SYMBOLS, emb, b, State(0), State(0), State(0));
    Twice(f, Eval(f, emb, b, State(0)));
  }

  /** The register keeps the value of its input. */
  lemma {:induction false} RunValue(f: Field<Element>, emb: Symbol -> Element, b: Element, e: seq<Symbol>)
    requires RootAt(f, emb, b)
    ensures Eval(f, emb, b, State(CODE.Run(0, e))) == Eval(f, emb, b, e)
    decreases |e|
  {
    if |e| == 0 {
      ZeroValue(f, emb, b);
    } else {
      var n := |e| - 1;
      RunValue(f, emb, b, e[..n]);
      StepValue(f, emb, b, CODE.Run(0, e[..n]), e[n]);
    }
  }

  // ----- The roots that an undetected error has -----

  lemma LiftCarries()
    ensures Carries(Lift, SYMBOLS.add, GF20.plus.add) && FeedsBack(GF20, Lift)
  {
    forall c, d ensures CarriesAt(Lift, SYMBOLS.add, GF20.plus.add, c, d) { LiftAdds(c, d); }
    forall s, i | 0 <= i < 8 ensures FeedsBackAt(GF20, Lift, s, i) { LiftFeedsBack(s, i); }
  }

  lemma LiftFeedsBack(s: Symbol, i: nat)
    requires i < 8
    ensures FeedsBackAt(GF20, Lift, s, i)
  {
    FeedbackIsProduct(s, i);
    LiftMultiplies(s, CHECK[i], State(Feedback(s))[i]);
  }

  lemma BothRoots()
    ensures RootAt(GF20, Lift, GAMMA) && RootAt(GF20, Lift, GF20.Pow(GAMMA, 30))
  {
    GF20Lawful();
    LiftCarries();
    CheckRoots();
    RootFrom(GF20, Lift, GAMMA);
    RootFrom(GF20, Lift, GF20.Pow(GAMMA, 30));
  }

  lemma RootFrom(f: Field<Element>, emb: Symbol -> Element, b: Element)
    requires f.Ring() && Carries(emb, SYMBOLS.add, f.plus.add) && FeedsBack(f, emb)
    requires emb(1) == f.one && Eval(f, emb, b, GENERATOR) == f.plus.zero
    ensures RootAt(f, emb, b)
  {
    assert GENERATOR == [1] + CHECK;
    MonicRoot(f, emb, b, 1, CHECK);
  }

  lemma UndetectedVanishes(f: Field<Element>, emb: Symbol -> Element, b: Element, e: seq<Symbol>)
    requires RootAt(f, emb, b) && CODE.Run(0, e) == 0
    ensures Eval(f, emb, b, e) == f.plus.zero
  {
    RunValue(f, emb, b, e);
    ZeroValue(f, emb, b);
  }

  /** The polynomial vanishes at a power of `g`. */
  ghost predicate At<F(!new), D(!new)>(f: Field<F>, emb: D -> F, g: F, n: nat, e: seq<D>) {
    Eval(f, emb, f.Pow(g, n), e) == f.plus.zero
  }

  /** With a root its 32nd power is one. */
  lemma Conjugates<F(!new), D(!new)>(f: Field<F>, emb: D -> F, g: F, n: nat, e: seq<D>)
    requires f.Ring() && (forall d :: f.Pow(emb(d), 32) == emb(d)) && At(f, emb, g, n, e)
    ensures At(f, emb, g, 32 * n, e)
  {
    Additive32(f);
    EvalPower(f, emb, 32, f.Pow(g, n), e);
    PowPow(f, g, n, 32);
    PowStep(f, f.plus.zero, 31);
    MulZero(f, f.Pow(f.plus.zero, 31));
  }

  lemma Wraps<F(!new), D(!new)>(f: Field<F>, emb: D -> F, g: F, m: nat, k: nat, e: seq<D>)
    requires f.Ring() && f.Pow(g, 1025) == f.one
    ensures At(f, emb, g, m + 1025 * k, e) <==> At(f, emb, g, m, e)
  {
    PowCycle(f, g, 1025, m, k);
  }

  /** Two progressions of roots. */
  lemma SixRoots<F(!new), D(!new)>(f: Field<F>, emb: D -> F, g: F, e: seq<D>)
    requires f.Ring() && f.Pow(g, 1025) == f.one && (forall d :: f.Pow(emb(d), 32) == emb(d))
    requires At(f, emb, g, 1, e) && At(f, emb, g, 30, e)
    ensures Roots(f, emb, g, 993, 31, 3, e) && Roots(f, emb, g, 995, 31, 3, e)
  {
    Conjugates(f, emb, g, 1, e);
    Conjugates(f, emb, g, 32, e);
    Conjugates(f, emb, g, 1024, e);
    Wraps(f, emb, g, 993, 31, e);
    Conjugates(f, emb, g, 30, e);
    Conjugates(f, emb, g, 960, e);
    Wraps(f, emb, g, 995, 29, e);
    Wraps(f, emb, g, 30, 1, e);
    Wraps(f, emb, g, 1, 1, e);
    Wraps(f, emb, g, 32, 1, e);
    forall a | 0 <= a < 3
      ensures At(f, emb, g, 993 + 31 * a, e) && At(f, emb, g, 995 + 31 * a, e)
    {
      assert a == 0 || a == 1 || a == 2;
    }
  }

  lemma LiftZero(s: Symbol)
    ensures Lift(s) == GF20.plus.zero <==> s == 0
  {
  }

  lemma GammaOrder()
    ensures HasOrder(GF20, GAMMA, 1025) && GAMMA != GF20.plus.zero && GF20.one != GF20.plus.zero
  {
    forall m | 0 < m < 1025 ensures GF20.Pow(GAMMA, m) != GF20.one { Order(m); }
    Order(1);
  }

  lemma UndetectedRoots(e: seq<Symbol>)
    requires CODE.Run(0, e) == 0
    ensures Roots(GF20, Lift, GAMMA, 993, 31, 3, e) && Roots(GF20, Lift, GAMMA, 995, 31, 3, e)
  {
    GF20Lawful();
    GammaOrder();
    PowOne(GF20, GAMMA);
    BothRoots();
    UndetectedVanishes(GF20, Lift, GAMMA, e);
    UndetectedVanishes(GF20, Lift, GF20.Pow(GAMMA, 30), e);
    forall d ensures GF20.Pow(Lift(d), 32) == Lift(d) { LiftPower(d); }
    SixRoots(GF20, Lift, GAMMA, e);
  }

  lemma GammaPowers(n: nat)
    requires n <= 1025
    ensures Distinct(Powers(GF20, GAMMA, 31, n)) && Distinct(Powers(GF20, GAMMA, 2, n))
  {
    GF20Lawful();
    GammaOrder();
    PowersDistinct(GF20, GAMMA, 1025, 31, 496, 15, n);
    PowersDistinct(GF20, GAMMA, 1025, 2, 513, 1, n);
  }

  /** An input that leaves the empty register empty has more than four symbols, or none. */
  lemma FewSymbols(e: seq<Symbol>, at: set<nat>)
    requires |e| <= 1025 && CODE.Run(0, e) == 0 && |at| <= 4 && forall i :: 0 <= i < |e| && i !in at ==> e[i] == 0
    ensures AllZero(SYMBOLS, e)
  {
    GF20Lawful();
    GammaOrder();
    UndetectedRoots(e);
    GammaPowers(|e|);
    forall d ensures Lift(d) == GF20.plus.zero <==> d == 0 { LiftZero(d); }
    FewSymbolsIn(GF20, Lift, GAMMA, e, at);
  }

  lemma FewSymbolsIn<F(!new)>(f: Field<F>, emb: Symbol -> F, g: F, e: seq<Symbol>, at: set<nat>)
    requires f.Lawful() && g != f.plus.zero && f.one != f.plus.zero && (forall d :: emb(d) == f.plus.zero <==> d == 0)
    requires Distinct(Powers(f, g, 31, |e|)) && Distinct(Powers(f, g, 2, |e|))
    requires Roots(f, emb, g, 993, 31, 3, e) && Roots(f, emb, g, 995, 31, 3, e)
    requires |at| <= 4 && forall i :: 0 <= i < |e| && i !in at ==> e[i] == 0
    ensures AllZero(SYMBOLS, e)
  {
    FewCoefficients(f, emb, g, 993, 31, 2, 3, e, at);
  }

  /** The places where two lists differ. */
  ghost function Errors(u: seq<Symbol>, v: seq<Symbol>): set<nat>
    requires |u| == |v|
  {
    set i: nat | i < |u| && u[i] != v[i]
  }

  /** From any state, inputs of one length of at most 1025 that differ in a few places lead to different states. */
  lemma FewErrorsDiffer(c: Word, u: seq<Symbol>, v: seq<Symbol>, at: set<nat>)
    requires |u| == |v| <= 1025 && u != v && |at| <= 4 && Errors(u, v) <= at
    ensures CODE.Run(c, u) != CODE.Run(c, v)
  {
    var w := seq(|u|, i requires 0 <= i < |u| => SYMBOLS.add(u[i], v[i]));
    CodeLinear();
    SymbolsLawful();
    DifferenceRun(CODE, WORDS, SYMBOLS, c, u, v, w);
    if CODE.Run(c, u) == CODE.Run(c, v) {
      forall i | 0 <= i < |w| && i !in at
        ensures w[i] == 0
      {
        assert i !in Errors(u, v);
        SumZero(SYMBOLS, u[i], v[i]);
      }
      FewSymbols(w, at);
      NoDifference(SYMBOLS, u, v, w);
    }
  }

  /** The places as seen from `from_` on. */
  ghost function Shifted(at: set<nat>, from_: nat): set<nat> {
    set i | i in at :: if i >= from_ then i - from_ else 0
  }

  lemma {:induction false} ShiftedSize(at: set<nat>, from_: nat)
    ensures |Shifted(at, from_)| <= |at|
    decreases |at|
  {
    if at != {} {
      var k :| k in at;
      var rest := at - {k};
      ShiftedSize(rest, from_);
      assert at == rest + {k};
      assert Shifted(at, from_) == Shifted(rest, from_) + {if k >= from_ then k - from_ else 0};
    }
  }

  /** Up to four wrong symbols in a window of 1025 change the remainder, however long the list is. */
  lemma FewErrorsDetected(u: seq<Symbol>, v: seq<Symbol>, from_: nat)
    requires |u| == |v| && 1 <= |Errors(u, v)| <= 4 && forall i :: i in Errors(u, v) ==> from_ <= i < from_ + 1025
    ensures Remainder(u) != Remainder(v)
  {
    assert Errors(u, v) != {};
    var k :| k in Errors(u, v);
    var to := if from_ + 1025 < |u| then from_ + 1025 else |u|;
    var x, y := u[from_..to], v[from_..to];
    assert x[k - from_] == u[k] && y[k - from_] == v[k];
    WindowErrors(u, v, from_, to);
    ShiftedSize(Errors(u, v), from_);
    WindowDetected(u[..from_], x, y, u[to..], Shifted(Errors(u, v), from_));
    SameOutside(u, v, from_, to);
  }

  lemma WindowDetected(front: seq<Symbol>, u: seq<Symbol>, v: seq<Symbol>, back: seq<Symbol>, at: set<nat>)
    requires |u| == |v| <= 1025 && u != v && |at| <= 4 && Errors(u, v) <= at
    ensures Remainder(front + u + back) != Remainder(front + v + back)
  {
    CodeLinear();
    CodeFaithful();
    SymbolsLawful();
    FewErrorsDiffer(CODE.Run(1, front), u, v, at);
    WindowDiffers(CODE, WORDS, SYMBOLS, Fits, 1, front, u, v, back);
  }

  lemma WindowErrors(u: seq<Symbol>, v: seq<Symbol>, from_: nat, to: nat)
    requires |u| == |v| && from_ <= to <= |u|
    ensures Errors(u[from_..to], v[from_..to]) <= Shifted(Errors(u, v), from_)
  {
    forall i | i in Errors(u[from_..to], v[from_..to])
      ensures i in Shifted(Errors(u, v), from_)
    {
      var k := i + from_;
      assert u[from_..to][i] == u[k] && v[from_..to][i] == v[k];
      assert k in Errors(u, v) && i == if k >= from_ then k - from_ else 0;
    }
  }

  lemma SameOutside(u: seq<Symbol>, v: seq<Symbol>, from_: nat, to: nat)
    requires |u| == |v| && from_ <= to <= |u| && forall i :: i in Errors(u, v) ==> from_ <= i < to
    ensures u == u[..from_] + u[from_..to] + u[to..] && v == u[..from_] + v[from_..to] + u[to..]
  {
    forall i | 0 <= i < |u| && !(from_ <= i < to) ensures v[i] == u[i] { assert i !in Errors(u, v); }
  }
}
