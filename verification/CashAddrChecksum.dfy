/**
 * The CashAddr checksum (src/cashaddr/cashaddr.cpp): a linear code over 5-bit symbols, computed in a
 * register of eight symbols.
 */
module CashAddrChecksum {
  import opened Group
  import opened LinearRegister

  type Symbol = bv5
  type Word = bv64

  /** The register shifts by one symbol and takes a new one in. */
  function Input(c: Word, d: Symbol): Word {
    ((c & 0x07ffffffff) << 5) ^ (d as Word)
  }

  /** The bits of the symbol that leaves. */
  function Top(c: Word): Bits {
    Bits((c >> 35) & 0x01 != 0, (c >> 35) & 0x02 != 0, (c >> 35) & 0x04 != 0, (c >> 35) & 0x08 != 0, (c >> 35) & 0x10 != 0)
  }

  function XorIf(c: Word, b: bool, k: Word): Word {
    if b then c ^ k else c
  }

  const CODE: Register<Word, Symbol> :=
    Register(Input, Top, XorIf, Taps(0x98f2bc8e61, 0x79b76d99e2, 0xf33e5fb3c4, 0xae2eabe2a8, 0x1e4f43e470))

  /** The remainder of a list of symbols; the list starts with an implicit 1. */
  ghost function Remainder(v: seq<Symbol>): Word {
    CODE.Run(1, v)
  }

  method PolyMod(v: seq<Symbol>) returns (r: Word)
    ensures r == Xor(Remainder(v), 1)
  {
    var c := CODE.AdvanceAll(1, v);
    return Xor(c, 1);
  }

  // ----- The step is linear and loses nothing -----

  function Xor(a: Word, b: Word): Word { a ^ b }
  function XorSymbol(a: Symbol, b: Symbol): Symbol { a ^ b }

  const WORDS: Abelian<Word> := Abelian(0, Xor, x => x)
  const SYMBOLS: Abelian<Symbol> := Abelian(0, XorSymbol, x => x)

  lemma XorAssoc(a: Word, b: Word, c: Word)
    ensures Xor(Xor(a, b), c) == Xor(a, Xor(b, c))
  {
    XorLeft(a, b, c);
    XorRight(a, b, c);
  }

  lemma XorLeft(a: Word, b: Word, c: Word)
    ensures Xor(Xor(a, b), c) == a ^ b ^ c
  {
  }

  lemma XorRight(a: Word, b: Word, c: Word)
    ensures Xor(a, Xor(b, c)) == a ^ b ^ c
  {
  }

  lemma WordsLawful()
    ensures WORDS.Lawful() && SelfInverse(WORDS)
  {
    forall a, b, c ensures WORDS.Assoc(a, b, c) { XorAssoc(a, b, c); }
  }

  lemma SymbolsLawful()
    ensures SYMBOLS.Lawful() && SelfInverse(SYMBOLS)
  {
  }

  lemma TopLinear(a: Word, b: Word)
    ensures Top(a ^ b) == Differ(Top(a), Top(b))
  {
  }

  lemma InputLinear(a: Word, b: Word, d: Symbol, e: Symbol)
    ensures Input(a ^ b, d ^ e) == Input(a, d) ^ Input(b, e)
  {
  }

  lemma CodeLinear()
    ensures CODE.Linear(WORDS, SYMBOLS)
  {
    WordsLawful();
    forall a, b, d, e ensures CODE.InputLinearAt(WORDS, SYMBOLS, a, b, d, e) { InputLinear(a, b, d, e); }
    forall a, b ensures CODE.TopLinearAt(WORDS, a, b) { TopLinear(a, b); }
  }

  /** The register holds 40 bits. */
  predicate Fits(c: Word) {
    c < 0x10000000000
  }

  lemma StepFits(c: Word, d: Symbol)
    requires Fits(c)
    ensures Fits(CODE.Step(c, d))
  {
  }

  /** The lowest symbol of each tap is its own bit, so what leaves the register shows in it. */
  lemma StepKernel(c: Word)
    requires Fits(c) && CODE.Step(c, 0) == 0
    ensures c == 0
  {
  }

  lemma XorFits(a: Word, b: Word)
    requires Fits(a) && Fits(b)
    ensures Fits(a ^ b)
  {
  }

  lemma CodeFaithful()
    ensures CODE.Faithful(WORDS, SYMBOLS, Fits)
  {
    forall a, d | Fits(a) ensures Fits(CODE.Step(a, d)) { StepFits(a, d); }
    forall a, b | Fits(a) && Fits(b) ensures Fits(WORDS.add(a, b)) { XorFits(a, b); }
    forall a | Fits(a) && CODE.Step(a, 0) == 0 ensures a == 0 { StepKernel(a); }
  }

  // ----- Eight symbols in a register -----

  /** Nothing above the lowest `n` symbols, for up to eight. */
  predicate Within(x: Word, n: nat) {
    if n == 0 then x < 0x1
    else if n == 1 then x < 0x20
    else if n == 2 then x < 0x400
    else if n == 3 then x < 0x8000
    else if n == 4 then x < 0x100000
    else if n == 5 then x < 0x2000000
    else if n == 6 then x < 0x40000000
    else if n == 7 then x < 0x800000000
    else x < 0x10000000000
  }

  lemma WithinShift(x: Word, n: nat)
    requires 0 < n <= 8
    ensures Within(x, n) <==> Within(x >> 5, n - 1)
  {
  }

  lemma WithinMore(x: Word, n: nat)
    requires n <= 7 && Within(x, n)
    ensures x < 0x800000000
  {
  }

  function High(x: Word): Word { x >> 5 }
  function Low(x: Word): Symbol { (x & 0x1f) as Symbol }

  const PACKING: Packing<Word, Symbol> := Packing(0, High, Low, Within)

  lemma StepAppends(c: Word, d: Symbol)
    requires c < 0x800000000
    ensures High(CODE.Step(c, d)) == c && Low(CODE.Step(c, d)) == d
  {
  }

  lemma StepReads(x: Word)
    requires Fits(x)
    ensures CODE.Step(High(x), Low(x)) == x
  {
  }

  lemma CodeHolds()
    ensures PACKING.Holds(CODE, 8)
  {
    forall x, n: nat | 0 < n <= 8 ensures PACKING.within(x, n) <==> PACKING.within(PACKING.high(x), n - 1) { WithinShift(x, n); }
    forall c, d, n: nat | n < 8 && PACKING.within(c, n)
      ensures PACKING.high(CODE.Step(c, d)) == c && PACKING.low(CODE.Step(c, d)) == d
    {
      WithinMore(c, n);
      StepAppends(c, d);
    }
    forall x, n: nat | 0 < n <= 8 && PACKING.within(x, n)
      ensures CODE.Step(PACKING.high(x), PACKING.low(x)) == x
    {
      WithinFits(x, n);
      StepReads(x);
    }
  }

  lemma WithinFits(x: Word, n: nat)
    requires Within(x, n)
    ensures Fits(x)
  {
  }

  lemma ZeroStep()
    ensures CODE.Step(0, 0) == 0
  {
  }

  lemma {:induction false} ZeroRun(n: nat)
    ensures CODE.Run(0, seq(n, _ => 0)) == 0
  {
    if n > 0 {
      var zeros: seq<Symbol> := seq(n, _ => 0);
      var fewer: seq<Symbol> := seq(n - 1, _ => 0);
      assert zeros[..n - 1] == fewer;
      ZeroRun(n - 1);
      ZeroStep();
    }
  }

  lemma CodeTellsShort()
    ensures TellsShort(CODE, WORDS, SYMBOLS, 8)
  {
    CodeHolds();
    forall w: seq<Symbol> | |w| <= 8 && CODE.Run(0, w) == 0
      ensures AllZero(SYMBOLS, w)
    {
      ZeroRun(|w|);
      PacksInjective(PACKING, CODE, 8, w, seq(|w|, _ => 0));
    }
  }

  /** The lists agree outside a window of eight symbols that starts at `at`. */
  ghost predicate Burst(u: seq<Symbol>, v: seq<Symbol>, at: nat) {
    |u| == |v| && forall i :: 0 <= i < |u| && (i < at || at + 8 <= i) ==> u[i] == v[i]
  }

  /** A burst of up to eight wrong symbols changes the remainder, however long the list is. */
  lemma BurstDetected(u: seq<Symbol>, v: seq<Symbol>, at: nat)
    requires Burst(u, v, at) && u != v
    ensures Remainder(u) != Remainder(v)
  {
    var from_ := if at < |u| then at else |u|;
    var to := if at + 8 < |u| then at + 8 else |u|;
    assert u == u[..from_] + u[from_..to] + u[to..];
    assert v == u[..from_] + v[from_..to] + u[to..];
    CodeLinear();
    CodeFaithful();
    CodeTellsShort();
    SymbolsLawful();
    BurstDiffers(CODE, WORDS, SYMBOLS, Fits, 1, u[..from_], u[from_..to], v[from_..to], u[to..], 8);
  }

  // ----- The checksum -----

  const EIGHT_ZEROS: seq<Symbol> := [0, 0, 0, 0, 0, 0, 0, 0]

  /** What `CreateChecksum` appends. */
  ghost function Checksum(enc: seq<Symbol>): seq<Symbol> {
    PACKING.Digits(Xor(Remainder(enc + EIGHT_ZEROS), 1), 8)
  }

  /** The remainder of a list with eight symbols on it is that with zeros, plus the symbols. */
  lemma RemainderSplits(enc: seq<Symbol>, t: seq<Symbol>)
    requires |t| == 8
    ensures Remainder(enc + t) == Xor(Remainder(enc + EIGHT_ZEROS), CODE.Run(0, t))
  {
    var c := Remainder(enc);
    CodeLinear();
    SymbolsLawful();
    forall i | 0 <= i < 8 ensures t[i] == SYMBOLS.add(EIGHT_ZEROS[i], t[i]) { ZeroLeft(SYMBOLS, t[i]); }
    RunLinear(CODE, WORDS, SYMBOLS, c, 0, EIGHT_ZEROS, t, t);
    assert WORDS.Unit(c);
    RunConcat(CODE, 1, enc, t);
    RunConcat(CODE, 1, enc, EIGHT_ZEROS);
  }

  lemma RemainderFits(v: seq<Symbol>)
    ensures Fits(Remainder(v))
  {
    CodeFaithful();
    RunKeeps(CODE, WORDS, SYMBOLS, Fits, 1, v);
  }

  lemma XorOneFits(a: Word)
    requires Fits(a)
    ensures Fits(Xor(a, 1))
  {
  }

  /** Exactly one checksum verifies. */
  lemma ChecksumUnique(enc: seq<Symbol>, t: seq<Symbol>)
    requires |t| == 8
    ensures Xor(Remainder(enc + t), 1) == 0 <==> t == Checksum(enc)
  {
    var a, p := Remainder(enc + EIGHT_ZEROS), CODE.Run(0, t);
    RemainderSplits(enc, t);
    WordsLawful();
    SumSolve(WORDS, a, p, 1);
    CodeHolds();
    RemainderFits(enc + EIGHT_ZEROS);
    XorOneFits(a);
    InputOfState(PACKING, CODE, 8, Xor(a, 1), t);
  }

  // ----- The taps -----

  /** Doubling in the field of 32 elements, where a^5 = a^3 + 1. */
  function Double(k: Symbol): Symbol {
    (k << 1) ^ (if k & 0x10 != 0 then 9 else 0)
  }

  /** A polynomial over the field, from its coefficients. */
  function Pack(c7: Symbol, c6: Symbol, c5: Symbol, c4: Symbol, c3: Symbol, c2: Symbol, c1: Symbol, c0: Symbol): Word {
    (c7 as Word << 35) | (c6 as Word << 30) | (c5 as Word << 25) | (c4 as Word << 20)
    | (c3 as Word << 15) | (c2 as Word << 10) | (c1 as Word << 5) | (c0 as Word)
  }

  /**
   * The taps are the multiples by 1, a, a^2, a^3 and a^4 of
   * {19}x^7 + {3}x^6 + {25}x^5 + {11}x^4 + {25}x^3 + {3}x^2 + {19}x + {1}.
   */
  lemma TapsAreMultiples()
    ensures CODE.taps.k0 == Multiple(19, 3, 25, 11, 1)
    ensures CODE.taps.k1 == Multiple(Double(19), Double(3), Double(25), Double(11), Double(1))
    ensures CODE.taps.k2 == Multiple(Double(Double(19)), Double(Double(3)), Double(Double(25)), Double(Double(11)), Double(Double(1)))
    ensures CODE.taps.k3 == Multiple(Double(Double(Double(19))), Double(Double(Double(3))), Double(Double(Double(25))), Double(Double(Double(11))), Double(Double(Double(1))))
    ensures CODE.taps.k4 == Multiple(Double(Double(Double(Double(19)))), Double(Double(Double(Double(3)))), Double(Double(Double(Double(25)))),
                                     Double(Double(Double(Double(11)))), Double(Double(Double(Double(1)))))
  {
    assert Double(19) == 15 && Double(15) == 30 && Double(30) == 21 && Double(21) == 3;
    assert Double(3) == 6 && Double(6) == 12 && Double(12) == 24 && Double(24) == 25;
    assert Double(25) == 27 && Double(27) == 31 && Double(31) == 23 && Double(23) == 7;
    assert Double(11) == 22 && Double(22) == 5 && Double(5) == 10 && Double(10) == 20;
  }

  /** The polynomial reads the same both ways, but for its last coefficient. */
  function Multiple(outer: Symbol, next: Symbol, third: Symbol, middle: Symbol, last: Symbol): Word {
    Pack(outer, next, third, middle, third, next, outer, last)
  }
}
