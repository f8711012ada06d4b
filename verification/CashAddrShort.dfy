/**
 * Addresses with fewer than eight symbols behind the colon (src/cashaddr/cashaddr.cpp): `Decode` cuts eight
 * symbols off whatever verifies, so it reads out of range exactly where such data verify.
 */
module CashAddrShort {
  import Options
  import opened Transactions
  import opened LinearRegister
  import opened CashAddrChecksum
  import opened CashAddr

  /** The whole list of symbols ends in the checksum of what stands before. */
  ghost predicate EndsInChecksum(whole: seq<Symbol>) {
    |whole| >= 8 && whole[|whole| - 8..] == Checksum(whole[..|whole| - 8])
  }

  lemma {:induction false} RunOfOne(e: seq<Symbol>)
    ensures CODE.Run(0, [1] + e) == CODE.Run(1, e)
  {
    RunConcat(CODE, 0, [1], e);
    OneStep();
    assert [1 as Symbol][..0] == [];
    assert CODE.Run(0, [1]) == CODE.Step(CODE.Run(0, []), 1);
  }

  lemma OneStep()
    ensures CODE.Step(0, 1) == 1
  {
  }

  /** Fewer than eight symbols never have remainder 1: the implicit 1 in front is still in the register. */
  lemma TooFew(whole: seq<Symbol>)
    requires 1 <= |whole| < 8
    ensures Remainder(whole) != 1
  {
    if Remainder(whole) == 1 {
      var zeros: seq<Symbol> := seq(|whole|, _ => 0);
      var e, f := [1] + whole, zeros + [1];
      RunOfOne(whole);
      ZeroRun(|whole|);
      OneStep();
      assert f[..|whole|] == zeros;
      CodeHolds();
      assert e[0] == 1 && f[0] == 0;
      PacksInjective(PACKING, CODE, 8, e, f);
    }
  }

  lemma XorOne(a: Word)
    ensures Xor(a, 1) == 0 <==> a == 1
  {
  }

  /** Exactly when symbols verify behind a prefix, however few they are. */
  lemma VerifiesExactly(prefix: Text, v: seq<Symbol>)
    ensures Verifies(prefix, v) <==> EndsInChecksum(Expanded(prefix) + v)
  {
    var whole := Expanded(prefix) + v;
    XorOne(Remainder(whole));
    if |whole| < 8 {
      TooFew(whole);
    } else {
      var n := |whole| - 8;
      assert whole == whole[..n] + whole[n..];
      ChecksumUnique(whole[..n], whole[n..]);
    }
  }

  /** Exactly when `Decode` reads out of range. */
  lemma OutOfRangeExactly(str: Text, k: nat)
    requires Shape(str, k)
    ensures
      var data := str[k + 1..];
      DecodedText(str) == OutOfRange <==>
        InCharset(data) && |data| < 8 && EndsInChecksum(Expanded(Lowered(str[..k])) + Symbols(data))
  {
    DecodedByShape(str, k);
    if InCharset(str[k + 1..]) {
      VerifiesExactly(Lowered(str[..k]), Symbols(str[k + 1..]));
    }
  }

  /** The low five bits of a prefix. */
  function Lows(prefix: Text): seq<Symbol> {
    seq(|prefix|, i requires 0 <= i < |prefix| => LowFive(prefix[i]))
  }

  /** Seven symbols verify for a prefix iff the checksum of its low bits starts with 0, and then only its other seven do. */
  lemma SevenSymbols(prefix: Text, v: seq<Symbol>)
    requires |v| == 7
    ensures Verifies(prefix, v) <==> Checksum(Lows(prefix))[0] == 0 && v == Checksum(Lows(prefix))[1..]
  {
    var t, sum := [0] + v, Checksum(Lows(prefix));
    assert Expanded(prefix) + v == Lows(prefix) + t;
    ChecksumUnique(Lows(prefix), t);
    assert sum == [sum[0]] + sum[1..];
    assert t[1..] == v;
  }

  /** So each such prefix has one string with seven symbols that is read out of range. */
  lemma SevenOutOfRange(prefix: Text)
    requires LowerLetters(prefix) && Checksum(Lows(prefix))[0] == 0
    ensures DecodedText(prefix + [COLON] + Chars(Checksum(Lows(prefix))[1..])) == OutOfRange
  {
    var v, k := Checksum(Lows(prefix))[1..], |prefix|;
    var str := prefix + [COLON] + Chars(v);
    SymbolsOfChars(v);
    ShapeOf(prefix, Chars(v));
    assert str[..k] == prefix && str[k + 1..] == Chars(v);
    DecodedByShape(str, k);
    LowerUnchanged(prefix);
    SevenSymbols(prefix, v);
  }

  // ----- One of them -----

  /** "c:qvdy2z3" */
  const SHORT: Text := [0x63, 0x3A, 0x71, 0x76, 0x64, 0x79, 0x32, 0x7A, 0x33]

  const SHORT_SYMBOLS: seq<Symbol> := [3, 0, 0] + [12, 13, 4] + [10, 2, 17]

  lemma ThreeSteps(r: Register<Word, Symbol>, c: Word, d0: Symbol, d1: Symbol, d2: Symbol)
    ensures r.Run(c, [d0, d1, d2]) == r.Step(r.Step(r.Step(c, d0), d1), d2)
  {
    var v := [d0, d1, d2];
    assert v[..2] == [d0, d1] && [d0, d1][..1] == [d0] && [d0][..0] == [];
    assert r.Run(c, [d0]) == r.Step(c, d0);
    assert r.Run(c, [d0, d1]) == r.Step(r.Run(c, [d0]), d1);
  }

  lemma NineSteps(r: Register<Word, Symbol>, u: seq<Symbol>, v: seq<Symbol>, w: seq<Symbol>, c0: Word, c1: Word, c2: Word, c3: Word)
    requires r.Run(c0, u) == c1 && r.Run(c1, v) == c2 && r.Run(c2, w) == c3
    ensures r.Run(c0, u + v + w) == c3
  {
    RunConcat(r, c0, u, v);
    RunConcat(r, c0, u + v, w);
  }

  lemma ShortRemainder()
    ensures Remainder(SHORT_SYMBOLS) == 1
  {
    FirstThree();
    NextThree();
    LastThree();
    NineSteps(CODE, [3, 0, 0], [12, 13, 4], [10, 2, 17], 0x1, 0x8c00, 0x460031a4, 1);
  }

  lemma FirstThree()
    ensures CODE.Run(0x1, [3, 0, 0]) == 0x8c00
  {
    assert CODE.Step(0x1, 3) == 0x23 && CODE.Step(0x23, 0) == 0x460 && CODE.Step(0x460, 0) == 0x8c00;
    ThreeSteps(CODE, 0x1, 3, 0, 0);
  }

  lemma NextThree()
    ensures CODE.Run(0x8c00, [12, 13, 4]) == 0x460031a4
  {
    assert CODE.Step(0x8c00, 12) == 0x11800c && CODE.Step(0x11800c, 13) == 0x230018d && CODE.Step(0x230018d, 4) == 0x460031a4;
    ThreeSteps(CODE, 0x8c00, 12, 13, 4);
  }

  lemma LastThree()
    ensures CODE.Run(0x460031a4, [10, 2, 17]) == 1
  {
    assert CODE.Step(0x460031a4, 10) == 0x8c006348a && CODE.Step(0x8c006348a, 2) == 0x80f27a1f23 && CODE.Step(0x80f27a1f23, 17) == 1;
    ThreeSteps(CODE, 0x460031a4, 10, 2, 17);
  }

  lemma ShortSymbols()
    ensures InCharset(SHORT[2..]) && Symbols(SHORT[2..]) == SHORT_SYMBOLS[2..]
    ensures Lowered(SHORT[..1]) == SHORT[..1] && Expanded(SHORT[..1]) == SHORT_SYMBOLS[..2]
  {
    var data := SHORT[2..];
    assert SymbolOf(0x71) == Options.Some(0) && SymbolOf(0x76) == Options.Some(12) && SymbolOf(0x64) == Options.Some(13);
    assert SymbolOf(0x79) == Options.Some(4) && SymbolOf(0x32) == Options.Some(10) && SymbolOf(0x7A) == Options.Some(2);
    assert SymbolOf(0x33) == Options.Some(17);
    assert data == [0x71, 0x76, 0x64, 0x79, 0x32, 0x7A, 0x33];
    assert LowFive(0x63) == 3;
  }

  /** It verifies, with seven symbols. */
  lemma ShortIsOutOfRange()
    ensures DecodedText(SHORT) == OutOfRange
  {
    ShortSymbols();
    ShortRemainder();
    XorOne(Remainder(SHORT_SYMBOLS));
    assert SHORT_SYMBOLS[..2] + SHORT_SYMBOLS[2..] == SHORT_SYMBOLS;
    ShortShape();
    DecodedByShape(SHORT, 1);
  }

  lemma ShortShape()
    ensures Shape(SHORT, 1)
  {
  }
}
