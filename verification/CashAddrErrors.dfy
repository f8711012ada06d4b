/**
 * Scattered errors in addresses (src/cashaddr/cashaddr.cpp): up to four wrong characters within 1025 are
 * rejected as long as the colon stays where it is. Two wrong characters that move the colon may be accepted.
 */
module CashAddrErrors {
  import opened Transactions
  import opened Group
  import opened LinearRegister
  import opened CashAddrChecksum
  import opened CashAddrDistance
  import opened CashAddrShort
  import opened CashAddr

  /** The places where two texts differ, up to case. */
  ghost function Changed(a: Text, b: Text): set<nat>
    requires |a| == |b|
  {
    set i: nat | i < |a| && LowerCase(a[i]) != LowerCase(b[i])
  }

  /** Wrong characters are wrong symbols. */
  lemma ChangedSymbols(a: Text, b: Text, k: nat)
    requires Shape(a, k) && Shape(b, k) && |a| == |b| && InCharset(a[k + 1..]) && InCharset(b[k + 1..])
    ensures Errors(Checked(a, k), Checked(b, k)) == Changed(a, b)
  {
    forall i: nat | i < |a|
      ensures Checked(a, k)[i] != Checked(b, k)[i] <==> LowerCase(a[i]) != LowerCase(b[i])
    {
      CheckedAt(a, k, i);
      CheckedAt(b, k, i);
      if i < k {
        LetterLows(a[i], b[i]);
      } else if i > k {
        SameSymbol(a[i], b[i]);
      }
    }
  }

  /** The colon at `k` stays, or is lost. */
  ghost predicate ColonNotMoved(b: Text, k: nat) {
    k < |b| && (b[k] == COLON || forall j :: 0 <= j < |b| ==> b[j] != COLON)
  }

  /** An accepted address with up to four characters changed within 1025 is rejected, unless the colon moved. */
  lemma FewErrorsRejected(a: Text, b: Text, k: nat, from_: nat)
    requires DecodedText(a) != Failed && |a| == |b| && ColonNotMoved(b, k) && a[k] == COLON
    requires 1 <= |Changed(a, b)| <= 4 && forall i :: i in Changed(a, b) ==> from_ <= i < from_ + 1025
    ensures DecodedText(b) == Failed
  {
    if DecodedText(b) != Failed {
      var i: nat :| Shape(a, i) && DecodedText(a) == DecodedAt(a, i);
      var j: nat :| Shape(b, j) && DecodedText(b) == DecodedAt(b, j);
      ColonAt(a, i, k);
      ColonAt(b, j, k);
      NotBoth(a, b, k, from_);
    }
  }

  lemma ColonAt(str: Text, i: nat, k: nat)
    requires Shape(str, i) && k < |str| && str[k] == COLON
    ensures i == k
  {
  }

  lemma NotBoth(a: Text, b: Text, k: nat, from_: nat)
    requires |a| == |b| && Shape(a, k) && Shape(b, k) && DecodedAt(a, k) != Failed && DecodedAt(b, k) != Failed
    requires forall i :: i in Changed(a, b) ==> from_ <= i < from_ + 1025
    ensures !(1 <= |Changed(a, b)| <= 4)
  {
    ChangedSymbols(a, b, k);
    var u, v := Checked(a, k), Checked(b, k);
    OneRemainder(Remainder(u), Remainder(v));
    if 1 <= |Errors(u, v)| <= 4 {
      FewErrorsDetected(u, v, from_);
    }
  }

  // ----- A colon that moves -----

  /** p l v x l l x v l */
  const WORD: Text := [0x70, 0x6C, 0x76, 0x78, 0x6C, 0x6C, 0x78, 0x76, 0x6C]

  /** The symbols of l v x l l x v l s */
  const WORD_SYMBOLS: seq<Symbol> := [31, 12, 6, 31, 31, 6, 12, 31, 16]

  const WORD_LOWS: seq<Symbol> := [16, 12, 22, 24, 12, 12, 24, 22, 12]

  const DIFFERENCE: seq<Symbol> := [16, 19, 26, 30, 19, 19, 30, 26, 19, 16]

  lemma FirstSteps()
    ensures CODE.Run(0, [16, 19, 26]) == 0x427a && CODE.Run(0x427a, [30, 19, 19]) == 0x213d7a73
  {
    assert CODE.Step(0, 16) == 0x10 && CODE.Step(0x10, 19) == 0x213 && CODE.Step(0x213, 26) == 0x427a;
    assert CODE.Step(0x427a, 30) == 0x84f5e && CODE.Step(0x84f5e, 19) == 0x109ebd3 && CODE.Step(0x109ebd3, 19) == 0x213d7a73;
    ThreeSteps(CODE, 0, 16, 19, 26);
    ThreeSteps(CODE, 0x427a, 30, 19, 19);
  }

  lemma LastSteps()
    ensures CODE.Run(0x213d7a73, [30, 26, 19]) == 0x80f27a1f23 && CODE.Step(0x80f27a1f23, 16) == 0
  {
    assert CODE.Step(0x213d7a73, 30) == 0x427af4e7e && CODE.Step(0x427af4e7e, 26) == 0x84f5e9cfda && CODE.Step(0x84f5e9cfda, 19) == 0x80f27a1f23;
    ThreeSteps(CODE, 0x213d7a73, 30, 26, 19);
  }

  lemma DifferenceUnseen(r: Register<Word, Symbol>)
    requires r.Run(0, [16, 19, 26]) == 0x427a && r.Run(0x427a, [30, 19, 19]) == 0x213d7a73
    requires r.Run(0x213d7a73, [30, 26, 19]) == 0x80f27a1f23 && r.Step(0x80f27a1f23, 16) == 0
    ensures r.Run(0, DIFFERENCE) == 0
  {
    NineSteps(r, [16, 19, 26], [30, 19, 19], [30, 26, 19], 0, 0x427a, 0x213d7a73, 0x80f27a1f23);
    assert DIFFERENCE[..9] == [16, 19, 26] + [30, 19, 19] + [30, 26, 19];
    assert DIFFERENCE[9] == 16;
  }

  lemma SameState(c: Word)
    ensures CODE.Run(c, [0] + WORD_SYMBOLS) == CODE.Run(c, WORD_LOWS + [0])
  {
    FirstSteps();
    LastSteps();
    DifferenceUnseen(CODE);
    CodeLinear();
    Difference();
    DifferenceRun(CODE, WORDS, SYMBOLS, c, [0] + WORD_SYMBOLS, WORD_LOWS + [0], DIFFERENCE);
  }

  lemma Difference()
    ensures Sum(SYMBOLS, [0] + WORD_SYMBOLS, WORD_LOWS + [0], DIFFERENCE)
  {
  }

  lemma WordLows(prefix: Text)
    ensures Lows(prefix + WORD) == Lows(prefix) + WORD_LOWS
  {
    WordAlone();
    LowsConcat(prefix, WORD);
  }

  lemma WordLetters()
    ensures LowFive(0x70) == 16 && LowFive(0x6C) == 12 && LowFive(0x76) == 22 && LowFive(0x78) == 24
  {
  }

  lemma WordAlone()
    ensures Lows(WORD) == WORD_LOWS
  {
    WordLetters();
    assert |Lows(WORD)| == |WORD_LOWS|;
    forall i | 0 <= i < |WORD_LOWS| ensures Lows(WORD)[i] == WORD_LOWS[i] {
      assert Lows(WORD)[i] == LowFive(WORD[i]);
    }
  }

  lemma LowsConcat(s: Text, t: Text)
    ensures Lows(s + t) == Lows(s) + Lows(t)
  {
  }

  lemma WordChars()
    ensures Chars(WORD_SYMBOLS) == WORD[1..] + [0x73]
  {
    assert CharOf(31) == 0x6C && CharOf(12) == 0x76 && CharOf(6) == 0x78 && CharOf(16) == 0x73;
  }

  lemma SameRemainder(front: seq<Symbol>, back: seq<Symbol>)
    ensures Remainder(front + ([0] + WORD_SYMBOLS) + back) == Remainder(front + (WORD_LOWS + [0]) + back)
  {
    SameState(CODE.Run(1, front));
    RunParts(CODE, 1, front, [0] + WORD_SYMBOLS, back);
    RunParts(CODE, 1, front, WORD_LOWS + [0], back);
  }

  /** The two prefixes and payloads have one checksum. */
  lemma SameChecksum(prefix: Text, payload: seq<Symbol>)
    ensures Checksum(Expanded(prefix) + (WORD_SYMBOLS + payload)) == Checksum(Expanded(prefix + WORD) + payload)
  {
    var front, back := Lows(prefix), payload + EIGHT_ZEROS;
    WordLows(prefix);
    SameRemainder(front, back);
    assert Expanded(prefix) + (WORD_SYMBOLS + payload) + EIGHT_ZEROS == front + ([0] + WORD_SYMBOLS) + back;
    assert Expanded(prefix + WORD) + payload + EIGHT_ZEROS == front + (WORD_LOWS + [0]) + back;
  }

  /** The two addresses of a prefix and a payload. */
  ghost function Left(prefix: Text, payload: seq<Symbol>): Text {
    Encoded(prefix, WORD_SYMBOLS + payload)
  }

  ghost function Right(prefix: Text, payload: seq<Symbol>): Text {
    Encoded(prefix + WORD, payload)
  }

  lemma SideBySide(prefix: Text, payload: seq<Symbol>)
    ensures
      var rest := Chars(payload + Checksum(Expanded(prefix + WORD) + payload));
      && Left(prefix, payload) == prefix + [COLON] + WORD[1..] + [0x73] + rest
      && Right(prefix, payload) == prefix + [0x70] + WORD[1..] + [COLON] + rest
  {
    var t := Checksum(Expanded(prefix + WORD) + payload);
    SameChecksum(prefix, payload);
    WordChars();
    assert WORD_SYMBOLS + payload + t == WORD_SYMBOLS + (payload + t);
    assert Chars(WORD_SYMBOLS + (payload + t)) == Chars(WORD_SYMBOLS) + Chars(payload + t);
    assert WORD == [0x70] + WORD[1..];
  }

  /** For every prefix and payload there are two accepted addresses that differ in two characters. */
  lemma ColonMoved(prefix: Text, payload: seq<Symbol>)
    requires LowerLetters(prefix)
    ensures DecodedText(Left(prefix, payload)) == Accepted(prefix, WORD_SYMBOLS + payload)
    ensures DecodedText(Right(prefix, payload)) == Accepted(prefix + WORD, payload)
    ensures |Left(prefix, payload)| == |Right(prefix, payload)|
    ensures forall i :: 0 <= i < |Left(prefix, payload)| && i != |prefix| && i != |prefix| + 9 ==> Left(prefix, payload)[i] == Right(prefix, payload)[i]
  {
    assert LowerLetters(prefix + WORD) by { WordIsLower(prefix); }
    DecodeEncode(prefix, WORD_SYMBOLS + payload);
    DecodeEncode(prefix + WORD, payload);
    SideBySide(prefix, payload);
    TwoPlaces(prefix, COLON, 0x70, WORD[1..], 0x73, COLON, Chars(payload + Checksum(Expanded(prefix + WORD) + payload)));
  }

  lemma WordIsLower(prefix: Text)
    requires LowerLetters(prefix)
    ensures LowerLetters(prefix + WORD)
  {
    assert forall i :: 0 <= i < |WORD| ==> IsLower(WORD[i]);
  }

  lemma TwoPlaces(front: Text, x: Byte, x': Byte, middle: Text, y: Byte, y': Byte, rest: Text)
    ensures
      var a, b := front + [x] + middle + [y] + rest, front + [x'] + middle + [y'] + rest;
      |a| == |b| && forall i :: 0 <= i < |a| && i != |front| && i != |front| + 1 + |middle| ==> a[i] == b[i]
  {
  }
}
