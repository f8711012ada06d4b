/**
 * CashAddr strings (src/cashaddr/cashaddr.cpp): a prefix, a colon, and symbols ending in a checksum.
 */
module CashAddr {
  import opened Options
  import opened Transactions
  import opened LinearRegister
  import opened CashAddrChecksum

  type Text = seq<Byte>

  const COLON: Byte := ':' as int

  // ----- Characters -----

  /** `CHARSET` */
  function CharOf(s: Symbol): Byte {
    match s as int
    case 0 => 'q' as int
    case 1 => 'p' as int
    case 2 => 'z' as int
    case 3 => 'r' as int
    case 4 => 'y' as int
    case 5 => '9' as int
    case 6 => 'x' as int
    case 7 => '8' as int
    case 8 => 'g' as int
    case 9 => 'f' as int
    case 10 => '2' as int
    case 11 => 't' as int
    case 12 => 'v' as int
    case 13 => 'd' as int
    case 14 => 'w' as int
    case 15 => '0' as int
    case 16 => 's' as int
    case 17 => '3' as int
    case 18 => 'j' as int
    case 19 => 'n' as int
    case 20 => '5' as int
    case 21 => '4' as int
    case 22 => 'k' as int
    case 23 => 'h' as int
    case 24 => 'c' as int
    case 25 => 'e' as int
    case 26 => '6' as int
    case 27 => 'm' as int
    case 28 => 'u' as int
    case 29 => 'a' as int
    case 30 => '7' as int
    case _ => 'l' as int
  }

  /** `CHARSET_REV` */
  function SymbolOf(c: Byte): Option<Symbol> {
    match c
    case 113 => Some(0)
    case 81 => Some(0)
    case 112 => Some(1)
    case 80 => Some(1)
    case 122 => Some(2)
    case 90 => Some(2)
    case 114 => Some(3)
    case 82 => Some(3)
    case 121 => Some(4)
    case 89 => Some(4)
    case 57 => Some(5)
    case 120 => Some(6)
    case 88 => Some(6)
    case 56 => Some(7)
    case 103 => Some(8)
    case 71 => Some(8)
    case 102 => Some(9)
    case 70 => Some(9)
    case 50 => Some(10)
    case 116 => Some(11)
    case 84 => Some(11)
    case 118 => Some(12)
    case 86 => Some(12)
    case 100 => Some(13)
    case 68 => Some(13)
    case 119 => Some(14)
    case 87 => Some(14)
    case 48 => Some(15)
    case 115 => Some(16)
    case 83 => Some(16)
    case 51 => Some(17)
    case 106 => Some(18)
    case 74 => Some(18)
    case 110 => Some(19)
    case 78 => Some(19)
    case 53 => Some(20)
    case 52 => Some(21)
    case 107 => Some(22)
    case 75 => Some(22)
    case 104 => Some(23)
    case 72 => Some(23)
    case 99 => Some(24)
    case 67 => Some(24)
    case 101 => Some(25)
    case 69 => Some(25)
    case 54 => Some(26)
    case 109 => Some(27)
    case 77 => Some(27)
    case 117 => Some(28)
    case 85 => Some(28)
    case 97 => Some(29)
    case 65 => Some(29)
    case 55 => Some(30)
    case 108 => Some(31)
    case 76 => Some(31)
    case _ => None
  }

  predicate IsLower(c: Byte) { 'a' as int <= c <= 'z' as int }
  predicate IsUpper(c: Byte) { 'A' as int <= c <= 'Z' as int }
  predicate IsDigit(c: Byte) { '0' as int <= c <= '9' as int }
  predicate IsLetter(c: Byte) { IsLower(c) || IsUpper(c) }

  /** `c | 0x20` */
  function LowerCase(c: Byte): Byte {
    if c / 32 % 2 == 1 then c else c + 32
  }

  /** `c & 0x1f` */
  function LowFive(c: Byte): Symbol {
    (c % 32) as Symbol
  }

  const CHARSET: string := "qpzry9x8gf2tvdw0s3jn54khce6mua7l"

  /** The characters of the symbols, in order. */
  lemma CharsetInOrder(s: Symbol)
    ensures |CHARSET| == 32 && CharOf(s) == CHARSET[s as int] as int
  {
  }

  lemma LowerCaseExactly(c: Byte)
    ensures IsUpper(c) ==> LowerCase(c) == c + 32
    ensures IsLower(c) || IsDigit(c) || c == COLON ==> LowerCase(c) == c
  {
  }

  lemma SymbolOfChar(s: Symbol)
    ensures SymbolOf(CharOf(s)) == Some(s) && (IsLower(CharOf(s)) || IsDigit(CharOf(s)))
  {
  }

  lemma CharOfSymbol(c: Byte)
    requires SymbolOf(c).Some?
    ensures CharOf(SymbolOf(c).value) == LowerCase(c) && (IsLetter(c) || IsDigit(c))
  {
    if c < 97 {
      CharOfUpper(c);
    } else {
      CharOfLower(c);
    }
  }

  lemma CharOfUpper(c: Byte)
    requires SymbolOf(c).Some? && c < 97
    ensures CharOf(SymbolOf(c).value) == LowerCase(c) && (IsUpper(c) || IsDigit(c))
  {
    if c < 58 {
    } else if c < 78 {
    }
  }

  lemma CharOfLower(c: Byte)
    requires SymbolOf(c).Some? && c >= 97
    ensures CharOf(SymbolOf(c).value) == LowerCase(c) && IsLower(c)
  {
    if c < 110 {
    }
  }

  function Lowered(t: Text): Text {
    seq(|t|, i requires 0 <= i < |t| => LowerCase(t[i]))
  }

  function Chars(v: seq<Symbol>): Text {
    seq(|v|, i requires 0 <= i < |v| => CharOf(v[i]))
  }

  function Expanded(prefix: Text): seq<Symbol> {
    seq(|prefix|, i requires 0 <= i < |prefix| => LowFive(prefix[i])) + [0]
  }

  // ----- Checksums -----

  method ExpandPrefix(prefix: Text) returns (ret: seq<Symbol>)
    ensures ret == Expanded(prefix)
  {
    ret := [];
    for i := 0 to |prefix|
      invariant |ret| == i && forall j :: 0 <= j < i ==> ret[j] == LowFive(prefix[j])
    {
      ret := ret + [LowFive(prefix[i])];
    }
    ret := ret + [0];
  }

  ghost predicate Verifies(prefix: Text, payload: seq<Symbol>) {
    Xor(Remainder(Expanded(prefix) + payload), 1) == 0
  }

  method VerifyChecksum(prefix: Text, payload: seq<Symbol>) returns (ok: bool)
    ensures ok == Verifies(prefix, payload)
  {
    var expanded := ExpandPrefix(prefix);
    var mod := PolyMod(expanded + payload);
    return mod == 0;
  }

  method CreateChecksum(prefix: Text, payload: seq<Symbol>) returns (ret: seq<Symbol>)
    ensures ret == Checksum(Expanded(prefix) + payload)
  {
    var enc := ExpandPrefix(prefix);
    enc := enc + payload;
    var mod := PolyMod(enc + EIGHT_ZEROS);
    ret := SplitSymbols(mod);
  }

  /** The 5-bit groups of a register: `mod >> 5 * (7 - i)`, cut to five bits, for each i. */
  method SplitSymbols(mod: Word) returns (ret: seq<Symbol>)
    ensures ret == PACKING.Digits(mod, 8)
  {
    ret := [];
    for i := 0 to 8
      invariant |ret| == i && ret == PACKING.Digits(mod, 8)[..i]
    {
      DigitAt(PACKING, mod, 8, i);
      ret := ret + [Low(PACKING.Drop(mod, 7 - i))];
    }
  }

  /** A payload has one checksum: the one that is created. */
  lemma VerifiesIffCreated(prefix: Text, payload: seq<Symbol>, t: seq<Symbol>)
    requires |t| == 8
    ensures Verifies(prefix, payload + t) <==> t == Checksum(Expanded(prefix) + payload)
  {
    assert Expanded(prefix) + (payload + t) == Expanded(prefix) + payload + t;
    ChecksumUnique(Expanded(prefix) + payload, t);
  }

  // ----- Encoding -----

  ghost function Encoded(prefix: Text, payload: seq<Symbol>): Text {
    prefix + [COLON] + Chars(payload + Checksum(Expanded(prefix) + payload))
  }

  method Encode(prefix: Text, payload: seq<Symbol>) returns (ret: Text)
    ensures ret == Encoded(prefix, payload)
  {
    var checksum := CreateChecksum(prefix, payload);
    var combined := payload + checksum;
    ret := prefix + [COLON];
    for i := 0 to |combined|
      invariant ret == prefix + [COLON] + Chars(combined[..i])
    {
      ret := ret + [CharOf(combined[i])];
      assert Chars(combined[..i + 1]) == Chars(combined[..i]) + [CharOf(combined[i])];
    }
    assert combined[..|combined|] == combined;
  }

  // ----- Decoding -----

  /** The source returns an empty pair where decoding fails, and cuts eight symbols off whatever verifies. */
  datatype Decoded = Failed | OutOfRange | Accepted(prefix: Text, payload: seq<Symbol>)

  ghost predicate OneCase(str: Text) {
    !((exists i :: 0 <= i < |str| && IsLower(str[i])) && (exists i :: 0 <= i < |str| && IsUpper(str[i])))
  }

  /** Letters, a colon at `k`, then letters and digits, in one case. */
  ghost predicate Shape(str: Text, k: nat) {
    && 0 < k < |str| && str[k] == COLON
    && (forall i :: 0 <= i < k ==> IsLetter(str[i]))
    && (forall i :: k < i < |str| ==> IsLetter(str[i]) || IsDigit(str[i]))
    && OneCase(str)
  }

  predicate InCharset(t: Text) {
    forall i :: 0 <= i < |t| ==> SymbolOf(t[i]).Some?
  }

  function Symbols(t: Text): seq<Symbol>
    requires InCharset(t)
  {
    seq(|t|, i requires 0 <= i < |t| => SymbolOf(t[i]).value)
  }

  /** What comes of a string with its colon at `k`. */
  ghost function DecodedAt(str: Text, k: nat): Decoded
    requires k < |str|
  {
    DecodedData(Lowered(str[..k]), str[k + 1..])
  }

  ghost function DecodedData(prefix: Text, data: Text): Decoded {
    if !InCharset(data) || !Verifies(prefix, Symbols(data)) then Failed
    else if |data| < 8 then OutOfRange
    else Accepted(prefix, Symbols(data)[..|data| - 8])
  }

  /** Decoding, by the grammar of addresses. */
  ghost function DecodedText(str: Text): Decoded {
    if k: nat :| Shape(str, k) then DecodedAt(str, k) else Failed
  }

  lemma ShapeUnique(str: Text, j: nat, k: nat)
    requires Shape(str, j) && Shape(str, k)
    ensures j == k
  {
  }

  lemma DecodedByShape(str: Text, k: nat)
    requires Shape(str, k)
    ensures DecodedText(str) == DecodedAt(str, k)
  {
    var j: nat :| Shape(str, j) && DecodedText(str) == DecodedAt(str, j);
    ShapeUnique(str, j, k);
  }

  /** The state of the first loop of `Decode` after `n` characters without a fault. */
  ghost predicate Scanned(str: Text, n: nat, lower: bool, upper: bool, prefixSize: nat) {
    && n <= |str|
    && (lower <==> exists i :: 0 <= i < n && IsLower(str[i]))
    && (upper <==> exists i :: 0 <= i < n && IsUpper(str[i]))
    && (prefixSize == 0 ==> forall i :: 0 <= i < n ==> IsLetter(str[i]))
    && (prefixSize > 0 ==>
          && prefixSize < n && str[prefixSize] == COLON
          && (forall i :: 0 <= i < prefixSize ==> IsLetter(str[i]))
          && (forall i :: prefixSize < i < n ==> IsLetter(str[i]) || IsDigit(str[i])))
  }

  /** The first loop of `Decode` with the test after it. */
  method Scan(str: Text) returns (ok: bool, prefixSize: nat)
    ensures ok ==> Shape(str, prefixSize)
    ensures !ok ==> forall k: nat :: !Shape(str, k)
  {
    var lower, upper := false, false;
    prefixSize := 0;
    for i := 0 to |str|
      invariant Scanned(str, i, lower, upper, prefixSize)
    {
      var c := str[i];
      if IsLower(c) {
        lower := true;
      } else if IsUpper(c) {
        upper := true;
      } else if IsDigit(c) {
        if prefixSize == 0 {
          return false, 0;
        }
      } else if c == COLON {
        if i == 0 || prefixSize != 0 {
          return false, 0;
        }
        prefixSize := i;
      } else {
        return false, 0;
      }
    }
    ok := !(prefixSize == 0 || (upper && lower));
  }

  lemma SymbolsStep(data: Text, i: nat)
    requires i < |data| && InCharset(data[..i]) && SymbolOf(data[i]).Some?
    ensures InCharset(data[..i + 1]) && Symbols(data[..i + 1]) == Symbols(data[..i]) + [SymbolOf(data[i]).value]
  {
    var more := data[..i + 1];
    assert forall j :: 0 <= j < i ==> more[j] == data[..i][j];
    assert more[i] == data[i];
  }

  method ReadSymbols(data: Text) returns (values: Option<seq<Symbol>>)
    ensures values == if InCharset(data) then Some(Symbols(data)) else None
  {
    var read: seq<Symbol> := [];
    for i := 0 to |data|
      invariant InCharset(data[..i]) && read == Symbols(data[..i])
    {
      var c := SymbolOf(data[i]);
      if c.None? {
        assert !InCharset(data);
        return None;
      }
      SymbolsStep(data, i);
      read := read + [c.value];
    }
    assert data[..|data|] == data;
    return Some(read);
  }

  method Decode(str: Text) returns (r: Decoded)
    ensures r == DecodedText(str)
  {
    var ok, prefixSize := Scan(str);
    if !ok {
      return Failed;
    }
    DecodedByShape(str, prefixSize);
    var prefix := ReadPrefix(str, prefixSize);
    r := DecodeData(prefix, str[prefixSize + 1..]);
  }

  method ReadPrefix(str: Text, prefixSize: nat) returns (prefix: Text)
    requires prefixSize <= |str|
    ensures prefix == Lowered(str[..prefixSize])
  {
    prefix := [];
    for i := 0 to prefixSize
      invariant prefix == Lowered(str[..i])
    {
      prefix := prefix + [LowerCase(str[i])];
    }
  }

  /** The second half of `Decode`: the characters behind the colon. */
  method DecodeData(prefix: Text, data: Text) returns (r: Decoded)
    ensures r == DecodedData(prefix, data)
  {
    var values := ReadSymbols(data);
    if values.None? {
      return Failed;
    }
    var verified := VerifyChecksum(prefix, values.value);
    if !verified {
      return Failed;
    }
    if |values.value| < 8 {
      return OutOfRange;
    }
    return Accepted(prefix, values.value[..|values.value| - 8]);
  }

  // ----- Round trips -----

  ghost predicate LowerLetters(prefix: Text) {
    |prefix| > 0 && forall i :: 0 <= i < |prefix| ==> IsLower(prefix[i])
  }

  lemma LowerUnchanged(t: Text)
    requires forall i :: 0 <= i < |t| ==> IsLower(t[i])
    ensures Lowered(t) == t
  {
  }

  lemma SymbolsOfChars(v: seq<Symbol>)
    ensures InCharset(Chars(v)) && Symbols(Chars(v)) == v
    ensures forall i :: 0 <= i < |v| ==> IsLower(Chars(v)[i]) || IsDigit(Chars(v)[i])
  {
    forall i | 0 <= i < |v|
      ensures SymbolOf(Chars(v)[i]) == Some(v[i]) && (IsLower(Chars(v)[i]) || IsDigit(Chars(v)[i]))
    {
      SymbolOfChar(v[i]);
    }
  }

  lemma CharsOfSymbols(t: Text)
    requires InCharset(t)
    ensures Chars(Symbols(t)) == Lowered(t)
  {
    forall i | 0 <= i < |t|
      ensures CharOf(SymbolOf(t[i]).value) == LowerCase(t[i])
    {
      CharOfSymbol(t[i]);
    }
  }

  lemma ShapeOf(prefix: Text, data: Text)
    requires LowerLetters(prefix) && forall i :: 0 <= i < |data| ==> IsLower(data[i]) || IsDigit(data[i])
    ensures Shape(prefix + [COLON] + data, |prefix|)
  {
    var str, k := prefix + [COLON] + data, |prefix|;
    assert forall i :: 0 <= i < k ==> str[i] == prefix[i];
    assert forall i :: k < i < |str| ==> str[i] == data[i - k - 1];
  }

  /** Decoding undoes encoding. */
  lemma DecodeEncode(prefix: Text, payload: seq<Symbol>)
    requires LowerLetters(prefix)
    ensures DecodedText(Encoded(prefix, payload)) == Accepted(prefix, payload)
  {
    var t := Checksum(Expanded(prefix) + payload);
    var str, k, data := Encoded(prefix, payload), |prefix|, Chars(payload + t);
    SymbolsOfChars(payload + t);
    assert str[..k] == prefix && str[k + 1..] == data;
    ShapeOf(prefix, data);
    DecodedByShape(str, k);
    LowerUnchanged(prefix);
    VerifiesIffCreated(prefix, payload, t);
    assert (payload + t)[..|payload|] == payload;
  }

  /** Whatever is accepted is the lower-cased encoding of the result, up to case. */
  lemma EncodeDecode(str: Text)
    requires DecodedText(str).Accepted?
    ensures
      var r := DecodedText(str);
      LowerLetters(r.prefix) && Encoded(r.prefix, r.payload) == Lowered(str)
  {
    var r := DecodedText(str);
    var k: nat :| Shape(str, k) && r == DecodedAt(str, k);
    AcceptedAt(str, k);
    LoweredSplits(str, k);
  }

  lemma AcceptedAt(str: Text, k: nat)
    requires k < |str| && DecodedAt(str, k).Accepted?
    ensures
      var r := DecodedAt(str, k);
      r.prefix == Lowered(str[..k]) && Lowered(str[k + 1..]) == Chars(r.payload + Checksum(Expanded(r.prefix) + r.payload))
  {
    DataIsPayload(Lowered(str[..k]), str[k + 1..]);
  }

  lemma LoweredSplits(str: Text, k: nat)
    requires Shape(str, k)
    ensures LowerLetters(Lowered(str[..k]))
    ensures Lowered(str) == Lowered(str[..k]) + [COLON] + Lowered(str[k + 1..])
  {
    assert LowerCase(COLON) == COLON;
  }

  /** Symbols that verify are a payload with its checksum. */
  lemma DataIsPayload(prefix: Text, data: Text)
    requires InCharset(data) && Verifies(prefix, Symbols(data)) && |data| >= 8
    ensures
      var payload := Symbols(data)[..|data| - 8];
      Lowered(data) == Chars(payload + Checksum(Expanded(prefix) + payload))
  {
    var values, n := Symbols(data), |data| - 8;
    assert values == values[..n] + values[n..];
    VerifiesIffCreated(prefix, values[..n], values[n..]);
    CharsOfSymbols(data);
  }

  // ----- Case -----

  lemma SymbolCase(c: Byte)
    requires IsUpper(c)
    ensures SymbolOf(c) == SymbolOf(c + 32)
  {
  }

  /** The same characters, but for the case of letters. */
  ghost predicate SameButCase(a: Text, b: Text) {
    |a| == |b| && forall i :: 0 <= i < |a| ==> a[i] == b[i] || (IsLetter(a[i]) && IsLetter(b[i]) && LowerCase(a[i]) == LowerCase(b[i]))
  }

  lemma SameButCaseAt(c: Byte, d: Byte)
    requires c == d || (IsLetter(c) && IsLetter(d) && LowerCase(c) == LowerCase(d))
    ensures SymbolOf(c) == SymbolOf(d) && LowerCase(c) == LowerCase(d)
  {
    if IsUpper(c) {
      SymbolCase(c);
    }
    if IsUpper(d) {
      SymbolCase(d);
    }
  }

  lemma CaseOfParts(a: Text, b: Text, k: nat)
    requires SameButCase(a, b) && k < |a|
    ensures Lowered(a[..k]) == Lowered(b[..k]) && (InCharset(a[k + 1..]) <==> InCharset(b[k + 1..]))
    ensures InCharset(a[k + 1..]) ==> Symbols(a[k + 1..]) == Symbols(b[k + 1..])
  {
    var x, y := a[k + 1..], b[k + 1..];
    forall i | 0 <= i < |a| ensures SymbolOf(a[i]) == SymbolOf(b[i]) && LowerCase(a[i]) == LowerCase(b[i]) { SameButCaseAt(a[i], b[i]); }
    assert forall i :: 0 <= i < |x| ==> x[i] == a[k + 1 + i] && y[i] == b[k + 1 + i];
  }

  /** Texts in one case decode alike, upper or lower; a text in two cases does not decode. */
  lemma CaseMakesNoDifference(a: Text, b: Text)
    requires SameButCase(a, b)
    ensures OneCase(a) && OneCase(b) ==> DecodedText(a) == DecodedText(b)
    ensures (exists i, j :: 0 <= i < |a| && 0 <= j < |a| && 97 <= a[i] <= 122 && 65 <= a[j] <= 90) ==> DecodedText(a) == Failed
  {
    if i, j :| 0 <= i < |a| && 0 <= j < |a| && 97 <= a[i] <= 122 && 65 <= a[j] <= 90 {
      assert IsLower(a[i]) && IsUpper(a[j]);
    }
    if OneCase(a) && OneCase(b) {
      forall k: nat ensures Shape(a, k) <==> Shape(b, k) { SameShape(a, b, k); }
      if k: nat :| Shape(a, k) {
        CaseOfShape(a, b, k);
      }
    }
  }

  lemma CaseOfShape(a: Text, b: Text, k: nat)
    requires SameButCase(a, b) && Shape(a, k) && Shape(b, k)
    ensures DecodedText(a) == DecodedText(b)
  {
    DecodedByShape(a, k);
    DecodedByShape(b, k);
    CaseOfParts(a, b, k);
  }

  lemma SameShape(a: Text, b: Text, k: nat)
    requires SameButCase(a, b) && OneCase(a) && OneCase(b)
    ensures Shape(a, k) <==> Shape(b, k)
  {
  }

  // ----- Errors -----

  /** Two strings that agree, up to case, outside a window of eight characters that starts at `at`. */
  ghost predicate TextBurst(a: Text, b: Text, at: nat) {
    && |a| == |b|
    && forall i :: 0 <= i < |a| && (i < at || at + 8 <= i) ==> LowerCase(a[i]) == LowerCase(b[i])
  }

  lemma SameSymbol(c: Byte, d: Byte)
    requires SymbolOf(c).Some? && SymbolOf(d).Some?
    ensures SymbolOf(c) == SymbolOf(d) <==> LowerCase(c) == LowerCase(d)
  {
    CharOfSymbol(c);
    CharOfSymbol(d);
    SymbolOfChar(SymbolOf(c).value);
    SymbolOfChar(SymbolOf(d).value);
  }

  lemma OneRemainder(a: Word, b: Word)
    requires Xor(a, 1) == 0 && Xor(b, 1) == 0
    ensures a == b
  {
  }

  lemma LowFiveInt(c: Byte)
    ensures LowFive(c) as int == c % 32
  {
  }

  /** The low five bits of a letter tell it, up to case, and are not zero. */
  lemma LetterLows(c: Byte, d: Byte)
    requires IsLetter(c) && IsLetter(d)
    ensures LowFive(LowerCase(c)) != 0
    ensures LowFive(LowerCase(c)) == LowFive(LowerCase(d)) <==> LowerCase(c) == LowerCase(d)
  {
    LowOfLetter(c);
    LowOfLetter(d);
  }

  lemma LowOfLetter(c: Byte)
    requires IsLetter(c)
    ensures LowFive(LowerCase(c)) as int == LowerCase(c) - 96 && LowerCase(c) > 96
  {
    LowFiveInt(LowerCase(c));
  }

  /** All symbols that the checksum of a string covers; symbol i is that of character i. */
  ghost function Checked(str: Text, k: nat): (w: seq<Symbol>)
    requires k < |str| && InCharset(str[k + 1..])
    ensures |w| == |str|
  {
    Expanded(Lowered(str[..k])) + Symbols(str[k + 1..])
  }

  lemma CheckedAt(str: Text, k: nat, i: nat)
    requires k < |str| && InCharset(str[k + 1..]) && i < |str|
    ensures i < k ==> Checked(str, k)[i] == LowFive(LowerCase(str[i]))
    ensures i == k ==> Checked(str, k)[i] == 0
    ensures i > k ==> SymbolOf(str[i]).Some? && Checked(str, k)[i] == SymbolOf(str[i]).value
  {
    var front, data := Lowered(str[..k]), str[k + 1..];
    if i < k {
      assert front[i] == LowerCase(str[..k][i]) && str[..k][i] == str[i];
      assert Checked(str, k)[i] == Expanded(front)[i] == LowFive(front[i]);
    } else if i > k {
      assert data[i - k - 1] == str[i];
      assert Checked(str, k)[i] == Symbols(data)[i - k - 1];
    }
  }

  lemma LowerColon(c: Byte)
    requires LowerCase(c) == COLON && (IsLetter(c) || IsDigit(c) || c == COLON)
    ensures c == COLON
  {
  }

  /** Outside the window the colons are in the same place. */
  lemma SameSide(a: Text, b: Text, j: nat, k: nat, at: nat, i: nat)
    requires Shape(a, k) && Shape(b, j) && TextBurst(a, b, at) && i < |a| && (i < at || at + 8 <= i)
    ensures (i < k <==> i < j) && (i == k <==> i == j)
  {
    assert LowerCase(COLON) == COLON;
    if k < at || at + 8 <= k {
      assert LowerCase(b[k]) == COLON;
      LowerColon(b[k]);
    }
    if j < at || at + 8 <= j {
      assert LowerCase(a[j]) == COLON;
      LowerColon(a[j]);
    }
  }

  /** A burst of characters is a burst of symbols, wherever it is. */
  lemma CheckedBurst(a: Text, b: Text, j: nat, k: nat, at: nat)
    requires Shape(a, k) && Shape(b, j) && TextBurst(a, b, at) && InCharset(a[k + 1..]) && InCharset(b[j + 1..])
    ensures Burst(Checked(a, k), Checked(b, j), at)
  {
    forall i | 0 <= i < |a| && (i < at || at + 8 <= i)
      ensures Checked(a, k)[i] == Checked(b, j)[i]
    {
      SameSide(a, b, j, k, at, i);
      CheckedAt(a, k, i);
      CheckedAt(b, j, i);
      if i > k {
        SameSymbol(a[i], b[i]);
      }
    }
  }

  /** The symbols tell the string, up to case. */
  lemma CheckedInjective(a: Text, b: Text, j: nat, k: nat)
    requires Shape(a, k) && Shape(b, j) && |a| == |b| && InCharset(a[k + 1..]) && InCharset(b[j + 1..])
    requires Checked(a, k) == Checked(b, j)
    ensures Lowered(a) == Lowered(b)
  {
    CheckedColon(a, b, j, k);
    CheckedColon(b, a, k, j);
    forall i | 0 <= i < |a|
      ensures LowerCase(a[i]) == LowerCase(b[i])
    {
      CheckedAt(a, k, i);
      CheckedAt(b, j, i);
      if i < k {
        LetterLows(a[i], b[i]);
      } else if i > k {
        SameSymbol(a[i], b[i]);
      }
    }
  }

  /** A colon is not where the other string still has letters of its prefix. */
  lemma CheckedColon(a: Text, b: Text, j: nat, k: nat)
    requires Shape(a, k) && Shape(b, j) && |a| == |b| && InCharset(a[k + 1..]) && InCharset(b[j + 1..])
    requires Checked(a, k) == Checked(b, j)
    ensures k >= j
  {
    CheckedAt(a, k, k);
    CheckedAt(b, j, k);
    if k < j {
      LetterLows(b[k], b[k]);
    }
  }

  /** An accepted address with up to eight neighbouring characters changed, anywhere, is rejected. */
  lemma BurstRejected(a: Text, b: Text, at: nat)
    requires DecodedText(a) != Failed && TextBurst(a, b, at) && Lowered(a) != Lowered(b)
    ensures DecodedText(b) == Failed
  {
    if DecodedText(b) != Failed {
      var k: nat :| Shape(a, k) && DecodedText(a) == DecodedAt(a, k);
      var j: nat :| Shape(b, j) && DecodedText(b) == DecodedAt(b, j);
      BothVerify(a, b, j, k, at);
    }
  }

  lemma BothVerify(a: Text, b: Text, j: nat, k: nat, at: nat)
    requires Shape(a, k) && Shape(b, j) && DecodedAt(a, k) != Failed && DecodedAt(b, j) != Failed && TextBurst(a, b, at)
    ensures Lowered(a) == Lowered(b)
  {
    CheckedBurst(a, b, j, k, at);
    OneRemainder(Remainder(Checked(a, k)), Remainder(Checked(b, j)));
    if Checked(a, k) != Checked(b, j) {
      BurstDetected(Checked(a, k), Checked(b, j), at);
    } else {
      CheckedInjective(a, b, j, k);
    }
  }
}
