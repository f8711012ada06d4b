/**
 * Scripts as addresses and back (include/gs++/scriptpubkey.hpp).
 */
module Address {
  import opened Arithmetic
  import opened Options
  import opened Transactions
  import opened ConvertBits
  import opened CashAddrChecksum
  import opened CashAddr

  type Script = seq<Byte>

  datatype Kind = PayToPubkeyHash | PayToScriptHash

  datatype Destination = Nonstandard | Destination(kind: Kind, hash: seq<Byte>)

  predicate IsPubkeyHash(v: Script) {
    |v| > 5 && v[0] == 0x76 && v[1] == 0xA9 && |v| - 5 == v[2]
  }

  predicate IsScriptHash(v: Script) {
    |v| == 23 && v[0] == 0xA9 && v[22] == 0x87
  }

  /** `to_address` */
  function ToAddress(v: Script): Destination {
    if IsPubkeyHash(v) then Destination(PayToPubkeyHash, v[3..|v| - 2])
    else if IsScriptHash(v) then Destination(PayToScriptHash, v[1..21])
    else Nonstandard
  }

  function TypeBits(kind: Kind): Byte {
    if kind == PayToPubkeyHash then 0 else 8
  }

  /** `getHashSizeBits`; other sizes fail an assertion. */
  function HashSizeBits(size: nat): Option<Byte> {
    match size
    case 20 => Some(0)
    case 24 => Some(1)
    case 28 => Some(2)
    case 32 => Some(3)
    case 40 => Some(4)
    case 48 => Some(5)
    case 56 => Some(6)
    case 64 => Some(7)
    case _ => None
  }

  /** How many bytes of hash the low three bits of a version byte stand for. */
  function HashSize(bits: nat): nat {
    (20 + 4 * (bits % 4)) * (if bits < 4 then 1 else 2)
  }

  lemma HashSizeExactly(n: nat, b: Byte)
    ensures HashSizeBits(n) == Some(b) <==> b < 8 && n == HashSize(b)
  {
  }

  // ----- Symbols and digits -----

  function AsDigits(v: seq<Symbol>): Digits {
    seq(|v|, i requires 0 <= i < |v| => v[i] as int)
  }

  function AsSymbols(ds: Digits): seq<Symbol>
    requires forall i :: 0 <= i < |ds| ==> ds[i] < 32
  {
    seq(|ds|, i requires 0 <= i < |ds| => ds[i] as Symbol)
  }

  lemma SmallPowers()
    ensures Pow2(5) == 32 && Pow2(8) == 256
  {
    assert Pow2(4) == 16;
  }

  lemma DigitsOfSymbols(ds: Digits)
    requires forall i :: 0 <= i < |ds| ==> ds[i] < 32
    ensures AsDigits(AsSymbols(ds)) == ds
  {
  }

  /** Eight to five and back: nothing is lost. */
  lemma RegroupRoundTrip(data: Digits, r: Digits, back: Digits)
    requires Small(data, 8) && Padded(data, 8, 5, r) && Whole(r, 5, 8, back)
    ensures Droppable(r, 5, 8) && back == data
  {
    var pad := 5 * |r| - 8 * |data|;
    assert 5 * |r| / 8 == |data| && 5 * |r| % 8 == pad;
    var v, p := Value(data, 8), Pow2(pad);
    assert Value(r, 5) == v * p;
    DivModUnique(v * p, p, v, 0);
    ValueUnique(back, data, 8);
  }

  // ----- To an address -----

  /** The version byte and the hash, where the script has an address. */
  function Payload(v: Script): Option<seq<Byte>> {
    match ToAddress(v)
    case Nonstandard => None
    case Destination(kind, hash) =>
      if HashSizeBits(|hash|).None? then None
      else Some([TypeBits(kind) + HashSizeBits(|hash|).value] + hash)
  }

  /** A key hash script: OP_DUP OP_HASH160, a length, as many bytes, and two more. */
  ghost predicate KeyHashForm(v: Script) {
    |v| > 5 && v[0] == 0x76 && v[1] == 0xA9 && v[2] == |v| - 5
  }

  /**
   * Exactly which scripts have an address, and what it holds: the low three bits of the version byte give the
   * size of the hash, the next one says that it is a script hash, and the rest is zero.
   */
  lemma PayloadExactly(v: Script, data: seq<Byte>)
    ensures Payload(v) == Some(data) <==>
      && |data| > 0 && |data| - 1 == HashSize(data[0] % 8)
      && if KeyHashForm(v) then data[0] < 8 && data[1..] == v[3..|v| - 2]
         else |v| == 23 && v[0] == 0xA9 && v[22] == 0x87 && 8 <= data[0] < 16 && data[1..] == v[1..21]
  {
    if Payload(v).Some? {
      var d := Payload(v).value;
      HashSizeExactly(|d| - 1, d[0] % 8);
      assert d == [d[0]] + d[1..];
    }
    if |data| > 0 {
      HashSizeExactly(|data| - 1, data[0] % 8);
      assert data == [data[0]] + data[1..];
    }
  }

  /** `t` is the address of `v`. */
  ghost predicate IsAddressOf(t: Text, v: Script, prefix: Text) {
    && Payload(v).Some?
    && exists sy: seq<Symbol> :: t == Encoded(prefix, sy) && Padded(Payload(v).value, 8, 5, AsDigits(sy))
  }

  /** `to_cashaddr`; `None` where an assertion of the source fails. */
  method ToCashaddr(v: Script, prefix: Text) returns (r: Option<Text>)
    ensures r.Some? <==> Payload(v).Some?
    ensures r.Some? ==> IsAddressOf(r.value, v, prefix)
  {
    var payload := Payload(v);
    if payload.None? {
      return None;
    }
    SmallPowers();
    var converted, out := Convert(payload.value, 8, 5, false);
    PayloadSize(v);
    FoldedShort(out, |out|);
    assert converted.digits == out;
    DigitsOfSymbols(converted.digits);
    var sy := AsSymbols(converted.digits);
    var t := Encode(prefix, sy);
    return Some(t);
  }

  // ----- From an address -----

  /** A script, or an assertion that fails or a read out of range. */
  datatype Outcome = Undefined | Script(v: seq<Byte>)

  /** The kind bits of a version byte, `version & 120`. */
  function KindBits(version: Byte): nat {
    version / 8 % 16
  }

  /** The script of a version byte and a hash. */
  function ScriptOf(data: seq<Byte>): Script
    requires |data| > 0
  {
    var size, hash := (|data| - 1) % 256, data[1..];
    if KindBits(data[0]) == 0 then [0x76, 0xA9, size] + hash + [0x88, 0xAC]
    else if KindBits(data[0]) == 1 then [0xA9, size] + hash + [0x87]
    else []
  }

  /** What each version byte leads to; its low three bits and its highest one are not looked at. */
  lemma ScriptForm(data: seq<Byte>)
    requires |data| > 0
    ensures data[0] % 128 < 8 ==> ScriptOf(data) == [0x76, 0xA9, (|data| - 1) % 256] + data[1..] + [0x88, 0xAC]
    ensures 8 <= data[0] % 128 < 16 ==> ScriptOf(data) == [0xA9, (|data| - 1) % 256] + data[1..] + [0x87]
    ensures 16 <= data[0] % 128 ==> ScriptOf(data) == []
  {
  }

  ghost predicate IsScriptOf(r: Outcome, t: Text) {
    match DecodedText(t)
    case Failed => r == Script([])
    case OutOfRange => r == Undefined
    case Accepted(_, sy) =>
      exists out: Digits :: Whole(AsDigits(sy), 5, 8, out) && r == OutcomeOf(AsDigits(sy), out)
  }

  /** The outcome, from the whole bytes of the payload; an empty payload has no version byte to read. */
  ghost function OutcomeOf(symbols: Digits, out: Digits): Outcome
    requires Whole(symbols, 5, 8, out)
  {
    if !Droppable(symbols, 5, 8) || |out| == 0 then Undefined
    else
      FoldedBytes(out, |out|);
      Script(ScriptOf(Folded(out, |out|)))
  }

  lemma {:induction false} FoldedBytes(out: Digits, length: nat)
    requires Small(out, 8) && |out| <= length
    ensures forall i :: 0 <= i < length ==> Folded(out, length)[i] < 256
    decreases |out|
  {
    if |out| > 0 {
      SmallPowers();
      FoldedBytes(out[..|out| - 1], length);
    }
  }

  /** `from_cashaddr` */
  method FromCashaddr(t: Text) returns (r: Outcome)
    ensures IsScriptOf(r, t)
  {
    var decoded := Decode(t);
    if decoded.Failed? {
      return Script([]);
    }
    if decoded.OutOfRange? {
      return Undefined;
    }
    SmallPowers();
    var c, out := Convert(AsDigits(decoded.payload), 5, 8, true);
    if c.Refused? || |c.digits| == 0 {
      r := Undefined;
    } else {
      FoldedBytes(out, |out|);
      var data: seq<Byte> := c.digits;
      r := Script(ScriptOf(data));
    }
    assert Whole(AsDigits(decoded.payload), 5, 8, out) && r == OutcomeOf(AsDigits(decoded.payload), out);
  }

  /** A text has one outcome. */
  lemma ScriptUnique(r1: Outcome, r2: Outcome, t: Text)
    requires IsScriptOf(r1, t) && IsScriptOf(r2, t)
    ensures r1 == r2
  {
    if DecodedText(t).Accepted? {
      var symbols := AsDigits(DecodedText(t).payload);
      var a: Digits :| Whole(symbols, 5, 8, a) && r1 == OutcomeOf(symbols, a);
      var b: Digits :| Whole(symbols, 5, 8, b) && r2 == OutcomeOf(symbols, b);
      ValueUnique(a, b, 8);
    }
  }

  // ----- There and back -----

  lemma PayloadSize(v: Script)
    requires Payload(v).Some?
    ensures 21 <= |Payload(v).value| <= 65
  {
  }

  lemma ConversionBack(data: seq<Byte>, sy: seq<Symbol>, out: Digits)
    requires 0 < |data| <= 65 && Padded(data, 8, 5, AsDigits(sy)) && Whole(AsDigits(sy), 5, 8, out)
    ensures OutcomeOf(AsDigits(sy), out) == Script(ScriptOf(data))
  {
    SmallPowers();
    RegroupRoundTrip(data, AsDigits(sy), out);
    FoldedShort(out, |out|);
    assert Folded(out, |out|) == data;
  }

  lemma AddressYieldsPayload(v: Script, prefix: Text, t: Text, r: Outcome)
    requires LowerLetters(prefix) && IsAddressOf(t, v, prefix) && IsScriptOf(r, t)
    ensures |Payload(v).value| > 0 && r == Script(ScriptOf(Payload(v).value))
  {
    var data := Payload(v).value;
    var sy: seq<Symbol> :| t == Encoded(prefix, sy) && Padded(data, 8, 5, AsDigits(sy));
    assert DecodedText(t) == Accepted(prefix, sy) by { DecodeEncode(prefix, sy); }
    var out: Digits :| Whole(AsDigits(sy), 5, 8, out) && r == OutcomeOf(AsDigits(sy), out);
    assert 0 < |data| <= 65 by { PayloadSize(v); }
    ConversionBack(data, sy, out);
  }

  /**
   * Exactly the scripts that survive the trip to an address and back. A key hash script does if it ends in
   * OP_EQUALVERIFY OP_CHECKSIG, which `to_address` does not look at. For a script hash, `to_address` takes the
   * length byte for the first byte of the hash and drops the last one, so only a constant script does.
   */
  predicate Survives(v: Script) {
    if IsPubkeyHash(v) then v[|v| - 2] == 0x88 && v[|v| - 1] == 0xAC
    else IsScriptHash(v) && forall i :: 1 <= i < 22 ==> v[i] == 0x14
  }

  lemma AddressRoundTrip(v: Script, prefix: Text, t: Text, r: Outcome)
    requires LowerLetters(prefix) && IsAddressOf(t, v, prefix) && IsScriptOf(r, t)
    ensures r == Script(v) <==> Survives(v)
  {
    AddressYieldsPayload(v, prefix, t, r);
    if IsPubkeyHash(v) {
      PubkeyHashBack(v);
    } else {
      ScriptHashBack(v);
    }
  }

  /** A script hash script: the length byte 20 and a hash of twenty zeros. */
  function ZeroHash(): Script {
    [0xA9, 0x14] + seq(20, _ => 0) + [0x87]
  }

  lemma ZeroHashForm()
    ensures Payload(ZeroHash()).Some? && !Survives(ZeroHash())
  {
    var v := ZeroHash();
    assert v[0] == 0xA9 && v[2] == 0 && v[22] == 0x87;
  }

  /** It has an address, which leads to another script. */
  lemma ScriptHashLost(prefix: Text, t: Text, r: Outcome)
    requires LowerLetters(prefix) && IsAddressOf(t, ZeroHash(), prefix) && IsScriptOf(r, t)
    ensures r != Script(ZeroHash())
  {
    ZeroHashForm();
    AddressRoundTrip(ZeroHash(), prefix, t, r);
  }

  lemma PubkeyHashBack(v: Script)
    requires IsPubkeyHash(v) && Payload(v).Some?
    ensures ScriptOf(Payload(v).value) == v <==> Survives(v)
  {
    var data, w, n := Payload(v).value, ScriptOf(Payload(v).value), |v|;
    assert data[1..] == v[3..n - 2];
    assert w == [0x76, 0xA9, n - 5] + v[3..n - 2] + [0x88, 0xAC];
    assert v == v[..3] + v[3..n - 2] + v[n - 2..];
    assert v[..3] == [0x76, 0xA9, n - 5];
    if Survives(v) {
      assert v[n - 2..] == [0x88, 0xAC];
    } else {
      assert w[n - 2] == 0x88 && w[n - 1] == 0xAC;
    }
  }

  lemma ScriptHashBack(v: Script)
    requires !IsPubkeyHash(v) && Payload(v).Some?
    ensures ScriptOf(Payload(v).value) == v <==> Survives(v)
  {
    var data, w := Payload(v).value, ScriptOf(Payload(v).value);
    assert data[1..] == v[1..21];
    assert w == [0xA9, 20] + v[1..21] + [0x87];
    assert forall i :: 2 <= i < 22 ==> w[i] == v[i - 1];
    if w == v {
      var i := 1;
      while i < 22
        invariant 1 <= i <= 22 && forall j :: 1 <= j < i ==> v[j] == 0x14
      {
        assert v[i] == w[i];
        i := i + 1;
      }
    }
  }
}
