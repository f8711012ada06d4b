/**
 * The parser of SLP messages (`slp_transaction::hydrate`, include/gs++/slp_transaction.hpp), after the
 * SLP Token Type 1 specification, and the grammar it accepts.
 */
module SlpScript {
  import opened Options
  import opened Transactions
  import opened Bytes

  const OP_RETURN: Byte := 0x6A

  // ----- Pushes -----

  /** The ways to push data: the length as opcode, or in one, two or four bytes behind one. */
  datatype Carrier = Direct | Data1 | Data2 | Data4

  datatype Push = Push(carrier: Carrier, data: Data)

  predicate Fits(p: Push) {
    match p.carrier
    case Direct => 1 <= |p.data| < 0x4C
    case Data1 => |p.data| < 0x100
    case Data2 => |p.data| < 0x10000
    case Data4 => |p.data| < 0x100000000
  }

  /** The opcode of a push and its length bytes. */
  function Opening(p: Push): Data
    requires Fits(p)
  {
    match p.carrier
    case Direct => [|p.data|]
    case Data1 => [0x4C, |p.data|]
    case Data2 => [0x4D] + ToLE(|p.data|, 2)
    case Data4 => [0x4E] + ToLE(|p.data|, 4)
  }

  function Written(p: Push): Data
    requires Fits(p)
  {
    Opening(p) + p.data
  }

  predicate AllFit(ps: seq<Push>) {
    forall i :: 0 <= i < |ps| ==> Fits(ps[i])
  }

  function WrittenAll(ps: seq<Push>): Data
    requires AllFit(ps)
  {
    if |ps| == 0 then [] else Written(ps[0]) + WrittenAll(ps[1..])
  }

  function Chunks(ps: seq<Push>): seq<Data> {
    seq(|ps|, i requires 0 <= i < |ps| => ps[i].data)
  }

  // ----- The tokenizer -----

  /** The opening at the start of `s`: its size and the length it announces (`extract_pushdata`). */
  datatype Announced = NoPush | Announced(size: nat, length: nat)

  function Announce(s: Data): Announced {
    if |s| == 0 then NoPush
    else if 0x00 < s[0] < 0x4C then (if 1 + s[0] as int > |s| then NoPush else Announced(1, s[0]))
    else if s[0] == 0x4C then (if 2 >= |s| then NoPush else Announced(2, s[1]))
    else if s[0] == 0x4D then (if 3 >= |s| then NoPush else Announced(3, FromLE(s[1..3])))
    else if s[0] == 0x4E then (if 5 >= |s| then NoPush else Announced(5, FromLE(s[1..5])))
    else NoPush
  }

  /** All of `s` as chunks, or nothing. */
  function Tokens(s: Data): Option<seq<Data>>
    decreases |s|
  {
    if |s| == 0 then Some([])
    else
      var a := Announce(s);
      if a.NoPush? || a.size + a.length > |s| then None
      else
        var rest := Tokens(s[a.size + a.length..]);
        if rest.None? then None else Some([s[a.size..a.size + a.length]] + rest.value)
  }

  /** The tokenizer reads any push, except for an empty one at the very end. */
  lemma AnnounceWritten(p: Push, rest: Data)
    requires Fits(p) && (|p.data| > 0 || |rest| > 0)
    ensures Announce(Written(p) + rest) == Announced(|Opening(p)|, |p.data|)
  {
    var s := Written(p) + rest;
    Widths();
    if p.carrier == Data2 {
      FromToLE(|p.data|, 2);
      assert s[1..3] == ToLE(|p.data|, 2);
    } else if p.carrier == Data4 {
      FromToLE(|p.data|, 4);
      assert s[1..5] == ToLE(|p.data|, 4);
    }
  }

  /** The push that the tokenizer reads. */
  function Read(s: Data): Push
    requires Announce(s).Announced? && Announce(s).size + Announce(s).length <= |s|
  {
    var a := Announce(s);
    Push(if s[0] == 0x4C then Data1 else if s[0] == 0x4D then Data2 else if s[0] == 0x4E then Data4 else Direct,
         s[a.size..a.size + a.length])
  }

  lemma OpeningRead(s: Data)
    requires Announce(s).Announced? && Announce(s).size + Announce(s).length <= |s|
    ensures Fits(Read(s)) && Opening(Read(s)) == s[..Announce(s).size]
  {
    Widths();
    if s[0] == 0x4D {
      ToFromLE(s[1..3]);
      assert s[..3] == [s[0]] + s[1..3];
    } else if s[0] == 0x4E {
      ToFromLE(s[1..5]);
      assert s[..5] == [s[0]] + s[1..5];
    } else if s[0] == 0x4C {
      assert s[..2] == [s[0], s[1]];
    } else {
      assert s[..1] == [s[0]];
    }
  }

  /** Whatever the tokenizer reads is a push. */
  lemma ReadIsWritten(s: Data)
    requires Announce(s).Announced? && Announce(s).size + Announce(s).length <= |s|
    ensures Fits(Read(s)) && Written(Read(s)) == s[..Announce(s).size + Announce(s).length]
  {
    var a := Announce(s);
    OpeningRead(s);
    assert s[..a.size] + s[a.size..a.size + a.length] == s[..a.size + a.length];
  }

  /** `cs` before whatever the rest gives. */
  function Prefixed(cs: seq<Data>, rest: Option<seq<Data>>): Option<seq<Data>> {
    if rest.None? then None else Some(cs + rest.value)
  }

  lemma TokensStep(p: Push, rest: Data)
    requires Fits(p) && (|p.data| > 0 || |rest| > 0)
    ensures Tokens(Written(p) + rest) == Prefixed([p.data], Tokens(rest))
  {
    var s, size, length := Written(p) + rest, |Opening(p)|, |p.data|;
    AnnounceWritten(p, rest);
    assert s[size..size + length] == p.data;
    assert s[size + length..] == rest;
  }

  lemma EmptyAtEnd(p: Push)
    requires Fits(p) && |p.data| == 0
    ensures Tokens(Written(p)) == None
  {
  }

  /** The first of several pushes, or of one that is not empty. */
  lemma FirstWritten(ps: seq<Push>)
    requires AllFit(ps) && |ps| > 0 && (|ps| == 1 ==> |ps[0].data| > 0)
    ensures Tokens(WrittenAll(ps)) == Prefixed([ps[0].data], Tokens(WrittenAll(ps[1..])))
  {
    assert |ps| > 1 ==> |WrittenAll(ps[1..])| > 0 by {
      if |ps| > 1 {
        WrittenSize(ps[1..][0]);
      }
    }
    TokensStep(ps[0], WrittenAll(ps[1..]));
  }

  /** Pushes come back as their data, unless the last one is empty. */
  lemma {:induction false} TokensOfWritten(ps: seq<Push>)
    requires AllFit(ps)
    ensures Tokens(WrittenAll(ps)) == if |ps| > 0 && |ps[|ps| - 1].data| == 0 then None else Some(Chunks(ps))
    decreases |ps|
  {
    if |ps| == 1 && |ps[0].data| == 0 {
      EmptyAtEnd(ps[0]);
      assert WrittenAll(ps) == Written(ps[0]);
    } else if |ps| > 0 {
      TokensOfWritten(ps[1..]);
      FirstWritten(ps);
      ConsChunks(ps[0], ps[1..]);
      assert [ps[0]] + ps[1..] == ps;
    } else {
      assert Chunks(ps) == [];
    }
  }

  lemma WrittenSize(p: Push)
    requires Fits(p)
    ensures |Written(p)| >= 1 + |p.data| && |Written(p)| >= 2
  {
  }

  lemma ConsWritten(p: Push, rest: seq<Push>)
    requires Fits(p) && AllFit(rest)
    ensures AllFit([p] + rest) && WrittenAll([p] + rest) == Written(p) + WrittenAll(rest)
    ensures Chunks([p] + rest) == [p.data] + Chunks(rest)
  {
    var ps := [p] + rest;
    ConsFits(p, rest);
    assert ps[0] == p && ps[1..] == rest;
    ConsChunks(p, rest);
  }

  lemma ConsFits(p: Push, rest: seq<Push>)
    requires Fits(p) && AllFit(rest)
    ensures AllFit([p] + rest)
  {
  }

  lemma ConsChunks(p: Push, rest: seq<Push>)
    ensures Chunks([p] + rest) == [p.data] + Chunks(rest)
  {
  }

  lemma {:induction false} TokensAreWritten(s: Data) returns (ps: seq<Push>)
    requires Tokens(s).Some?
    ensures AllFit(ps) && WrittenAll(ps) == s && Chunks(ps) == Tokens(s).value
    decreases |s|
  {
    if |s| == 0 {
      ps := [];
    } else {
      var p, t := FirstPush(s);
      var rest := TokensAreWritten(t);
      ConsWritten(p, rest);
      ps := [p] + rest;
    }
  }

  lemma FirstPush(s: Data) returns (p: Push, t: Data)
    requires Tokens(s).Some? && |s| > 0
    ensures Fits(p) && s == Written(p) + t && |t| < |s|
    ensures Tokens(t).Some? && Tokens(s).value == [p.data] + Tokens(t).value
  {
    var end := Announce(s).size + Announce(s).length;
    p, t := Read(s), s[end..];
    ReadIsWritten(s);
    assert s == s[..end] + s[end..];
  }

  // ----- Messages -----

  const LOKAD: Data := [0x53, 0x4C, 0x50, 0x00]
  const GENESIS: Data := [0x47, 0x45, 0x4E, 0x45, 0x53, 0x49, 0x53]
  const MINT: Data := [0x4D, 0x49, 0x4E, 0x54]
  const SEND: Data := [0x53, 0x45, 0x4E, 0x44]

  const TYPE1: nat := 1
  const NFT_CHILD: nat := 0x41
  const NFT_GROUP: nat := 0x81

  /** The tags are text: "SLP" with a zero byte, and the names of the actions. */
  lemma TagsAreText()
    ensures OP_RETURN == 0x6A && LOKAD == ['S' as int, 'L' as int, 'P' as int, 0]
    ensures GENESIS == ['G' as int, 'E' as int, 'N' as int, 'E' as int, 'S' as int, 'I' as int, 'S' as int]
    ensures MINT == ['M' as int, 'I' as int, 'N' as int, 'T' as int] && SEND == ['S' as int, 'E' as int, 'N' as int, 'D' as int]
    ensures forall t :: KnownType(t) <==> t == 1 || t == 0x41 || t == 0x81
  {
  }

  predicate KnownType(t: nat) {
    t == TYPE1 || t == NFT_CHILD || t == NFT_GROUP
  }

  /** A baton is at output 2 or later; 0 stands for none. */
  predicate BatonRange(vout: nat) {
    vout == 0 || 2 <= vout < 256
  }

  /** The messages there are. */
  predicate Legal(m: SlpMessage) {
    && KnownType(m.tokenType)
    && match m.action
       case Invalid => false
       case Genesis(_, _, _, hash, decimals, vout, qty) =>
         && m.tokenid == 0 && (|hash| == 0 || |hash| == 32) && decimals <= 9 && BatonRange(vout)
         && (m.tokenType == NFT_CHILD ==> decimals == 0 && vout == 0 && qty == 1)
       case Mint(vout, _) => m.tokenType != NFT_CHILD && m.tokenid < Pow256(32) && BatonRange(vout)
       case Send(amounts) => m.tokenid < Pow256(32) && 1 <= |amounts| <= 19
  }

  /** The chunks of a message; the token type may take one byte or two. */
  function Rendered(m: SlpMessage, wide: bool): seq<Data>
    requires Legal(m)
  {
    [LOKAD, if wide then [0, m.tokenType] else [m.tokenType]] + RenderedAction(m)
  }

  function RenderedBaton(vout: nat): Data
    requires BatonRange(vout)
  {
    if vout == 0 then [] else [vout]
  }

  function RenderedAction(m: SlpMessage): seq<Data>
    requires Legal(m)
  {
    match m.action
    case Genesis(ticker, name, uri, hash, decimals, vout, qty) =>
      [GENESIS, ticker, name, uri, hash, [decimals], RenderedBaton(vout), ToBE(qty, 8)]
    case Mint(vout, qty) => [MINT, ToBE(m.tokenid, 32), RenderedBaton(vout), ToBE(qty, 8)]
    case Send(amounts) => [SEND, ToBE(m.tokenid, 32)] + RenderedAmounts(amounts)
  }

  function RenderedAmounts(amounts: seq<Amount>): seq<Data> {
    seq(|amounts|, i requires 0 <= i < |amounts| => ToBE(amounts[i], 8))
  }

  // ----- What the parser makes of chunks -----

  function TypeOf(c: Data): Option<nat> {
    if |c| != 1 && |c| != 2 then None
    else if !KnownType(FromBE(c)) then None
    else Some(FromBE(c))
  }

  function BatonOf(c: Data): Option<nat> {
    if |c| >= 2 then None
    else if |c| == 0 then Some(0)
    else if c[0] < 2 then None
    else Some(c[0])
  }

  function AmountOf(c: Data): Option<Amount> {
    if |c| != 8 then None
    else
      EightBytes(c);
      Some(FromBE(c))
  }

  lemma EightBytes(c: Data)
    requires |c| == 8
    ensures FromBE(c) < 0x10000000000000000
  {
    ToFromBE(c);
    Widths();
  }

  function AmountsOf(cs: seq<Data>): Option<seq<Amount>> {
    if |cs| == 0 then Some([])
    else
      var front, last := AmountsOf(cs[..|cs| - 1]), AmountOf(cs[|cs| - 1]);
      if front.None? || last.None? then None else Some(front.value + [last.value])
  }

  function GenesisOf(t: nat, c: seq<Data>): Option<SlpMessage> {
    if |c| != 10 || !(|c[6]| == 0 || |c[6]| == 32) || |c[7]| != 1 || c[7][0] > 9 then None
    else
      var baton, qty := BatonOf(c[8]), AmountOf(c[9]);
      if baton.None? || qty.None? then None
      else if t == NFT_CHILD && (c[7][0] != 0 || baton.value != 0 || qty.value != 1) then None
      else Some(SlpMessage(0, t, Genesis(c[3], c[4], c[5], c[6], c[7][0], baton.value, qty.value)))
  }

  function MintOf(t: nat, c: seq<Data>): Option<SlpMessage> {
    if t == NFT_CHILD || |c| != 6 || |c[3]| != 32 then None
    else
      var baton, qty := BatonOf(c[4]), AmountOf(c[5]);
      if baton.None? || qty.None? then None
      else Some(SlpMessage(FromBE(c[3]), t, Mint(baton.value, qty.value)))
  }

  function SendOf(t: nat, c: seq<Data>): Option<SlpMessage> {
    if |c| < 5 || |c[3]| != 32 || |c| - 4 > 19 then None
    else
      var amounts := AmountsOf(c[4..]);
      if amounts.None? then None else Some(SlpMessage(FromBE(c[3]), t, Send(amounts.value)))
  }

  function MessageOf(c: seq<Data>): Option<SlpMessage> {
    if |c| < 3 || c[0] != LOKAD then None
    else
      var t := TypeOf(c[1]);
      if t.None? then None
      else if c[2] == GENESIS then GenesisOf(t.value, c)
      else if c[2] == MINT then MintOf(t.value, c)
      else if c[2] == SEND then SendOf(t.value, c)
      else None
  }

  /** The token type that the parser leaves behind, also where it refuses the message later; 0 where it never sets one. */
  function TypeLeft(script: Data): nat {
    if |script| == 0 || script[0] != OP_RETURN || |script| < 10 then 0
    else
      var chunks := Tokens(script[1..]);
      if chunks.None? || |chunks.value| < 3 || chunks.value[0] != LOKAD || TypeOf(chunks.value[1]).None? then 0
      else TypeOf(chunks.value[1]).value
  }

  /** A message that parses has the type that was left. */
  lemma ParsedType(script: Data)
    requires Parsed(script).Some?
    ensures Parsed(script).value.tokenType == TypeLeft(script)
  {
  }

  /** The parser as a function of the script. */
  function Parsed(script: Data): Option<SlpMessage> {
    if |script| == 0 || script[0] != OP_RETURN || |script| < 10 then None
    else
      var chunks := Tokens(script[1..]);
      if chunks.None? then None else MessageOf(chunks.value)
  }

  // ----- Rendering and parsing chunks -----

  lemma TypeRendered(t: nat)
    requires KnownType(t)
    ensures TypeOf([t]) == Some(t) && TypeOf([0, t]) == Some(t)
  {
    assert Reverse([t]) == [t] && Reverse([0, t]) == [t, 0];
    assert FromLE([t]) == t;
    assert FromLE([t, 0]) == t by { assert [t, 0][1..] == [0] && FromLE([0]) == 0; }
  }

  lemma TypeParsed(c: Data)
    requires TypeOf(c).Some?
    ensures c == [TypeOf(c).value] || c == [0, TypeOf(c).value]
  {
    var t := TypeOf(c).value;
    ToFromBE(c);
    if |c| == 1 {
      ToBEOne(t);
    } else {
      assert ToLE(t, 2) == [t, 0] by { assert ToLE(0, 1) == [0]; }
      assert Reverse([t, 0]) == [0, t];
    }
  }

  lemma ToBEOne(t: Byte)
    ensures ToBE(t, 1) == [t]
  {
    assert ToLE(t, 1) == [t] && Reverse([t]) == [t];
  }

  lemma AmountRendered(a: Amount)
    ensures AmountOf(ToBE(a, 8)) == Some(a)
  {
    Widths();
    FromToBE(a, 8);
  }

  lemma AmountParsed(c: Data)
    requires AmountOf(c).Some?
    ensures c == ToBE(AmountOf(c).value, 8)
  {
    ToFromBE(c);
  }

  lemma {:induction false} AmountsRendered(amounts: seq<Amount>)
    ensures AmountsOf(RenderedAmounts(amounts)) == Some(amounts)
    decreases |amounts|
  {
    if |amounts| > 0 {
      var n := |amounts| - 1;
      var cs := RenderedAmounts(amounts);
      AmountsRendered(amounts[..n]);
      AmountRendered(amounts[n]);
      assert cs[..n] == RenderedAmounts(amounts[..n]) && cs[n] == ToBE(amounts[n], 8);
      assert amounts == amounts[..n] + [amounts[n]];
    }
  }

  lemma {:induction false} AmountsParsed(cs: seq<Data>)
    requires AmountsOf(cs).Some?
    ensures |AmountsOf(cs).value| == |cs| && RenderedAmounts(AmountsOf(cs).value) == cs
    decreases |cs|
  {
    if |cs| > 0 {
      var n := |cs| - 1;
      var front, last := AmountsOf(cs[..n]).value, AmountOf(cs[n]).value;
      AmountsParsed(cs[..n]);
      AmountParsed(cs[n]);
      assert AmountsOf(cs).value == front + [last];
      assert RenderedAmounts(front + [last]) == RenderedAmounts(front) + [ToBE(last, 8)];
      assert cs == cs[..n] + [cs[n]];
    }
  }

  lemma BatonRendered(vout: nat)
    requires BatonRange(vout)
    ensures BatonOf(RenderedBaton(vout)) == Some(vout)
  {
  }

  lemma GenesisRendered(m: SlpMessage, c: seq<Data>)
    requires Legal(m) && m.action.Genesis? && |c| >= 2 && c[2..] == RenderedAction(m)
    ensures GenesisOf(m.tokenType, c) == Some(m)
  {
    var a := RenderedAction(m);
    EightOf(a, c);
    assert AmountOf(c[9]) == Some(m.action.qty) by { AmountRendered(m.action.qty); }
    assert BatonOf(c[8]) == Some(m.action.batonVout) by { BatonRendered(m.action.batonVout); }
  }

  lemma EightOf(a: seq<Data>, c: seq<Data>)
    requires |a| == 8 && |c| >= 2 && c[2..] == a
    ensures |c| == 10 && c[3] == a[1] && c[4] == a[2] && c[5] == a[3] && c[6] == a[4] && c[7] == a[5] && c[8] == a[6] && c[9] == a[7]
  {
  }

  lemma MintRendered(m: SlpMessage, c: seq<Data>)
    requires Legal(m) && m.action.Mint? && |c| >= 2 && c[2..] == RenderedAction(m)
    ensures MintOf(m.tokenType, c) == Some(m)
  {
    var a := RenderedAction(m);
    assert forall i :: 2 <= i < 6 ==> c[i] == a[i - 2];
    AmountRendered(m.action.qty);
    BatonRendered(m.action.batonVout);
    FromToBE(m.tokenid, 32);
  }

  lemma SendRendered(m: SlpMessage, c: seq<Data>)
    requires Legal(m) && m.action.Send? && |c| >= 2 && c[2..] == RenderedAction(m)
    ensures SendOf(m.tokenType, c) == Some(m)
  {
    var a := RenderedAction(m);
    assert c[3] == a[1];
    assert c[4..] == a[2..] == RenderedAmounts(m.action.amounts);
    AmountsRendered(m.action.amounts);
    FromToBE(m.tokenid, 32);
  }

  /** Every rendering of a legal message parses to it. */
  lemma ParseRendered(m: SlpMessage, wide: bool)
    requires Legal(m)
    ensures MessageOf(Rendered(m, wide)) == Some(m)
  {
    var c := Rendered(m, wide);
    TypeRendered(m.tokenType);
    assert c[2..] == RenderedAction(m);
    assert c[2] == RenderedAction(m)[0];
    match m.action
    case Genesis(_, _, _, _, _, _, _) => GenesisRendered(m, c);
    case Mint(_, _) => MintRendered(m, c);
    case Send(_) => SendRendered(m, c);
  }

  lemma BatonParsed(c: Data)
    requires BatonOf(c).Some?
    ensures BatonRange(BatonOf(c).value) && RenderedBaton(BatonOf(c).value) == c
  {
  }

  lemma EightChunks(a: seq<Data>, c: seq<Data>)
    requires |a| == 8 && |c| == 10 && a[0] == c[2] && a[1] == c[3] && a[2] == c[4] && a[3] == c[5]
    requires a[4] == c[6] && a[5] == c[7] && a[6] == c[8] && a[7] == c[9]
    ensures a == c[2..]
  {
  }

  lemma GenesisLegal(t: nat, c: seq<Data>)
    requires KnownType(t) && GenesisOf(t, c).Some?
    ensures Legal(GenesisOf(t, c).value)
  {
    BatonParsed(c[8]);
  }

  lemma GenesisParsed(t: nat, c: seq<Data>)
    requires KnownType(t) && |c| >= 3 && c[2] == GENESIS && GenesisOf(t, c).Some?
    ensures Legal(GenesisOf(t, c).value) && RenderedAction(GenesisOf(t, c).value) == c[2..]
  {
    GenesisLegal(t, c);
    GenesisChunks(t, c);
    EightChunks(RenderedAction(GenesisOf(t, c).value), c);
  }

  lemma GenesisChunks(t: nat, c: seq<Data>)
    requires GenesisOf(t, c).Some?
    ensures
      var g := GenesisOf(t, c).value.action;
      BatonRange(g.batonVout) && RenderedBaton(g.batonVout) == c[8] && ToBE(g.qty, 8) == c[9] && [g.decimals] == c[7]
  {
    BatonParsed(c[8]);
    AmountParsed(c[9]);
  }

  lemma MintParsed(t: nat, c: seq<Data>)
    requires KnownType(t) && |c| >= 3 && c[2] == MINT && MintOf(t, c).Some?
    ensures Legal(MintOf(t, c).value) && RenderedAction(MintOf(t, c).value) == c[2..]
  {
    BatonParsed(c[4]);
    AmountParsed(c[5]);
    ToFromBE(c[3]);
  }

  lemma SendParsed(t: nat, c: seq<Data>)
    requires KnownType(t) && |c| >= 3 && c[2] == SEND && SendOf(t, c).Some?
    ensures Legal(SendOf(t, c).value) && RenderedAction(SendOf(t, c).value) == c[2..]
  {
    AmountsParsed(c[4..]);
    ToFromBE(c[3]);
  }

  /** Whatever parses is the rendering of a legal message. */
  lemma ParsedIsRendered(c: seq<Data>) returns (wide: bool)
    requires MessageOf(c).Some?
    ensures Legal(MessageOf(c).value) && Rendered(MessageOf(c).value, wide) == c
  {
    var m, t := MessageOf(c).value, TypeOf(c[1]).value;
    TypeParsed(c[1]);
    wide := |c[1]| == 2;
    if c[2] == GENESIS {
      GenesisParsed(t, c);
    } else if c[2] == MINT {
      MintParsed(t, c);
    } else {
      SendParsed(t, c);
    }
    assert c == c[..2] + c[2..];
    assert c[..2] == [c[0], c[1]];
  }

  // ----- The grammar of scripts -----

  /** The script is an OP_RETURN with pushes of the chunks of `m`. */
  ghost predicate InGrammar(script: Data, m: SlpMessage) {
    && Legal(m)
    && exists wide: bool, ps: seq<Push> :: AllFit(ps) && script == [OP_RETURN] + WrittenAll(ps) && Chunks(ps) == Rendered(m, wide)
  }

  lemma LastChunk(m: SlpMessage, wide: bool)
    requires Legal(m)
    ensures
      var c := Rendered(m, wide);
      |c| >= 5 && |c[0]| == 4 && |c[1]| >= 1 && |c[2]| >= 4 && |c[|c| - 1]| == 8
  {
    var c, a := Rendered(m, wide), RenderedAction(m);
    assert c[|c| - 1] == a[|a| - 1] && c[2] == a[0];
  }

  lemma ThreePushes(ps: seq<Push>)
    requires AllFit(ps) && |ps| >= 3 && |ps[0].data| >= 4
    ensures |WrittenAll(ps)| >= 9
  {
    var ps1, ps2 := ps[1..], ps[2..];
    assert ps1[1..] == ps2 && ps1[0] == ps[1] && ps2[0] == ps[2];
    WrittenSize(ps[0]);
    WrittenSize(ps[1]);
    WrittenSize(ps[2]);
    assert |WrittenAll(ps)| == |Written(ps[0])| + |WrittenAll(ps1)|;
    assert |WrittenAll(ps1)| == |Written(ps[1])| + |WrittenAll(ps2)|;
    assert |WrittenAll(ps2)| == |Written(ps[2])| + |WrittenAll(ps2[1..])|;
  }

  /** The message depends on the chunks alone, not on how they were pushed. */
  lemma ParsedByChunks(ps: seq<Push>)
    requires AllFit(ps)
    ensures Parsed([OP_RETURN] + WrittenAll(ps)) == MessageOf(Chunks(ps))
  {
    var script, c := [OP_RETURN] + WrittenAll(ps), Chunks(ps);
    assert script[1..] == WrittenAll(ps);
    TokensOfWritten(ps);
    if MessageOf(c).Some? {
      MessagePushes(ps);
    }
  }

  /** Pushes of a message are long enough, and the last one is not empty. */
  lemma MessagePushes(ps: seq<Push>)
    requires AllFit(ps) && MessageOf(Chunks(ps)).Some?
    ensures |WrittenAll(ps)| >= 9 && |ps| > 0 && |ps[|ps| - 1].data| > 0
  {
    var c := Chunks(ps);
    var wide := ParsedIsRendered(c);
    LastChunk(MessageOf(c).value, wide);
    assert c[0] == ps[0].data && c[1] == ps[1].data && c[2] == ps[2].data && c[|c| - 1] == ps[|ps| - 1].data;
    ThreePushes(ps);
  }

  /** The parser accepts exactly its grammar. */
  lemma AcceptsGrammar(script: Data, m: SlpMessage)
    ensures Parsed(script) == Some(m) <==> InGrammar(script, m)
  {
    if Parsed(script) == Some(m) {
      ParsedInGrammar(script);
    }
    if InGrammar(script, m) {
      var wide: bool, ps: seq<Push> :| AllFit(ps) && script == [OP_RETURN] + WrittenAll(ps) && Chunks(ps) == Rendered(m, wide);
      ParsedByChunks(ps);
      ParseRendered(m, wide);
    }
  }

  lemma ParsedInGrammar(script: Data)
    requires Parsed(script).Some?
    ensures InGrammar(script, Parsed(script).value)
  {
    var ps := TokensAreWritten(script[1..]);
    MessageInGrammar(script, Parsed(script).value, ps);
  }

  lemma MessageInGrammar(script: Data, m: SlpMessage, ps: seq<Push>)
    requires |script| > 0 && script[0] == OP_RETURN && AllFit(ps) && WrittenAll(ps) == script[1..] && MessageOf(Chunks(ps)) == Some(m)
    ensures InGrammar(script, m)
  {
    var wide := ParsedIsRendered(Chunks(ps));
    assert script == [script[0]] + script[1..];
    IntoGrammar(script, m, wide, ps);
  }

  lemma IntoGrammar(script: Data, m: SlpMessage, wide: bool, ps: seq<Push>)
    requires Legal(m) && AllFit(ps) && script == [OP_RETURN] + WrittenAll(ps) && Chunks(ps) == Rendered(m, wide)
    ensures InGrammar(script, m)
  {
  }

  /** The type that is left behind by pushes, whether or not the rest is a message. */
  lemma TypeLeftExactly(ps: seq<Push>, t: nat)
    requires AllFit(ps) && |ps| > 0 && t != 0
    ensures TypeLeft([OP_RETURN] + WrittenAll(ps)) == t <==>
      && |ps[|ps| - 1].data| > 0 && |ps| >= 3 && ps[0].data == [0x53, 0x4C, 0x50, 0x00]
      && (t == 1 || t == 0x41 || t == 0x81) && (ps[1].data == [t] || ps[1].data == [0, t])
  {
    var script := [OP_RETURN] + WrittenAll(ps);
    assert script[1..] == WrittenAll(ps);
    TokensOfWritten(ps);
    if |ps| >= 3 {
      TypeExactly(ps[1].data, t);
      if |ps[0].data| == 4 {
        ThreePushes(ps);
      }
    }
  }

  /** Other scripts leave none. */
  lemma TypeLeftByPushes(script: Data) returns (ps: seq<Push>)
    requires TypeLeft(script) != 0
    ensures AllFit(ps) && |ps| >= 3 && script == [0x6A] + WrittenAll(ps)
  {
    ps := TokensAreWritten(script[1..]);
  }

  lemma TypeExactly(c: Data, t: nat)
    ensures TypeOf(c) == Some(t) <==> (t == 1 || t == 0x41 || t == 0x81) && (c == [t] || c == [0, t])
  {
    if TypeOf(c).Some? {
      TypeParsed(c);
    }
    if t == 1 || t == 0x41 || t == 0x81 {
      TypeRendered(t);
    }
  }

  // ----- The methods -----

  method ExtractPushdata(script: Data, start: nat) returns (ok: bool, length: nat, it: nat)
    requires start <= |script|
    ensures ok == Announce(script[start..]).Announced? && start <= it <= |script|
    ensures ok ==> it == start + Announce(script[start..]).size && length == Announce(script[start..]).length
    ensures !ok ==> it == start
  {
    it := start;
    if it == |script| {
      return false, 0, it;
    }
    ghost var s := script[start..];
    var cnt: int := script[it];
    it := it + 1;
    if 0x00 < cnt < 0x4C {
      if it + cnt > |script| {
        return false, 0, start;
      }
      return true, cnt, it;
    } else if cnt == 0x4C {
      if it + 1 >= |script| {
        return false, 0, start;
      }
      return true, script[it], it + 1;
    } else if cnt == 0x4D {
      if it + 2 >= |script| {
        return false, 0, start;
      }
      assert s[1..3] == script[it..it + 2];
      return true, FromLE(script[it..it + 2]), it + 2;
    } else if cnt == 0x4E {
      if it + 4 >= |script| {
        return false, 0, start;
      }
      assert s[1..5] == script[it..it + 4];
      return true, FromLE(script[it..it + 4]), it + 4;
    }
    return false, 0, start;
  }

  lemma PrefixedStep(cs: seq<Data>, script: Data, start: nat, it: nat, length: nat)
    requires start <= it && start < |script| && Announce(script[start..]) == Announced(it - start, length) && it + length <= |script|
    ensures Prefixed(cs, Tokens(script[start..])) == Prefixed(cs + [script[it..it + length]], Tokens(script[it + length..]))
  {
    var s := script[start..];
    assert s[it - start..it - start + length] == script[it..it + length];
    assert s[it - start + length..] == script[it + length..];
    var rest := Tokens(script[it + length..]);
    if rest.Some? {
      assert cs + ([script[it..it + length]] + rest.value) == cs + [script[it..it + length]] + rest.value;
    }
  }

  /** Between chunks: `chunks` are read up to `start`, and an opening at `start` is read up to `it`. */
  ghost predicate Scanning(script: Data, chunks: seq<Data>, start: nat, ok: bool, it: nat, length: nat) {
    && start <= it <= |script| && |script| > 0
    && Tokens(script[1..]) == Prefixed(chunks, Tokens(script[start..]))
    && ok == Announce(script[start..]).Announced?
    && if ok then Announce(script[start..]) == Announced(it - start, length) else it == start
  }

  /** The tokenizer loop with its check of the first chunk. */
  method Tokenize(script: Data) returns (r: Option<seq<Data>>)
    requires |script| > 0
    ensures r.Some? ==> Tokens(script[1..]) == r
    ensures r.None? ==> Tokens(script[1..]).None? || (|Tokens(script[1..]).value| > 0 && Tokens(script[1..]).value[0] != LOKAD)
  {
    var chunks: seq<Data> := [];
    ghost var start: nat := 1;
    PrefixedNothing(Tokens(script[1..]));
    var ok: bool, length: nat, it: nat := NextOpening(script, chunks, 1);
    while ok
      invariant Scanning(script, chunks, start, ok, it, length)
      decreases |script| - start
    {
      if it + length > |script| {
        return None;
      }
      PrefixedStep(chunks, script, start, it, length);
      chunks := chunks + [script[it..it + length]];
      if |chunks| == 1 && chunks[0] != LOKAD {
        FirstOfPrefixed(chunks, Tokens(script[it + length..]));
        return None;
      }
      start := it + length;
      ok, length, it := NextOpening(script, chunks, it + length);
    }
    if it != |script| {
      return None;
    }
    PrefixedEnd(chunks);
    return Some(chunks);
  }

  /** Looks for a push behind the chunks that were read. */
  method NextOpening(script: Data, ghost chunks: seq<Data>, start: nat) returns (ok: bool, length: nat, it: nat)
    requires 0 < |script| && start <= |script| && Tokens(script[1..]) == Prefixed(chunks, Tokens(script[start..]))
    ensures Scanning(script, chunks, start, ok, it, length)
  {
    ok, length, it := ExtractPushdata(script, start);
  }

  lemma FirstOfPrefixed(cs: seq<Data>, rest: Option<seq<Data>>)
    requires |cs| > 0
    ensures Prefixed(cs, rest).Some? ==> |Prefixed(cs, rest).value| > 0 && Prefixed(cs, rest).value[0] == cs[0]
  {
  }

  lemma PrefixedNothing(rest: Option<seq<Data>>)
    ensures Prefixed([], rest) == rest
  {
    if rest.Some? {
      assert [] + rest.value == rest.value;
    }
  }

  lemma PrefixedEnd(cs: seq<Data>)
    ensures Prefixed(cs, Some([])) == Some(cs)
  {
    assert cs + [] == cs;
  }

  /** The amounts of a SEND: the chunks from the fifth on. */
  method ReadAmounts(chunks: seq<Data>) returns (r: Option<seq<Amount>>)
    ensures r == AmountsOf(chunks)
  {
    var amounts: seq<Amount> := [];
    for cit := 0 to |chunks|
      invariant AmountsOf(chunks[..cit]) == Some(amounts)
    {
      assert chunks[..cit + 1][..cit] == chunks[..cit];
      var amount := AmountOf(chunks[cit]);
      if amount.None? {
        NoAmounts(chunks, cit);
        return None;
      }
      amounts := amounts + [amount.value];
    }
    assert chunks[..|chunks|] == chunks;
    return Some(amounts);
  }

  lemma {:induction false} NoAmounts(chunks: seq<Data>, i: nat)
    requires i < |chunks| && AmountOf(chunks[i]).None?
    ensures AmountsOf(chunks).None?
    decreases |chunks|
  {
    if i < |chunks| - 1 {
      NoAmounts(chunks[..|chunks| - 1], i);
    }
  }

  /** `slp_transaction::hydrate`: the message, and the token type that is left in the object. */
  method Hydrate(script: Data) returns (r: Option<SlpMessage>, tokenType: nat)
    ensures r == Parsed(script) && tokenType == TypeLeft(script)
  {
    tokenType := 0;
    if |script| == 0 || script[0] != OP_RETURN || |script| < 10 {
      return None, tokenType;
    }
    var tokens := Tokenize(script);
    if tokens.None? || |tokens.value| < 3 {
      return None, tokenType;
    }
    var chunks := tokens.value;
    if chunks[0] != LOKAD {
      return None, tokenType;
    }
    var read := TypeOf(chunks[1]);
    if read.None? {
      return None, tokenType;
    }
    tokenType := read.value;
    var action := chunks[2];
    if action == GENESIS {
      return GenesisOf(tokenType, chunks), tokenType;
    } else if action == MINT {
      return MintOf(tokenType, chunks), tokenType;
    } else if action == SEND {
      if |chunks| < 5 || |chunks[3]| != 32 || |chunks| - 4 > 19 {
        return None, tokenType;
      }
      var amounts := ReadAmounts(chunks[4..]);
      if amounts.None? {
        return None, tokenType;
      }
      return Some(SlpMessage(FromBE(chunks[3]), tokenType, Send(amounts.value))), tokenType;
    }
    return None, tokenType;
  }
}
