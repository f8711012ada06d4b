/**
 * Transactions on the wire (`transaction::hydrate`, include/gs++/transaction.hpp). Every read is checked
 * against the end of the data first; a check fails where the read would reach the last byte, since
 * something always follows, except at the lock time.
 */
module Wire {
  import opened Transactions
  import opened Bytes
  import SlpScript

  /** The value read and the position behind it. */
  datatype Parsed<T> = Fail | Got(value: T, next: nat)

  const MAX_SIZE: nat := 1000000

  // ----- Variable-length integers -----

  /** `var_int_additional_size` */
  function VarIntExtra(first: Byte): nat {
    if first < 0xFD then 0 else if first == 0xFD then 2 else if first == 0xFE then 4 else 8
  }

  /** `extract_var_int` */
  function VarIntAt(s: Data, p: nat): nat
    requires p < |s| && p + VarIntExtra(s[p]) < |s|
  {
    if s[p] < 0xFD then s[p] else FromLE(s[p + 1..p + 1 + VarIntExtra(s[p])])
  }

  /** `num_to_var_int` */
  function NumToVarInt(n: nat): Data {
    if n <= 0xFC then [n]
    else if n <= 0xFFFF then [0xFD] + ToLE(n, 2)
    else if n <= 0xFFFFFFFF then [0xFE] + ToLE(n, 4)
    else [0xFF] + ToLE(n, 8)
  }

  /** Every 64-bit number is read back from what is written for it. */
  lemma VarIntRoundTrip(n: nat, front: Data, rest: Data)
    requires n < 0x10000000000000000
    ensures
      var s, p := front + NumToVarInt(n) + rest, |front|;
      p < |s| && |NumToVarInt(n)| == 1 + VarIntExtra(s[p]) && p + VarIntExtra(s[p]) < |s| && VarIntAt(s, p) == n
  {
    var v := NumToVarInt(n);
    var s, p := front + v + rest, |front|;
    assert s[p] == v[0];
    if n > 0xFC {
      var k := |v| - 1;
      assert s[p + 1..p + 1 + k] == v[1..] == ToLE(n, k);
      Widths();
      FromToLE(n, k);
    }
  }

  /** One byte up to 0xFC, then a marker and two, four or eight bytes, lowest first. */
  lemma VarIntForm(n: nat)
    requires n < 0x10000000000000000
    ensures n < 0xFD ==> NumToVarInt(n) == [n]
    ensures 0xFD <= n < 0x10000 ==> NumToVarInt(n) == [0xFD, n % 256, n / 256]
    ensures 0x10000 <= n < 0x100000000 ==> |NumToVarInt(n)| == 5 && NumToVarInt(n)[0] == 0xFE && FromLE(NumToVarInt(n)[1..]) == n
    ensures 0x100000000 <= n ==> |NumToVarInt(n)| == 9 && NumToVarInt(n)[0] == 0xFF && FromLE(NumToVarInt(n)[1..]) == n
  {
    Widths();
    if 0xFD <= n < 0x10000 {
      assert ToLE(n, 2) == [n % 256] + ToLE(n / 256, 1);
      assert ToLE(n / 256, 1) == [n / 256 % 256] + ToLE(n / 256 / 256, 0);
    } else if 0x10000 <= n < 0x100000000 {
      FromToLE(n, 4);
    } else if 0x100000000 <= n {
      FromToLE(n, 8);
    }
  }

  // ----- The grammar of transactions, as the source reads it -----

  function VarInt(s: Data, p: nat): (r: Parsed<nat>)
    requires p < |s|
    ensures r.Got? ==> p < r.next < |s|
  {
    var end := p + 1 + VarIntExtra(s[p]);
    if end >= |s| then Fail else Got(VarIntAt(s, p), end)
  }

  /** How a number is read: by its first byte, which may be followed by two, four or eight, lowest first. */
  lemma VarIntExactly(s: Data, p: nat)
    requires p < |s|
    ensures s[p] < 0xFD ==> VarInt(s, p) == if p + 1 < |s| then Got(s[p], p + 1) else Fail
    ensures s[p] == 0xFD ==> VarInt(s, p) == if p + 3 < |s| then Got(FromLE(s[p + 1..p + 3]), p + 3) else Fail
    ensures s[p] == 0xFE ==> VarInt(s, p) == if p + 5 < |s| then Got(FromLE(s[p + 1..p + 5]), p + 5) else Fail
    ensures s[p] == 0xFF ==> VarInt(s, p) == if p + 9 < |s| then Got(FromLE(s[p + 1..p + 9]), p + 9) else Fail
  {
  }

  /** A length and as many bytes. */
  function ScriptBytes(s: Data, p: nat): (r: Parsed<Data>)
    requires p < |s|
    ensures r.Got? ==> p < r.next < |s|
  {
    var length := VarInt(s, p);
    if length.Fail? || length.value >= MAX_SIZE || length.next + length.value >= |s| then Fail
    else Got(s[length.next..length.next + length.value], length.next + length.value)
  }

  function Input(s: Data, p: nat): (r: Parsed<Outpoint>)
    requires p < |s|
    ensures r.Got? ==> p < r.next < |s|
  {
    if p + 36 >= |s| then Fail
    else
      var script := ScriptBytes(s, p + 36);
      if script.Fail? || script.next + 4 >= |s| then Fail
      else Got(Outpoint(FromLE(s[p..p + 32]), FromLE(s[p + 32..p + 36])), script.next + 4)
  }

  function Inputs(s: Data, p: nat, n: nat): (r: Parsed<seq<Outpoint>>)
    requires p < |s|
    ensures r.Got? ==> p <= r.next < |s|
  {
    if n == 0 then Got([], p)
    else
      var front := Inputs(s, p, n - 1);
      if front.Fail? then Fail
      else
        var last := Input(s, front.next);
        if last.Fail? then Fail else Got(front.value + [last.value], last.next)
  }

  /** `std::abs` of a 64-bit number, kept in 64 bits. */
  function AbsoluteI64(u: Amount): Amount {
    if u < 0x8000000000000000 then u else 0x10000000000000000 - u
  }

  /** An output, before its transaction is known. */
  datatype Paid = Paid(value: Amount, script: Data)

  lemma EightBytes(b: Data)
    requires |b| == 8
    ensures FromLE(b) < 0x10000000000000000
  {
    ToFromLE(b);
    Widths();
  }

  function OutputAt(s: Data, p: nat): (r: Parsed<Paid>)
    requires p < |s|
    ensures r.Got? ==> p < r.next < |s|
  {
    if p + 8 >= |s| then Fail
    else
      var script := ScriptBytes(s, p + 8);
      if script.Fail? then Fail
      else
        EightBytes(s[p..p + 8]);
        Got(Paid(AbsoluteI64(FromLE(s[p..p + 8])), script.value), script.next)
  }

  function Outputs(s: Data, p: nat, n: nat): (r: Parsed<seq<Paid>>)
    requires p < |s|
    ensures r.Got? ==> p <= r.next < |s|
  {
    if n == 0 then Got([], p)
    else
      var front := Outputs(s, p, n - 1);
      if front.Fail? then Fail
      else
        var last := OutputAt(s, front.next);
        if last.Fail? then Fail else Got(front.value + [last.value], last.next)
  }

  datatype Raw = Raw(version: nat, inputs: seq<Outpoint>, outputs: seq<Paid>, lockTime: nat)

  /** A count, and as many inputs. */
  function CountedInputs(s: Data, p: nat): (r: Parsed<seq<Outpoint>>)
    requires p < |s|
    ensures r.Got? ==> p < r.next < |s|
  {
    var n := VarInt(s, p);
    if n.Fail? || n.value >= MAX_SIZE then Fail else Inputs(s, n.next, n.value)
  }

  function CountedOutputs(s: Data, p: nat): (r: Parsed<seq<Paid>>)
    requires p < |s|
    ensures r.Got? ==> p < r.next < |s|
  {
    var n := VarInt(s, p);
    if n.Fail? || n.value >= MAX_SIZE then Fail else Outputs(s, n.next, n.value)
  }

  /** Scripts and lists of a million and more are refused. */
  lemma TooMany(s: Data, p: nat)
    requires p < |s| && VarInt(s, p).Got? && VarInt(s, p).value >= 1000000
    ensures ScriptBytes(s, p) == Fail && CountedInputs(s, p) == Fail && CountedOutputs(s, p) == Fail
  {
  }

  function RawTransaction(s: Data): (r: Parsed<Raw>)
    ensures r.Got? ==> 0 < r.next <= |s|
  {
    if 4 >= |s| then Fail
    else
      var ins := CountedInputs(s, 4);
      if ins.Fail? then Fail
      else
        var outs := CountedOutputs(s, ins.next);
        if outs.Fail? || outs.next + 3 >= |s| then Fail
        else Got(Raw(FromLE(s[..4]), ins.value, outs.value, FromLE(s[outs.next..outs.next + 4])), outs.next + 4)
  }

  // ----- From bytes to a transaction -----

  function SignedI32(u: nat): int {
    if u < 0x80000000 then u else u - 0x100000000
  }

  const NO_SLP: SlpMessage := SlpMessage(0, 0, Invalid)

  /** The SLP message of the first output; a genesis names its own transaction. */
  function MessageIn(outputs: seq<Output>, txid: Txid): SlpMessage {
    if |outputs| == 0 || !outputs[0].IsOpReturn() then NO_SLP
    else
      var m := SlpScript.Parsed(outputs[0].script);
      if m.None? then NO_SLP.(tokenType := SlpScript.TypeLeft(outputs[0].script))
      else if m.value.action.Genesis? then m.value.(tokenid := txid)
      else m.value
  }

  function OutputsOf(paid: seq<Paid>, txid: Txid): seq<Output> {
    seq(|paid|, i requires 0 <= i < |paid| => Output(txid, i, paid[i].value, paid[i].script))
  }

  /** The transaction that `serialized` holds; `sha` is the double SHA-256. */
  function Assembled(raw: Raw, serialized: Data, sha: Data -> Txid): Transaction {
    var txid := sha(serialized);
    var outputs := OutputsOf(raw.outputs, txid);
    Transaction(txid, SignedI32(raw.version), raw.lockTime, raw.inputs, outputs, MessageIn(outputs, txid), serialized)
  }

  function Hydrated(s: Data, sha: Data -> Txid): (r: Parsed<Transaction>)
    ensures r.Got? ==> 0 < r.next <= |s| && r.value.serialized == s[..r.next]
  {
    var raw := RawTransaction(s);
    if raw.Fail? then Fail else Got(Assembled(raw.value, s[..raw.next], sha), raw.next)
  }

  // ----- Transactions are self-delimiting -----

  /** The data agree before `q`. */
  ghost predicate Agree(s: Data, t: Data, q: nat) {
    q <= |s| && q <= |t| && s[..q] == t[..q]
  }

  lemma AgreeSlice(s: Data, t: Data, q: nat, i: nat, j: nat)
    requires Agree(s, t, q) && i <= j <= q
    ensures s[i..j] == t[i..j]
  {
    assert s[i..j] == s[..q][i..j] && t[i..j] == t[..q][i..j];
  }

  lemma AgreeByte(s: Data, t: Data, q: nat, i: nat)
    requires Agree(s, t, q) && i < q
    ensures s[i] == t[i]
  {
    assert s[i] == s[..q][i] && t[i] == t[..q][i];
  }

  /** What was read before `q` is read from any data that agree before `q` and go on. */
  lemma VarIntStable(s: Data, t: Data, p: nat, q: nat)
    requires p < |s| && VarInt(s, p).Got? && VarInt(s, p).next <= q && Agree(s, t, q) && q < |t|
    ensures VarInt(t, p) == VarInt(s, p)
  {
    AgreeByte(s, t, q, p);
    AgreeSlice(s, t, q, p + 1, VarInt(s, p).next);
  }

  lemma ScriptStable(s: Data, t: Data, p: nat, q: nat)
    requires p < |s| && ScriptBytes(s, p).Got? && ScriptBytes(s, p).next <= q && Agree(s, t, q) && q < |t|
    ensures ScriptBytes(t, p) == ScriptBytes(s, p)
  {
    VarIntStable(s, t, p, q);
    AgreeSlice(s, t, q, VarInt(s, p).next, ScriptBytes(s, p).next);
  }

  lemma InputStable(s: Data, t: Data, p: nat, q: nat)
    requires p < |s| && Input(s, p).Got? && Input(s, p).next <= q && Agree(s, t, q) && q < |t|
    ensures Input(t, p) == Input(s, p)
  {
    ScriptStable(s, t, p + 36, q);
    AgreeSlice(s, t, q, p, p + 32);
    AgreeSlice(s, t, q, p + 32, p + 36);
  }

  lemma {:induction false} InputsStable(s: Data, t: Data, p: nat, n: nat, q: nat)
    requires p < |s| && Inputs(s, p, n).Got? && Inputs(s, p, n).next <= q && Agree(s, t, q) && q < |t|
    ensures Inputs(t, p, n) == Inputs(s, p, n)
    decreases n
  {
    if n > 0 {
      InputsStable(s, t, p, n - 1, q);
      InputStable(s, t, Inputs(s, p, n - 1).next, q);
    }
  }

  lemma OutputStable(s: Data, t: Data, p: nat, q: nat)
    requires p < |s| && OutputAt(s, p).Got? && OutputAt(s, p).next <= q && Agree(s, t, q) && q < |t|
    ensures OutputAt(t, p) == OutputAt(s, p)
  {
    ScriptStable(s, t, p + 8, q);
    AgreeSlice(s, t, q, p, p + 8);
  }

  lemma {:induction false} OutputsStable(s: Data, t: Data, p: nat, n: nat, q: nat)
    requires p < |s| && Outputs(s, p, n).Got? && Outputs(s, p, n).next <= q && Agree(s, t, q) && q < |t|
    ensures Outputs(t, p, n) == Outputs(s, p, n)
    decreases n
  {
    if n > 0 {
      OutputsStable(s, t, p, n - 1, q);
      OutputStable(s, t, Outputs(s, p, n - 1).next, q);
    }
  }

  lemma CountedInputsStable(s: Data, t: Data, p: nat, q: nat)
    requires p < |s| && CountedInputs(s, p).Got? && CountedInputs(s, p).next <= q && Agree(s, t, q) && q < |t|
    ensures CountedInputs(t, p) == CountedInputs(s, p)
  {
    VarIntStable(s, t, p, q);
    InputsStable(s, t, VarInt(s, p).next, VarInt(s, p).value, q);
  }

  lemma CountedOutputsStable(s: Data, t: Data, p: nat, q: nat)
    requires p < |s| && CountedOutputs(s, p).Got? && CountedOutputs(s, p).next <= q && Agree(s, t, q) && q < |t|
    ensures CountedOutputs(t, p) == CountedOutputs(s, p)
  {
    VarIntStable(s, t, p, q);
    OutputsStable(s, t, VarInt(s, p).next, VarInt(s, p).value, q);
  }

  lemma RawFrom(s: Data, ins: Parsed<seq<Outpoint>>, outs: Parsed<seq<Paid>>)
    requires 4 < |s| && ins.Got? && outs.Got? && CountedInputs(s, 4) == ins && CountedOutputs(s, ins.next) == outs && outs.next + 3 < |s|
    ensures RawTransaction(s)
         == Got(Raw(FromLE(s[..4]), ins.value, outs.value, FromLE(s[outs.next..outs.next + 4])), outs.next + 4)
  {
  }

  lemma RawStable(s: Data, t: Data)
    requires RawTransaction(s).Got? && Agree(s, t, RawTransaction(s).next)
    ensures RawTransaction(t) == RawTransaction(s)
  {
    var ins := CountedInputs(s, 4);
    var outs := CountedOutputs(s, ins.next);
    var q := outs.next;
    assert Agree(s, t, q) by { AgreeSlice(s, t, q + 4, 0, q); }
    assert CountedInputs(t, 4) == ins by { CountedInputsStable(s, t, 4, q); }
    assert CountedOutputs(t, ins.next) == outs by { CountedOutputsStable(s, t, ins.next, q); }
    AgreeSlice(s, t, q, 0, 4);
    AgreeSlice(s, t, q + 4, q, q + 4);
    RawFrom(s, ins, outs);
    RawFrom(t, ins, outs);
  }

  /** Bytes that hold a transaction hold the same one whatever follows, and nothing behind it matters. */
  lemma SelfDelimiting(b: Data, rest: Data, sha: Data -> Txid, tx: Transaction)
    ensures Hydrated(b + rest, sha) == Got(tx, |b|) <==> Hydrated(b, sha) == Got(tx, |b|)
  {
    var s := b + rest;
    assert s[..|b|] == b == b[..|b|];
    if Hydrated(s, sha) == Got(tx, |b|) {
      RawStable(s, b);
    }
    if Hydrated(b, sha) == Got(tx, |b|) {
      RawStable(b, s);
    }
  }

  // ----- The methods -----

  method ReadVarInt(s: Data, start: nat) returns (r: Parsed<nat>)
    requires start < |s|
    ensures r == VarInt(s, start)
  {
    if start + 1 + VarIntExtra(s[start]) >= |s| {
      return Fail;
    }
    return Got(VarIntAt(s, start), start + 1 + VarIntExtra(s[start]));
  }

  method ReadScript(s: Data, start: nat) returns (r: Parsed<Data>)
    requires start < |s|
    ensures r == ScriptBytes(s, start)
  {
    var length := ReadVarInt(s, start);
    if length.Fail? || length.value >= MAX_SIZE || length.next + length.value >= |s| {
      return Fail;
    }
    var it := length.next;
    return Got(s[it..it + length.value], it + length.value);
  }

  method ReadInputs(s: Data, start: nat) returns (r: Parsed<seq<Outpoint>>)
    requires start < |s|
    ensures r == CountedInputs(s, start)
  {
    var count := ReadVarInt(s, start);
    if count.Fail? || count.value >= MAX_SIZE {
      return Fail;
    }
    ghost var first := count.next;
    var it := count.next;
    var inputs: seq<Outpoint> := [];
    for i := 0 to count.value
      invariant first <= it < |s| && Inputs(s, first, i) == Got(inputs, it)
    {
      var input := ReadInput(s, it);
      if input.Fail? {
        InputsFail(s, first, i + 1, count.value);
        return Fail;
      }
      inputs := inputs + [input.value];
      it := input.next;
    }
    return Got(inputs, it);
  }

  method ReadInput(s: Data, start: nat) returns (r: Parsed<Outpoint>)
    requires start < |s|
    ensures r == Input(s, start)
  {
    var it := start;
    if it + 32 >= |s| {
      return Fail;
    }
    var prevTxId := FromLE(s[it..it + 32]);
    it := it + 32;
    if it + 4 >= |s| {
      return Fail;
    }
    var prevOutIdx := FromLE(s[it..it + 4]);
    it := it + 4;
    var sigscript := ReadScript(s, it);
    if sigscript.Fail? || sigscript.next + 4 >= |s| {
      return Fail;
    }
    return Got(Outpoint(prevTxId, prevOutIdx), sigscript.next + 4);
  }

  lemma {:induction false} InputsFail(s: Data, p: nat, k: nat, n: nat)
    requires p < |s| && k <= n && Inputs(s, p, k).Fail?
    ensures Inputs(s, p, n).Fail?
    decreases n
  {
    if k < n {
      InputsFail(s, p, k, n - 1);
    }
  }

  lemma {:induction false} OutputsFail(s: Data, p: nat, k: nat, n: nat)
    requires p < |s| && k <= n && Outputs(s, p, k).Fail?
    ensures Outputs(s, p, n).Fail?
    decreases n
  {
    if k < n {
      OutputsFail(s, p, k, n - 1);
    }
  }

  method ReadOutput(s: Data, start: nat) returns (r: Parsed<Paid>)
    requires start < |s|
    ensures r == OutputAt(s, start)
  {
    if start + 8 >= |s| {
      return Fail;
    }
    EightBytes(s[start..start + 8]);
    var value := AbsoluteI64(FromLE(s[start..start + 8]));
    var script := ReadScript(s, start + 8);
    if script.Fail? {
      return Fail;
    }
    return Got(Paid(value, script.value), script.next);
  }

  method ReadOutputs(s: Data, start: nat) returns (r: Parsed<seq<Paid>>)
    requires start < |s|
    ensures r == CountedOutputs(s, start)
  {
    var count := ReadVarInt(s, start);
    if count.Fail? || count.value >= MAX_SIZE {
      return Fail;
    }
    ghost var first := count.next;
    var it := count.next;
    var outputs: seq<Paid> := [];
    for i := 0 to count.value
      invariant first <= it < |s| && Outputs(s, first, i) == Got(outputs, it)
    {
      var output := ReadOutput(s, it);
      if output.Fail? {
        OutputsFail(s, first, i + 1, count.value);
        return Fail;
      }
      outputs := outputs + [output.value];
      it := output.next;
    }
    return Got(outputs, it);
  }

  /** `transaction::hydrate` on the data from an iterator to the end. */
  method HydrateTransaction(s: Data, sha: Data -> Txid) returns (r: Parsed<Transaction>)
    ensures r == Hydrated(s, sha)
  {
    if 4 >= |s| {
      return Fail;
    }
    var version := FromLE(s[..4]);
    var inputs := ReadInputs(s, 4);
    if inputs.Fail? {
      return Fail;
    }
    var outputs := ReadOutputs(s, inputs.next);
    if outputs.Fail? || outputs.next + 3 >= |s| {
      return Fail;
    }
    var lockTime := FromLE(s[outputs.next..outputs.next + 4]);
    var end := outputs.next + 4;
    assert RawTransaction(s) == Got(Raw(version, inputs.value, outputs.value, lockTime), end);
    return Got(Assembled(Raw(version, inputs.value, outputs.value, lockTime), s[..end], sha), end);
  }
}
