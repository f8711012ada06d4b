/**
 * The format of transactions: what is written for given fields is read back as these fields, whatever
 * follows (`transaction::hydrate`, include/gs++/transaction.hpp).
 */
module WireFormat {
  import opened Options
  import opened Transactions
  import opened Bytes
  import opened Wire
  import SlpScript

  datatype TxInput = TxInput(prevTxId: Txid, prevOutIdx: nat, sigscript: Data, sequence: nat)
  datatype TxOutput = TxOutput(value: Amount, script: Data)
  datatype TxFields = TxFields(version: nat, inputs: seq<TxInput>, outputs: seq<TxOutput>, lockTime: nat)

  // ----- Writing -----

  function WriteScript(script: Data): Data {
    NumToVarInt(|script|) + script
  }

  function WriteInput(i: TxInput): Data {
    ToLE(i.prevTxId, 32) + ToLE(i.prevOutIdx, 4) + WriteScript(i.sigscript) + ToLE(i.sequence, 4)
  }

  function WriteOutput(o: TxOutput): Data {
    ToLE(o.value, 8) + WriteScript(o.script)
  }

  function WriteInputs(ins: seq<TxInput>): Data {
    if |ins| == 0 then [] else WriteInputs(ins[..|ins| - 1]) + WriteInput(ins[|ins| - 1])
  }

  function WriteOutputs(outs: seq<TxOutput>): Data {
    if |outs| == 0 then [] else WriteOutputs(outs[..|outs| - 1]) + WriteOutput(outs[|outs| - 1])
  }

  /** A count, and as many inputs or outputs. */
  function WriteInputList(ins: seq<TxInput>): Data {
    NumToVarInt(|ins|) + WriteInputs(ins)
  }

  function WriteOutputList(outs: seq<TxOutput>): Data {
    NumToVarInt(|outs|) + WriteOutputs(outs)
  }

  function WriteLists(t: TxFields): Data {
    WriteInputList(t.inputs) + WriteOutputList(t.outputs)
  }

  function WriteTx(t: TxFields): Data {
    ToLE(t.version, 4) + WriteLists(t) + ToLE(t.lockTime, 4)
  }

  /** Fields fit their sizes, and lists are as long as the reader takes them. */
  ghost predicate InputFits(i: TxInput) {
    i.prevTxId < Pow256(32) && i.prevOutIdx < 0x100000000 && |i.sigscript| < 1000000 && i.sequence < 0x100000000
  }

  ghost predicate OutputFits(o: TxOutput) {
    |o.script| < 1000000
  }

  ghost predicate TxFits(t: TxFields) {
    && t.version < 0x100000000 && t.lockTime < 0x100000000 && |t.inputs| < 1000000 && |t.outputs| < 1000000
    && (forall i :: 0 <= i < |t.inputs| ==> InputFits(t.inputs[i]))
    && (forall i :: 0 <= i < |t.outputs| ==> OutputFits(t.outputs[i]))
  }

  // ----- Reading what is written -----

  /** `b` stands in `s` at `p`, and something follows. */
  ghost predicate Stands(s: Data, p: nat, b: Data) {
    p + |b| < |s| && forall i :: 0 <= i < |b| ==> s[p + i] == b[i]
  }

  lemma SliceStands(s: Data, p: nat, b: Data)
    requires Stands(s, p, b)
    ensures s[p..p + |b|] == b
  {
  }

  lemma StandsParts(s: Data, p: nat, b: Data, c: Data)
    requires Stands(s, p, b + c)
    ensures Stands(s, p, b) && Stands(s, p + |b|, c)
  {
    var d := b + c;
    forall i | 0 <= i < |b| ensures s[p + i] == b[i] { assert d[i] == b[i]; }
    forall i | 0 <= i < |c| ensures s[p + |b| + i] == c[i] { assert d[|b| + i] == c[i] && s[p + (|b| + i)] == d[|b| + i]; }
  }

  /** Wherever `b` stands, `v` is read from it. */
  ghost predicate Means<T>(b: Data, read: (Data, nat) --> Parsed<T>, v: T) {
    forall s: Data, p: nat | Stands(s, p, b) :: read.requires(s, p) && read(s, p) == Got(v, p + |b|)
  }

  /** Wherever `b` stands, `x` is read from its first `n` bytes and `y` from the others. */
  ghost predicate InTurn<A, B>(b: Data, n: nat, first: (Data, nat) --> Parsed<A>, x: A, second: (Data, nat) --> Parsed<B>, y: B) {
    forall s: Data, p: nat | Stands(s, p, b) ::
      && first.requires(s, p) && first(s, p) == Got(x, p + n)
      && second.requires(s, p + n) && second(s, p + n) == Got(y, p + |b|)
  }

  lemma ReadInTurn<A, B>(b: Data, first: (Data, nat) --> Parsed<A>, x: A, c: Data, second: (Data, nat) --> Parsed<B>, y: B)
    requires Means(b, first, x) && Means(c, second, y)
    ensures InTurn(b + c, |b|, first, x, second, y)
  {
    forall s: Data, p: nat | Stands(s, p, b + c) ensures Stands(s, p, b) && Stands(s, p + |b|, c) {
      StandsParts(s, p, b, c);
    }
  }

  /** A reader that reads `x` and then `y`, and makes `z` of them. */
  ghost predicate Composes<A, B, C>(
    first: (Data, nat) --> Parsed<A>, x: A, second: (Data, nat) --> Parsed<B>, y: B, whole: (Data, nat) --> Parsed<C>, z: C)
  {
    forall s: Data, p: nat, q: nat, r: nat
      | first.requires(s, p) && first(s, p) == Got(x, q) && second.requires(s, q) && second(s, q) == Got(y, r) ::
      whole.requires(s, p) && whole(s, p) == Got(z, r)
  }

  lemma ComposedMeans<A, B, C>(
    b: Data, first: (Data, nat) --> Parsed<A>, x: A, c: Data, second: (Data, nat) --> Parsed<B>, y: B, whole: (Data, nat) --> Parsed<C>, z: C)
    requires Means(b, first, x) && Means(c, second, y) && Composes(first, x, second, y, whole, z)
    ensures Means(b + c, whole, z)
  {
    ReadInTurn(b, first, x, c, second, y);
  }

  lemma NumberMeans(n: nat)
    requires n < 0x10000000000000000
    ensures Means(NumToVarInt(n), VarInt, n)
  {
    var v := NumToVarInt(n);
    forall s: Data, p: nat | Stands(s, p, v) ensures VarInt(s, p) == Got(n, p + |v|) {
      SliceStands(s, p, v);
      VarIntRoundTrip(n, s[..p], s[p + |v|..]);
      assert s == s[..p] + s[p..p + |v|] + s[p + |v|..];
    }
  }

  lemma ScriptMeans(script: Data)
    requires |script| < 1000000
    ensures Means(WriteScript(script), ScriptBytes, script)
  {
    NumberMeans(|script|);
    CountedBytes(NumToVarInt(|script|), script);
  }

  lemma CountedBytes(n: Data, script: Data)
    requires |script| < 1000000 && Means(n, VarInt, |script|)
    ensures Means(n + script, ScriptBytes, script)
  {
    forall s: Data, p: nat | Stands(s, p, n + script) ensures ScriptBytes(s, p) == Got(script, p + |n + script|) {
      StandsParts(s, p, n, script);
      SliceStands(s, p + |n|, script);
    }
  }

  lemma InputParts(id: Data, vout: Data, script: Data, sequence: Data, sigscript: Data)
    requires |id| == 32 && |vout| == |sequence| == 4 && Means(script, ScriptBytes, sigscript)
    ensures Means(id + vout + script + sequence, Input, Outpoint(FromLE(id), FromLE(vout)))
  {
    var b := id + vout + script + sequence;
    forall s: Data, p: nat | Stands(s, p, b) ensures Input(s, p) == Got(Outpoint(FromLE(id), FromLE(vout)), p + |b|) {
      StandsParts(s, p, id + vout + script, sequence);
      StandsParts(s, p, id + vout, script);
      StandsParts(s, p, id, vout);
      SliceStands(s, p, id);
      SliceStands(s, p + 32, vout);
    }
  }

  /** The outpoint that an input spends. */
  function Spent(i: TxInput): Outpoint {
    Outpoint(i.prevTxId, i.prevOutIdx)
  }

  lemma InputMeans(i: TxInput)
    requires InputFits(i)
    ensures Means(WriteInput(i), Input, Spent(i))
  {
    Widths();
    FromToLE(i.prevTxId, 32);
    FromToLE(i.prevOutIdx, 4);
    ScriptMeans(i.sigscript);
    InputParts(ToLE(i.prevTxId, 32), ToLE(i.prevOutIdx, 4), WriteScript(i.sigscript), ToLE(i.sequence, 4), i.sigscript);
  }

  function InputsReader(n: nat): (Data, nat) -> Parsed<seq<Outpoint>> {
    (s: Data, p: nat) => if p < |s| then Inputs(s, p, n) else Fail
  }

  function Spends(ins: seq<TxInput>): seq<Outpoint> {
    seq(|ins|, i requires 0 <= i < |ins| => Spent(ins[i]))
  }

  lemma InputsStep(s: Data, p: nat, n: nat, v: seq<Outpoint>, q: nat, o: Outpoint, r: nat)
    requires p < |s| && q < |s| && Inputs(s, p, n) == Got(v, q) && Input(s, q) == Got(o, r)
    ensures Inputs(s, p, n + 1) == Got(v + [o], r)
  {
  }

  lemma OneMoreInput(n: nat, v: seq<Outpoint>, o: Outpoint)
    ensures Composes(InputsReader(n), v, Input, o, InputsReader(n + 1), v + [o])
  {
    var front, last, whole := InputsReader(n), Input, InputsReader(n + 1);
    forall s: Data, p: nat, q: nat, r: nat
      | front(s, p) == Got(v, q) && last.requires(s, q) && last(s, q) == Got(o, r)
      ensures whole(s, p) == Got(v + [o], r)
    {
      InputsStep(s, p, n, v, q, o, r);
    }
  }

  lemma {:induction false} InputsMean(ins: seq<TxInput>)
    requires forall i :: 0 <= i < |ins| ==> InputFits(ins[i])
    ensures Means(WriteInputs(ins), InputsReader(|ins|), Spends(ins))
  {
    if |ins| == 0 {
      assert Spends(ins) == [];
    } else {
      var n := |ins| - 1;
      InputsMean(ins[..n]);
      InputMeans(ins[n]);
      OneMoreInput(n, Spends(ins[..n]), Spent(ins[n]));
      ComposedMeans(WriteInputs(ins[..n]), InputsReader(n), Spends(ins[..n]), WriteInput(ins[n]), Input, Spent(ins[n]),
                    InputsReader(n + 1), Spends(ins[..n]) + [Spent(ins[n])]);
      assert Spends(ins) == Spends(ins[..n]) + [Spent(ins[n])];
    }
  }

  lemma CountInputs(n: nat, v: seq<Outpoint>)
    requires n < 1000000
    ensures Composes(VarInt, n, InputsReader(n), v, CountedInputs, v)
  {
  }

  lemma InputListMeans(ins: seq<TxInput>)
    requires |ins| < 1000000 && forall i :: 0 <= i < |ins| ==> InputFits(ins[i])
    ensures Means(WriteInputList(ins), CountedInputs, Spends(ins))
  {
    NumberMeans(|ins|);
    InputsMean(ins);
    CountInputs(|ins|, Spends(ins));
    ComposedMeans(NumToVarInt(|ins|), VarInt, |ins|, WriteInputs(ins), InputsReader(|ins|), Spends(ins), CountedInputs, Spends(ins));
  }

  /** The 64-bit number is read as a signed one, without its sign. */
  lemma AbsoluteExactly(u: Amount)
    ensures AbsoluteI64(u) <= 0x8000000000000000 && (AbsoluteI64(u) == u || AbsoluteI64(u) + u == 0x10000000000000000)
  {
  }

  function PaidBy(o: TxOutput): Paid {
    Paid(AbsoluteI64(o.value), o.script)
  }

  lemma OutputParts(value: Data, script: Data, o: TxOutput)
    requires |value| == 8 && FromLE(value) == o.value && Means(script, ScriptBytes, o.script)
    ensures Means(value + script, OutputAt, PaidBy(o))
  {
    forall s: Data, p: nat | Stands(s, p, value + script) ensures OutputAt(s, p) == Got(PaidBy(o), p + |value + script|) {
      StandsParts(s, p, value, script);
      SliceStands(s, p, value);
    }
  }

  lemma OutputMeans(o: TxOutput)
    requires OutputFits(o)
    ensures Means(WriteOutput(o), OutputAt, PaidBy(o))
  {
    Widths();
    FromToLE(o.value, 8);
    ScriptMeans(o.script);
    OutputParts(ToLE(o.value, 8), WriteScript(o.script), o);
  }

  function OutputsReader(n: nat): (Data, nat) -> Parsed<seq<Paid>> {
    (s: Data, p: nat) => if p < |s| then Outputs(s, p, n) else Fail
  }

  function Pays(outs: seq<TxOutput>): seq<Paid> {
    seq(|outs|, i requires 0 <= i < |outs| => PaidBy(outs[i]))
  }

  lemma OutputsStep(s: Data, p: nat, n: nat, v: seq<Paid>, q: nat, o: Paid, r: nat)
    requires p < |s| && q < |s| && Outputs(s, p, n) == Got(v, q) && OutputAt(s, q) == Got(o, r)
    ensures Outputs(s, p, n + 1) == Got(v + [o], r)
  {
  }

  lemma OneMoreOutput(n: nat, v: seq<Paid>, o: Paid)
    ensures Composes(OutputsReader(n), v, OutputAt, o, OutputsReader(n + 1), v + [o])
  {
    var front, last, whole := OutputsReader(n), OutputAt, OutputsReader(n + 1);
    forall s: Data, p: nat, q: nat, r: nat
      | front(s, p) == Got(v, q) && last.requires(s, q) && last(s, q) == Got(o, r)
      ensures whole(s, p) == Got(v + [o], r)
    {
      OutputsStep(s, p, n, v, q, o, r);
    }
  }

  lemma {:induction false} OutputsMean(outs: seq<TxOutput>)
    requires forall i :: 0 <= i < |outs| ==> OutputFits(outs[i])
    ensures Means(WriteOutputs(outs), OutputsReader(|outs|), Pays(outs))
  {
    if |outs| == 0 {
      assert Pays(outs) == [];
    } else {
      var n := |outs| - 1;
      OutputsMean(outs[..n]);
      OutputMeans(outs[n]);
      OneMoreOutput(n, Pays(outs[..n]), PaidBy(outs[n]));
      ComposedMeans(WriteOutputs(outs[..n]), OutputsReader(n), Pays(outs[..n]), WriteOutput(outs[n]), OutputAt, PaidBy(outs[n]),
                    OutputsReader(n + 1), Pays(outs[..n]) + [PaidBy(outs[n])]);
      assert Pays(outs) == Pays(outs[..n]) + [PaidBy(outs[n])];
    }
  }

  lemma CountOutputs(n: nat, v: seq<Paid>)
    requires n < 1000000
    ensures Composes(VarInt, n, OutputsReader(n), v, CountedOutputs, v)
  {
  }

  lemma OutputListMeans(outs: seq<TxOutput>)
    requires |outs| < 1000000 && forall i :: 0 <= i < |outs| ==> OutputFits(outs[i])
    ensures Means(WriteOutputList(outs), CountedOutputs, Pays(outs))
  {
    NumberMeans(|outs|);
    OutputsMean(outs);
    CountOutputs(|outs|, Pays(outs));
    ComposedMeans(NumToVarInt(|outs|), VarInt, |outs|, WriteOutputs(outs), OutputsReader(|outs|), Pays(outs), CountedOutputs, Pays(outs));
  }

  /** A version, two lists in turn and a lock time. */
  ghost predicate Framed(s: Data, version: Data, lists: Data, lockTime: Data) {
    var q := |version| + |lists|;
    && q + |lockTime| <= |s| && s[..|version|] == version && s[q..q + |lockTime|] == lockTime
    && Stands(s, |version|, lists)
  }

  lemma Framing(version: Data, lists: Data, lockTime: Data, rest: Data)
    requires |lockTime| > 0
    ensures Framed(version + lists + lockTime + rest, version, lists, lockTime)
  {
  }

  lemma FramedRead(s: Data, version: Data, b: Data, m: nat, spends: seq<Outpoint>, pays: seq<Paid>, lockTime: Data)
    requires |version| == |lockTime| == 4 && InTurn(b, m, CountedInputs, spends, CountedOutputs, pays)
    requires Framed(s, version, b, lockTime)
    ensures RawTransaction(s) == Got(Raw(FromLE(version), spends, pays, FromLE(lockTime)), 4 + |b| + 4)
  {
    RawFrom(s, Got(spends, 4 + m), Got(pays, 4 + |b|));
  }

  lemma PartsRead(version: Data, b: Data, m: nat, spends: seq<Outpoint>, pays: seq<Paid>, lockTime: Data, rest: Data)
    requires |version| == |lockTime| == 4 && InTurn(b, m, CountedInputs, spends, CountedOutputs, pays)
    ensures RawTransaction(version + b + lockTime + rest) == Got(Raw(FromLE(version), spends, pays, FromLE(lockTime)), 4 + |b| + 4)
  {
    Framing(version, b, lockTime, rest);
    FramedRead(version + b + lockTime + rest, version, b, m, spends, pays, lockTime);
  }

  lemma ListsInTurn(t: TxFields)
    requires TxFits(t)
    ensures InTurn(WriteLists(t), |WriteInputList(t.inputs)|, CountedInputs, Spends(t.inputs), CountedOutputs, Pays(t.outputs))
  {
    InputListMeans(t.inputs);
    OutputListMeans(t.outputs);
    ReadInTurn(WriteInputList(t.inputs), CountedInputs, Spends(t.inputs), WriteOutputList(t.outputs), CountedOutputs, Pays(t.outputs));
  }

  /** Every transaction that is written is read back with its fields, and its end is found. */
  lemma FieldsRead(t: TxFields, rest: Data)
    requires TxFits(t)
    ensures RawTransaction(WriteTx(t) + rest) == Got(Raw(t.version, Spends(t.inputs), Pays(t.outputs), t.lockTime), |WriteTx(t)|)
  {
    ListsInTurn(t);
    PartsRead(ToLE(t.version, 4), WriteLists(t), |WriteInputList(t.inputs)|, Spends(t.inputs), Pays(t.outputs), ToLE(t.lockTime, 4), rest);
    Widths();
    FromToLE(t.version, 4);
    FromToLE(t.lockTime, 4);
  }

  lemma PrefixFails(w: Data, raw: Raw, n: nat)
    requires RawTransaction(w) == Got(raw, |w|) && n < |w|
    ensures RawTransaction(w[..n]) == Fail
  {
    var s := w[..n];
    if RawTransaction(s).Got? {
      var q := RawTransaction(s).next;
      assert s[..q] == w[..q];
      RawStable(s, w);
    }
  }

  /** Bytes that end too early hold no transaction. */
  lemma TruncatedFails(t: TxFields, n: nat)
    requires TxFits(t) && n < |WriteTx(t)|
    ensures RawTransaction(WriteTx(t)[..n]) == Fail
  {
    FieldsRead(t, []);
    assert WriteTx(t) + [] == WriteTx(t);
    PrefixFails(WriteTx(t), Raw(t.version, Spends(t.inputs), Pays(t.outputs), t.lockTime), n);
  }

  /** The 32-bit version is signed. */
  lemma SignedExactly(u: nat)
    requires u < 0x100000000
    ensures -0x80000000 <= SignedI32(u) < 0x80000000 && (SignedI32(u) == u || SignedI32(u) + 0x100000000 == u)
  {
  }

  /**
   * The transaction that is made of them: its id is the hash of its bytes, its outputs are numbered under that
   * id, and it has the message of its first output if that is an OP_RETURN that parses; a GENESIS names itself.
   */
  lemma FieldsHydrated(t: TxFields, rest: Data, sha: Data -> Txid)
    requires TxFits(t)
    ensures
      var r := Hydrated(WriteTx(t) + rest, sha);
      && r.Got? && r.next == |WriteTx(t)|
      && var tx := r.value;
         && tx.serialized == WriteTx(t) && tx.txid == sha(WriteTx(t)) && tx.lockTime == t.lockTime
         && (tx.version == t.version || tx.version + 0x100000000 == t.version) && -0x80000000 <= tx.version < 0x80000000
         && |tx.inputs| == |t.inputs| && |tx.outputs| == |t.outputs|
         && (forall i :: 0 <= i < |t.inputs| ==> tx.inputs[i] == Outpoint(t.inputs[i].prevTxId, t.inputs[i].prevOutIdx))
         && (forall i :: 0 <= i < |t.outputs| ==>
              tx.outputs[i] == Output(tx.txid, i, AbsoluteI64(t.outputs[i].value), t.outputs[i].script))
  {
    FieldsRead(t, rest);
    SignedExactly(t.version);
    var s := WriteTx(t) + rest;
    assert s[..|WriteTx(t)|] == WriteTx(t);
  }

  /** Without a message, the token type that the parser left in the first output is all that is known. */
  lemma NoMessageHydrated(t: TxFields, rest: Data, sha: Data -> Txid)
    requires TxFits(t)
    ensures Hydrated(WriteTx(t) + rest, sha).Got?
    ensures
      var slp := Hydrated(WriteTx(t) + rest, sha).value.slp;
      && (slp.action.Invalid? <==> |t.outputs| == 0 || forall g :: !SlpScript.InGrammar(t.outputs[0].script, g))
      && (slp.action.Invalid? ==> slp.tokenid == 0 && slp.tokenType == if |t.outputs| == 0 then 0 else SlpScript.TypeLeft(t.outputs[0].script))
  {
    FieldsHydrated(t, rest, sha);
    var tx := Hydrated(WriteTx(t) + rest, sha).value;
    assert tx.slp == MessageIn(tx.outputs, tx.txid);
    if |t.outputs| > 0 {
      var script := t.outputs[0].script;
      assert tx.outputs[0].script == script;
      forall g ensures SlpScript.InGrammar(script, g) <==> SlpScript.Parsed(script) == Some(g) { SlpScript.AcceptsGrammar(script, g); }
      if SlpScript.Parsed(script).Some? {
        assert SlpScript.InGrammar(script, SlpScript.Parsed(script).value);
      }
    }
  }

  /** The message: that of output 0, if its script begins with OP_RETURN and parses; a GENESIS is named by its id. */
  lemma MessageHydrated(t: TxFields, rest: Data, sha: Data -> Txid, m: SlpMessage)
    requires TxFits(t) && !m.action.Invalid?
    ensures Hydrated(WriteTx(t) + rest, sha).Got?
    ensures
      var tx := Hydrated(WriteTx(t) + rest, sha).value;
      tx.slp == m <==>
        && |t.outputs| > 0
        && exists g: SlpMessage :: SlpScript.InGrammar(t.outputs[0].script, g) && m == if g.action.Genesis? then g.(tokenid := tx.txid) else g
  {
    FieldsHydrated(t, rest, sha);
    var tx := Hydrated(WriteTx(t) + rest, sha).value;
    assert tx.slp == MessageIn(tx.outputs, tx.txid);
    if |t.outputs| > 0 {
      var script := t.outputs[0].script;
      assert tx.outputs[0].script == script;
      if SlpScript.Parsed(script).Some? {
        SlpScript.AcceptsGrammar(script, SlpScript.Parsed(script).value);
      }
      forall g ensures SlpScript.InGrammar(script, g) <==> SlpScript.Parsed(script) == Some(g) { SlpScript.AcceptsGrammar(script, g); }
    }
  }
}
