/**
 * Issuing transactions as they are read from bytes. `slp_outputs` (src/transaction.cpp) takes output 1 of a
 * GENESIS or MINT without asking whether there is one, and a transaction with one output is read as well.
 */
module SlpIssue {
  import opened Options
  import opened Transactions
  import opened Bytes
  import opened Wire
  import opened SlpScript
  import BlockCache
  import Utxo

  /** A GENESIS or MINT with no output but its message. */
  predicate LoneIssue(tx: Transaction) {
    (tx.slp.action.Genesis? || tx.slp.action.Mint?) && |tx.outputs| == 1
  }

  /** A transaction that was read has its SLP outputs exactly when it is no such issue. */
  lemma ReadHasOutputs(s: Data, sha: Data -> Txid)
    requires Hydrated(s, sha).Got?
    ensures HasSlpOutputs(Hydrated(s, sha).value) <==> !LoneIssue(Hydrated(s, sha).value)
  {
    var tx := Hydrated(s, sha).value;
    assert tx.slp == MessageIn(tx.outputs, tx.txid);
  }

  /** A block that was read can be applied exactly when it holds no such issue. */
  lemma ReadIsReadable(s: Data, slpOnly: bool, sha: Data -> Txid)
    requires BlockCache.HydratedBlock(s, slpOnly, BlockCache.TransactionReader(sha), sha).Some?
    ensures
      var txs := BlockCache.HydratedBlock(s, slpOnly, BlockCache.TransactionReader(sha), sha).value.txs;
      Utxo.BlockReadable(txs) <==> forall i :: 0 <= i < |txs| ==> !LoneIssue(txs[i])
  {
    var read := BlockCache.TransactionReader(sha);
    BlockCache.TransactionReaderDelimits(sha);
    BlockCache.ReadIsSound(s, slpOnly, read, sha);
    var txs := BlockCache.HydratedBlock(s, slpOnly, read, sha).value.txs;
    forall i | 0 <= i < |txs|
      ensures HasSlpOutputs(txs[i]) <==> !LoneIssue(txs[i])
    {
      assert BlockCache.Genuine(txs[i], read);
      ReadHasOutputs(txs[i].serialized, sha);
    }
  }

  // ----- Such issues are read -----

  /** A transaction with one input and one output. */
  function LoneBytes(script: Data): (s: Data)
    requires |script| < 0xFD
    ensures |s| == 60 + |script|
  {
    [1, 0, 0, 0] + [1] + seq(36, _ => 0) + [0] + [0xFF, 0xFF, 0xFF, 0xFF]
    + [1] + seq(8, _ => 0) + [|script|] + script + [0, 0, 0, 0]
  }

  lemma LoneParts(script: Data)
    requires |script| < 0xFD
    ensures
      var s := LoneBytes(script);
      s[4] == 1 && s[41] == 0 && s[46] == 1 && s[55] == |script| && s[56..56 + |script|] == script
  {
  }

  lemma LoneInput(s: Data)
    requires |s| >= 60 && s[4] == 1 && s[41] == 0
    ensures CountedInputs(s, 4).Got? && CountedInputs(s, 4).next == 46
  {
    assert VarInt(s, 41) == Got(0, 42);
    assert ScriptBytes(s, 41).Got? && ScriptBytes(s, 41).next == 42;
    assert Inputs(s, 5, 0) == Got([], 5);
    assert Inputs(s, 5, 1).Got? && Inputs(s, 5, 1).next == 46;
  }

  lemma LoneOutput(s: Data, script: Data)
    requires |script| < 0xFD && |s| == 60 + |script| && s[46] == 1 && s[55] == |script| && s[56..56 + |script|] == script
    ensures
      var outs := CountedOutputs(s, 46);
      outs.Got? && outs.next == 56 + |script| && |outs.value| == 1 && outs.value[0].script == script
  {
    assert VarInt(s, 55) == Got(|script|, 56);
    assert ScriptBytes(s, 55) == Got(script, 56 + |script|);
    assert Outputs(s, 47, 0) == Got([], 47);
    assert Outputs(s, 47, 1).Got? && Outputs(s, 47, 1).value == [OutputAt(s, 47).value];
  }

  lemma LoneHydrated(script: Data, sha: Data -> Txid)
    requires |script| < 0xFD
    ensures
      var r := Hydrated(LoneBytes(script), sha);
      r.Got? && r.next == |LoneBytes(script)| && |r.value.outputs| == 1 && r.value.outputs[0].script == script
  {
    LoneParts(script);
    LoneInput(LoneBytes(script));
    LoneOutput(LoneBytes(script), script);
  }

  /** Every script of up to 252 bytes with a GENESIS or MINT is read as such an issue. */
  lemma LoneIssueIsRead(script: Data, m: SlpMessage, sha: Data -> Txid)
    requires |script| < 0xFD && InGrammar(script, m) && !m.action.Send?
    ensures
      var r := Hydrated(LoneBytes(script), sha);
      r.Got? && LoneIssue(r.value) && !HasSlpOutputs(r.value)
  {
    AcceptsGrammar(script, m);
    LoneHydrated(script, sha);
    var tx := Hydrated(LoneBytes(script), sha).value;
    assert tx.slp == MessageIn(tx.outputs, tx.txid);
  }

  const ISSUE := SlpMessage(0, TYPE1, Genesis([], [], [], [], 0, 0, 1))

  const ISSUE_PUSHES: seq<Push> :=
    [Push(Direct, LOKAD), Push(Direct, [1]), Push(Direct, GENESIS), Push(Data1, []), Push(Data1, []), Push(Data1, []),
     Push(Data1, []), Push(Direct, [0]), Push(Data1, []), Push(Direct, ToBE(1, 8))]

  lemma {:induction false} WrittenBound(ps: seq<Push>)
    requires AllFit(ps) && forall i :: 0 <= i < |ps| ==> |ps[i].data| <= 8 && (ps[i].carrier.Direct? || ps[i].carrier.Data1?)
    ensures |WrittenAll(ps)| <= 10 * |ps|
    decreases |ps|
  {
    if |ps| > 0 {
      WrittenBound(ps[1..]);
    }
  }

  /** The GENESIS of one token, with an amount but no output to hold it. */
  lemma IssueWithoutOutput(sha: Data -> Txid)
    ensures AllFit(ISSUE_PUSHES)
    ensures
      var script := [OP_RETURN] + WrittenAll(ISSUE_PUSHES);
      |script| < 0xFD && Hydrated(LoneBytes(script), sha).Got? && !HasSlpOutputs(Hydrated(LoneBytes(script), sha).value)
  {
    IssuePushes();
    IssueChunks();
    IssueIsRead(ISSUE_PUSHES, sha);
  }

  lemma IssuePushes()
    ensures AllFit(ISSUE_PUSHES) && |WrittenAll(ISSUE_PUSHES)| <= 100
  {
    assert AllFit(ISSUE_PUSHES);
    WrittenBound(ISSUE_PUSHES);
  }

  lemma IssueChunks()
    ensures Legal(ISSUE) && Chunks(ISSUE_PUSHES) == Rendered(ISSUE, false)
  {
  }

  lemma IssueIsRead(ps: seq<Push>, sha: Data -> Txid)
    requires AllFit(ps) && |WrittenAll(ps)| <= 100 && Legal(ISSUE) && Chunks(ps) == Rendered(ISSUE, false)
    ensures
      var r := Hydrated(LoneBytes([OP_RETURN] + WrittenAll(ps)), sha);
      r.Got? && !HasSlpOutputs(r.value)
  {
    IntoGrammar([OP_RETURN] + WrittenAll(ps), ISSUE, false, ps);
    LoneIssueIsRead([OP_RETURN] + WrittenAll(ps), ISSUE, sha);
  }
}
