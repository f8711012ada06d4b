/**
 * What blocks and rollbacks do to the output index: the index stays the outputs grouped by script,
 * bulk application agrees with a transaction-by-transaction ledger, and rollbacks undo blocks.
 */
module UtxoLaws {
  import opened Transactions
  import opened Utxo

  /** An outpoint names one output: `out` is the output it names. */
  ghost predicate Naming(out: Outpoint -> Output) {
    forall k :: out(k).AsOutpoint() == k
  }

  ghost predicate Agrees(m: map<Outpoint, Output>, out: Outpoint -> Output) {
    forall k :: k in m ==> m[k] == out(k)
  }

  ghost predicate AllAgree(os: seq<Output>, out: Outpoint -> Output) {
    forall i :: 0 <= i < |os| ==> os[i] == out(os[i].AsOutpoint())
  }

  /** `ix` holds the set `live`, by script. */
  ghost predicate Holds(ix: Index, live: set<Outpoint>, out: Outpoint -> Output) {
    && (forall s, k :: s in ix && k in ix[s] ==> k in live && ix[s][k] == out(k) && out(k).script == s)
    && (forall k :: k in live ==> out(k).script in ix && k in ix[out(k).script])
  }

  /** `ix` is the set `live` grouped by script, without empty groups. */
  ghost predicate Groups(ix: Index, live: set<Outpoint>, out: Outpoint -> Output) {
    (forall s :: s in ix ==> ix[s].Keys != {}) && Holds(ix, live, out)
  }

  /** A set of outpoints has one grouping. */
  lemma GroupsUnique(ix1: Index, ix2: Index, live: set<Outpoint>, out: Outpoint -> Output)
    requires Groups(ix1, live, out) && Groups(ix2, live, out)
    ensures ix1 == ix2
  {
    SubIndex(ix1, ix2, live, out);
    SubIndex(ix2, ix1, live, out);
    assert ix1.Keys == ix2.Keys;
    forall s | s in ix1
      ensures ix1[s] == ix2[s]
    {
      assert ix1[s].Keys == ix2[s].Keys;
      assert forall k :: k in ix1[s] ==> ix1[s][k] == out(k) && ix2[s][k] == out(k);
    }
  }

  lemma SubIndex(ix1: Index, ix2: Index, live: set<Outpoint>, out: Outpoint -> Output)
    requires Groups(ix1, live, out) && Groups(ix2, live, out)
    ensures forall s :: s in ix1 ==> s in ix2 && ix1[s].Keys <= ix2[s].Keys
  {
    forall s | s in ix1
      ensures s in ix2 && ix1[s].Keys <= ix2[s].Keys
    {
      var k :| k in ix1[s];
      assert k in live && out(k).script == s;
      forall j | j in ix1[s]
        ensures j in ix2[s]
      {
        assert j in live && out(j).script == s;
      }
    }
  }

  lemma HoldsInsert(ix: Index, live: set<Outpoint>, out: Outpoint -> Output, k: Outpoint)
    requires Naming(out) && Holds(ix, live, out)
    ensures Holds(IndexInsert(ix, out(k).script, out(k)), live + {k}, out)
  {
    var s, o := out(k).script, out(k);
    assert o.AsOutpoint() == k;
    var ix' := IndexInsert(ix, s, o);
    assert s in ix' && k in ix'[s] && ix'[s][k] == o;
    assert forall t :: t in ix' && t != s ==> t in ix && ix'[t] == ix[t];
  }

  /** Taking an output out, whether an empty group stays or goes. */
  lemma HoldsErase(ix: Index, live: set<Outpoint>, out: Outpoint -> Output, k: Outpoint)
    requires Naming(out) && Holds(ix, live, out)
    ensures Holds(IndexErase(ix, out(k).script, out(k)), live - {k}, out)
    ensures out(k).script in ix ==> Holds(ix[out(k).script := ix[out(k).script] - {k}], live - {k}, out)
  {
    var s, o := out(k).script, out(k);
    assert o.AsOutpoint() == k;
    if s in ix {
      var group := ix[s] - {k};
      assert group.Keys == ix[s].Keys - {k};
      assert group == map[] <==> group.Keys == {};
    }
  }

  lemma GroupsInsert(ix: Index, live: set<Outpoint>, out: Outpoint -> Output, k: Outpoint)
    requires Naming(out) && Groups(ix, live, out)
    ensures Groups(IndexInsert(ix, out(k).script, out(k)), live + {k}, out)
  {
    HoldsInsert(ix, live, out, k);
    var ix' := IndexInsert(ix, out(k).script, out(k));
    assert k in ix'[out(k).script].Keys;
    assert forall t :: t in ix' && t != out(k).script ==> t in ix && ix'[t] == ix[t];
  }

  lemma GroupsErase(ix: Index, live: set<Outpoint>, out: Outpoint -> Output, k: Outpoint)
    requires Naming(out) && Groups(ix, live, out)
    ensures Groups(IndexErase(ix, out(k).script, out(k)), live - {k}, out)
    ensures IndexEraseFound(ix, out(k).script, out(k)) == IndexErase(ix, out(k).script, out(k))
  {
    HoldsErase(ix, live, out, k);
    var s, o := out(k).script, out(k);
    assert o.AsOutpoint() == k;
    if s in ix {
      var group := ix[s] - {k};
      assert group == map[] <==> group.Keys == {};
      if k !in ix[s] {
        assert group == ix[s] && ix[s := group] == ix;
      }
    }
  }

  /** Stored outputs are what their outpoints name, and the index groups `live`, a part of them. */
  ghost predicate Inv(db: Db, live: set<Outpoint>, out: Outpoint -> Output) {
    && Naming(out)
    && Agrees(db.outpoints, out) && Agrees(db.memOutpoints, out)
    && Groups(db.index, live, out) && live <= db.outpoints.Keys
  }

  /** The index is exactly the known outputs, grouped by script. */
  ghost predicate IndexExact(db: Db, out: Outpoint -> Output) {
    Inv(db, db.outpoints.Keys, out)
  }

  ghost function KeySet(outs: seq<Output>): set<Outpoint> {
    set i | 0 <= i < |outs| && !outs[i].IsOpReturn() :: outs[i].AsOutpoint()
  }

  ghost function InSet(ins: seq<Outpoint>): set<Outpoint> {
    set i | 0 <= i < |ins| :: ins[i]
  }

  lemma KeySetSplit(outs: seq<Output>)
    requires |outs| > 0
    ensures KeySet(outs) == KeySet(outs[..|outs| - 1]) + (if outs[|outs| - 1].IsOpReturn() then {} else {outs[|outs| - 1].AsOutpoint()})
  {
    var n := |outs| - 1;
    assert forall i :: 0 <= i < n ==> outs[..n][i] == outs[i];
  }

  lemma InSetSplit(ins: seq<Outpoint>)
    requires |ins| > 0
    ensures InSet(ins) == InSet(ins[..|ins| - 1]) + {ins[|ins| - 1]}
  {
    var n := |ins| - 1;
    assert forall i :: 0 <= i < n ==> ins[..n][i] == ins[i];
  }

  lemma {:induction false} KeysAreKeySet(outs: seq<Output>)
    ensures InSet(Keys(outs)) == KeySet(outs)
    decreases |outs|
  {
    if |outs| > 0 {
      KeysAreKeySet(outs[..|outs| - 1]);
      KeySetSplit(outs);
      var ks := Keys(outs);
      if !outs[|outs| - 1].IsOpReturn() {
        InSetSplit(ks);
        assert ks[..|ks| - 1] == Keys(outs[..|outs| - 1]);
      }
    }
  }

  // ----- A block, in bulk -----

  lemma AddInv(db: Db, live: set<Outpoint>, out: Outpoint -> Output, m: Output)
    requires Inv(db, live, out) && m == out(m.AsOutpoint()) && !m.IsOpReturn()
    ensures Inv(AddOutput(db, m), live + {m.AsOutpoint()}, out)
    ensures AddOutput(db, m).outpoints.Keys == db.outpoints.Keys + {m.AsOutpoint()}
    ensures AddOutput(db, m).memOutpoints.Keys == db.memOutpoints.Keys - {m.AsOutpoint()}
  {
    GroupsInsert(db.index, live, out, m.AsOutpoint());
  }

  lemma {:induction false} AddAllKeys(db: Db, outs: seq<Output>)
    ensures AddAll(db, outs).outpoints.Keys == db.outpoints.Keys + KeySet(outs)
    ensures AddAll(db, outs).memOutpoints.Keys == db.memOutpoints.Keys - KeySet(outs)
    ensures AddAll(db, outs).removed == db.removed && AddAll(db, outs).added == db.added
    decreases |outs|
  {
    if |outs| > 0 {
      AddAllKeys(db, outs[..|outs| - 1]);
      KeySetSplit(outs);
    }
  }

  /** The outpoint that an output adds, if any. */
  ghost function KeyOf(m: Output): set<Outpoint> {
    if m.IsOpReturn() then {} else {m.AsOutpoint()}
  }

  lemma AddAnyInv(db: Db, live: set<Outpoint>, out: Outpoint -> Output, m: Output)
    requires Inv(db, live, out) && m == out(m.AsOutpoint())
    ensures Inv(AddOutput(db, m), live + KeyOf(m), out)
  {
    if m.IsOpReturn() {
      assert live + KeyOf(m) == live;
    } else {
      AddInv(db, live, out, m);
    }
  }

  lemma AddedKeys(live: set<Outpoint>, outs: seq<Output>)
    requires |outs| > 0
    ensures live + KeySet(outs) == live + KeySet(outs[..|outs| - 1]) + KeyOf(outs[|outs| - 1])
  {
    KeySetSplit(outs);
  }

  lemma {:induction false} AddAllInv(db: Db, live: set<Outpoint>, out: Outpoint -> Output, outs: seq<Output>)
    requires Inv(db, live, out) && AllAgree(outs, out)
    ensures Inv(AddAll(db, outs), live + KeySet(outs), out)
    decreases |outs|
  {
    if |outs| == 0 {
      assert live + KeySet(outs) == live;
    } else {
      var front, m := outs[..|outs| - 1], outs[|outs| - 1];
      AddAllInv(db, live, out, front);
      AddAnyInv(AddAll(db, front), live + KeySet(front), out, m);
      AddedKeys(live, outs);
    }
  }

  lemma SpendInv(db: Db, live: set<Outpoint>, out: Outpoint -> Output, m: Outpoint)
    requires Inv(db, live, out)
    ensures Inv(SpendInput(db, m), live - {m}, out)
    ensures SpendInput(db, m).outpoints.Keys == db.outpoints.Keys - {m}
    ensures SpendInput(db, m).memOutpoints.Keys == db.memOutpoints.Keys - {m}
  {
    if m in db.outpoints {
      GroupsErase(db.index, live, out, m);
    } else {
      assert live - {m} == live;
    }
  }

  lemma {:induction false} SpendAllInv(db: Db, live: set<Outpoint>, out: Outpoint -> Output, ins: seq<Outpoint>)
    requires Inv(db, live, out)
    ensures Inv(SpendAll(db, ins), live - InSet(ins), out)
    ensures SpendAll(db, ins).outpoints.Keys == db.outpoints.Keys - InSet(ins)
    ensures SpendAll(db, ins).memOutpoints.Keys == db.memOutpoints.Keys - InSet(ins)
    ensures SpendAll(db, ins).removed == db.removed && SpendAll(db, ins).added == db.added
    decreases |ins|
  {
    if |ins| == 0 {
      assert live - InSet(ins) == live;
    } else {
      var n := |ins| - 1;
      SpendAllInv(db, live, out, ins[..n]);
      InSetSplit(ins);
      SpendInv(SpendAll(db, ins[..n]), live - InSet(ins[..n]), out, ins[n]);
      assert live - InSet(ins) == live - InSet(ins[..n]) - {ins[n]};
    }
  }

  ghost function Fresh(txs: seq<Transaction>): set<Outpoint>
    requires BlockReadable(txs)
  {
    KeySet(BlockOutputs(txs))
  }

  ghost function Spent(txs: seq<Transaction>): set<Outpoint> {
    InSet(BlockInputs(txs))
  }

  /** The state between the outputs of a block and its inputs. */
  ghost function Filled(db: Db, txs: seq<Transaction>): Db
    requires BlockReadable(txs)
  {
    AddAll(db.(height := db.height + 1), BlockOutputs(txs))
  }

  lemma FilledInv(db: Db, live: set<Outpoint>, out: Outpoint -> Output, txs: seq<Transaction>)
    requires BlockReadable(txs) && Inv(db, live, out) && AllAgree(BlockOutputs(txs), out)
    ensures Inv(Filled(db, txs), live + Fresh(txs), out)
  {
    var raised, outs := db.(height := db.height + 1), BlockOutputs(txs);
    RaisedInv(db, live, out);
    AddAllInv(raised, live, out, outs);
    assert Filled(db, txs) == AddAll(raised, outs) && Fresh(txs) == KeySet(outs);
  }

  lemma RaisedInv(db: Db, live: set<Outpoint>, out: Outpoint -> Output)
    requires Inv(db, live, out)
    ensures Inv(db.(height := db.height + 1), live, out)
  {
  }

  /** The indexed outpoints after a block. */
  ghost function LiveAfter(live: set<Outpoint>, txs: seq<Transaction>): set<Outpoint>
    requires BlockReadable(txs)
  {
    live + KeySet(BlockOutputs(txs)) - InSet(BlockInputs(txs))
  }

  // ----- What a block creates and spends, by its messages -----

  /** Outputs are numbered under the id of their transaction. */
  ghost predicate OwnOutputs(tx: Transaction) {
    forall v :: 0 <= v < |tx.outputs| ==> tx.outputs[v].AsOutpoint() == Outpoint(tx.txid, v)
  }

  /** The transaction has an output there that its message speaks of and that is no OP_RETURN. */
  ghost predicate CreatesAt(tx: Transaction, k: Outpoint) {
    tx.txid == k.txid && Mentions(tx, k.vout) && !(|tx.outputs[k.vout].script| > 0 && tx.outputs[k.vout].script[0] == 0x6A)
  }

  lemma TransactionCreates(tx: Transaction, k: Outpoint)
    requires HasSlpOutputs(tx) && OwnOutputs(tx)
    ensures k in KeySet(SlpOutputs(tx)) <==> CreatesAt(tx, k)
  {
    var outs := SlpOutputs(tx);
    if k in KeySet(outs) {
      var i :| 0 <= i < |outs| && !outs[i].IsOpReturn() && outs[i].AsOutpoint() == k;
      PlaceOf(tx, i);
    }
    if CreatesAt(tx, k) {
      SlpOutputsMentioned(tx, tx.outputs[k.vout]);
      var i :| 0 <= i < |outs| && outs[i] == tx.outputs[k.vout];
      assert outs[i].AsOutpoint() == k;
    }
  }

  /** The outpoints that a block adds. */
  lemma BlockCreates(txs: seq<Transaction>, k: Outpoint)
    requires BlockReadable(txs) && forall i :: 0 <= i < |txs| ==> OwnOutputs(txs[i])
    ensures k in Fresh(txs) <==> exists i :: 0 <= i < |txs| && CreatesAt(txs[i], k)
  {
    if k in Fresh(txs) {
      var i := OutputFrom(txs, k);
      TransactionCreates(txs[i], k);
    }
    if i :| 0 <= i < |txs| && CreatesAt(txs[i], k) {
      TransactionCreates(txs[i], k);
      OutputOf(txs, i);
    }
  }

  /** The outpoints that a block takes away. */
  lemma BlockTakes(txs: seq<Transaction>, k: Outpoint)
    ensures k in Spent(txs) <==> exists i :: 0 <= i < |txs| && k in txs[i].inputs
  {
    if k in Spent(txs) {
      var i := InputFrom(txs, k);
      assert k in txs[i].inputs;
    }
    if i :| 0 <= i < |txs| && k in txs[i].inputs {
      var j :| 0 <= j < |txs[i].inputs| && txs[i].inputs[j] == k;
      assert k in InSet(txs[i].inputs);
      InputOf(txs, i);
    }
  }

  lemma {:induction false} AddAllHistories(db: Db, outs: seq<Output>)
    ensures AddAll(db, outs).removed == db.removed && AddAll(db, outs).added == db.added
    decreases |outs|
  {
    if |outs| > 0 {
      AddAllHistories(db, outs[..|outs| - 1]);
    }
  }

  lemma {:induction false} SpendAllHistories(db: Db, ins: seq<Outpoint>)
    ensures SpendAll(db, ins).removed == db.removed && SpendAll(db, ins).added == db.added
    decreases |ins|
  {
    if |ins| > 0 {
      SpendAllHistories(db, ins[..|ins| - 1]);
    }
  }

  /** A block that is not saved leaves the histories alone, and otherwise does what a saved one does. */
  lemma UnsavedBlock(db: Db, txs: seq<Transaction>)
    requires BlockReadable(txs)
    ensures
      var plain, saved := AfterBlock(db, txs, false), AfterBlock(db, txs, true);
      plain.removed == db.removed && plain.added == db.added && plain == saved.(removed := db.removed, added := db.added)
  {
    AddAllHistories(db.(height := db.height + 1), BlockOutputs(txs));
    SpendAllHistories(Filled(db, txs), BlockInputs(txs));
  }

  lemma {:induction false} AddAllHeight(db: Db, outs: seq<Output>)
    ensures AddAll(db, outs).height == db.height
    decreases |outs|
  {
    if |outs| > 0 {
      AddAllHeight(db, outs[..|outs| - 1]);
    }
  }

  lemma {:induction false} SpendAllHeight(db: Db, ins: seq<Outpoint>)
    ensures SpendAll(db, ins).height == db.height
    decreases |ins|
  {
    if |ins| > 0 {
      SpendAllHeight(db, ins[..|ins| - 1]);
    }
  }

  lemma BlockHeight(db: Db, txs: seq<Transaction>, save: bool)
    requires BlockReadable(txs)
    ensures AfterBlock(db, txs, save).height == db.height + 1
  {
    BlockState(db, txs, save);
    AddAllHeight(db.(height := db.height + 1), BlockOutputs(txs));
    SpendAllHeight(Filled(db, txs), BlockInputs(txs));
  }

  /** Saving a record changes the histories alone. */
  lemma BlockState(db: Db, txs: seq<Transaction>, save: bool)
    requires BlockReadable(txs)
    ensures
      var after, spent := AfterBlock(db, txs, save), SpendAll(Filled(db, txs), BlockInputs(txs));
      after == spent.(removed := after.removed, added := after.added)
  {
  }

  /** A block adds its outputs and takes its inputs away, from the outputs and from the index alike. */
  lemma BlockEffect(db: Db, live: set<Outpoint>, out: Outpoint -> Output, txs: seq<Transaction>, save: bool)
    requires BlockReadable(txs) && Inv(db, live, out) && AllAgree(BlockOutputs(txs), out)
    ensures Inv(AfterBlock(db, txs, save), LiveAfter(live, txs), out)
    ensures AfterBlock(db, txs, save).outpoints.Keys == LiveAfter(db.outpoints.Keys, txs)
  {
    var filled := Filled(db, txs);
    BlockState(db, txs, save);
    FilledInv(db, live, out, txs);
    assert filled.outpoints.Keys == db.outpoints.Keys + Fresh(txs) by { AddAllKeys(db.(height := db.height + 1), BlockOutputs(txs)); }
    SpendAllInv(filled, live + Fresh(txs), out, BlockInputs(txs));
  }

  /** Blocks keep the index exact. */
  lemma BlockKeepsIndexExact(db: Db, out: Outpoint -> Output, txs: seq<Transaction>, save: bool)
    requires BlockReadable(txs) && IndexExact(db, out) && AllAgree(BlockOutputs(txs), out)
    ensures IndexExact(AfterBlock(db, txs, save), out)
  {
    BlockEffect(db, db.outpoints.Keys, out, txs, save);
  }

  // ----- The ledger, one transaction at a time -----

  /** Spends the inputs of one transaction, then creates its outputs. */
  ghost function ApplyTx(outs: map<Outpoint, Output>, tx: Transaction, out: Outpoint -> Output): map<Outpoint, Output>
    requires HasSlpOutputs(tx)
  {
    map k | k in outs.Keys - InSet(tx.inputs) + KeySet(SlpOutputs(tx)) :: out(k)
  }

  ghost function ApplyAll(outs: map<Outpoint, Output>, txs: seq<Transaction>, out: Outpoint -> Output): map<Outpoint, Output>
    requires BlockReadable(txs)
  {
    if |txs| == 0 then outs else ApplyTx(ApplyAll(outs, txs[..|txs| - 1], out), txs[|txs| - 1], out)
  }

  /** No transaction spends an output of itself or of a later one. */
  ghost predicate SpendersLast(txs: seq<Transaction>)
    requires BlockReadable(txs)
  {
    forall i, j :: 0 <= i <= j < |txs| ==> InSet(txs[i].inputs) !! KeySet(SlpOutputs(txs[j]))
  }

  lemma {:induction false} InputOf(txs: seq<Transaction>, i: nat)
    requires i < |txs|
    ensures InSet(txs[i].inputs) <= InSet(BlockInputs(txs))
    decreases |txs|
  {
    var n := |txs| - 1;
    InSetConcat(BlockInputs(txs[..n]), txs[n].inputs);
    if i < n {
      InputOf(txs[..n], i);
    }
  }

  lemma {:induction false} InputFrom(txs: seq<Transaction>, k: Outpoint) returns (i: nat)
    requires k in InSet(BlockInputs(txs))
    ensures i < |txs| && k in InSet(txs[i].inputs)
    decreases |txs|
  {
    var n := |txs| - 1;
    InSetConcat(BlockInputs(txs[..n]), txs[n].inputs);
    if k in InSet(txs[n].inputs) {
      i := n;
    } else {
      i := InputFrom(txs[..n], k);
    }
  }

  lemma InSetConcat(a: seq<Outpoint>, b: seq<Outpoint>)
    ensures InSet(a + b) == InSet(a) + InSet(b)
  {
    var c := a + b;
    assert forall i :: 0 <= i < |a| ==> c[i] == a[i];
    assert forall i :: 0 <= i < |b| ==> c[|a| + i] == b[i];
  }

  lemma KeySetConcat(a: seq<Output>, b: seq<Output>)
    ensures KeySet(a + b) == KeySet(a) + KeySet(b)
  {
    var c := a + b;
    assert forall i :: 0 <= i < |a| ==> c[i] == a[i];
    assert forall i :: 0 <= i < |b| ==> c[|a| + i] == b[i];
  }

  lemma LastOutputs(txs: seq<Transaction>)
    requires BlockReadable(txs) && |txs| > 0
    ensures
      var n := |txs| - 1;
      KeySet(BlockOutputs(txs)) == KeySet(BlockOutputs(txs[..n])) + KeySet(SlpOutputs(txs[n]))
  {
    var n := |txs| - 1;
    KeySetConcat(BlockOutputs(txs[..n]), SlpOutputs(txs[n]));
  }

  lemma {:induction false} OutputOf(txs: seq<Transaction>, i: nat)
    requires BlockReadable(txs) && i < |txs|
    ensures KeySet(SlpOutputs(txs[i])) <= KeySet(BlockOutputs(txs))
    decreases |txs|
  {
    var n := |txs| - 1;
    LastOutputs(txs);
    if i < n {
      var before := txs[..n];
      assert before[i] == txs[i];
      assert KeySet(SlpOutputs(before[i])) <= KeySet(BlockOutputs(before)) by { OutputOf(before, i); }
    }
  }

  lemma {:induction false} OutputFrom(txs: seq<Transaction>, k: Outpoint) returns (i: nat)
    requires BlockReadable(txs) && k in KeySet(BlockOutputs(txs))
    ensures i < |txs| && k in KeySet(SlpOutputs(txs[i]))
    decreases |txs|
  {
    var n := |txs| - 1;
    LastOutputs(txs);
    if k in KeySet(SlpOutputs(txs[n])) {
      i := n;
    } else {
      i := OutputFrom(txs[..n], k);
    }
  }

  /** Nothing in the list spends an output of its last transaction. */
  lemma NewIsUnspent(txs: seq<Transaction>)
    requires BlockReadable(txs) && SpendersLast(txs) && |txs| > 0
    ensures KeySet(SlpOutputs(txs[|txs| - 1])) !! InSet(BlockInputs(txs))
  {
    forall k | k in InSet(BlockInputs(txs))
      ensures k !in KeySet(SlpOutputs(txs[|txs| - 1]))
    {
      var i := InputFrom(txs, k);
      assert InSet(txs[i].inputs) !! KeySet(SlpOutputs(txs[|txs| - 1]));
    }
  }

  /** In parents-first order the ledger is old outputs and new outputs without the spent ones. */
  lemma {:induction false} LedgerKeys(outs: map<Outpoint, Output>, txs: seq<Transaction>, out: Outpoint -> Output)
    requires BlockReadable(txs) && SpendersLast(txs) && Agrees(outs, out)
    ensures ApplyAll(outs, txs, out).Keys == LiveAfter(outs.Keys, txs)
    ensures Agrees(ApplyAll(outs, txs, out), out)
    decreases |txs|
  {
    if |txs| == 0 {
      assert LiveAfter(outs.Keys, txs) == outs.Keys;
    } else {
      var n := |txs| - 1;
      var front, tx := txs[..n], txs[n];
      assert forall i :: 0 <= i < n ==> front[i] == txs[i];
      LedgerKeys(outs, front, out);
      InSetConcat(BlockInputs(front), tx.inputs);
      KeySetConcat(BlockOutputs(front), SlpOutputs(tx));
      assert SpendersLast(front);
      NewIsUnspent(txs);
    }
  }

  /**
   * Bulk application refines the ledger: whatever the order of the block, its effect is that of
   * applying its transactions one at a time with parents first.
   */
  lemma BulkIsLedger(db: Db, live: set<Outpoint>, out: Outpoint -> Output, txs: seq<Transaction>, order: seq<Transaction>, save: bool)
    requires BlockReadable(txs) && BlockReadable(order) && Inv(db, live, out) && AllAgree(BlockOutputs(txs), out)
    requires forall tx :: tx in txs <==> tx in order
    requires SpendersLast(order)
    ensures AfterBlock(db, txs, save).outpoints == ApplyAll(db.outpoints, order, out)
  {
    BlockEffect(db, live, out, txs, save);
    LedgerKeys(db.outpoints, order, out);
    SameMembers(txs, order);
    var a, b := AfterBlock(db, txs, save).outpoints, ApplyAll(db.outpoints, order, out);
    assert a.Keys == b.Keys;
    assert forall k :: k in a ==> a[k] == b[k];
  }

  lemma SameMembers(txs: seq<Transaction>, order: seq<Transaction>)
    requires BlockReadable(txs) && BlockReadable(order) && forall tx :: tx in txs <==> tx in order
    ensures InSet(BlockInputs(txs)) == InSet(BlockInputs(order)) && KeySet(BlockOutputs(txs)) == KeySet(BlockOutputs(order))
  {
    FewerMembers(txs, order);
    FewerMembers(order, txs);
  }

  lemma FewerMembers(txs: seq<Transaction>, order: seq<Transaction>)
    requires BlockReadable(txs) && BlockReadable(order) && forall tx :: tx in txs ==> tx in order
    ensures InSet(BlockInputs(txs)) <= InSet(BlockInputs(order)) && KeySet(BlockOutputs(txs)) <= KeySet(BlockOutputs(order))
  {
    forall k | k in InSet(BlockInputs(txs))
      ensures k in InSet(BlockInputs(order))
    {
      var i := InputFrom(txs, k);
      assert txs[i] in order;
      var j :| 0 <= j < |order| && order[j] == txs[i];
      InputOf(order, j);
    }
    forall k | k in KeySet(BlockOutputs(txs))
      ensures k in KeySet(BlockOutputs(order))
    {
      var i := OutputFrom(txs, k);
      assert txs[i] in order;
      var j :| 0 <= j < |order| && order[j] == txs[i];
      OutputOf(order, j);
    }
  }
}
