/**
 * The unconfirmed layer of the output index: `process_mempool_tx` next to blocks (src/bch.cpp). The
 * mempool's output map keeps what was spent, but its index does not.
 */
module UtxoMempool {
  import opened Transactions
  import opened Utxo
  import opened UtxoLaws

  /** Stored outputs are what their outpoints name, and the mempool's index holds `live`, a part of them. */
  ghost predicate Pending(db: Db, live: set<Outpoint>, out: Outpoint -> Output) {
    && Naming(out) && Agrees(db.outpoints, out) && Agrees(db.memOutpoints, out)
    && Holds(db.memIndex, live, out) && live <= db.memOutpoints.Keys
  }

  // ----- A transaction arrives -----

  lemma MemAddPending(db: Db, live: set<Outpoint>, out: Outpoint -> Output, m: Output)
    requires Pending(db, live, out) && m == out(m.AsOutpoint()) && !m.IsOpReturn()
    ensures Pending(MemAdd(db, m), live + {m.AsOutpoint()}, out)
  {
    HoldsInsert(db.memIndex, live, out, m.AsOutpoint());
  }

  lemma {:induction false} MemAddAllPending(db: Db, live: set<Outpoint>, out: Outpoint -> Output, outs: seq<Output>)
    requires Pending(db, live, out) && AllAgree(outs, out)
    ensures Pending(MemAddAll(db, outs), live + KeySet(outs), out)
    decreases |outs|
  {
    if |outs| == 0 {
      assert live + KeySet(outs) == live;
    } else {
      var n := |outs| - 1;
      var front, m, before := outs[..n], outs[n], MemAddAll(db, outs[..n]);
      assert Pending(before, live + KeySet(front), out) by { MemAddAllPending(db, live, out, front); }
      if m.IsOpReturn() {
        assert KeySet(outs) == KeySet(front) by { KeySetSplit(outs); }
      } else {
        assert live + KeySet(outs) == live + KeySet(front) + {m.AsOutpoint()} by { KeySetSplit(outs); }
        MemAddPending(before, live + KeySet(front), out, m);
      }
    }
  }

  lemma MemSpendPending(db: Db, live: set<Outpoint>, out: Outpoint -> Output, m: Outpoint)
    requires Pending(db, live, out)
    ensures Pending(MemSpend(db, m), live - {m}, out)
  {
    if m in db.memOutpoints {
      HoldsErase(db.memIndex, live, out, m);
    } else {
      assert live - {m} == live;
    }
  }

  lemma {:induction false} MemSpendAllPending(db: Db, live: set<Outpoint>, out: Outpoint -> Output, ins: seq<Outpoint>)
    requires Pending(db, live, out)
    ensures Pending(MemSpendAll(db, ins), live - InSet(ins), out)
    decreases |ins|
  {
    if |ins| == 0 {
      assert live - InSet(ins) == live;
    } else {
      var n := |ins| - 1;
      MemSpendAllPending(db, live, out, ins[..n]);
      assert live - InSet(ins) == live - InSet(ins[..n]) - {ins[n]} by { InSetSplit(ins); }
      MemSpendPending(MemSpendAll(db, ins[..n]), live - InSet(ins[..n]), out, ins[n]);
    }
  }

  /** The confirmed layer and the histories are as before. */
  ghost predicate SameConfirmed(a: Db, b: Db) {
    a.outpoints == b.outpoints && a.index == b.index && a.removed == b.removed && a.added == b.added && a.height == b.height
  }

  lemma {:induction false} MemAddAllConfirmed(db: Db, outs: seq<Output>)
    ensures SameConfirmed(MemAddAll(db, outs), db)
    decreases |outs|
  {
    if |outs| > 0 {
      MemAddAllConfirmed(db, outs[..|outs| - 1]);
    }
  }

  lemma {:induction false} MemSpendAllConfirmed(db: Db, ins: seq<Outpoint>)
    ensures SameConfirmed(MemSpendAll(db, ins), db)
    decreases |ins|
  {
    if |ins| > 0 {
      MemSpendAllConfirmed(db, ins[..|ins| - 1]);
    }
  }

  /** An arrival leaves the confirmed layer and the histories alone. */
  lemma ArrivalConfirmed(db: Db, tx: Transaction)
    requires HasSlpOutputs(tx)
    ensures SameConfirmed(AfterMempoolTx(db, tx), db)
  {
    MemAddAllConfirmed(db, SlpOutputs(tx));
    MemSpendAllConfirmed(MemAddAll(db, SlpOutputs(tx)), tx.inputs);
  }

  lemma {:induction false} MemAddAllAgrees(db: Db, out: Outpoint -> Output, outs: seq<Output>)
    requires Agrees(db.memOutpoints, out) && AllAgree(outs, out)
    ensures Agrees(MemAddAll(db, outs).memOutpoints, out)
    decreases |outs|
  {
    if |outs| > 0 {
      MemAddAllAgrees(db, out, outs[..|outs| - 1]);
    }
  }

  lemma ArrivalAgrees(db: Db, out: Outpoint -> Output, tx: Transaction)
    requires HasSlpOutputs(tx) && Agrees(db.memOutpoints, out) && AllAgree(SlpOutputs(tx), out)
    ensures Agrees(AfterMempoolTx(db, tx).memOutpoints, out)
  {
    MemAddAllAgrees(db, out, SlpOutputs(tx));
    MemSpendAllMarks(MemAddAll(db, SlpOutputs(tx)), tx.inputs);
  }

  /** An arriving transaction adds its outputs and takes its inputs away, in the mempool's index alone. */
  lemma ArrivalEffect(db: Db, live: set<Outpoint>, out: Outpoint -> Output, tx: Transaction)
    requires HasSlpOutputs(tx) && Pending(db, live, out) && AllAgree(SlpOutputs(tx), out)
    ensures Pending(AfterMempoolTx(db, tx), live + KeySet(SlpOutputs(tx)) - InSet(tx.inputs), out)
    ensures SameConfirmed(AfterMempoolTx(db, tx), db)
  {
    var filled := MemAddAll(db, SlpOutputs(tx));
    MemAddAllPending(db, live, out, SlpOutputs(tx));
    MemSpendAllPending(filled, live + KeySet(SlpOutputs(tx)), out, tx.inputs);
    ArrivalConfirmed(db, tx);
  }

  // ----- A block confirms -----

  lemma AddOutputPending(db: Db, live: set<Outpoint>, out: Outpoint -> Output, m: Output)
    requires Pending(db, live, out) && m == out(m.AsOutpoint()) && !m.IsOpReturn()
    ensures Pending(AddOutput(db, m), live - {m.AsOutpoint()}, out)
  {
    HoldsErase(db.memIndex, live, out, m.AsOutpoint());
    if m.script !in db.memIndex {
      assert m.AsOutpoint() !in live;
      assert live - {m.AsOutpoint()} == live;
    }
  }

  lemma {:induction false} AddAllPending(db: Db, live: set<Outpoint>, out: Outpoint -> Output, outs: seq<Output>)
    requires Pending(db, live, out) && AllAgree(outs, out)
    ensures Pending(AddAll(db, outs), live - KeySet(outs), out)
    decreases |outs|
  {
    if |outs| == 0 {
      assert live - KeySet(outs) == live;
    } else {
      var n := |outs| - 1;
      var front, m, before := outs[..n], outs[n], AddAll(db, outs[..n]);
      assert Pending(before, live - KeySet(front), out) by { AddAllPending(db, live, out, front); }
      if m.IsOpReturn() {
        assert KeySet(outs) == KeySet(front) by { KeySetSplit(outs); }
      } else {
        assert live - KeySet(outs) == live - KeySet(front) - {m.AsOutpoint()} by { KeySetSplit(outs); }
        AddOutputPending(before, live - KeySet(front), out, m);
      }
    }
  }

  lemma SpendInputPending(db: Db, live: set<Outpoint>, out: Outpoint -> Output, m: Outpoint)
    requires Pending(db, live, out)
    ensures Pending(SpendInput(db, m), live - {m}, out)
  {
    if m in db.memOutpoints {
      HoldsErase(db.memIndex, live, out, m);
    } else {
      assert live - {m} == live;
    }
  }

  lemma {:induction false} SpendAllPending(db: Db, live: set<Outpoint>, out: Outpoint -> Output, ins: seq<Outpoint>)
    requires Pending(db, live, out)
    ensures Pending(SpendAll(db, ins), live - InSet(ins), out)
    decreases |ins|
  {
    if |ins| == 0 {
      assert live - InSet(ins) == live;
    } else {
      var n := |ins| - 1;
      SpendAllPending(db, live, out, ins[..n]);
      assert live - InSet(ins) == live - InSet(ins[..n]) - {ins[n]} by { InSetSplit(ins); }
      SpendInputPending(SpendAll(db, ins[..n]), live - InSet(ins[..n]), out, ins[n]);
    }
  }

  /** A block takes what it confirms and what it spends out of the mempool's index. */
  lemma ConfirmationEffect(db: Db, live: set<Outpoint>, out: Outpoint -> Output, txs: seq<Transaction>, save: bool)
    requires BlockReadable(txs) && Pending(db, live, out) && AllAgree(BlockOutputs(txs), out)
    ensures Pending(AfterBlock(db, txs, save), live - Fresh(txs) - Spent(txs), out)
  {
    var raised := db.(height := db.height + 1);
    assert Pending(raised, live, out);
    assert Pending(Filled(db, txs), live - Fresh(txs), out) by { AddAllPending(raised, live, out, BlockOutputs(txs)); }
    SpendAllPending(Filled(db, txs), live - Fresh(txs), out, BlockInputs(txs));
    BlockState(db, txs, save);
  }

  // ----- Marks on confirmed outputs -----

  lemma {:induction false} MemAddAllKeys(db: Db, outs: seq<Output>)
    ensures MemAddAll(db, outs).memOutpoints.Keys == db.memOutpoints.Keys + KeySet(outs)
    ensures MemAddAll(db, outs).memSpent == db.memSpent
    decreases |outs|
  {
    if |outs| > 0 {
      MemAddAllKeys(db, outs[..|outs| - 1]);
      KeySetSplit(outs);
    }
  }

  lemma {:induction false} MemSpendAllMarks(db: Db, ins: seq<Outpoint>)
    ensures MemSpendAll(db, ins).memOutpoints == db.memOutpoints
    ensures MemSpendAll(db, ins).memSpent == db.memSpent + (InSet(ins) - db.memOutpoints.Keys)
    decreases |ins|
  {
    if |ins| > 0 {
      MemSpendAllMarks(db, ins[..|ins| - 1]);
      InSetSplit(ins);
    }
  }

  /** An arriving transaction marks the inputs that the mempool does not know. */
  lemma ArrivalMarks(db: Db, tx: Transaction)
    requires HasSlpOutputs(tx)
    ensures AfterMempoolTx(db, tx).memSpent
         == db.memSpent + (InSet(tx.inputs) - db.memOutpoints.Keys - KeySet(SlpOutputs(tx)))
  {
    var filled := MemAddAll(db, SlpOutputs(tx));
    MemAddAllKeys(db, SlpOutputs(tx));
    MemSpendAllMarks(filled, tx.inputs);
    assert InSet(tx.inputs) - filled.memOutpoints.Keys == InSet(tx.inputs) - db.memOutpoints.Keys - KeySet(SlpOutputs(tx));
  }

  lemma {:induction false} AddAllMarks(db: Db, live: set<Outpoint>, out: Outpoint -> Output, outs: seq<Output>)
    requires Inv(db, live, out) && AllAgree(outs, out)
    ensures AddAll(db, outs).memSpent == db.memSpent - KeySet(outs)
    decreases |outs|
  {
    if |outs| > 0 {
      var front, m := outs[..|outs| - 1], outs[|outs| - 1];
      AddAllMarks(db, live, out, front);
      AddAllInv(db, live, out, front);
      assert AddOutput(AddAll(db, front), m).memSpent == AddAll(db, front).memSpent - KeyOf(m);
      KeySetSplit(outs);
    }
  }

  lemma {:induction false} SpendAllMarks(db: Db, out: Outpoint -> Output, ins: seq<Outpoint>)
    requires IndexExact(db, out)
    ensures SpendAll(db, ins).memSpent == db.memSpent - InSet(ins) * db.outpoints.Keys
    decreases |ins|
  {
    if |ins| > 0 {
      var n := |ins| - 1;
      var before, m := SpendAll(db, ins[..n]), ins[n];
      SpendAllMarks(db, out, ins[..n]);
      SpendAllInv(db, db.outpoints.Keys, out, ins[..n]);
      assert SpendInput(before, m).memSpent == before.memSpent - {m} * before.outpoints.Keys by { SpendMark(before, out, m); }
      InSetSplit(ins);
    }
  }

  lemma SpendMark(db: Db, out: Outpoint -> Output, m: Outpoint)
    requires IndexExact(db, out)
    ensures SpendInput(db, m).memSpent == db.memSpent - {m} * db.outpoints.Keys
  {
    if m in db.outpoints {
      assert out(m).script in db.index && out(m).AsOutpoint() == m;
    }
  }

  /** A block clears the marks of the outputs that it creates and of the known ones that it spends, and no others. */
  lemma ConfirmationMarks(db: Db, out: Outpoint -> Output, txs: seq<Transaction>, save: bool)
    requires BlockReadable(txs) && IndexExact(db, out) && AllAgree(BlockOutputs(txs), out)
    ensures AfterBlock(db, txs, save).memSpent == db.memSpent - Fresh(txs) - Spent(txs) * db.outpoints.Keys
  {
    var raised := db.(height := db.height + 1);
    var filled := Filled(db, txs);
    AddAllMarks(raised, db.outpoints.Keys, out, BlockOutputs(txs));
    assert filled.outpoints.Keys == db.outpoints.Keys + Fresh(txs) by { AddAllKeys(raised, BlockOutputs(txs)); }
    assert IndexExact(filled, out) by { AddAllInv(raised, db.outpoints.Keys, out, BlockOutputs(txs)); }
    SpendAllMarks(filled, out, BlockInputs(txs));
  }

  // ----- Runs -----

  datatype Event = Arrives(tx: Transaction) | Confirms(txs: seq<Transaction>, save: bool)

  ghost predicate Wellformed(e: Event, out: Outpoint -> Output) {
    match e
    case Arrives(tx) => HasSlpOutputs(tx) && AllAgree(SlpOutputs(tx), out)
    case Confirms(txs, _) => BlockReadable(txs) && AllAgree(BlockOutputs(txs), out)
  }

  ghost predicate AllWellformed(es: seq<Event>, out: Outpoint -> Output) {
    forall i :: 0 <= i < |es| ==> Wellformed(es[i], out)
  }

  ghost function AfterEvent(db: Db, e: Event, out: Outpoint -> Output): Db
    requires Wellformed(e, out)
  {
    if e.Arrives? then AfterMempoolTx(db, e.tx) else AfterBlock(db, e.txs, e.save)
  }

  ghost function AfterEvents(db: Db, es: seq<Event>, out: Outpoint -> Output): Db
    requires AllWellformed(es, out)
  {
    if |es| == 0 then db else AfterEvent(AfterEvents(db, es[..|es| - 1], out), es[|es| - 1], out)
  }

  /** The outputs that arrived and were neither spent nor confirmed since. */
  ghost function Unconfirmed(es: seq<Event>, out: Outpoint -> Output): set<Outpoint>
    requires AllWellformed(es, out)
  {
    if |es| == 0 then {}
    else
      var before, e := Unconfirmed(es[..|es| - 1], out), es[|es| - 1];
      if e.Arrives? then before + KeySet(SlpOutputs(e.tx)) - InSet(e.tx.inputs) else before - Fresh(e.txs) - Spent(e.txs)
  }

  /** In every run from an empty mempool the mempool's index holds exactly the unconfirmed outputs. */
  lemma {:induction false} RunsKeepPending(db: Db, es: seq<Event>, out: Outpoint -> Output)
    requires AllWellformed(es, out) && Pending(db, {}, out)
    ensures Pending(AfterEvents(db, es, out), Unconfirmed(es, out), out)
    decreases |es|
  {
    if |es| > 0 {
      var n := |es| - 1;
      RunsKeepPending(db, es[..n], out);
      var before, live := AfterEvents(db, es[..n], out), Unconfirmed(es[..n], out);
      if es[n].Arrives? {
        ArrivalEffect(before, live, out, es[n].tx);
      } else {
        ConfirmationEffect(before, live, out, es[n].txs, es[n].save);
      }
    }
  }
}
