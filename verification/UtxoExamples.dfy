/**
 * Runs of the output index at which something that one might expect fails; the exact conditions are in
 * `UtxoRollback` and `UtxoBalance`.
 */
module UtxoExamples {
  import opened Transactions
  import opened Utxo
  import opened UtxoLaws
  import opened UtxoBalance
  import opened UtxoRollback
  import Mempool = UtxoMempool
  import Queries = UtxoQueries

  const EMPTY := Db(0, map[], map[], map[], map[], {}, [], [])
  const PAID := Outpoint(1, 1)

  /** A transaction that pays 546 to a script, and one that spends it. */
  const PAYMENT := Transaction(1, 1, 0, [], [Output(1, 0, 0, [0x6A]), Output(1, 1, 546, [0x51])], SlpMessage(9, 1, Send([7])), [])
  const SPENDER := Transaction(2, 1, 0, [PAID], [Output(2, 0, 0, [0x6A])], SlpMessage(9, 1, Send([7])), [])

  function Named(k: Outpoint): Output {
    if k == PAID then Output(1, 1, 546, [0x51]) else Output(k.txid, k.vout, 0, [])
  }

  lemma PaymentOutputs()
    ensures HasSlpOutputs(PAYMENT) && SlpOutputs(PAYMENT) == [Named(PAID)] && AllAgree(SlpOutputs(PAYMENT), Named)
    ensures KeySet(SlpOutputs(PAYMENT)) == {PAID} && InSet(PAYMENT.inputs) == {}
  {
    var outs := SlpOutputs(PAYMENT);
    assert outs == PAYMENT.outputs[1..] == [Named(PAID)];
    assert outs[0].AsOutpoint() == PAID;
  }

  lemma OneTransaction(tx: Transaction)
    requires HasSlpOutputs(tx)
    ensures BlockReadable([tx]) && BlockOutputs([tx]) == SlpOutputs(tx) && BlockInputs([tx]) == tx.inputs
  {
    assert [tx][..0] == [];
    assert BlockOutputs([tx]) == [] + SlpOutputs(tx);
    assert BlockInputs([tx]) == [] + tx.inputs;
  }

  lemma Payment()
    ensures HasSlpOutputs(PAYMENT) && SlpOutputs(PAYMENT) == [Named(PAID)] && AllAgree(SlpOutputs(PAYMENT), Named)
    ensures KeySet(SlpOutputs(PAYMENT)) == {PAID} && InSet(PAYMENT.inputs) == {}
    ensures BlockReadable([PAYMENT]) && BlockOutputs([PAYMENT]) == SlpOutputs(PAYMENT) && BlockInputs([PAYMENT]) == []
    ensures Fresh([PAYMENT]) == {PAID} && Spent([PAYMENT]) == {}
    ensures Layers(EMPTY, {}, {}, Named)
  {
    PaymentOutputs();
    OneTransaction(PAYMENT);
  }

  /** An ordinary SEND: the message, its token output and the change, all to one script. */
  const SPLIT := Transaction(1, 1, 0, [], [Output(1, 0, 0, [0x6A]), Output(1, 1, 546, [0x51]), Output(1, 2, 10000, [0x51])],
                             SlpMessage(9, 1, Send([7])), [])

  lemma Split()
    ensures HasSlpOutputs(SPLIT) && SlpOutputs(SPLIT) == [Named(PAID)] && AllAgree(SlpOutputs(SPLIT), Named)
    ensures BlockReadable([SPLIT]) && AllAgree(BlockOutputs([SPLIT]), Named) && Fresh([SPLIT]) == {PAID} && Spent([SPLIT]) == {}
  {
    SplitOutputs();
    OneTransaction(SPLIT);
    OneKey(Named(PAID));
  }

  lemma SplitOutputs()
    ensures HasSlpOutputs(SPLIT) && SlpOutputs(SPLIT) == [Named(PAID)]
  {
    SlpOutputCount(SPLIT);
    PlaceOf(SPLIT, 0);
    assert Named(PAID) == SPLIT.outputs[1];
    assert |SlpOutputs(SPLIT)| == 1 && SlpOutputs(SPLIT)[0] == Named(PAID);
  }

  lemma OneKey(o: Output)
    requires !o.IsOpReturn()
    ensures KeySet([o]) == {o.AsOutpoint()}
  {
    assert [o][0] == o;
  }

  /** Its block adds the token output alone, and that is the balance. */
  lemma SendWithChange()
    ensures BlockReadable([SPLIT])
    ensures
      var db := AfterBlock(EMPTY, [SPLIT], false);
      db.outpoints.Keys == {PAID} && Queries.Total(Queries.Confirmed(db, [0x51])) == 546 && Queries.Pending(db, [0x51]) == map[]
  {
    var db := SplitBlock();
    SplitBalance(db);
  }

  lemma SplitBlock() returns (db: Db)
    ensures BlockReadable([SPLIT]) && db == AfterBlock(EMPTY, [SPLIT], false)
    ensures Layers(db, {PAID}, {} - {PAID} - {}, Named) && db.memSpent == {} && db.outpoints.Keys == {PAID}
  {
    Split();
    assert Layers(EMPTY, {}, {}, Named);
    db := AfterBlock(EMPTY, [SPLIT], false);
    assert LiveAfter({}, [SPLIT]) == {PAID} && LiveAfter(EMPTY.outpoints.Keys, [SPLIT]) == {PAID};
    BlockLayers(EMPTY, {}, {}, Named, [SPLIT], false);
    BlockMarksBound(EMPTY, {}, Named, [SPLIT], false);
    BlockEffect(EMPTY, {}, Named, [SPLIT], false);
  }

  lemma SplitBalance(db: Db)
    requires Layers(db, {PAID}, {} - {PAID} - {}, Named) && db.memSpent == {}
    ensures Queries.Total(Queries.Confirmed(db, [0x51])) == 546 && Queries.Pending(db, [0x51]) == map[]
  {
    ConfirmedOf(db, {PAID}, Named, [0x51]);
    PendingOf(db, {} - {PAID} - {}, Named, [0x51]);
    var c := Queries.Confirmed(db, [0x51]);
    assert c == map[PAID := Named(PAID)];
    Queries.TotalTake(c, PAID);
    assert c - {PAID} == map[];
  }

  /** The payment arrives after its own block: its output is confirmed and pending, and counted twice. */
  lemma CountedTwice()
    ensures HasSlpOutputs(PAYMENT) && BlockReadable([PAYMENT])
    ensures
      var db := AfterMempoolTx(AfterBlock(EMPTY, [PAYMENT], false), PAYMENT);
      PAID in Queries.Confirmed(db, [0x51]) && PAID in Queries.Pending(db, [0x51])
  {
    Payment();
    var confirmed := AfterBlock(EMPTY, [PAYMENT], false);
    BlockLayers(EMPTY, {}, {}, Named, [PAYMENT], false);
    BlockMarksBound(EMPTY, {}, Named, [PAYMENT], false);
    var live := LiveAfter({}, [PAYMENT]);
    assert live == {PAID};
    ArrivalLayers(confirmed, live, {} - {PAID} - {}, Named, PAYMENT);
    Mempool.ArrivalMarks(confirmed, PAYMENT);
    var db := AfterMempoolTx(confirmed, PAYMENT);
    ConfirmedOf(db, live, Named, [0x51]);
    PendingOf(db, PendingAfter({} - {PAID} - {}, PAYMENT), Named, [0x51]);
  }

  lemma Spender()
    ensures HasSlpOutputs(SPENDER) && SlpOutputs(SPENDER) == [] && AllAgree(SlpOutputs(SPENDER), Named)
    ensures PAID in InSet(SPENDER.inputs) && PAID !in KeySet(SlpOutputs(SPENDER))
  {
    assert SPENDER.inputs[0] == PAID;
  }

  lemma TwoArrivals(db: Db, a: Transaction, b: Transaction)
    requires HasSlpOutputs(a) && HasSlpOutputs(b) && AllAgree(SlpOutputs(a), Named) && AllAgree(SlpOutputs(b), Named)
    ensures
      var es := [Mempool.Arrives(a), Mempool.Arrives(b)];
      Mempool.AllWellformed(es, Named) && Mempool.AfterEvents(db, es, Named) == AfterMempoolTx(AfterMempoolTx(db, a), b)
  {
    var es := [Mempool.Arrives(a), Mempool.Arrives(b)];
    assert es[..1] == [es[0]] && [es[0]][..0] == [];
    assert Mempool.AfterEvents(db, [es[0]], Named) == AfterMempoolTx(db, a);
  }

  /** Payment and spender arrive, then the payment is confirmed: its output is counted again. */
  lemma CountedThoughSpent()
    ensures HasSlpOutputs(PAYMENT) && HasSlpOutputs(SPENDER) && BlockReadable([PAYMENT])
    ensures
      var db := AfterBlock(AfterMempoolTx(AfterMempoolTx(EMPTY, PAYMENT), SPENDER), [PAYMENT], false);
      PAID in SPENDER.inputs && PAID in Queries.Confirmed(db, [0x51])
  {
    Payment();
    Spender();
    var arrived := AfterMempoolTx(AfterMempoolTx(EMPTY, PAYMENT), SPENDER);
    ArrivalLayers(EMPTY, {}, {}, Named, PAYMENT);
    ArrivalLayers(AfterMempoolTx(EMPTY, PAYMENT), {}, PendingAfter({}, PAYMENT), Named, SPENDER);
    SpentYetCounted(arrived, {}, PendingAfter(PendingAfter({}, PAYMENT), SPENDER), [PAYMENT], false, [], Named, PAID);
  }

  /** The payment is confirmed and arrives again, then the spender arrives: no mark is set. */
  lemma CountedThoughSpentLater()
    ensures HasSlpOutputs(PAYMENT) && HasSlpOutputs(SPENDER) && BlockReadable([PAYMENT])
    ensures
      var db := AfterMempoolTx(AfterMempoolTx(AfterBlock(EMPTY, [PAYMENT], false), PAYMENT), SPENDER);
      PAID in SPENDER.inputs && PAID in Queries.Confirmed(db, [0x51])
  {
    Payment();
    Spender();
    var es := [Mempool.Arrives(PAYMENT), Mempool.Arrives(SPENDER)];
    TwoArrivals(AfterBlock(EMPTY, [PAYMENT], false), PAYMENT, SPENDER);
    SpentYetCounted(EMPTY, {}, {}, [PAYMENT], false, es, Named, PAID);
    assert !SpendsIt(es[0], PAID);
    assert Creates(es[..2][0], Named, PAID);
  }

  /** The spender arrives before the payment: the output is pending although it is spent. */
  lemma PendingThoughSpent()
    ensures HasSlpOutputs(PAYMENT) && HasSlpOutputs(SPENDER)
    ensures
      var db := AfterMempoolTx(AfterMempoolTx(EMPTY, SPENDER), PAYMENT);
      PAID in SPENDER.inputs && PAID in Queries.Pending(db, [0x51])
  {
    Payment();
    Spender();
    var es := [Mempool.Arrives(SPENDER), Mempool.Arrives(PAYMENT)];
    TwoArrivals(EMPTY, SPENDER, PAYMENT);
    SpentYetPending(EMPTY, {}, {}, es, Named, PAID);
    assert Creates(es[1], Named, PAID) && LeftAlone(es, 1, Named, PAID);
  }

  /** A block and its rollback: the address index is empty again, but the output map keeps the payment. */
  lemma RollbackKeepsOutput()
    ensures BlockReadable([PAYMENT])
    ensures
      var back := AfterRollback(AfterBlock(EMPTY, [PAYMENT], true));
      back.index == EMPTY.index && back.outpoints != EMPTY.outpoints
  {
    Payment();
    RollbackUndoesBlock(EMPTY, {}, Named, [PAYMENT]);
  }

  /** A block that comes twice: its rollback takes away what the first one confirmed. */
  lemma RollbackOfRepeatedBlock()
    ensures BlockReadable([PAYMENT])
    ensures
      var once := AfterBlock(EMPTY, [PAYMENT], true);
      AfterRollback(AfterBlock(once, [PAYMENT], true)).index != once.index
  {
    Payment();
    var once := AfterBlock(EMPTY, [PAYMENT], true);
    BlockEffect(EMPTY, {}, Named, [PAYMENT], true);
    BlockRecord(EMPTY, {}, Named, [PAYMENT]);
    assert PAID in LiveAfter({}, [PAYMENT]);
    RollbackUndoesBlock(once, LiveAfter({}, [PAYMENT]), Named, [PAYMENT]);
  }
}
