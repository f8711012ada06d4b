/**
 * Rollbacks of blocks (`utxodb::rollback`, src/utxodb.cpp): they undo blocks on the address index,
 * ten deep, in any interleaving with new blocks. They do not undo them on the output map.
 */
module UtxoRollback {
  import opened Transactions
  import opened Utxo
  import opened UtxoLaws
  import Mempool = UtxoMempool

  ghost function OutKeys(os: seq<Output>): set<Outpoint> {
    set i | 0 <= i < |os| :: os[i].AsOutpoint()
  }

  lemma OutKeysSplit(os: seq<Output>)
    requires |os| > 0
    ensures OutKeys(os) == OutKeys(os[..|os| - 1]) + {os[|os| - 1].AsOutpoint()}
  {
    var n := |os| - 1;
    assert forall i :: 0 <= i < n ==> os[..n][i] == os[i];
  }

  lemma OutKeysConcat(a: seq<Output>, b: seq<Output>)
    ensures OutKeys(a + b) == OutKeys(a) + OutKeys(b)
  {
    var c := a + b;
    assert forall i :: 0 <= i < |a| ==> c[i] == a[i];
    assert forall i :: 0 <= i < |b| ==> c[|a| + i] == b[i];
  }

  // ----- One rollback -----

  lemma RestoreInv(db: Db, live: set<Outpoint>, out: Outpoint -> Output, o: Output)
    requires Inv(db, live, out) && o == out(o.AsOutpoint())
    ensures Inv(Restore(db, o), live + {o.AsOutpoint()}, out)
  {
    GroupsInsert(db.index, live, out, o.AsOutpoint());
  }

  lemma {:induction false} RestoreAllInv(db: Db, live: set<Outpoint>, out: Outpoint -> Output, os: seq<Output>)
    requires Inv(db, live, out) && AllAgree(os, out)
    ensures Inv(RestoreAll(db, os), live + OutKeys(os), out)
    decreases |os|
  {
    if |os| == 0 {
      assert live + OutKeys(os) == live;
    } else {
      var n := |os| - 1;
      var front, k, before := os[..n], os[n].AsOutpoint(), RestoreAll(db, os[..n]);
      assert Inv(before, live + OutKeys(front), out) by {
        RestoreAllInv(db, live, out, front);
      }
      assert live + OutKeys(os) == live + OutKeys(front) + {k} by { OutKeysSplit(os); }
      RestoreInv(before, live + OutKeys(front), out, os[n]);
    }
  }

  lemma {:induction false} RestoreAllKeys(db: Db, os: seq<Output>)
    ensures RestoreAll(db, os).outpoints.Keys == db.outpoints.Keys + OutKeys(os)
    ensures RestoreAll(db, os).removed == db.removed && RestoreAll(db, os).added == db.added
    decreases |os|
  {
    if |os| > 0 {
      RestoreAllKeys(db, os[..|os| - 1]);
      OutKeysSplit(os);
    }
  }

  lemma {:induction false} RetractAllInv(db: Db, live: set<Outpoint>, out: Outpoint -> Output, ms: seq<Outpoint>)
    requires Inv(db, live, out)
    ensures Inv(RetractAll(db, ms), live - InSet(ms), out)
    ensures RetractAll(db, ms) == db.(index := RetractAll(db, ms).index)
    decreases |ms|
  {
    if |ms| == 0 {
      assert live - InSet(ms) == live;
    } else {
      var n := |ms| - 1;
      var front, m, before := ms[..n], ms[n], RetractAll(db, ms[..n]);
      RetractAllInv(db, live, out, front);
      assert live - InSet(ms) == live - InSet(front) - {m} by { InSetSplit(ms); }
      if m in before.outpoints {
        GroupsErase(before.index, live - InSet(front), out, m);
      } else {
        assert live - InSet(front) - {m} == live - InSet(front);
      }
    }
  }

  /** The indexed outpoints after a rollback of the given block record. */
  ghost function Undone(live: set<Outpoint>, removed: seq<Output>, added: seq<Outpoint>): set<Outpoint> {
    live + OutKeys(removed) - InSet(added)
  }

  lemma RollbackEffect(db: Db, live: set<Outpoint>, out: Outpoint -> Output)
    requires Inv(db, live, out) && |db.removed| == |db.added| > 0 && AllAgree(db.removed[|db.removed| - 1], out)
    ensures
      var n := |db.added| - 1;
      var back := AfterRollback(db);
      && Inv(back, Undone(live, db.removed[n], db.added[n]), out)
      && back.outpoints.Keys == db.outpoints.Keys + OutKeys(db.removed[n])
      && back.removed == db.removed[..n] && back.added == db.added[..n]
  {
    var n := |db.added| - 1;
    var popped := db.(removed := db.removed[..n], added := db.added[..n]);
    RestoreAllInv(popped, live, out, db.removed[n]);
    RestoreAllKeys(popped, db.removed[n]);
    RetractAllInv(RestoreAll(popped, db.removed[n]), live + OutKeys(db.removed[n]), out, db.added[n]);
  }

  // ----- What a block records -----

  lemma {:induction false} RemovedAgree(db: Db, live: set<Outpoint>, out: Outpoint -> Output, ins: seq<Outpoint>)
    requires Inv(db, live, out)
    ensures AllAgree(RemovedAll(db, ins), out)
    decreases |ins|
  {
    if |ins| > 0 {
      var n := |ins| - 1;
      RemovedAgree(db, live, out, ins[..n]);
      SpendAllInv(db, live, out, ins[..n]);
      RemovedByKeys(SpendAll(db, ins[..n]), out, ins[n]);
    }
  }

  lemma {:induction false} RemovedKeys(db: Db, live: set<Outpoint>, out: Outpoint -> Output, ins: seq<Outpoint>)
    requires Inv(db, live, out)
    ensures OutKeys(RemovedAll(db, ins)) == InSet(ins) * (db.outpoints.Keys + db.memOutpoints.Keys)
    decreases |ins|
  {
    if |ins| > 0 {
      var n := |ins| - 1;
      var front, known := ins[..n], db.outpoints.Keys + db.memOutpoints.Keys;
      RemovedKeys(db, live, out, front);
      RemovedLast(db, live, out, ins);
      InSetSplit(ins);
      SplitKnown(InSet(front), ins[n], known);
    }
  }

  lemma RemovedLast(db: Db, live: set<Outpoint>, out: Outpoint -> Output, ins: seq<Outpoint>)
    requires Inv(db, live, out) && |ins| > 0
    ensures
      var n := |ins| - 1;
      var known := db.outpoints.Keys + db.memOutpoints.Keys;
      OutKeys(RemovedAll(db, ins)) == OutKeys(RemovedAll(db, ins[..n])) + {ins[n]} * (known - InSet(ins[..n]))
  {
    var n := |ins| - 1;
    var before := SpendAll(db, ins[..n]);
    SpendAllInv(db, live, out, ins[..n]);
    RemovedByKeys(before, out, ins[n]);
    OutKeysConcat(RemovedAll(db, ins[..n]), RemovedBy(before, ins[n]));
    assert before.outpoints.Keys + before.memOutpoints.Keys == db.outpoints.Keys + db.memOutpoints.Keys - InSet(ins[..n]);
  }

  lemma SplitKnown(front: set<Outpoint>, m: Outpoint, known: set<Outpoint>)
    ensures front * known + {m} * (known - front) == (front + {m}) * known
  {
  }

  lemma RemovedByKeys(db: Db, out: Outpoint -> Output, m: Outpoint)
    requires Naming(out) && Agrees(db.outpoints, out) && Agrees(db.memOutpoints, out)
    ensures AllAgree(RemovedBy(db, m), out)
    ensures OutKeys(RemovedBy(db, m)) == {m} * (db.outpoints.Keys + db.memOutpoints.Keys)
  {
    var os := RemovedBy(db, m);
    assert forall i :: 0 <= i < |os| ==> os[i] == out(m) && os[i].AsOutpoint() == m;
    if m in db.outpoints.Keys + db.memOutpoints.Keys {
      assert os[0].AsOutpoint() == m;
    }
  }

  /** The outputs that a block takes away. */
  ghost function Gone(db: Db, txs: seq<Transaction>): seq<Output>
    requires BlockReadable(txs)
  {
    RemovedAll(Filled(db, txs), BlockInputs(txs))
  }

  lemma FilledKeys(db: Db, txs: seq<Transaction>)
    requires BlockReadable(txs)
    ensures Filled(db, txs).outpoints.Keys + Filled(db, txs).memOutpoints.Keys == db.outpoints.Keys + Fresh(txs) + db.memOutpoints.Keys
    ensures Filled(db, txs).removed == db.removed && Filled(db, txs).added == db.added
  {
    AddAllKeys(db.(height := db.height + 1), BlockOutputs(txs));
  }

  lemma GoneKeys(db: Db, live: set<Outpoint>, out: Outpoint -> Output, txs: seq<Transaction>)
    requires BlockReadable(txs) && Inv(db, live, out) && AllAgree(BlockOutputs(txs), out)
    ensures AllAgree(Gone(db, txs), out)
    ensures OutKeys(Gone(db, txs)) == Spent(txs) * (db.outpoints.Keys + Fresh(txs) + db.memOutpoints.Keys)
  {
    FilledInv(db, live, out, txs);
    FilledKeys(db, txs);
    RemovedAgree(Filled(db, txs), live + Fresh(txs), out, BlockInputs(txs));
    RemovedKeys(Filled(db, txs), live + Fresh(txs), out, BlockInputs(txs));
  }

  /** The record that a saved block leaves. */
  lemma BlockRecord(db: Db, live: set<Outpoint>, out: Outpoint -> Output, txs: seq<Transaction>)
    requires BlockReadable(txs) && Inv(db, live, out) && AllAgree(BlockOutputs(txs), out)
    ensures AfterBlock(db, txs, true).removed == Push(db.removed, Gone(db, txs))
    ensures AfterBlock(db, txs, true).added == Push(db.added, Keys(BlockOutputs(txs)))
    ensures InSet(Keys(BlockOutputs(txs))) == Fresh(txs)
    ensures |db.removed| <= 10 ==> |AfterBlock(db, txs, true).removed| == if |db.removed| < 10 then |db.removed| + 1 else 10
  {
    BlockHistory(db, txs);
    KeysAreKeySet(BlockOutputs(txs));
  }

  lemma BlockHistory(db: Db, txs: seq<Transaction>)
    requires BlockReadable(txs)
    ensures AfterBlock(db, txs, true).removed == Push(db.removed, Gone(db, txs))
    ensures AfterBlock(db, txs, true).added == Push(db.added, Keys(BlockOutputs(txs)))
  {
    FilledKeys(db, txs);
    SpendAllHistories(Filled(db, txs), BlockInputs(txs));
  }

  /**
   * The block's outputs are new to the index, and it spends no output that is known, to the output map
   * or the mempool, but not indexed.
   */
  ghost predicate Clean(db: Db, live: set<Outpoint>, txs: seq<Transaction>)
    requires BlockReadable(txs)
  {
    && Fresh(txs) !! live
    && Spent(txs) - Fresh(txs) - live !! db.outpoints.Keys + db.memOutpoints.Keys
  }

  lemma UndoneIsBefore(db: Db, live: set<Outpoint>, out: Outpoint -> Output, txs: seq<Transaction>)
    requires BlockReadable(txs) && Inv(db, live, out) && AllAgree(BlockOutputs(txs), out)
    ensures AllAgree(Gone(db, txs), out)
    ensures Undone(LiveAfter(live, txs), Gone(db, txs), Keys(BlockOutputs(txs))) == live <==> Clean(db, live, txs)
  {
    GoneKeys(db, live, out, txs);
    assert InSet(Keys(BlockOutputs(txs))) == Fresh(txs) by { BlockRecord(db, live, out, txs); }
    UndoneSet(live, Fresh(txs), Spent(txs), db.outpoints.Keys, db.memOutpoints.Keys);
  }

  /** The same for sets: what is indexed, new, spent, in the output map and in the mempool. */
  lemma UndoneSet(live: set<Outpoint>, kept: set<Outpoint>, spent: set<Outpoint>, known: set<Outpoint>, mem: set<Outpoint>)
    requires live <= known
    ensures live + kept - spent + spent * (known + kept + mem) - kept == live <==>
            kept !! live && spent - kept - live !! known + mem
  {
    var restored := live + kept - spent + spent * (known + kept + mem) - kept;
    assert restored == live - kept + (spent - kept) * (known + mem);
    if restored == live {
      forall k | k in live ensures k !in kept { assert k in restored; }
      forall k | k in spent - kept - live ensures k !in known + mem { assert k !in restored; }
    }
  }

  /** The grouping determines what is grouped. */
  lemma GroupsDetermine(ix: Index, live1: set<Outpoint>, live2: set<Outpoint>, out: Outpoint -> Output)
    requires Groups(ix, live1, out) && Groups(ix, live2, out)
    ensures live1 == live2
  {
    forall k | k in live1 ensures k in live2 { assert k in ix[out(k).script]; }
    forall k | k in live2 ensures k in live1 { assert k in ix[out(k).script]; }
  }

  /**
   * Exactly when a rollback undoes a block. The output map keeps the block's own outputs, so it is
   * restored only where those were there before.
   */
  lemma RollbackUndoesBlock(db: Db, live: set<Outpoint>, out: Outpoint -> Output, txs: seq<Transaction>)
    requires BlockReadable(txs) && Inv(db, live, out) && AllAgree(BlockOutputs(txs), out) && |db.removed| == |db.added|
    ensures AfterRollback(AfterBlock(db, txs, true)).index == db.index <==> Clean(db, live, txs)
    ensures AfterRollback(AfterBlock(db, txs, true)).outpoints == db.outpoints
       <==> Fresh(txs) + Spent(txs) * db.memOutpoints.Keys <= db.outpoints.Keys
  {
    var back := AfterRollback(AfterBlock(db, txs, true));
    var undone := Undone(LiveAfter(live, txs), Gone(db, txs), Keys(BlockOutputs(txs)));
    BlockThenBack(db, live, out, txs);
    UndoneIsBefore(db, live, out, txs);
    if undone == live {
      GroupsUnique(back.index, db.index, live, out);
    } else if back.index == db.index {
      GroupsDetermine(db.index, undone, live, out);
    }
    MapsByKeys(back.outpoints, db.outpoints, out);
  }

  lemma BlockThenBack(db: Db, live: set<Outpoint>, out: Outpoint -> Output, txs: seq<Transaction>)
    requires BlockReadable(txs) && Inv(db, live, out) && AllAgree(BlockOutputs(txs), out) && |db.removed| == |db.added|
    ensures Inv(AfterRollback(AfterBlock(db, txs, true)), Undone(LiveAfter(live, txs), Gone(db, txs), Keys(BlockOutputs(txs))), out)
    ensures AfterRollback(AfterBlock(db, txs, true)).outpoints.Keys
         == db.outpoints.Keys + Fresh(txs) + Spent(txs) * db.memOutpoints.Keys
  {
    var after := AfterBlock(db, txs, true);
    LastRecord(db, live, out, txs);
    assert AllAgree(Gone(db, txs), out) by { GoneKeys(db, live, out, txs); }
    assert Inv(after, LiveAfter(live, txs), out) by { BlockEffect(db, live, out, txs, true); }
    RollbackEffect(after, LiveAfter(live, txs), out);
    assert after.outpoints.Keys + OutKeys(Gone(db, txs)) == db.outpoints.Keys + Fresh(txs) + Spent(txs) * db.memOutpoints.Keys by {
      GoneKeys(db, live, out, txs);
      BlockEffect(db, live, out, txs, true);
      KnownAgain(db.outpoints.Keys, db.memOutpoints.Keys, Fresh(txs), Spent(txs));
    }
  }

  lemma LastRecord(db: Db, live: set<Outpoint>, out: Outpoint -> Output, txs: seq<Transaction>)
    requires BlockReadable(txs) && Inv(db, live, out) && AllAgree(BlockOutputs(txs), out) && |db.removed| == |db.added|
    ensures
      var after := AfterBlock(db, txs, true);
      && |after.removed| == |after.added| > 0
      && after.removed[|after.removed| - 1] == Gone(db, txs) && after.added[|after.added| - 1] == Keys(BlockOutputs(txs))
  {
    BlockRecord(db, live, out, txs);
  }

  lemma KnownAgain(known: set<Outpoint>, mem: set<Outpoint>, new_: set<Outpoint>, spent: set<Outpoint>)
    ensures known + new_ - spent + spent * (known + new_ + mem) == known + new_ + spent * mem
  {
  }

  lemma MapsByKeys(a: map<Outpoint, Output>, b: map<Outpoint, Output>, out: Outpoint -> Output)
    requires Agrees(a, out) && Agrees(b, out)
    ensures a == b <==> a.Keys == b.Keys
  {
    if a.Keys == b.Keys {
      assert forall k :: k in a ==> a[k] == b[k];
    }
  }

  // ----- Runs of blocks, arrivals and rollbacks -----

  /** The records on top of the two histories lead back through `lives`, newest last. */
  ghost predicate Leads(removed: seq<seq<Output>>, added: seq<seq<Outpoint>>, lives: seq<set<Outpoint>>, out: Outpoint -> Output)
    decreases |lives|
  {
    && |removed| == |added| && 1 <= |lives| <= |removed| + 1
    && (|lives| > 1 ==>
          var n, k := |removed| - 1, |lives| - 1;
          && AllAgree(removed[n], out) && Undone(lives[k], removed[n], added[n]) == lives[k - 1]
          && Leads(removed[..n], added[..n], lives[..k], out))
  }

  /** `lives` is a stack: what is indexed now, on top of what was indexed before each saved block. */
  ghost predicate Undoable(db: Db, lives: seq<set<Outpoint>>, out: Outpoint -> Output) {
    && |db.removed| <= 10
    && Leads(db.removed, db.added, lives, out)
    && Inv(db, lives[|lives| - 1], out)
  }

  /** Forgetting the oldest set. */
  lemma {:induction false} LeadsForget(removed: seq<seq<Output>>, added: seq<seq<Outpoint>>, lives: seq<set<Outpoint>>, out: Outpoint -> Output)
    requires Leads(removed, added, lives, out) && |lives| >= 2
    ensures Leads(removed, added, lives[1..], out)
    decreases |lives|
  {
    if |lives| > 2 {
      var n, k := |removed| - 1, |lives| - 1;
      LeadsForget(removed[..n], added[..n], lives[..k], out);
      assert lives[1..][..k - 1] == lives[..k][1..];
    }
  }

  /** Dropping a record that is older than all of `lives`. */
  lemma {:induction false} LeadsDrop(removed: seq<seq<Output>>, added: seq<seq<Outpoint>>, lives: seq<set<Outpoint>>, out: Outpoint -> Output)
    requires Leads(removed, added, lives, out) && |lives| <= |removed|
    ensures Leads(removed[1..], added[1..], lives, out)
    decreases |lives|
  {
    if |lives| > 1 {
      var n, k := |removed| - 1, |lives| - 1;
      LeadsDrop(removed[..n], added[..n], lives[..k], out);
      assert removed[1..][..n - 1] == removed[..n][1..] && added[1..][..n - 1] == added[..n][1..];
    }
  }

  /** The stack of a run; it is as deep as the histories. */
  ghost function PushLive(lives: seq<set<Outpoint>>, live: set<Outpoint>): seq<set<Outpoint>> {
    var grown := lives + [live];
    if |grown| > 11 then grown[1..] else grown
  }

  lemma LeadsPush(removed: seq<seq<Output>>, added: seq<seq<Outpoint>>, lives: seq<set<Outpoint>>, out: Outpoint -> Output,
                  gone: seq<Output>, new_: seq<Outpoint>, live: set<Outpoint>)
    requires Leads(removed, added, lives, out) && |removed| <= 10
    requires AllAgree(gone, out) && Undone(live, gone, new_) == lives[|lives| - 1]
    ensures Leads(Push(removed, gone), Push(added, new_), PushLive(lives, live), out)
  {
    var r, a, l := removed + [gone], added + [new_], lives + [live];
    assert Leads(r, a, l, out) by {
      assert r[..|removed|] == removed && a[..|added|] == added && l[..|lives|] == lives;
    }
    if |l| > 11 {
      LeadsForget(r, a, l, out);
      LeadsDrop(r, a, l[1..], out);
    } else if |r| > 10 {
      LeadsDrop(r, a, l, out);
    }
  }

  lemma BlockUndoable(db: Db, lives: seq<set<Outpoint>>, out: Outpoint -> Output, txs: seq<Transaction>)
    requires BlockReadable(txs) && Undoable(db, lives, out) && AllAgree(BlockOutputs(txs), out)
    requires Clean(db, lives[|lives| - 1], txs)
    ensures Undoable(AfterBlock(db, txs, true), PushLive(lives, LiveAfter(lives[|lives| - 1], txs)), out)
  {
    var live := lives[|lives| - 1];
    var after, stack := AfterBlock(db, txs, true), PushLive(lives, LiveAfter(live, txs));
    assert Leads(after.removed, after.added, stack, out) by {
      BlockRecord(db, live, out, txs);
      UndoneIsBefore(db, live, out, txs);
      LeadsPush(db.removed, db.added, lives, out, Gone(db, txs), Keys(BlockOutputs(txs)), LiveAfter(live, txs));
    }
    assert |after.removed| <= 10 by { BlockRecord(db, live, out, txs); }
    BlockEffect(db, live, out, txs, true);
  }

  lemma RollbackUndoable(db: Db, lives: seq<set<Outpoint>>, out: Outpoint -> Output)
    requires Undoable(db, lives, out) && |lives| > 1
    ensures Undoable(AfterRollback(db), lives[..|lives| - 1], out)
  {
    RollbackEffect(db, lives[|lives| - 1], out);
  }

  /** An arriving transaction changes the mempool's layer alone. */
  lemma ArrivalUndoable(db: Db, lives: seq<set<Outpoint>>, out: Outpoint -> Output, tx: Transaction)
    requires HasSlpOutputs(tx) && Undoable(db, lives, out) && AllAgree(SlpOutputs(tx), out)
    ensures Undoable(AfterMempoolTx(db, tx), lives, out)
  {
    Mempool.ArrivalConfirmed(db, tx);
    Mempool.ArrivalAgrees(db, out, tx);
  }

  datatype Op = Block(txs: seq<Transaction>) | Arrival(tx: Transaction) | Back

  predicate Readable(op: Op) {
    match op
    case Block(txs) => BlockReadable(txs)
    case Arrival(tx) => HasSlpOutputs(tx)
    case Back => true
  }

  predicate AllReadable(ops: seq<Op>) {
    forall i :: 0 <= i < |ops| ==> Readable(ops[i])
  }

  ghost function After(db: Db, op: Op): Db
    requires Readable(op)
  {
    match op
    case Block(txs) => AfterBlock(db, txs, true)
    case Arrival(tx) => AfterMempoolTx(db, tx)
    case Back => AfterRollback(db)
  }

  ghost function Play(db: Db, ops: seq<Op>): Db
    requires AllReadable(ops)
    decreases |ops|
  {
    if |ops| == 0 then db else Play(After(db, ops[0]), ops[1..])
  }

  /** A block is clean where it is applied, and a rollback does not go below the stack. */
  ghost predicate Fits(db: Db, lives: seq<set<Outpoint>>, out: Outpoint -> Output, op: Op)
    requires |lives| > 0 && Readable(op)
  {
    match op
    case Block(txs) => AllAgree(BlockOutputs(txs), out) && Clean(db, lives[|lives| - 1], txs)
    case Arrival(tx) => AllAgree(SlpOutputs(tx), out)
    case Back => |lives| > 1
  }

  /** What an operation makes of the stack: a block pushes what it makes of the top, a rollback pops. */
  ghost function Stacked(lives: seq<set<Outpoint>>, op: Op): (l: seq<set<Outpoint>>)
    requires |lives| > 0 && Readable(op)
    ensures |l| > 0
  {
    match op
    case Block(txs) => PushLive(lives, LiveAfter(lives[|lives| - 1], txs))
    case Arrival(_) => lives
    case Back => if |lives| > 1 then lives[..|lives| - 1] else lives
  }

  ghost function Stack(lives: seq<set<Outpoint>>, ops: seq<Op>): (l: seq<set<Outpoint>>)
    requires |lives| > 0 && AllReadable(ops)
    ensures |l| > 0
    decreases |ops|
  {
    if |ops| == 0 then lives else Stack(Stacked(lives, ops[0]), ops[1..])
  }

  ghost predicate Sound(db: Db, lives: seq<set<Outpoint>>, out: Outpoint -> Output, ops: seq<Op>)
    requires |lives| > 0 && AllReadable(ops)
    decreases |ops|
  {
    |ops| > 0 ==> Fits(db, lives, out, ops[0]) && Sound(After(db, ops[0]), Stacked(lives, ops[0]), out, ops[1..])
  }

  lemma OpUndoable(db: Db, lives: seq<set<Outpoint>>, out: Outpoint -> Output, op: Op)
    requires Undoable(db, lives, out) && Readable(op) && Fits(db, lives, out, op)
    ensures Undoable(After(db, op), Stacked(lives, op), out)
  {
    match op
    case Block(txs) => BlockUndoable(db, lives, out, txs);
    case Arrival(tx) => ArrivalUndoable(db, lives, out, tx);
    case Back => RollbackUndoable(db, lives, out);
  }

  /**
   * In every run of blocks, arrivals and rollbacks the index groups exactly the top of the stack, the two
   * histories have the same length, and that is at most ten.
   */
  lemma {:induction false} RunsKeepIndex(db: Db, lives: seq<set<Outpoint>>, out: Outpoint -> Output, ops: seq<Op>)
    requires Undoable(db, lives, out) && AllReadable(ops) && Sound(db, lives, out, ops)
    ensures
      var after, stack := Play(db, ops), Stack(lives, ops);
      && Undoable(after, stack, out) && Groups(after.index, stack[|stack| - 1], out)
      && |after.removed| == |after.added| <= 10
    decreases |ops|
  {
    if |ops| > 0 {
      OpUndoable(db, lives, out, ops[0]);
      RunsKeepIndex(After(db, ops[0]), Stacked(lives, ops[0]), out, ops[1..]);
    }
  }

  // ----- What a rollback leaves alone -----

  ghost predicate SameMempool(a: Db, b: Db) {
    a.memOutpoints == b.memOutpoints && a.memIndex == b.memIndex && a.memSpent == b.memSpent && a.height == b.height
  }

  lemma {:induction false} RestoreAllMempool(db: Db, os: seq<Output>)
    ensures SameMempool(RestoreAll(db, os), db)
    decreases |os|
  {
    if |os| > 0 {
      RestoreAllMempool(db, os[..|os| - 1]);
    }
  }

  lemma {:induction false} RetractAllMempool(db: Db, ms: seq<Outpoint>)
    ensures SameMempool(RetractAll(db, ms), db)
    decreases |ms|
  {
    if |ms| > 0 {
      RetractAllMempool(db, ms[..|ms| - 1]);
    }
  }

  /** A rollback leaves the mempool, its marks and the height alone, and without a history everything. */
  lemma RollbackKeepsMempool(db: Db)
    ensures SameMempool(AfterRollback(db), db)
    ensures |db.removed| == 0 || |db.added| == 0 ==> AfterRollback(db) == db
  {
    if |db.removed| > 0 && |db.added| > 0 {
      var popped := db.(removed := db.removed[..|db.removed| - 1], added := db.added[..|db.added| - 1]);
      RestoreAllMempool(popped, db.removed[|db.removed| - 1]);
      RetractAllMempool(RestoreAll(popped, db.removed[|db.removed| - 1]), db.added[|db.added| - 1]);
    }
  }

  /** What an operation makes of the pending outputs: a rollback leaves them. */
  ghost function MempoolAfter(mem: set<Outpoint>, op: Op): set<Outpoint>
    requires Readable(op)
  {
    match op
    case Block(txs) => mem - Fresh(txs) - Spent(txs)
    case Arrival(tx) => mem + KeySet(SlpOutputs(tx)) - InSet(tx.inputs)
    case Back => mem
  }

  ghost function MempoolLeft(mem: set<Outpoint>, ops: seq<Op>): set<Outpoint>
    requires AllReadable(ops)
    decreases |ops|
  {
    if |ops| == 0 then mem else MempoolLeft(MempoolAfter(mem, ops[0]), ops[1..])
  }

  lemma OpPending(db: Db, lives: seq<set<Outpoint>>, mem: set<Outpoint>, out: Outpoint -> Output, op: Op)
    requires Undoable(db, lives, out) && Readable(op) && Fits(db, lives, out, op) && Mempool.Pending(db, mem, out)
    ensures Mempool.Pending(After(db, op), MempoolAfter(mem, op), out)
  {
    match op
    case Block(txs) => Mempool.ConfirmationEffect(db, mem, out, txs, true);
    case Arrival(tx) => Mempool.ArrivalEffect(db, mem, out, tx);
    case Back =>
      RollbackKeepsMempool(db);
      RollbackUndoable(db, lives, out);
  }

  /** In the same runs the mempool's index holds exactly what the blocks and arrivals alone leave pending. */
  lemma {:induction false} RollbacksKeepPending(db: Db, lives: seq<set<Outpoint>>, mem: set<Outpoint>, out: Outpoint -> Output, ops: seq<Op>)
    requires Undoable(db, lives, out) && AllReadable(ops) && Sound(db, lives, out, ops) && Mempool.Pending(db, mem, out)
    ensures Mempool.Pending(Play(db, ops), MempoolLeft(mem, ops), out)
    decreases |ops|
  {
    if |ops| > 0 {
      OpUndoable(db, lives, out, ops[0]);
      OpPending(db, lives, mem, out, ops[0]);
      RollbacksKeepPending(After(db, ops[0]), Stacked(lives, ops[0]), MempoolAfter(mem, ops[0]), out, ops[1..]);
    }
  }

  lemma OpHeight(db: Db, op: Op)
    requires Readable(op)
    ensures After(db, op).height == if op.Block? then db.height + 1 else db.height
  {
    match op
    case Block(txs) => BlockHeight(db, txs, true);
    case Arrival(tx) => Mempool.ArrivalConfirmed(db, tx);
    case Back => RollbackKeepsMempool(db);
  }

  function CountBlocks(ops: seq<Op>): nat
    decreases |ops|
  {
    if |ops| == 0 then 0 else (if ops[0].Block? then 1 else 0) + CountBlocks(ops[1..])
  }

  /** The height counts the blocks of a run; a rollback does not take its block back. */
  lemma {:induction false} HeightCountsBlocks(db: Db, ops: seq<Op>)
    requires AllReadable(ops)
    ensures Play(db, ops).height == db.height + CountBlocks(ops)
    decreases |ops|
  {
    if |ops| > 0 {
      OpHeight(db, ops[0]);
      HeightCountsBlocks(After(db, ops[0]), ops[1..]);
    }
  }

  // ----- Ten blocks back -----

  /** How many blocks are left to roll back, from `depth` on. */
  function Depth(depth: int, ops: seq<Op>): int
    decreases |ops|
  {
    if |ops| == 0 then depth
    else Depth(if ops[0].Block? then depth + 1 else if ops[0].Back? then depth - 1 else depth, ops[1..])
  }

  /** There are never more than ten blocks to roll back, and no rollback without a block. */
  ghost predicate Within(depth: int, ops: seq<Op>) {
    forall i :: 0 <= i <= |ops| ==> 0 <= Depth(depth, ops[..i]) <= 10
  }

  lemma WithinRest(depth: int, ops: seq<Op>)
    requires Within(depth, ops) && |ops| > 0
    ensures 0 <= depth <= 10
    ensures Within(Depth(depth, ops[..1]), ops[1..])
  {
    assert Depth(depth, ops[..0]) == depth;
    assert ops[..1] == [ops[0]];
    forall i | 0 <= i <= |ops[1..]|
      ensures 0 <= Depth(Depth(depth, ops[..1]), ops[1..][..i]) <= 10
    {
      assert ops[..i + 1][1..] == ops[1..][..i];
      assert 0 <= Depth(depth, ops[..i + 1]) <= 10;
    }
  }

  /** Such a run never reaches the bottom of the stack. */
  lemma {:induction false} BottomStays(lives: seq<set<Outpoint>>, ops: seq<Op>)
    requires |lives| > 0 && AllReadable(ops) && Within(|lives| - 1, ops)
    ensures Stack(lives, ops)[0] == lives[0] && |Stack(lives, ops)| == Depth(|lives| - 1, ops) + 1
    decreases |ops|
  {
    if |ops| > 0 {
      BottomStep(lives, ops);
      BottomStays(Stacked(lives, ops[0]), ops[1..]);
    }
  }

  lemma BottomStep(lives: seq<set<Outpoint>>, ops: seq<Op>)
    requires |lives| > 0 && |ops| > 0 && AllReadable(ops) && Within(|lives| - 1, ops)
    ensures
      var next := Stacked(lives, ops[0]);
      next[0] == lives[0] && Within(|next| - 1, ops[1..]) && Depth(|lives| - 1, ops) == Depth(|next| - 1, ops[1..])
  {
    var next := Stacked(lives, ops[0]);
    assert ops[..1] == [ops[0]];
    WithinRest(|lives| - 1, ops);
    assert 0 <= Depth(|lives| - 1, ops[..1]) <= 10;
    assert |next| - 1 == Depth(|lives| - 1, ops[..1]);
  }

  /**
   * A run with as many rollbacks as blocks, and never more than ten blocks to roll back, restores the address
   * index exactly, whatever arrives in the mempool meanwhile.
   */
  lemma RollbacksRestoreIndex(db: Db, live: set<Outpoint>, out: Outpoint -> Output, ops: seq<Op>)
    requires Inv(db, live, out) && |db.removed| == |db.added| <= 10
    requires AllReadable(ops) && Sound(db, [live], out, ops) && Within(0, ops) && Depth(0, ops) == 0
    ensures Play(db, ops).index == db.index
  {
    RunsKeepIndex(db, [live], out, ops);
    BottomStays([live], ops);
    GroupsUnique(Play(db, ops).index, db.index, live, out);
  }
}
