/**
 * Order independence of the validator: any order of an acyclic batch that puts parents first, the
 * one of the topological sort among them, leaves the same valid set, and that set is validity
 * defined by recursion on ancestors.
 */
module SlpOrder {
  import opened Transactions
  import opened SlpValidator
  import opened SlpSupply
  import opened SlpBaton
  import opened Topology

  ghost predicate GoodBatch(batch: map<Txid, Transaction>) {
    forall x :: x in batch ==> batch[x].txid == x && Sized(batch[x])
  }

  // ----- Validity by recursion on ancestors -----

  /** A parent in the batch that is genuine and of the same token. */
  ghost predicate GenuineParent(batch: map<Txid, Transaction>, rank: Txid -> nat, tx: Transaction, o: Outpoint, bound: nat)
    requires Ranked(batch, rank)
    decreases bound, 0
  {
    o.txid in batch && rank(o.txid) < bound && Genuine(batch, rank, o.txid) && SameToken(tx, batch[o.txid])
  }

  ghost function ParentSum(batch: map<Txid, Transaction>, rank: Txid -> nat, tx: Transaction, inputs: seq<Outpoint>, bound: nat): nat
    requires Ranked(batch, rank)
    decreases bound, 1, |inputs|
  {
    if |inputs| == 0 then 0
    else
      var o := inputs[|inputs| - 1];
      ParentSum(batch, rank, tx, inputs[..|inputs| - 1], bound)
      + if GenuineParent(batch, rank, tx, o, bound) then Carried(batch[o.txid], o.vout) else 0
  }

  /**
   * A SEND is genuine if its genuine parents of the token bring enough; a MINT if it spends the baton
   * of a genuine parent; a GENESIS always, except that an NFT child must burn a unit of a genuine group.
   */
  ghost predicate Genuine(batch: map<Txid, Transaction>, rank: Txid -> nat, x: Txid)
    requires Ranked(batch, rank) && x in batch
    decreases rank(x), 2
  {
    var tx := batch[x];
    match tx.slp.action
    case Invalid => false
    case Send(amounts) => SumAmounts(amounts) <= ParentSum(batch, rank, tx, tx.inputs, rank(x))
    case Mint(_, _) => exists k :: 0 <= k < |tx.inputs| && GenuineBaton(batch, rank, tx, tx.inputs[k], rank(x))
    case Genesis(_, _, _, _, _, _, _) =>
      tx.slp.tokenType == 0x41 ==>
        && |tx.inputs| > 0
        && var o := tx.inputs[0];
           && o.txid in batch && rank(o.txid) < rank(x) && Genuine(batch, rank, o.txid)
           && batch[o.txid].slp.tokenType == 0x81
           && Carried(batch[o.txid], o.vout) >= 1
  }

  ghost predicate GenuineBaton(batch: map<Txid, Transaction>, rank: Txid -> nat, tx: Transaction, o: Outpoint, bound: nat)
    requires Ranked(batch, rank)
    decreases bound, 1, 0
  {
    && GenuineParent(batch, rank, tx, o, bound)
    && Issues(batch[o.txid]) && o == Baton(batch[o.txid])
  }

  // ----- The state in the middle of a parents-first run -----

  /** Exactly the first `i` transactions of the order have been decided, and rightly so. */
  ghost predicate Decided(s: State, batch: map<Txid, Transaction>, rank: Txid -> nat, done: set<Txid>)
    requires Ranked(batch, rank)
  {
    && (forall x :: x in s.txs ==> x in batch && s.txs[x] == batch[x])
    && s.valid <= s.txs.Keys
    && (forall x :: x in s.valid <==> x in done && x in batch && Genuine(batch, rank, x))
  }

  /** Every parent of `tx` in the batch has been decided. */
  ghost predicate ParentsDone(batch: map<Txid, Transaction>, tx: Transaction, done: set<Txid>) {
    forall k :: 0 <= k < |tx.inputs| && tx.inputs[k].txid in batch ==> tx.inputs[k].txid in done
  }

  lemma CountedIsGenuine(s: State, batch: map<Txid, Transaction>, rank: Txid -> nat, done: set<Txid>, x: Txid, k: nat)
    requires Ranked(batch, rank) && Decided(s, batch, rank, done)
    requires x in batch && ParentsDone(batch, batch[x], done) && k < |batch[x].inputs|
    ensures Counted(s, batch[x], batch[x].inputs[k]) <==> GenuineParent(batch, rank, batch[x], batch[x].inputs[k], rank(x))
    ensures batch[x].inputs[k].txid in s.txs ==> s.txs[batch[x].inputs[k].txid] == batch[batch[x].inputs[k].txid]
  {
  }

  lemma {:induction false} SumsAgree(s: State, batch: map<Txid, Transaction>, rank: Txid -> nat, done: set<Txid>, x: Txid, n: nat)
    requires Ranked(batch, rank) && Decided(s, batch, rank, done)
    requires x in batch && ParentsDone(batch, batch[x], done) && n <= |batch[x].inputs|
    ensures InputSum(s, batch[x], batch[x].inputs[..n]) == ParentSum(batch, rank, batch[x], batch[x].inputs[..n], rank(x))
    decreases n
  {
    if n > 0 {
      SumsAgree(s, batch, rank, done, x, n - 1);
      CountedIsGenuine(s, batch, rank, done, x, n - 1);
      assert batch[x].inputs[..n][..n - 1] == batch[x].inputs[..n - 1];
    }
  }

  lemma {:induction false} WalkAllFinds(s: State, front: Transaction, backs: seq<Transaction>, i: nat)
    requires i < |backs| && WalkMintsHome(s, front, backs[i]) != []
    ensures WalkAll(s, front, backs) != []
    decreases |backs|
  {
    if i < |backs| - 1 {
      WalkAllFinds(s, front, backs[..|backs| - 1], i);
    }
  }

  /** A valid MINT still has a baton parent when it is walked through from a child. */
  lemma MintParentHasParent(s: State, batch: map<Txid, Transaction>, rank: Txid -> nat, done: set<Txid>, tx: Transaction, p: Txid)
    requires Ranked(batch, rank) && Decided(s, batch, rank, done)
    requires p in s.valid && batch[p].slp.action.Mint? && SameToken(tx, batch[p]) && ParentsDone(batch, batch[p], done)
    ensures WalkMintsHome(s, tx, batch[p]) != []
  {
    assert Genuine(batch, rank, p);
    var k :| 0 <= k < |batch[p].inputs| && GenuineBaton(batch, rank, batch[p], batch[p].inputs[k], rank(p));
    CountedIsGenuine(s, batch, rank, done, p, k);
    assert SpendsBaton(s, tx, batch[p].inputs[k]);
    ParentsFound(s, tx, batch[p].inputs);
  }

  /** Without a throw, a MINT is accepted exactly when it spends a baton of a genuine parent. */
  lemma MintAgrees(s: State, batch: map<Txid, Transaction>, rank: Txid -> nat, done: set<Txid>, x: Txid)
    requires Ranked(batch, rank) && Decided(s, batch, rank, done)
    requires x in batch && batch[x].slp.action.Mint? && ParentsDone(batch, batch[x], done)
    requires forall y :: y in done && y in batch ==> ParentsDone(batch, batch[y], done)
    requires MintVerdict(s, batch[x]) != Thrown
    ensures MintVerdict(s, batch[x]) == Accepted <==> Genuine(batch, rank, x)
  {
    var tx := batch[x];
    var home := WalkMintsHome(s, tx, tx);
    ParentsFound(s, tx, tx.inputs);
    forall k | 0 <= k < |tx.inputs|
      ensures SpendsBaton(s, tx, tx.inputs[k]) <==> GenuineBaton(batch, rank, tx, tx.inputs[k], rank(x))
    {
      CountedIsGenuine(s, batch, rank, done, x, k);
    }
    if home == [] {
      assert WalkAll(s, tx, home) == [];
    } else if !HasGenesis(home) {
      var k := BatonParentOf(s, tx, tx.inputs, 0);
      var p := tx.inputs[k].txid;
      CountedIsGenuine(s, batch, rank, done, x, k);
      assert home[0] == batch[p] && !home[0].slp.action.Genesis?;
      MintParentHasParent(s, batch, rank, done, tx, p);
      WalkAllFinds(s, tx, home, 0);
    }
  }

  lemma CheckAgrees(s: State, batch: map<Txid, Transaction>, rank: Txid -> nat, done: set<Txid>, x: Txid)
    requires Ranked(batch, rank) && Decided(s, batch, rank, done)
    requires x in batch && ParentsDone(batch, batch[x], done)
    requires forall y :: y in done && y in batch ==> ParentsDone(batch, batch[y], done)
    requires Check(s, batch[x]) != Thrown
    ensures Check(s, batch[x]) == Accepted <==> Genuine(batch, rank, x)
  {
    var tx := batch[x];
    match tx.slp.action
    case Invalid =>
    case Send(_) =>
      SumsAgree(s, batch, rank, done, x, |tx.inputs|);
      assert tx.inputs[..|tx.inputs|] == tx.inputs;
    case Mint(_, _) =>
      MintAgrees(s, batch, rank, done, x);
    case Genesis(_, _, _, _, _, _, _) =>
      if tx.slp.tokenType == 0x41 && |tx.inputs| > 0 {
        CountedIsGenuine(s, batch, rank, done, x, 0);
      }
  }

  // ----- The whole run -----

  ghost predicate NoThrow(order: seq<Transaction>) {
    forall i :: 0 <= i < |order| ==> StepResult(Run(order[..i]), order[i]) != Threw
  }

  lemma ParentsInPrefix(order: seq<Transaction>, batch: map<Txid, Transaction>, i: nat)
    requires Distinct(order, batch) && ParentsFirst(order, batch) && i < |order|
    ensures ParentsDone(batch, order[i], Ids(order[..i]))
    ensures forall y :: y in Ids(order[..i]) && y in batch ==> ParentsDone(batch, batch[y], Ids(order[..i]))
  {
    forall y | y in Ids(order[..i]) && y in batch
      ensures ParentsDone(batch, batch[y], Ids(order[..i]))
    {
      var j :| 0 <= j < i && order[..i][j].txid == y;
      assert order[j] == batch[y];
      forall k | 0 <= k < |batch[y].inputs| && batch[y].inputs[k].txid in batch
        ensures batch[y].inputs[k].txid in Ids(order[..i])
      {
        assert order[j].inputs[k].txid in Ids(order[..j]);
        assert forall m :: 0 <= m < j ==> order[..j][m] == order[..i][m];
      }
    }
  }

  lemma StepDecides(s: State, batch: map<Txid, Transaction>, rank: Txid -> nat, done: set<Txid>, x: Txid)
    requires Ranked(batch, rank) && Decided(s, batch, rank, done) && GoodBatch(batch)
    requires x in batch && x !in done && ParentsDone(batch, batch[x], done)
    requires forall y :: y in done && y in batch ==> ParentsDone(batch, batch[y], done)
    requires StepResult(s, batch[x]) != Threw
    ensures Decided(Step(s, batch[x]), batch, rank, done + {x})
  {
    var tx := batch[x];
    if !tx.slp.action.Invalid? {
      var s1 := Insert(s, tx);
      assert s1.txs[x] == tx;
      assert Decided(s1, batch, rank, done);
      CheckAgrees(s1, batch, rank, done, x);
    }
  }

  lemma {:induction false} PrefixDecided(order: seq<Transaction>, batch: map<Txid, Transaction>, rank: Txid -> nat, i: nat)
    requires Ranked(batch, rank) && GoodBatch(batch)
    requires Distinct(order, batch) && ParentsFirst(order, batch) && NoThrow(order) && i <= |order|
    ensures Decided(Run(order[..i]), batch, rank, Ids(order[..i]))
    decreases i
  {
    if i > 0 {
      PrefixDecided(order, batch, rank, i - 1);
      var before := order[..i - 1];
      assert order[..i] == before + [order[i - 1]];
      assert order[..i][..i - 1] == before;
      IdsPush(before, order[i - 1]);
      ParentsInPrefix(order, batch, i - 1);
      assert order[i - 1].txid !in Ids(before);
      StepDecides(Run(before), batch, rank, Ids(before), order[i - 1].txid);
    }
  }

  /** Every parents-first order of the batch leaves exactly the genuine transactions valid. */
  lemma ValidIsGenuine(order: seq<Transaction>, batch: map<Txid, Transaction>, rank: Txid -> nat)
    requires Ranked(batch, rank) && GoodBatch(batch)
    requires Distinct(order, batch) && Ids(order) == batch.Keys && ParentsFirst(order, batch) && NoThrow(order)
    ensures Run(order).valid == set x | x in batch && Genuine(batch, rank, x)
  {
    PrefixDecided(order, batch, rank, |order|);
    assert order[..|order|] == order;
  }

  /** Two parents-first orders of a batch give the same valid set. */
  lemma OrderIndependent(order1: seq<Transaction>, order2: seq<Transaction>, batch: map<Txid, Transaction>)
    requires Acyclic(batch) && GoodBatch(batch)
    requires Distinct(order1, batch) && Ids(order1) == batch.Keys && ParentsFirst(order1, batch) && NoThrow(order1)
    requires Distinct(order2, batch) && Ids(order2) == batch.Keys && ParentsFirst(order2, batch) && NoThrow(order2)
    ensures Run(order1).valid == Run(order2).valid
  {
    var rank :| Ranked(batch, rank);
    ValidIsGenuine(order1, batch, rank);
    ValidIsGenuine(order2, batch, rank);
  }

  /** A run over a batch knows only transactions of the batch. */
  lemma {:induction false} RunStaysInBatch(order: seq<Transaction>, batch: map<Txid, Transaction>)
    requires Distinct(order, batch) && GoodBatch(batch)
    ensures forall x :: x in Run(order).txs ==> x in batch && Run(order).txs[x] == batch[x]
    decreases |order|
  {
    if |order| > 0 {
      RunStaysInBatch(order[..|order| - 1], batch);
    }
  }

  /** With honest transactions nothing throws, so the premise of order independence holds. */
  lemma HonestNeverThrows(order: seq<Transaction>, batch: map<Txid, Transaction>)
    requires Distinct(order, batch) && GoodBatch(batch) && Honest(batch)
    ensures NoThrow(order)
  {
    RunStaysInBatch(order, batch);
    forall i | 0 <= i < |order|
      ensures StepResult(Run(order[..i]), order[i]) != Threw
    {
      NeverThrows(order, i);
    }
  }

  /** Sorting a batch and feeding it to a fresh validator decides every transaction of it. */
  method ValidateBatch(txs: seq<Transaction>) returns (valid: set<Txid>)
    requires Acyclic(Batch(txs)) && Honest(Batch(txs)) && forall i :: 0 <= i < |txs| ==> Sized(txs[i])
    ensures forall rank: Txid -> nat :: Ranked(Batch(txs), rank) ==>
              valid == set x | x in Batch(txs) && Genuine(Batch(txs), rank, x)
  {
    BatchFacts(txs);
    BatchMembers(txs);
    var order := TopologicalSort(txs);
    HonestNeverThrows(order, Batch(txs));
    valid := Feed(order);
    forall rank: Txid -> nat | Ranked(Batch(txs), rank)
      ensures valid == set x | x in Batch(txs) && Genuine(Batch(txs), rank, x)
    {
      ValidIsGenuine(order, Batch(txs), rank);
    }
  }

  /** A fresh validator, given the transactions in order. */
  method Feed(order: seq<Transaction>) returns (valid: set<Txid>)
    requires AllSized(order)
    ensures valid == Run(order).valid
  {
    var v := new Validator();
    for i := 0 to |order|
      invariant v.Valid() && v.Abstract() == Run(order[..i])
    {
      assert order[..i + 1][..i] == order[..i];
      var _ := v.AddTx(order[i]);
    }
    assert order[..|order|] == order;
    valid := v.valid;
  }

  lemma {:induction false} BatchMembers(txs: seq<Transaction>)
    requires forall i :: 0 <= i < |txs| ==> Sized(txs[i])
    ensures GoodBatch(Batch(txs))
    decreases |txs|
  {
    if |txs| > 0 {
      BatchMembers(txs[..|txs| - 1]);
    }
  }
}
