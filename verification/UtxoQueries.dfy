/**
 * Balances by script (`get_balance_by_scriptpubkey`, src/utxodb.cpp). The source walks hash sets, so
 * the walk here takes keys in any order.
 */
module UtxoQueries {
  import opened Transactions
  import opened Utxo
  import opened UtxoLaws

  const WORD64: nat := 0x10000000000000000

  /** The outputs of a group that no mempool transaction spends. */
  function Unspent(group: OutputSet, spent: set<Outpoint>): OutputSet {
    map k | k in group && k !in spent :: group[k]
  }

  /** The unspent confirmed outputs of a script, read off the index. */
  function Confirmed(db: Db, script: Script): OutputSet {
    if script in db.index then Unspent(db.index[script], db.memSpent) else map[]
  }

  function Pending(db: Db, script: Script): OutputSet {
    if script in db.memIndex then db.memIndex[script] else map[]
  }

  /** The same outputs, found by looking at every known output. */
  ghost function Direct(db: Db, script: Script): OutputSet {
    map k | k in db.outpoints && db.outpoints[k].script == script && k !in db.memSpent :: db.outpoints[k]
  }

  /** An exact index answers for the whole output map. */
  lemma ConfirmedIsDirect(db: Db, out: Outpoint -> Output, script: Script)
    requires IndexExact(db, out)
    ensures Confirmed(db, script) == Direct(db, script)
  {
    var c, d := Confirmed(db, script), Direct(db, script);
    forall k | k in d
      ensures k in c
    {
      assert out(k).script == script;
    }
    assert forall k :: k in c ==> k in d && c[k] == d[k];
    assert c.Keys == d.Keys;
  }

  // ----- Sums over sets of outputs -----

  ghost function Total(m: OutputSet): nat
    decreases |m|
  {
    if m == map[] then 0
    else
      var k :| k in m;
      Smaller(m, k);
      m[k].value + Total(m - {k})
  }

  lemma Smaller(m: OutputSet, k: Outpoint)
    requires k in m
    ensures |m - {k}| == |m| - 1
  {
    assert (m - {k}).Keys == m.Keys - {k};
    assert |m.Keys| == |m| && |(m - {k}).Keys| == |m - {k}|;
  }

  /** Any output may be taken out first. */
  lemma {:induction false} TotalTake(m: OutputSet, k: Outpoint)
    requires k in m
    ensures Total(m) == m[k].value + Total(m - {k})
    decreases |m|
  {
    var j :| j in m && Total(m) == m[j].value + Total(m - {j});
    if j != k {
      Smaller(m, j);
      TotalTake(m - {j}, k);
      assert (m - {j}) - {k} == (m - {k}) - {j};
      Smaller(m, k);
      TotalTake(m - {k}, j);
    }
  }

  /** One step of a walk over the unspent part of a group. */
  lemma UnspentTake(rest: OutputSet, spent: set<Outpoint>, k: Outpoint)
    requires k in rest
    ensures k in spent ==> Unspent(rest - {k}, spent) == Unspent(rest, spent)
    ensures k !in spent ==> Unspent(rest - {k}, spent) == Unspent(rest, spent) - {k}
    ensures Total(Unspent(rest, spent)) == (if k in spent then 0 else rest[k].value) + Total(Unspent(rest - {k}, spent))
  {
    if k !in spent {
      TotalTake(Unspent(rest, spent), k);
      assert Unspent(rest - {k}, spent) == Unspent(rest, spent) - {k};
    } else {
      assert Unspent(rest - {k}, spent) == Unspent(rest, spent);
    }
  }

  /** Adds up a set of outputs in 64 bits, leaving out the spent ones. */
  method AddUp(start: nat, group: OutputSet, spent: set<Outpoint>) returns (ret: nat)
    requires start < WORD64
    ensures ret == (start + Total(Unspent(group, spent))) % WORD64
  {
    ret := start;
    var rest := group;
    while rest != map[]
      invariant ret < WORD64
      invariant (ret + Total(Unspent(rest, spent))) % WORD64 == (start + Total(Unspent(group, spent))) % WORD64
      decreases |rest|
    {
      var k :| k in rest;
      UnspentTake(rest, spent, k);
      Smaller(rest, k);
      if k !in spent {
        ModAdd(ret + rest[k].value, Total(Unspent(rest - {k}, spent)));
        ret := (ret + rest[k].value) % WORD64;
      }
      rest := rest - {k};
    }
  }

  lemma ModAdd(a: nat, b: nat)
    ensures (a % WORD64 + b) % WORD64 == (a + b) % WORD64
  {
  }

  /** `get_balance_by_scriptpubkey` */
  method GetBalance(utxodb: UtxoDb, script: Script) returns (ret: nat)
    ensures ret == (Total(Confirmed(utxodb.Abstract(), script)) + Total(Pending(utxodb.Abstract(), script))) % WORD64
  {
    ghost var db := utxodb.Abstract();
    ret := 0;
    if script in utxodb.scriptpubkeyToOutput {
      ret := AddUp(ret, utxodb.scriptpubkeyToOutput[script], utxodb.mempoolSpentConfirmedOutpoints);
    }
    assert ret == Total(Confirmed(db, script)) % WORD64;
    if script in utxodb.mempoolScriptpubkeyToOutput {
      assert Unspent(utxodb.mempoolScriptpubkeyToOutput[script], {}) == Pending(db, script);
      ret := AddUp(ret, utxodb.mempoolScriptpubkeyToOutput[script], {});
      ModAdd(Total(Confirmed(db, script)), Total(Pending(db, script)));
    }
  }

  /** The balance of a script after a block, as a sum over the ledger of single transactions. */
  lemma BalanceAfterBlock(db: Db, out: Outpoint -> Output, txs: seq<Transaction>, order: seq<Transaction>, save: bool, script: Script)
    requires BlockReadable(txs) && BlockReadable(order) && IndexExact(db, out) && AllAgree(BlockOutputs(txs), out)
    requires (forall tx :: tx in txs <==> tx in order) && SpendersLast(order)
    ensures
      var after, ledger := AfterBlock(db, txs, save), ApplyAll(db.outpoints, order, out);
      Confirmed(after, script) == map k | k in ledger && ledger[k].script == script && k !in after.memSpent :: ledger[k]
  {
    BlockKeepsIndexExact(db, out, txs, save);
    ConfirmedIsDirect(AfterBlock(db, txs, save), out, script);
    BulkIsLedger(db, db.outpoints.Keys, out, txs, order, save);
  }
}
