/**
 * Depth-first topological sort of a batch of transactions (src/util.cpp).
 */
module Topology {
  import opened Transactions

  /** The batch as a map; of several entries with one id the first counts. */
  function Batch(txs: seq<Transaction>): map<Txid, Transaction> {
    if |txs| == 0 then map[]
    else
      var m, tx := Batch(txs[..|txs| - 1]), txs[|txs| - 1];
      if tx.txid in m then m else m[tx.txid := tx]
  }

  lemma {:induction false} BatchFacts(txs: seq<Transaction>)
    ensures forall x :: x in Batch(txs) <==> exists i :: 0 <= i < |txs| && txs[i].txid == x
    ensures forall x :: x in Batch(txs) ==> Batch(txs)[x].txid == x
    decreases |txs|
  {
    if |txs| > 0 {
      var n := |txs| - 1;
      BatchFacts(txs[..n]);
      assert forall i :: 0 <= i < n ==> txs[..n][i] == txs[i];
    }
  }

  /** The first entry with an id is the one the map keeps. */
  lemma {:induction false} BatchFirst(txs: seq<Transaction>, i: nat)
    requires i < |txs| && forall j :: 0 <= j < i ==> txs[j].txid != txs[i].txid
    ensures txs[i].txid in Batch(txs) && Batch(txs)[txs[i].txid] == txs[i]
    decreases |txs|
  {
    var n := |txs| - 1;
    BatchFacts(txs[..n]);
    if i < n {
      BatchFirst(txs[..n], i);
    }
  }

  ghost function Ids(stack: seq<Transaction>): set<Txid> {
    set i | 0 <= i < |stack| :: stack[i].txid
  }

  /** Members of the batch, none of them twice. */
  ghost predicate Distinct(stack: seq<Transaction>, batch: map<Txid, Transaction>) {
    && (forall i :: 0 <= i < |stack| ==> stack[i].txid in batch && stack[i] == batch[stack[i].txid])
    && (forall i, j :: 0 <= i < j < |stack| ==> stack[i].txid != stack[j].txid)
  }

  /** Whatever a member of the batch spends within the batch stands before it. */
  ghost predicate ParentsFirst(stack: seq<Transaction>, batch: map<Txid, Transaction>) {
    forall i, k :: 0 <= i < |stack| && 0 <= k < |stack[i].inputs| && stack[i].inputs[k].txid in batch
      ==> stack[i].inputs[k].txid in Ids(stack[..i])
  }

  /** Spending within the batch goes down in rank, so it has no cycle. */
  ghost predicate Ranked(batch: map<Txid, Transaction>, rank: Txid -> nat) {
    forall x, k :: x in batch && 0 <= k < |batch[x].inputs| && batch[x].inputs[k].txid in batch
      ==> rank(batch[x].inputs[k].txid) < rank(x)
  }

  ghost predicate Acyclic(batch: map<Txid, Transaction>) {
    exists rank: Txid -> nat :: Ranked(batch, rank)
  }

  /** Transactions under way (visited, not yet on the stack) all rank above `x`. */
  ghost predicate UnderWayAbove(visited: set<Txid>, stack: seq<Transaction>, rank: Txid -> nat, x: Txid) {
    forall y :: y in visited && y !in Ids(stack) ==> rank(y) > rank(x)
  }

  lemma IdsPush(stack: seq<Transaction>, tx: Transaction)
    ensures Ids(stack + [tx]) == Ids(stack) + {tx.txid}
  {
    var s := stack + [tx];
    assert forall i :: 0 <= i < |stack| ==> s[i] == stack[i];
    assert s[|stack|] == tx;
  }

  lemma ParentsFirstPush(stack: seq<Transaction>, tx: Transaction, batch: map<Txid, Transaction>)
    requires ParentsFirst(stack, batch)
    requires forall k :: 0 <= k < |tx.inputs| && tx.inputs[k].txid in batch ==> tx.inputs[k].txid in Ids(stack)
    ensures ParentsFirst(stack + [tx], batch)
  {
    var s := stack + [tx];
    assert s[..|stack|] == stack;
    forall i, k | 0 <= i < |s| && 0 <= k < |s[i].inputs| && s[i].inputs[k].txid in batch
      ensures s[i].inputs[k].txid in Ids(s[..i])
    {
      if i < |stack| {
        assert s[..i] == stack[..i];
        assert stack[i].inputs[k].txid in Ids(stack[..i]);
      }
    }
  }

  /**
   * `topological_sort_internal`: pushes the unvisited ancestors of `tx` within the batch, then `tx`.
   * It terminates because every call visits one more member of the batch.
   */
  method Visit(tx: Transaction, batch: map<Txid, Transaction>, stack0: seq<Transaction>, visited0: set<Txid>, ghost rank: Txid -> nat)
    returns (stack: seq<Transaction>, visited: set<Txid>)
    requires tx.txid in batch && batch[tx.txid] == tx && tx.txid !in visited0
    requires forall x :: x in batch ==> batch[x].txid == x
    requires Distinct(stack0, batch) && Ids(stack0) <= visited0
    ensures Distinct(stack, batch) && Ids(stack) <= visited && visited0 + {tx.txid} <= visited
    ensures visited - Ids(stack) == visited0 - Ids(stack0)
    ensures Ids(stack0) <= Ids(stack) && tx.txid in Ids(stack)
    ensures Ranked(batch, rank) && ParentsFirst(stack0, batch) && UnderWayAbove(visited0, stack0, rank, tx.txid)
            ==> ParentsFirst(stack, batch)
    decreases batch.Keys - visited0
  {
    stack, visited := stack0, visited0 + {tx.txid};
    ghost var sound := Ranked(batch, rank) && ParentsFirst(stack0, batch) && UnderWayAbove(visited0, stack0, rank, tx.txid);
    for k := 0 to |tx.inputs|
      invariant Distinct(stack, batch) && Ids(stack) <= visited && visited0 + {tx.txid} <= visited
      invariant visited - Ids(stack) == visited0 - Ids(stack0) + {tx.txid}
      invariant Ids(stack0) <= Ids(stack)
      invariant sound ==> ParentsFirst(stack, batch)
      invariant sound ==> forall m :: 0 <= m < k && tx.inputs[m].txid in batch ==> tx.inputs[m].txid in Ids(stack)
    {
      var parent := tx.inputs[k].txid;
      if parent in visited || parent !in batch {
        assert sound && parent in batch ==> rank(parent) < rank(tx.txid);
        continue;
      }
      assert sound ==> rank(parent) < rank(tx.txid);
      stack, visited := Visit(batch[parent], batch, stack, visited, rank);
    }
    assert tx.txid !in Ids(stack);
    if sound {
      ParentsFirstPush(stack, tx, batch);
    }
    IdsPush(stack, tx);
    stack := stack + [tx];
  }

  /**
   * `topological_sort`: every id of the list exactly once, for every list; parents before children
   * whenever spending within the batch is acyclic.
   */
  method TopologicalSort(txs: seq<Transaction>) returns (stack: seq<Transaction>)
    ensures Distinct(stack, Batch(txs)) && Ids(stack) == Batch(txs).Keys
    ensures Acyclic(Batch(txs)) ==> ParentsFirst(stack, Batch(txs))
  {
    var batch := MakeBatch(txs);
    BatchFacts(txs);
    ghost var rank: Txid -> nat := x => 0;
    if Acyclic(batch) {
      rank :| Ranked(batch, rank);
    }
    stack := [];
    var visited: set<Txid> := {};
    for i := 0 to |txs|
      invariant Distinct(stack, batch) && Ids(stack) == visited
      invariant forall j :: 0 <= j < i ==> txs[j].txid in visited
      invariant Ranked(batch, rank) ==> ParentsFirst(stack, batch)
    {
      if txs[i].txid !in visited {
        BatchFirst(txs, i);
        stack, visited := Visit(txs[i], batch, stack, visited, rank);
        assert visited - Ids(stack) == {};
      }
    }
    assert Ids(stack) <= batch.Keys;
  }

  method MakeBatch(txs: seq<Transaction>) returns (batch: map<Txid, Transaction>)
    ensures batch == Batch(txs)
  {
    batch := map[];
    for i := 0 to |txs|
      invariant batch == Batch(txs[..i])
    {
      assert txs[..i + 1][..i] == txs[..i];
      if txs[i].txid !in batch {
        batch := batch[txs[i].txid := txs[i]];
      }
    }
    assert txs[..|txs|] == txs;
  }
}
