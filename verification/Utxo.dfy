/**
 * The output index: blocks applied in bulk (src/bch.cpp) and rolled back (src/utxodb.cpp).
 *
 * Outputs compare by outpoint in the source, so a set of outputs is a map from outpoints.
 */
module Utxo {
  import opened Transactions

  type Script = seq<Byte>
  type OutputSet = map<Outpoint, Output>
  type Index = map<Script, OutputSet>

  const ROLLBACK_DEPTH: nat := 10

  datatype Db = Db(
    height: nat,
    outpoints: map<Outpoint, Output>, index: Index,
    memOutpoints: map<Outpoint, Output>, memIndex: Index, memSpent: set<Outpoint>,
    removed: seq<seq<Output>>, added: seq<seq<Outpoint>>)

  // ----- Index operations -----

  function IndexInsert(ix: Index, script: Script, o: Output): Index {
    if script !in ix then ix[script := map[o.AsOutpoint() := o]]
    else if o.AsOutpoint() in ix[script] then ix
    else ix[script := ix[script][o.AsOutpoint() := o]]
  }

  /** Removes the output; a group that is empty afterwards goes too. */
  function IndexErase(ix: Index, script: Script, o: Output): Index {
    if script !in ix then ix
    else
      var group := ix[script] - {o.AsOutpoint()};
      if group == map[] then ix - {script} else ix[script := group]
  }

  /** The variant of rollback, which looks at the group only after a removal. */
  function IndexEraseFound(ix: Index, script: Script, o: Output): Index {
    if script in ix && o.AsOutpoint() in ix[script] then IndexErase(ix, script, o) else ix
  }

  // ----- One block -----

  /** One output of a block: confirmed, and no longer of the mempool. */
  function AddOutput(db: Db, m: Output): Db {
    if m.IsOpReturn() then db
    else
      var k := m.AsOutpoint();
      var oid := if k in db.outpoints then db.outpoints[k] else m;
      db.(outpoints := if k in db.outpoints then db.outpoints else db.outpoints[k := m],
          index := IndexInsert(db.index, m.script, oid),
          memOutpoints := db.memOutpoints - {k},
          memIndex := if m.script in db.memIndex then db.memIndex[m.script := db.memIndex[m.script] - {oid.AsOutpoint()}] else db.memIndex,
          memSpent := db.memSpent - {oid.AsOutpoint()})
  }

  /** The confirmed part of spending an outpoint. */
  function SpendConfirmed(db: Db, m: Outpoint): Db {
    if m !in db.outpoints then db
    else
      var o := db.outpoints[m];
      db.(outpoints := db.outpoints - {m},
          index := IndexErase(db.index, o.script, o),
          memSpent := if o.script in db.index then db.memSpent - {o.AsOutpoint()} else db.memSpent)
  }

  /** The mempool part. */
  function SpendMempool(db: Db, m: Outpoint): Db {
    if m !in db.memOutpoints then db
    else
      var o := db.memOutpoints[m];
      db.(memOutpoints := db.memOutpoints - {m}, memIndex := IndexErase(db.memIndex, o.script, o))
  }

  function SpendInput(db: Db, m: Outpoint): Db {
    SpendMempool(SpendConfirmed(db, m), m)
  }

  /** What spending an outpoint puts on the list of removed outputs. */
  function RemovedBy(db: Db, m: Outpoint): seq<Output> {
    (if m in db.outpoints then [db.outpoints[m]] else []) + (if m in db.memOutpoints then [db.memOutpoints[m]] else [])
  }

  function AddAll(db: Db, outs: seq<Output>): Db {
    if |outs| == 0 then db else AddOutput(AddAll(db, outs[..|outs| - 1]), outs[|outs| - 1])
  }

  function SpendAll(db: Db, ins: seq<Outpoint>): Db {
    if |ins| == 0 then db else SpendInput(SpendAll(db, ins[..|ins| - 1]), ins[|ins| - 1])
  }

  function RemovedAll(db: Db, ins: seq<Outpoint>): seq<Output> {
    if |ins| == 0 then []
    else RemovedAll(db, ins[..|ins| - 1]) + RemovedBy(SpendAll(db, ins[..|ins| - 1]), ins[|ins| - 1])
  }

  /** The outpoints that a list of outputs adds. */
  function Keys(outs: seq<Output>): seq<Outpoint> {
    if |outs| == 0 then []
    else
      var rest, m := Keys(outs[..|outs| - 1]), outs[|outs| - 1];
      if m.IsOpReturn() then rest else rest + [m.AsOutpoint()]
  }

  predicate BlockReadable(txs: seq<Transaction>) {
    forall i :: 0 <= i < |txs| ==> HasSlpOutputs(txs[i])
  }

  function BlockOutputs(txs: seq<Transaction>): seq<Output>
    requires BlockReadable(txs)
  {
    if |txs| == 0 then [] else BlockOutputs(txs[..|txs| - 1]) + SlpOutputs(txs[|txs| - 1])
  }

  function BlockInputs(txs: seq<Transaction>): seq<Outpoint> {
    if |txs| == 0 then [] else BlockInputs(txs[..|txs| - 1]) + txs[|txs| - 1].inputs
  }

  /** The last `ROLLBACK_DEPTH` entries of a history that grew by one. */
  function Push<T>(history: seq<T>, entry: T): (h: seq<T>)
  {
    var grown := history + [entry];
    if |grown| > ROLLBACK_DEPTH then grown[1..] else grown
  }

  /** `process_block` */
  function AfterBlock(db: Db, txs: seq<Transaction>, save: bool): Db
    requires BlockReadable(txs)
  {
    var filled := AddAll(db.(height := db.height + 1), BlockOutputs(txs));
    var spent := SpendAll(filled, BlockInputs(txs));
    if save then
      spent.(added := Push(spent.added, Keys(BlockOutputs(txs))), removed := Push(spent.removed, RemovedAll(filled, BlockInputs(txs))))
    else spent
  }

  // ----- The mempool -----

  /** One output of a transaction that arrives. */
  function MemAdd(db: Db, m: Output): Db {
    if m.IsOpReturn() then db
    else
      var k := m.AsOutpoint();
      var oid := if k in db.memOutpoints then db.memOutpoints[k] else m;
      db.(memOutpoints := if k in db.memOutpoints then db.memOutpoints else db.memOutpoints[k := m],
          memIndex := IndexInsert(db.memIndex, m.script, oid))
  }

  /** One input: a spent mempool output leaves the index but stays known. */
  function MemSpend(db: Db, m: Outpoint): Db {
    if m !in db.memOutpoints then db.(memSpent := db.memSpent + {m})
    else db.(memIndex := IndexErase(db.memIndex, db.memOutpoints[m].script, db.memOutpoints[m]))
  }

  function MemAddAll(db: Db, outs: seq<Output>): Db {
    if |outs| == 0 then db else MemAdd(MemAddAll(db, outs[..|outs| - 1]), outs[|outs| - 1])
  }

  function MemSpendAll(db: Db, ins: seq<Outpoint>): Db {
    if |ins| == 0 then db else MemSpend(MemSpendAll(db, ins[..|ins| - 1]), ins[|ins| - 1])
  }

  /** `process_mempool_tx` */
  function AfterMempoolTx(db: Db, tx: Transaction): Db
    requires HasSlpOutputs(tx)
  {
    MemSpendAll(MemAddAll(db, SlpOutputs(tx)), tx.inputs)
  }

  // ----- Rollback -----

  function Restore(db: Db, o: Output): Db {
    var k := o.AsOutpoint();
    var oid := if k in db.outpoints then db.outpoints[k] else o;
    db.(outpoints := if k in db.outpoints then db.outpoints else db.outpoints[k := o], index := IndexInsert(db.index, o.script, oid))
  }

  function Retract(db: Db, m: Outpoint): Db {
    if m !in db.outpoints then db
    else db.(index := IndexEraseFound(db.index, db.outpoints[m].script, db.outpoints[m]))
  }

  function RestoreAll(db: Db, os: seq<Output>): Db {
    if |os| == 0 then db else Restore(RestoreAll(db, os[..|os| - 1]), os[|os| - 1])
  }

  function RetractAll(db: Db, ms: seq<Outpoint>): Db {
    if |ms| == 0 then db else Retract(RetractAll(db, ms[..|ms| - 1]), ms[|ms| - 1])
  }

  /** `rollback` */
  function AfterRollback(db: Db): Db {
    if |db.removed| == 0 || |db.added| == 0 then db
    else
      var rbRemoved, rbAdded := db.removed[|db.removed| - 1], db.added[|db.added| - 1];
      var popped := db.(removed := db.removed[..|db.removed| - 1], added := db.added[..|db.added| - 1]);
      RetractAll(RestoreAll(popped, rbRemoved), rbAdded)
  }

  // ----- The methods -----

  class UtxoDb {
    var height: nat
    var outpointMap: map<Outpoint, Output>
    var scriptpubkeyToOutput: Index
    var mempoolOutpointMap: map<Outpoint, Output>
    var mempoolScriptpubkeyToOutput: Index
    var mempoolSpentConfirmedOutpoints: set<Outpoint>
    var lastBlockRemoved: seq<seq<Output>>
    var lastBlockAdded: seq<seq<Outpoint>>

    ghost function Abstract(): Db
      reads this
    {
      Db(height, outpointMap, scriptpubkeyToOutput, mempoolOutpointMap, mempoolScriptpubkeyToOutput,
         mempoolSpentConfirmedOutpoints, lastBlockRemoved, lastBlockAdded)
    }

    constructor ()
      ensures Abstract() == Db(0, map[], map[], map[], map[], {}, [], [])
    {
      height, outpointMap, scriptpubkeyToOutput := 0, map[], map[];
      mempoolOutpointMap, mempoolScriptpubkeyToOutput, mempoolSpentConfirmedOutpoints := map[], map[], {};
      lastBlockRemoved, lastBlockAdded := [], [];
    }

    /**
     * `bch::process_block`, as far as the output index goes. It reads past the outputs of a transaction that
     * lacks its SLP outputs: the rest is then undefined, and only the height has changed.
     */
    method ProcessBlock(txs: seq<Transaction>, saveRollback: bool) returns (defined: bool)
      modifies this
      ensures defined <==> BlockReadable(txs)
      ensures defined ==> Abstract() == AfterBlock(old(Abstract()), txs, saveRollback)
      ensures !defined ==> Abstract() == old(Abstract()).(height := old(height) + 1)
    {
      height := height + 1;
      ghost var raised := Abstract();
      assert raised == old(Abstract()).(height := old(height) + 1);
      var blkInputs, blkOutputs;
      defined, blkInputs, blkOutputs := Gather(txs);
      if !defined {
        return;
      }
      var thisBlockAdded := ConfirmOutputs(blkOutputs);
      var thisBlockRemoved := SpendOutpoints(blkInputs);
      if saveRollback {
        SaveHistory(thisBlockAdded, thisBlockRemoved);
      }
    }

    method ConfirmOutputs(blkOutputs: seq<Output>) returns (blockAdded: seq<Outpoint>)
      modifies this
      ensures Abstract() == AddAll(old(Abstract()), blkOutputs)
      ensures blockAdded == Keys(blkOutputs)
    {
      ghost var start := Abstract();
      blockAdded := [];
      for i := 0 to |blkOutputs|
        invariant Abstract() == AddAll(start, blkOutputs[..i]) && blockAdded == Keys(blkOutputs[..i])
      {
        assert blkOutputs[..i + 1][..i] == blkOutputs[..i];
        var m := blkOutputs[i];
        if !m.IsOpReturn() {
          ConfirmOutput(m);
          blockAdded := blockAdded + [m.AsOutpoint()];
        }
      }
      assert blkOutputs[..|blkOutputs|] == blkOutputs;
    }

    method SpendOutpoints(blkInputs: seq<Outpoint>) returns (blockRemoved: seq<Output>)
      modifies this
      ensures Abstract() == SpendAll(old(Abstract()), blkInputs)
      ensures blockRemoved == RemovedAll(old(Abstract()), blkInputs)
    {
      ghost var filled := Abstract();
      blockRemoved := [];
      for i := 0 to |blkInputs|
        invariant Abstract() == SpendAll(filled, blkInputs[..i]) && blockRemoved == RemovedAll(filled, blkInputs[..i])
      {
        assert blkInputs[..i + 1][..i] == blkInputs[..i];
        var gone := SpendOutpoint(blkInputs[i]);
        blockRemoved := blockRemoved + gone;
      }
      assert blkInputs[..|blkInputs|] == blkInputs;
    }

    method ConfirmOutput(m: Output)
      requires !m.IsOpReturn()
      modifies this
      ensures Abstract() == AddOutput(old(Abstract()), m)
    {
      var k := m.AsOutpoint();
      if k !in outpointMap {
        outpointMap := outpointMap[k := m];
      }
      var oid := outpointMap[k];
      scriptpubkeyToOutput := IndexInsert(scriptpubkeyToOutput, m.script, oid);
      mempoolOutpointMap := mempoolOutpointMap - {k};
      if m.script in mempoolScriptpubkeyToOutput {
        mempoolScriptpubkeyToOutput := mempoolScriptpubkeyToOutput[m.script := mempoolScriptpubkeyToOutput[m.script] - {oid.AsOutpoint()}];
      }
      mempoolSpentConfirmedOutpoints := mempoolSpentConfirmedOutpoints - {oid.AsOutpoint()};
    }

    method SpendOutpoint(m: Outpoint) returns (gone: seq<Output>)
      modifies this
      ensures Abstract() == SpendInput(old(Abstract()), m)
      ensures gone == RemovedBy(old(Abstract()), m)
    {
      gone := [];
      if m in outpointMap {
        var o := outpointMap[m];
        if o.script in scriptpubkeyToOutput {
          scriptpubkeyToOutput := IndexErase(scriptpubkeyToOutput, o.script, o);
          mempoolSpentConfirmedOutpoints := mempoolSpentConfirmedOutpoints - {o.AsOutpoint()};
        }
        gone := gone + [o];
        outpointMap := outpointMap - {m};
      }
      if m in mempoolOutpointMap {
        var o := mempoolOutpointMap[m];
        if o.script in mempoolScriptpubkeyToOutput {
          mempoolScriptpubkeyToOutput := IndexErase(mempoolScriptpubkeyToOutput, o.script, o);
        }
        gone := gone + [o];
        mempoolOutpointMap := mempoolOutpointMap - {m};
      }
    }

    method SaveHistory(blockAdded: seq<Outpoint>, blockRemoved: seq<Output>)
      modifies this
      ensures Abstract() == old(Abstract()).(added := Push(old(lastBlockAdded), blockAdded), removed := Push(old(lastBlockRemoved), blockRemoved))
    {
      lastBlockAdded := lastBlockAdded + [blockAdded];
      lastBlockRemoved := lastBlockRemoved + [blockRemoved];
      if |lastBlockAdded| > ROLLBACK_DEPTH {
        lastBlockAdded := lastBlockAdded[1..];
      }
      if |lastBlockRemoved| > ROLLBACK_DEPTH {
        lastBlockRemoved := lastBlockRemoved[1..];
      }
    }

    /** `bch::process_mempool_tx`, as far as the output index goes; undefined where the SLP outputs are missing. */
    method ProcessMempoolTx(tx: Transaction) returns (defined: bool)
      modifies this
      ensures defined <==> HasSlpOutputs(tx)
      ensures Abstract() == if defined then AfterMempoolTx(old(Abstract()), tx) else old(Abstract())
    {
      defined := HasSlpOutputs(tx);
      if !defined {
        return;
      }
      var outputs := SlpOutputs(tx);
      ghost var start := Abstract();
      for i := 0 to |outputs|
        invariant Abstract() == MemAddAll(start, outputs[..i])
      {
        assert outputs[..i + 1][..i] == outputs[..i];
        if !outputs[i].IsOpReturn() {
          AddPending(outputs[i]);
        }
      }
      assert outputs[..|outputs|] == outputs;
      ghost var filled := Abstract();
      for i := 0 to |tx.inputs|
        invariant Abstract() == MemSpendAll(filled, tx.inputs[..i])
      {
        assert tx.inputs[..i + 1][..i] == tx.inputs[..i];
        SpendPending(tx.inputs[i]);
      }
      assert tx.inputs[..|tx.inputs|] == tx.inputs;
    }

    method AddPending(m: Output)
      requires !m.IsOpReturn()
      modifies this
      ensures Abstract() == MemAdd(old(Abstract()), m)
    {
      var k := m.AsOutpoint();
      if k !in mempoolOutpointMap {
        mempoolOutpointMap := mempoolOutpointMap[k := m];
      }
      mempoolScriptpubkeyToOutput := IndexInsert(mempoolScriptpubkeyToOutput, m.script, mempoolOutpointMap[k]);
    }

    method SpendPending(m: Outpoint)
      modifies this
      ensures Abstract() == MemSpend(old(Abstract()), m)
    {
      if m !in mempoolOutpointMap {
        mempoolSpentConfirmedOutpoints := mempoolSpentConfirmedOutpoints + {m};
        return;
      }
      var o := mempoolOutpointMap[m];
      if o.script in mempoolScriptpubkeyToOutput {
        mempoolScriptpubkeyToOutput := IndexErase(mempoolScriptpubkeyToOutput, o.script, o);
      }
    }

    /** `utxodb::rollback` */
    method Rollback()
      modifies this
      ensures Abstract() == AfterRollback(old(Abstract()))
    {
      if |lastBlockRemoved| == 0 || |lastBlockAdded| == 0 {
        return;
      }
      var rbRemoved, rbAdded := lastBlockRemoved[|lastBlockRemoved| - 1], lastBlockAdded[|lastBlockAdded| - 1];
      lastBlockRemoved := lastBlockRemoved[..|lastBlockRemoved| - 1];
      lastBlockAdded := lastBlockAdded[..|lastBlockAdded| - 1];
      ghost var popped := Abstract();
      for i := 0 to |rbRemoved|
        invariant Abstract() == RestoreAll(popped, rbRemoved[..i])
      {
        assert rbRemoved[..i + 1][..i] == rbRemoved[..i];
        var m := rbRemoved[i];
        if m.AsOutpoint() !in outpointMap {
          outpointMap := outpointMap[m.AsOutpoint() := m];
        }
        scriptpubkeyToOutput := IndexInsert(scriptpubkeyToOutput, m.script, outpointMap[m.AsOutpoint()]);
      }
      assert rbRemoved[..|rbRemoved|] == rbRemoved;
      ghost var restored := Abstract();
      for i := 0 to |rbAdded|
        invariant Abstract() == RetractAll(restored, rbAdded[..i])
      {
        assert rbAdded[..i + 1][..i] == rbAdded[..i];
        var m := rbAdded[i];
        if m in outpointMap {
          scriptpubkeyToOutput := IndexEraseFound(scriptpubkeyToOutput, outpointMap[m].script, outpointMap[m]);
        }
      }
      assert rbAdded[..|rbAdded|] == rbAdded;
    }
  }

  /** The first loop of `process_block`. */
  method Gather(txs: seq<Transaction>) returns (defined: bool, ins: seq<Outpoint>, outs: seq<Output>)
    ensures defined <==> BlockReadable(txs)
    ensures defined ==> ins == BlockInputs(txs) && outs == BlockOutputs(txs)
  {
    ins, outs := [], [];
    for i := 0 to |txs|
      invariant BlockReadable(txs[..i]) && ins == BlockInputs(txs[..i]) && outs == BlockOutputs(txs[..i])
    {
      if !HasSlpOutputs(txs[i]) {
        return false, ins, outs;
      }
      assert txs[..i + 1][..i] == txs[..i] && txs[..i + 1][i] == txs[i];
      assert BlockReadable(txs[..i + 1]);
      ins, outs := ins + txs[i].inputs, outs + SlpOutputs(txs[i]);
    }
    assert txs[..|txs|] == txs;
    defined := true;
  }
}
