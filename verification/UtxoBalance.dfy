/**
 * What a balance counts (`get_balance_by_scriptpubkey`, src/utxodb.cpp): exactly when an output is counted
 * twice, and when it is counted although a mempool transaction spends it.
 */
module UtxoBalance {
  import opened Transactions
  import opened Utxo
  import opened UtxoLaws
  import Mempool = UtxoMempool
  import Queries = UtxoQueries

  /** The confirmed index holds `live` and the mempool's index holds `mem`. */
  ghost predicate Layers(db: Db, live: set<Outpoint>, mem: set<Outpoint>, out: Outpoint -> Output) {
    Inv(db, live, out) && Mempool.Pending(db, mem, out)
  }

  /** No output is pending and at the same time confirmed without a mark. */
  ghost predicate Apart(db: Db, live: set<Outpoint>, mem: set<Outpoint>) {
    live - db.memSpent !! mem
  }

  // ----- What blocks and arrivals do to the layers -----

  lemma {:induction false} SpendAllMarksBound(db: Db, live: set<Outpoint>, out: Outpoint -> Output, ins: seq<Outpoint>)
    requires Inv(db, live, out)
    ensures db.memSpent - InSet(ins) <= SpendAll(db, ins).memSpent <= db.memSpent
    decreases |ins|
  {
    if |ins| > 0 {
      var n := |ins| - 1;
      SpendAllMarksBound(db, live, out, ins[..n]);
      SpendAllInv(db, live, out, ins[..n]);
      SpendMarkBound(SpendAll(db, ins[..n]), live - InSet(ins[..n]), out, ins[n]);
      InSetSplit(ins);
    }
  }

  lemma SpendMarkBound(db: Db, live: set<Outpoint>, out: Outpoint -> Output, m: Outpoint)
    requires Inv(db, live, out)
    ensures db.memSpent - {m} <= SpendInput(db, m).memSpent <= db.memSpent
  {
    if m in db.outpoints {
      assert db.outpoints[m] == out(m) && out(m).AsOutpoint() == m;
    }
  }

  /** A block clears the marks of its outputs, may clear those of its inputs, and sets none. */
  lemma BlockMarksBound(db: Db, live: set<Outpoint>, out: Outpoint -> Output, txs: seq<Transaction>, save: bool)
    requires BlockReadable(txs) && Inv(db, live, out) && AllAgree(BlockOutputs(txs), out)
    ensures
      var before, after := db.memSpent - Fresh(txs), AfterBlock(db, txs, save).memSpent;
      before - Spent(txs) <= after <= before
  {
    var raised := db.(height := db.height + 1);
    Mempool.AddAllMarks(raised, live, out, BlockOutputs(txs));
    FilledInv(db, live, out, txs);
    SpendAllMarksBound(Filled(db, txs), live + Fresh(txs), out, BlockInputs(txs));
  }

  lemma BlockLayers(db: Db, live: set<Outpoint>, mem: set<Outpoint>, out: Outpoint -> Output, txs: seq<Transaction>, save: bool)
    requires BlockReadable(txs) && Layers(db, live, mem, out) && AllAgree(BlockOutputs(txs), out)
    ensures Layers(AfterBlock(db, txs, save), LiveAfter(live, txs), mem - Fresh(txs) - Spent(txs), out)
  {
    BlockEffect(db, live, out, txs, save);
    Mempool.ConfirmationEffect(db, mem, out, txs, save);
  }

  /** The pending outputs after a transaction arrived. */
  ghost function PendingAfter(mem: set<Outpoint>, tx: Transaction): set<Outpoint>
    requires HasSlpOutputs(tx)
  {
    mem + KeySet(SlpOutputs(tx)) - InSet(tx.inputs)
  }

  lemma ArrivalLayers(db: Db, live: set<Outpoint>, mem: set<Outpoint>, out: Outpoint -> Output, tx: Transaction)
    requires HasSlpOutputs(tx) && Layers(db, live, mem, out) && AllAgree(SlpOutputs(tx), out)
    ensures Layers(AfterMempoolTx(db, tx), live, PendingAfter(mem, tx), out)
  {
    Mempool.ArrivalEffect(db, mem, out, tx);
  }

  /** Blocks keep the layers apart. */
  lemma BlockKeepsApart(db: Db, live: set<Outpoint>, mem: set<Outpoint>, out: Outpoint -> Output, txs: seq<Transaction>, save: bool)
    requires BlockReadable(txs) && Layers(db, live, mem, out) && AllAgree(BlockOutputs(txs), out) && Apart(db, live, mem)
    ensures Apart(AfterBlock(db, txs, save), LiveAfter(live, txs), mem - Fresh(txs) - Spent(txs))
  {
    BlockMarksBound(db, live, out, txs, save);
  }

  /** An arrival keeps them apart exactly when no output that it leaves is confirmed without a mark. */
  lemma ArrivalKeepsApart(db: Db, live: set<Outpoint>, mem: set<Outpoint>, out: Outpoint -> Output, tx: Transaction)
    requires HasSlpOutputs(tx) && Layers(db, live, mem, out) && AllAgree(SlpOutputs(tx), out) && Apart(db, live, mem)
    ensures Apart(AfterMempoolTx(db, tx), live, PendingAfter(mem, tx))
       <==> KeySet(SlpOutputs(tx)) - InSet(tx.inputs) !! live - db.memSpent
  {
    Mempool.ArrivalMarks(db, tx);
    var left, after := KeySet(SlpOutputs(tx)) - InSet(tx.inputs), AfterMempoolTx(db, tx);
    assert left <= PendingAfter(mem, tx) <= mem + left;
    assert left * (live - db.memSpent) == left * (live - after.memSpent);
    if Apart(after, live, PendingAfter(mem, tx)) {
      forall k | k in left ensures k !in live - db.memSpent { assert k in PendingAfter(mem, tx); }
    }
  }

  // ----- Sums -----

  /** The outputs of a script among a set. */
  ghost function Of(ks: set<Outpoint>, out: Outpoint -> Output, script: Script): OutputSet {
    map k | k in ks && out(k).script == script :: out(k)
  }

  ghost function Value(out: Outpoint -> Output, script: Script, k: Outpoint): nat {
    if out(k).script == script then out(k).value else 0
  }

  lemma TotalAdd(ks: set<Outpoint>, out: Outpoint -> Output, script: Script, k: Outpoint)
    requires k !in ks
    ensures Queries.Total(Of(ks + {k}, out, script)) == Queries.Total(Of(ks, out, script)) + Value(out, script, k)
  {
    var m := Of(ks + {k}, out, script);
    if out(k).script == script {
      Queries.TotalTake(m, k);
      assert m - {k} == Of(ks, out, script);
    } else {
      assert m == Of(ks, out, script);
    }
  }

  /** Two sums count the union once and what they share once more. */
  lemma {:induction false} TotalShared(a: set<Outpoint>, b: set<Outpoint>, out: Outpoint -> Output, script: Script)
    ensures Queries.Total(Of(a, out, script)) + Queries.Total(Of(b, out, script))
         == Queries.Total(Of(a + b, out, script)) + Queries.Total(Of(a * b, out, script))
    decreases |b|
  {
    if b == {} {
      assert a + b == a && a * b == b;
    } else {
      var k :| k in b;
      var rest := b - {k};
      TotalShared(a, rest, out, script);
      TotalAdd(rest, out, script, k);
      assert rest + {k} == b;
      if k in a {
        assert a + b == a + rest && a * b == a * rest + {k};
        TotalAdd(a * rest, out, script, k);
      } else {
        assert a + b == a + rest + {k} && a * b == a * rest;
        TotalAdd(a + rest, out, script, k);
      }
    }
  }

  lemma ConfirmedOf(db: Db, live: set<Outpoint>, out: Outpoint -> Output, script: Script)
    requires Inv(db, live, out)
    ensures Queries.Confirmed(db, script) == Of(live - db.memSpent, out, script)
  {
    var c, d := Queries.Confirmed(db, script), Of(live - db.memSpent, out, script);
    assert forall k :: k in d ==> k in c;
    assert forall k :: k in c ==> k in d && c[k] == d[k];
    assert c.Keys == d.Keys;
  }

  lemma PendingOf(db: Db, mem: set<Outpoint>, out: Outpoint -> Output, script: Script)
    requires Mempool.Pending(db, mem, out)
    ensures Queries.Pending(db, script) == Of(mem, out, script)
  {
    var c, d := Queries.Pending(db, script), Of(mem, out, script);
    assert forall k :: k in d ==> k in c;
    assert forall k :: k in c ==> k in d && c[k] == d[k];
    assert c.Keys == d.Keys;
  }

  /** In every state a balance is the sum over both layers, and what is in both is counted twice. */
  lemma BalanceExact(db: Db, live: set<Outpoint>, mem: set<Outpoint>, out: Outpoint -> Output, script: Script)
    requires Layers(db, live, mem, out)
    ensures
      var unspent := live - db.memSpent;
      Queries.Total(Queries.Confirmed(db, script)) + Queries.Total(Queries.Pending(db, script))
      == Queries.Total(Of(unspent + mem, out, script)) + Queries.Total(Of(unspent * mem, out, script))
  {
    ConfirmedOf(db, live, out, script);
    PendingOf(db, mem, out, script);
    TotalShared(live - db.memSpent, mem, out, script);
  }

  /** Where the layers are apart, every output is counted once. */
  lemma BalanceApart(db: Db, live: set<Outpoint>, mem: set<Outpoint>, out: Outpoint -> Output, script: Script)
    requires Layers(db, live, mem, out) && Apart(db, live, mem)
    ensures Queries.Total(Queries.Confirmed(db, script)) + Queries.Total(Queries.Pending(db, script))
         == Queries.Total(Of(live - db.memSpent + mem, out, script))
  {
    BalanceExact(db, live, mem, out, script);
    assert (live - db.memSpent) * mem == {};
    assert Of({}, out, script) == map[];
  }

  // ----- Outputs that a mempool transaction spends -----

  /** What is confirmed after an event, and after a list of events. */
  ghost function LiveEvent(live: set<Outpoint>, e: Mempool.Event, out: Outpoint -> Output): set<Outpoint>
    requires Mempool.Wellformed(e, out)
  {
    if e.Arrives? then live else LiveAfter(live, e.txs)
  }

  ghost function LiveEvents(live: set<Outpoint>, es: seq<Mempool.Event>, out: Outpoint -> Output): set<Outpoint>
    requires Mempool.AllWellformed(es, out)
  {
    if |es| == 0 then live else LiveEvent(LiveEvents(live, es[..|es| - 1], out), es[|es| - 1], out)
  }

  /** What is pending after an event. */
  ghost function MemEvent(mem: set<Outpoint>, e: Mempool.Event, out: Outpoint -> Output): set<Outpoint>
    requires Mempool.Wellformed(e, out)
  {
    if e.Arrives? then PendingAfter(mem, e.tx) else mem - Fresh(e.txs) - Spent(e.txs)
  }

  ghost function MemEvents(mem: set<Outpoint>, es: seq<Mempool.Event>, out: Outpoint -> Output): set<Outpoint>
    requires Mempool.AllWellformed(es, out)
  {
    if |es| == 0 then mem else MemEvent(MemEvents(mem, es[..|es| - 1], out), es[|es| - 1], out)
  }

  lemma EventLayers(db: Db, live: set<Outpoint>, mem: set<Outpoint>, e: Mempool.Event, out: Outpoint -> Output)
    requires Mempool.Wellformed(e, out) && Layers(db, live, mem, out)
    ensures Layers(Mempool.AfterEvent(db, e, out), LiveEvent(live, e, out), MemEvent(mem, e, out), out)
  {
    if e.Arrives? {
      ArrivalLayers(db, live, mem, out, e.tx);
    } else {
      BlockLayers(db, live, mem, out, e.txs, e.save);
    }
  }

  lemma {:induction false} EventsLayers(db: Db, live: set<Outpoint>, mem: set<Outpoint>, es: seq<Mempool.Event>, out: Outpoint -> Output)
    requires Mempool.AllWellformed(es, out) && Layers(db, live, mem, out)
    ensures Layers(Mempool.AfterEvents(db, es, out), LiveEvents(live, es, out), MemEvents(mem, es, out), out)
    decreases |es|
  {
    if |es| > 0 {
      var front := es[..|es| - 1];
      EventsLayers(db, live, mem, front, out);
      EventLayers(Mempool.AfterEvents(db, front, out), LiveEvents(live, front, out), MemEvents(mem, front, out), es[|es| - 1], out);
    }
  }

  lemma BlockMemory(db: Db, live: set<Outpoint>, out: Outpoint -> Output, txs: seq<Transaction>, save: bool)
    requires BlockReadable(txs) && Inv(db, live, out) && AllAgree(BlockOutputs(txs), out)
    ensures AfterBlock(db, txs, save).memOutpoints.Keys == db.memOutpoints.Keys - Fresh(txs) - Spent(txs)
  {
    var filled := Filled(db, txs);
    assert filled.memOutpoints.Keys == db.memOutpoints.Keys - Fresh(txs) by {
      AddAllKeys(db.(height := db.height + 1), BlockOutputs(txs));
    }
    assert SpendAll(filled, BlockInputs(txs)).memOutpoints.Keys == filled.memOutpoints.Keys - Spent(txs) by {
      FilledInv(db, live, out, txs);
      SpendAllInv(filled, live + Fresh(txs), out, BlockInputs(txs));
    }
  }

  lemma ArrivalMemory(db: Db, tx: Transaction)
    requires HasSlpOutputs(tx)
    ensures AfterMempoolTx(db, tx).memOutpoints.Keys == db.memOutpoints.Keys + KeySet(SlpOutputs(tx))
  {
    Mempool.MemAddAllKeys(db, SlpOutputs(tx));
    Mempool.MemSpendAllMarks(MemAddAll(db, SlpOutputs(tx)), tx.inputs);
  }

  // ----- One output through a run -----

  /** Where an output stands: confirmed, known to the mempool, marked as spent, pending. */
  datatype Track = Track(confirmed: bool, known: bool, marked: bool, pending: bool)

  /** A transaction that creates the output arrives. */
  ghost predicate Creates(e: Mempool.Event, out: Outpoint -> Output, k: Outpoint)
    requires Mempool.Wellformed(e, out)
  {
    e.Arrives? && k in KeySet(SlpOutputs(e.tx))
  }

  /** A transaction that spends the output arrives. */
  ghost predicate SpendsIt(e: Mempool.Event, k: Outpoint) {
    e.Arrives? && k in InSet(e.tx.inputs)
  }

  /** A block confirms the output. */
  ghost predicate ConfirmsIt(e: Mempool.Event, out: Outpoint -> Output, k: Outpoint)
    requires Mempool.Wellformed(e, out)
  {
    e.Confirms? && k in Fresh(e.txs)
  }

  /** A block spends the output. */
  ghost predicate TakesIt(e: Mempool.Event, k: Outpoint) {
    e.Confirms? && k in Spent(e.txs)
  }

  /** A spender marks an output that the mempool does not know; a block that confirms it clears the mark. */
  ghost function Next(t: Track, e: Mempool.Event, out: Outpoint -> Output, k: Outpoint): Track
    requires Mempool.Wellformed(e, out)
  {
    var here := !ConfirmsIt(e, out, k) && !TakesIt(e, k);
    var known := (t.known || Creates(e, out, k)) && here;
    Track((t.confirmed || ConfirmsIt(e, out, k)) && !TakesIt(e, k), known,
          (t.marked || (SpendsIt(e, k) && !known)) && !ConfirmsIt(e, out, k),
          (t.pending || Creates(e, out, k)) && !SpendsIt(e, k) && here)
  }

  ghost function Tracked(t: Track, es: seq<Mempool.Event>, out: Outpoint -> Output, k: Outpoint): Track
    requires Mempool.AllWellformed(es, out)
  {
    if |es| == 0 then t else Next(Tracked(t, es[..|es| - 1], out, k), es[|es| - 1], out, k)
  }

  /** The track tells where the output stands; the mark matters while the output is confirmed. */
  ghost predicate Matches(db: Db, live: set<Outpoint>, mem: set<Outpoint>, k: Outpoint, t: Track) {
    && (t.confirmed <==> k in live) && (t.known <==> k in db.memOutpoints) && (t.pending <==> k in mem)
    && (t.confirmed ==> (t.marked <==> k in db.memSpent))
  }

  lemma EventTracked(db: Db, live: set<Outpoint>, mem: set<Outpoint>, e: Mempool.Event, out: Outpoint -> Output, k: Outpoint, t: Track)
    requires Layers(db, live, mem, out) && Mempool.Wellformed(e, out) && Matches(db, live, mem, k, t)
    ensures Matches(Mempool.AfterEvent(db, e, out), LiveEvent(live, e, out), MemEvent(mem, e, out), k, Next(t, e, out, k))
  {
    if e.Arrives? {
      Mempool.ArrivalMarks(db, e.tx);
      ArrivalMemory(db, e.tx);
    } else {
      BlockMarksBound(db, live, out, e.txs, e.save);
      BlockMemory(db, live, out, e.txs, e.save);
    }
  }

  lemma {:induction false} RunTracked(db: Db, live: set<Outpoint>, mem: set<Outpoint>, es: seq<Mempool.Event>, out: Outpoint -> Output, k: Outpoint, t: Track)
    requires Layers(db, live, mem, out) && Mempool.AllWellformed(es, out) && Matches(db, live, mem, k, t)
    ensures Matches(Mempool.AfterEvents(db, es, out), LiveEvents(live, es, out), MemEvents(mem, es, out), k, Tracked(t, es, out, k))
    decreases |es|
  {
    if |es| > 0 {
      var front, e := es[..|es| - 1], es[|es| - 1];
      RunTracked(db, live, mem, front, out, k, t);
      EventsLayers(db, live, mem, front, out);
      EventTracked(Mempool.AfterEvents(db, front, out), LiveEvents(live, front, out), MemEvents(mem, front, out), e, out, k, Tracked(t, front, out, k));
    }
  }

  /** After every run, from every state: what a balance counts of an output, in either layer. */
  lemma CountedExactly(db: Db, live: set<Outpoint>, mem: set<Outpoint>, es: seq<Mempool.Event>, out: Outpoint -> Output, k: Outpoint, t: Track)
    requires Layers(db, live, mem, out) && Mempool.AllWellformed(es, out) && Matches(db, live, mem, k, t)
    ensures
      var after, end := Mempool.AfterEvents(db, es, out), Tracked(t, es, out, k);
      && (k in Queries.Confirmed(after, out(k).script) <==> end.confirmed && !end.marked)
      && (k in Queries.Pending(after, out(k).script) <==> end.pending)
  {
    var after := Mempool.AfterEvents(db, es, out);
    RunTracked(db, live, mem, es, out, k, t);
    EventsLayers(db, live, mem, es, out);
    ConfirmedOf(after, LiveEvents(live, es, out), out, out(k).script);
    PendingOf(after, MemEvents(mem, es, out), out, out(k).script);
  }

  // ----- The same by what arrived when -----

  /** No block of the list confirms or spends the output. */
  ghost predicate Quiet(es: seq<Mempool.Event>, out: Outpoint -> Output, k: Outpoint)
    requires Mempool.AllWellformed(es, out)
  {
    forall i :: 0 <= i < |es| ==> !ConfirmsIt(es[i], out, k) && !TakesIt(es[i], k)
  }

  ghost predicate Created(es: seq<Mempool.Event>, out: Outpoint -> Output, k: Outpoint)
    requires Mempool.AllWellformed(es, out)
  {
    exists i :: 0 <= i < |es| && Creates(es[i], out, k)
  }

  /** A spender arrives, and no transaction that creates the output has arrived so far. */
  ghost predicate MarksAt(es: seq<Mempool.Event>, i: nat, out: Outpoint -> Output, k: Outpoint)
    requires Mempool.AllWellformed(es, out)
  {
    i < |es| && SpendsIt(es[i], k) && !Created(es[..i + 1], out, k)
  }

  /** A spender arrived before any transaction of the list that creates the output. */
  ghost predicate Marked(es: seq<Mempool.Event>, out: Outpoint -> Output, k: Outpoint)
    requires Mempool.AllWellformed(es, out)
  {
    exists i: nat :: MarksAt(es, i, out, k)
  }

  lemma CreatedSnoc(es: seq<Mempool.Event>, out: Outpoint -> Output, k: Outpoint)
    requires Mempool.AllWellformed(es, out) && |es| > 0
    ensures Created(es, out, k) <==> Created(es[..|es| - 1], out, k) || Creates(es[|es| - 1], out, k)
  {
    var front := es[..|es| - 1];
    if i :| 0 <= i < |es| && Creates(es[i], out, k) {
      assert i < |front| ==> front[i] == es[i];
    }
    if i :| 0 <= i < |front| && Creates(front[i], out, k) {
      assert es[i] == front[i];
    }
  }

  lemma MarksAtFront(es: seq<Mempool.Event>, i: nat, out: Outpoint -> Output, k: Outpoint)
    requires Mempool.AllWellformed(es, out) && i < |es| - 1
    ensures MarksAt(es, i, out, k) <==> MarksAt(es[..|es| - 1], i, out, k)
  {
    var front := es[..|es| - 1];
    assert front[i] == es[i] && front[..i + 1] == es[..i + 1];
  }

  lemma MarkedSnoc(es: seq<Mempool.Event>, out: Outpoint -> Output, k: Outpoint)
    requires Mempool.AllWellformed(es, out) && |es| > 0
    ensures Marked(es, out, k) <==> Marked(es[..|es| - 1], out, k) || (SpendsIt(es[|es| - 1], k) && !Created(es, out, k))
  {
    var n := |es| - 1;
    assert es[..n + 1] == es;
    assert MarksAt(es, n, out, k) <==> SpendsIt(es[n], k) && !Created(es, out, k);
    if Marked(es, out, k) {
      MarkedBefore(es, out, k);
    }
    if Marked(es[..n], out, k) {
      MarkedStill(es, out, k);
    }
  }

  lemma MarkedBefore(es: seq<Mempool.Event>, out: Outpoint -> Output, k: Outpoint)
    requires Mempool.AllWellformed(es, out) && |es| > 0 && Marked(es, out, k)
    ensures Marked(es[..|es| - 1], out, k) || MarksAt(es, |es| - 1, out, k)
  {
    var i: nat :| MarksAt(es, i, out, k);
    if i < |es| - 1 {
      MarksAtFront(es, i, out, k);
    }
  }

  lemma MarkedStill(es: seq<Mempool.Event>, out: Outpoint -> Output, k: Outpoint)
    requires Mempool.AllWellformed(es, out) && |es| > 0 && Marked(es[..|es| - 1], out, k)
    ensures Marked(es, out, k)
  {
    var i: nat :| MarksAt(es[..|es| - 1], i, out, k);
    MarksAtFront(es, i, out, k);
  }

  /** The track of an output that a block has just confirmed. */
  lemma {:induction false} QuietTrack(t: Track, es: seq<Mempool.Event>, out: Outpoint -> Output, k: Outpoint)
    requires Mempool.AllWellformed(es, out) && Quiet(es, out, k) && t.confirmed && !t.known && !t.marked
    ensures
      var end := Tracked(t, es, out, k);
      end.confirmed && (end.known <==> Created(es, out, k)) && (end.marked <==> Marked(es, out, k))
    decreases |es|
  {
    if |es| > 0 {
      QuietTrack(t, es[..|es| - 1], out, k);
      CreatedSnoc(es, out, k);
      MarkedSnoc(es, out, k);
    }
  }

  /**
   * After the block that confirms an output it is counted iff it is not marked: no spender arrived since,
   * unless the transaction that creates the output arrived again before. Spenders before the block make no
   * difference.
   */
  lemma SpentYetCounted(db: Db, live: set<Outpoint>, mem: set<Outpoint>, txs: seq<Transaction>, save: bool,
                        rest: seq<Mempool.Event>, out: Outpoint -> Output, k: Outpoint)
    requires Layers(db, live, mem, out) && Mempool.AllWellformed(rest, out) && Quiet(rest, out, k)
    requires BlockReadable(txs) && AllAgree(BlockOutputs(txs), out)
    requires k in Fresh(txs) && k !in Spent(txs)
    ensures k in Queries.Confirmed(Mempool.AfterEvents(AfterBlock(db, txs, save), rest, out), out(k).script) <==> !Marked(rest, out, k)
  {
    var after, live', mem' := AfterBlock(db, txs, save), LiveAfter(live, txs), mem - Fresh(txs) - Spent(txs);
    BlockLayers(db, live, mem, out, txs, save);
    BlockMarksBound(db, live, out, txs, save);
    BlockMemory(db, live, out, txs, save);
    var t := Track(true, false, false, false);
    assert Matches(after, live', mem', k, t);
    CountedExactly(after, live', mem', rest, out, k, t);
    QuietTrack(t, rest, out, k);
  }

  /** An arrival created the output, and from then on nothing spent or confirmed it. */
  ghost predicate Waiting(es: seq<Mempool.Event>, out: Outpoint -> Output, k: Outpoint)
    requires Mempool.AllWellformed(es, out)
  {
    exists i :: 0 <= i < |es| && Creates(es[i], out, k) && LeftAlone(es, i, out, k)
  }

  /** Something spends or confirms the output. */
  ghost predicate Touches(e: Mempool.Event, out: Outpoint -> Output, k: Outpoint)
    requires Mempool.Wellformed(e, out)
  {
    SpendsIt(e, k) || ConfirmsIt(e, out, k) || TakesIt(e, k)
  }

  ghost predicate LeftAlone(es: seq<Mempool.Event>, i: nat, out: Outpoint -> Output, k: Outpoint)
    requires Mempool.AllWellformed(es, out)
  {
    forall j :: i <= j < |es| ==> !Touches(es[j], out, k)
  }

  lemma LeftAloneSnoc(es: seq<Mempool.Event>, i: nat, out: Outpoint -> Output, k: Outpoint)
    requires Mempool.AllWellformed(es, out) && i < |es|
    ensures LeftAlone(es, i, out, k) <==> LeftAlone(es[..|es| - 1], i, out, k) && !Touches(es[|es| - 1], out, k)
  {
    var front := es[..|es| - 1];
    assert forall j :: 0 <= j < |front| ==> front[j] == es[j];
  }

  lemma StillWaiting(es: seq<Mempool.Event>, out: Outpoint -> Output, k: Outpoint)
    requires Mempool.AllWellformed(es, out) && |es| > 0 && Waiting(es, out, k)
    ensures !Touches(es[|es| - 1], out, k)
    ensures Waiting(es[..|es| - 1], out, k) || Creates(es[|es| - 1], out, k)
  {
    var i :| 0 <= i < |es| && Creates(es[i], out, k) && LeftAlone(es, i, out, k);
    StillWaitingSince(es, i, out, k);
  }

  lemma StillWaitingSince(es: seq<Mempool.Event>, i: nat, out: Outpoint -> Output, k: Outpoint)
    requires Mempool.AllWellformed(es, out) && i < |es| && Creates(es[i], out, k) && LeftAlone(es, i, out, k)
    ensures !Touches(es[|es| - 1], out, k)
    ensures Waiting(es[..|es| - 1], out, k) || Creates(es[|es| - 1], out, k)
  {
    var front := es[..|es| - 1];
    LeftAloneSnoc(es, i, out, k);
    if i < |front| {
      assert front[i] == es[i];
      assert Creates(front[i], out, k) && LeftAlone(front, i, out, k);
    }
  }

  lemma WaitingGoesOn(es: seq<Mempool.Event>, out: Outpoint -> Output, k: Outpoint)
    requires Mempool.AllWellformed(es, out) && |es| > 0 && !Touches(es[|es| - 1], out, k)
    requires Waiting(es[..|es| - 1], out, k) || Creates(es[|es| - 1], out, k)
    ensures Waiting(es, out, k)
  {
    var front := es[..|es| - 1];
    if Creates(es[|es| - 1], out, k) {
      assert LeftAlone(es, |es| - 1, out, k);
    } else {
      var i :| 0 <= i < |front| && Creates(front[i], out, k) && LeftAlone(front, i, out, k);
      LeftAloneSnoc(es, i, out, k);
      assert es[i] == front[i];
    }
  }

  lemma {:induction false} PendingTrack(t: Track, es: seq<Mempool.Event>, out: Outpoint -> Output, k: Outpoint)
    requires Mempool.AllWellformed(es, out) && !t.pending
    ensures Tracked(t, es, out, k).pending <==> Waiting(es, out, k)
    decreases |es|
  {
    if |es| > 0 {
      PendingTrack(t, es[..|es| - 1], out, k);
      if Waiting(es, out, k) {
        StillWaiting(es, out, k);
      } else if Tracked(t, es, out, k).pending {
        WaitingGoesOn(es, out, k);
      }
    }
  }

  /**
   * An output that was not pending is counted as pending iff an arrival created it and nothing spent or
   * confirmed it from then on: a spender that arrived before the last creating transaction makes no difference.
   */
  lemma SpentYetPending(db: Db, live: set<Outpoint>, mem: set<Outpoint>, es: seq<Mempool.Event>, out: Outpoint -> Output, k: Outpoint)
    requires Layers(db, live, mem, out) && Mempool.AllWellformed(es, out) && k !in mem
    ensures k in Queries.Pending(Mempool.AfterEvents(db, es, out), out(k).script) <==> Waiting(es, out, k)
  {
    var t := Track(k in live, k in db.memOutpoints, k in db.memSpent, false);
    CountedExactly(db, live, mem, es, out, k, t);
    PendingTrack(t, es, out, k);
  }
}
