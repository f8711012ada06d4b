/**
 * The lineage of minting batons: in every run of untrusted additions, in any order, the valid
 * GENESIS and MINT transactions of a token form a single chain of baton spends, so that at most one
 * baton is unspent and the "mint rare condition" exception is never thrown.
 */
module SlpBaton {
  import opened Transactions
  import opened SlpValidator
  import opened SlpSupply
  import opened Topology

  /** What the block chain guarantees of the transactions it delivers. */
  ghost predicate Honest(txs: map<Txid, Transaction>) {
    && NoDoubleSpend(txs)
    // a transaction cannot name itself
    && (forall x, i :: x in txs && 0 <= i < |txs[x].inputs| ==> txs[x].inputs[i].txid != x)
    // a token is named by its genesis
    && (forall x :: x in txs && txs[x].slp.action.Genesis? ==> txs[x].slp.tokenid == x)
  }

  /** `child` spends what `parent` names for its baton, and both are of the same token. */
  ghost predicate BatonLink(parent: Transaction, child: Transaction) {
    child.slp.action.Mint? && Issues(parent) && SameToken(child, parent) && Baton(parent) in child.inputs
  }

  /** The chain from the genesis named by the token through all valid MINTs of that token. */
  ghost predicate Lineage(s: State, id: Txid, chain: seq<Txid>) {
    && (forall i :: 0 <= i < |chain| ==> chain[i] in s.valid && chain[i] in s.txs && s.txs[chain[i]].slp.tokenid == id && Issues(s.txs[chain[i]]))
    && (forall i, j :: 0 <= i < j < |chain| ==> chain[i] != chain[j])
    && (|chain| > 0 ==> chain[0] == id && s.txs[id].slp.action.Genesis?)
    && (forall i :: 0 < i < |chain| ==> BatonLink(s.txs[chain[i - 1]], s.txs[chain[i]]))
    && (forall x :: x in s.valid && x in s.txs && s.txs[x].slp.tokenid == id && Issues(s.txs[x]) ==> x in chain)
  }

  /** A lineage in which every baton that is spent was really created. */
  ghost predicate TrueLineage(s: State, id: Txid, chain: seq<Txid>) {
    Lineage(s, id, chain) && forall i :: 0 <= i < |chain| - 1 ==> Baton(s.txs[chain[i]]).vout != 0
  }

  // ----- The baton walk in a state with a lineage -----

  /** A transaction that is not valid yet can only spend the baton at the end of the chain. */
  lemma OnlyLastBaton(s: State, id: Txid, chain: seq<Txid>, x: Txid, o: Outpoint)
    requires Keyed(s) && Honest(s.txs) && Lineage(s, id, chain)
    requires x in s.txs && x !in s.valid && s.txs[x].slp.tokenid == id
    requires o in s.txs[x].inputs && SpendsBaton(s, s.txs[x], o)
    ensures |chain| > 0 && o == Baton(s.txs[chain[|chain| - 1]])
  {
    assert o.txid in chain;
    var i :| 0 <= i < |chain| && chain[i] == o.txid;
    if i < |chain| - 1 {
      InnerBatonTaken(s, id, chain, x, i);
    }
  }

  /** The baton of an inner element of the chain is spent by the next one. */
  lemma InnerBatonTaken(s: State, id: Txid, chain: seq<Txid>, x: Txid, i: nat)
    requires Honest(s.txs) && Lineage(s, id, chain) && i + 1 < |chain| && x in s.txs && x !in s.valid
    ensures Baton(s.txs[chain[i]]) !in s.txs[x].inputs
  {
    var o := Baton(s.txs[chain[i]]);
    assert BatonLink(s.txs[chain[i]], s.txs[chain[i + 1]]);
    if o in s.txs[x].inputs {
      SameSpender(s.txs, x, chain[i + 1], o);
    }
  }

  lemma SameSpender(txs: map<Txid, Transaction>, x: Txid, y: Txid, o: Outpoint)
    requires NoDoubleSpend(txs) && x in txs && y in txs && o in txs[x].inputs && o in txs[y].inputs
    ensures x == y
  {
    var i :| 0 <= i < |txs[x].inputs| && txs[x].inputs[i] == o;
    var j :| 0 <= j < |txs[y].inputs| && txs[y].inputs[j] == o;
  }

  /** If only one outpoint can count as a baton spend, the walk finds its parent or nothing. */
  lemma {:induction false} SingleParent(s: State, front: Transaction, inputs: seq<Outpoint>, b: Outpoint)
    requires forall i, j :: 0 <= i < j < |inputs| ==> inputs[i] != inputs[j]
    requires forall o :: o in inputs && SpendsBaton(s, front, o) ==> o == b
    ensures BatonParents(s, front, inputs) == if b in inputs && SpendsBaton(s, front, b) then [s.txs[b.txid]] else []
    decreases |inputs|
  {
    if |inputs| > 0 {
      var n := |inputs| - 1;
      SingleParent(s, front, inputs[..n], b);
      assert inputs == inputs[..n] + [inputs[n]];
    }
  }

  /** A MINT that is not valid yet has at most one baton parent, the end of the chain. */
  lemma HomeIsLast(s: State, id: Txid, chain: seq<Txid>, x: Txid)
    requires Keyed(s) && Honest(s.txs) && Lineage(s, id, chain)
    requires x in s.txs && x !in s.valid && s.txs[x].slp.tokenid == id
    ensures var home := WalkMintsHome(s, s.txs[x], s.txs[x]);
      home == [] || (|chain| > 0 && home == [s.txs[chain[|chain| - 1]]] && SameToken(s.txs[x], home[0]) && Baton(home[0]) in s.txs[x].inputs)
  {
    var tx := s.txs[x];
    forall o | o in tx.inputs && SpendsBaton(s, tx, o)
      ensures |chain| > 0 && o == Baton(s.txs[chain[|chain| - 1]])
    {
      OnlyLastBaton(s, id, chain, x, o);
    }
    var b := if |chain| > 0 then Baton(s.txs[chain[|chain| - 1]]) else Outpoint(0, 0);
    SingleParent(s, tx, tx.inputs, b);
  }

  /** The baton parent of a MINT inside the chain is the element before it, and nothing else. */
  lemma ParentInChain(s: State, id: Txid, chain: seq<Txid>, k: nat, front: Transaction)
    requires Keyed(s) && Honest(s.txs) && Lineage(s, id, chain) && 0 < k == |chain| - 1
    requires SameToken(front, s.txs[chain[k]])
    ensures WalkMintsHome(s, front, s.txs[chain[k]]) == [s.txs[chain[k - 1]]]
  {
    var p, q := chain[k], chain[k - 1];
    var b := Baton(s.txs[q]);
    assert BatonLink(s.txs[q], s.txs[p]);
    forall o | o in s.txs[p].inputs && SpendsBaton(s, front, o)
      ensures o == b
    {
      assert o.txid in chain;
      var j :| 0 <= j < |chain| && chain[j] == o.txid;
      assert j != k;
      assert BatonLink(s.txs[chain[j]], s.txs[chain[j + 1]]);
      SameSpender(s.txs, p, chain[j + 1], o);
    }
    assert SpendsBaton(s, front, b);
    SingleParent(s, front, s.txs[p].inputs, b);
  }

  /** So the verdict on a MINT is whether it spends the baton at the end of the chain; never a throw. */
  lemma MintDecided(s: State, id: Txid, chain: seq<Txid>, x: Txid)
    requires Keyed(s) && Honest(s.txs) && Lineage(s, id, chain)
    requires x in s.txs && x !in s.valid && s.txs[x].slp.tokenid == id && s.txs[x].slp.action.Mint?
    ensures MintVerdict(s, s.txs[x]) == if WalkMintsHome(s, s.txs[x], s.txs[x]) == [] then Rejected else Accepted
  {
    var tx := s.txs[x];
    var home := WalkMintsHome(s, tx, tx);
    HomeIsLast(s, id, chain, x);
    if home != [] {
      var k := |chain| - 1;
      if home[0].slp.action.Genesis? {
        assert HasGenesis(home);
      } else {
        assert k > 0;
        ParentInChain(s, id, chain, k, tx);
        assert home[..0] == [];
        assert WalkAll(s, tx, home) == WalkAll(s, tx, []) + [s.txs[chain[k - 1]]];
      }
    } else {
      assert WalkAll(s, tx, home) == [];
    }
  }

  // ----- One transaction becomes valid -----

  /** The chain after transaction `x` was accepted. */
  ghost function Extended(s: State, id: Txid, chain: seq<Txid>, x: Txid): seq<Txid>
    requires x in s.txs
  {
    if s.txs[x].slp.tokenid == id && Issues(s.txs[x]) then chain + [x] else chain
  }

  lemma AcceptanceExtends(s: State, id: Txid, chain: seq<Txid>, x: Txid)
    requires Keyed(s) && Honest(s.txs) && Lineage(s, id, chain)
    requires x in s.txs && x !in s.valid && Check(s, s.txs[x]) == Accepted
    ensures Lineage(Accept(s, x), id, Extended(s, id, chain, x))
  {
    var tx := s.txs[x];
    if tx.slp.tokenid == id && tx.slp.action.Genesis? {
      assert |chain| == 0;
      AppendIssuance(s, id, chain, x);
    } else if tx.slp.tokenid == id && tx.slp.action.Mint? {
      assert |chain| > 0 && BatonLink(s.txs[chain[|chain| - 1]], tx) by {
        HomeIsLast(s, id, chain, x);
        MintDecided(s, id, chain, x);
      }
      AppendIssuance(s, id, chain, x);
    }
  }

  /** An issuance goes to the end of the chain: the genesis of an empty one, a spender of the last baton otherwise. */
  lemma AppendIssuance(s: State, id: Txid, chain: seq<Txid>, x: Txid)
    requires Keyed(s) && Honest(s.txs) && Lineage(s, id, chain)
    requires x in s.txs && x !in s.valid && s.txs[x].slp.tokenid == id && Issues(s.txs[x])
    requires if |chain| == 0 then s.txs[x].slp.action.Genesis? else BatonLink(s.txs[chain[|chain| - 1]], s.txs[x])
    ensures Lineage(Accept(s, x), id, chain + [x])
  {
    var chain' := chain + [x];
    assert chain'[|chain|] == x && forall i :: 0 <= i < |chain| ==> chain'[i] == chain[i];
    forall i | 0 < i < |chain'|
      ensures BatonLink(s.txs[chain'[i - 1]], s.txs[chain'[i]])
    {
      if i < |chain| {
        assert BatonLink(s.txs[chain[i - 1]], s.txs[chain[i]]);
      }
    }
    assert forall y :: y in chain ==> y in chain';
  }

  // ----- Every run -----

  lemma {:induction false} ParentsStable(s: State, t: State, front: Transaction, inputs: seq<Outpoint>)
    requires Before(s, t) && s.valid == t.valid && s.valid <= s.txs.Keys
    ensures BatonParents(s, front, inputs) == BatonParents(t, front, inputs)
    decreases |inputs|
  {
    if |inputs| > 0 {
      ParentsStable(s, t, front, inputs[..|inputs| - 1]);
    }
  }

  lemma {:induction false} WalkStable(s: State, t: State, front: Transaction, backs: seq<Transaction>)
    requires Before(s, t) && s.valid == t.valid && s.valid <= s.txs.Keys
    ensures WalkAll(s, front, backs) == WalkAll(t, front, backs)
    decreases |backs|
  {
    if |backs| > 0 {
      var n := |backs| - 1;
      WalkStable(s, t, front, backs[..n]);
      ParentsStable(s, t, front, backs[n].inputs);
    }
  }

  /** A verdict does not change when more transactions are known but no more are valid. */
  lemma CheckStable(s: State, t: State, tx: Transaction)
    requires Before(s, t) && s.valid == t.valid && s.valid <= s.txs.Keys
    ensures Check(s, tx) == Check(t, tx)
  {
    InputSumStable(s, t, tx, tx.inputs);
    ParentsStable(s, t, tx, tx.inputs);
    WalkStable(s, t, tx, WalkMintsHome(s, tx, tx));
  }

  lemma StepExtends(s: State, tx: Transaction, final: State, id: Txid, chain: seq<Txid>) returns (chain': seq<Txid>)
    requires WellFormed(s) && Sized(tx) && Keyed(final) && Honest(final.txs) && Before(Step(s, tx), final)
    requires Lineage(At(s, final.txs), id, chain)
    ensures Lineage(At(Step(s, tx), final.txs), id, chain')
    ensures chain <= chain'
  {
    var x := tx.txid;
    if Step(s, tx).valid == s.valid {
      chain' := chain;
    } else {
      var s1, f := Insert(s, tx), At(s, final.txs);
      assert s1.txs[x] == final.txs[x];
      CheckStable(s1, f, final.txs[x]);
      AcceptanceExtends(f, id, chain, x);
      chain' := Extended(f, id, chain, x);
      assert Accept(f, x) == At(Step(s, tx), final.txs);
    }
  }

  lemma {:induction false} PrefixLineage(txs: seq<Transaction>, i: nat, id: Txid) returns (chain: seq<Txid>)
    requires AllSized(txs) && Honest(Run(txs).txs) && i <= |txs|
    ensures Lineage(At(Run(txs[..i]), Run(txs).txs), id, chain)
    decreases i
  {
    if i == 0 {
      chain := [];
    } else {
      chain := PrefixLineage(txs, i - 1, id);
      assert txs[..i][..i - 1] == txs[..i - 1];
      RunWellFormed(txs[..i - 1]);
      RunWellFormed(txs);
      RunGrows(txs, i);
      chain := StepExtends(Run(txs[..i - 1]), txs[i - 1], Run(txs), id, chain);
    }
  }

  /**
   * Single baton lineage: after any run, the valid GENESIS and MINT transactions of a token are
   * exactly one chain of baton spends that starts at the genesis named by the token.
   */
  lemma SingleLineage(txs: seq<Transaction>, id: Txid) returns (chain: seq<Txid>)
    requires AllSized(txs) && Honest(Run(txs).txs)
    ensures Lineage(Run(txs), id, chain)
  {
    chain := PrefixLineage(txs, |txs|, id);
    assert txs[..|txs|] == txs;
  }

  /** Batons of valid transactions of a token that no valid MINT of the token spends. */
  ghost predicate UnspentBaton(s: State, id: Txid, x: Txid) {
    && x in s.valid && x in s.txs && s.txs[x].slp.tokenid == id && Issues(s.txs[x])
    && Baton(s.txs[x]).vout != 0
    && forall y :: y in s.valid && y in s.txs && s.txs[y].slp.action.Mint? && s.txs[y].slp.tokenid == id ==> Baton(s.txs[x]) !in s.txs[y].inputs
  }

  /** The next element of the chain spends the baton. */
  lemma SpentUnlessLast(s: State, id: Txid, chain: seq<Txid>, i: nat)
    requires Lineage(s, id, chain) && i + 1 < |chain|
    ensures !UnspentBaton(s, id, chain[i])
  {
    assert BatonLink(s.txs[chain[i]], s.txs[chain[i + 1]]);
  }

  /** At most one baton of a token is unspent. */
  lemma OneUnspentBaton(txs: seq<Transaction>, id: Txid, x: Txid, y: Txid)
    requires AllSized(txs) && Honest(Run(txs).txs)
    requires UnspentBaton(Run(txs), id, x) && UnspentBaton(Run(txs), id, y)
    ensures x == y
  {
    var s := Run(txs);
    var chain := SingleLineage(txs, id);
    forall i | 0 <= i < |chain| - 1
      ensures !UnspentBaton(s, id, chain[i])
    {
      SpentUnlessLast(s, id, chain, i);
    }
    assert x in chain && y in chain;
  }

  lemma StepNeverThrows(s: State, tx: Transaction, final: State, chain: seq<Txid>)
    requires WellFormed(s) && Sized(tx) && Keyed(final) && Honest(final.txs) && Before(Step(s, tx), final)
    requires tx.txid in final.txs && Lineage(At(s, final.txs), final.txs[tx.txid].slp.tokenid, chain)
    ensures StepResult(s, tx) != Threw
  {
    var x := tx.txid;
    if !tx.slp.action.Invalid? && x !in s.valid {
      var s1, f := Insert(s, tx), At(s, final.txs);
      assert s1.txs[x] == final.txs[x];
      CheckStable(s1, f, final.txs[x]);
      if final.txs[x].slp.action.Mint? {
        MintDecided(f, final.txs[x].slp.tokenid, chain, x);
      }
    }
  }

  /** No addition of the run throws. */
  lemma NeverThrows(txs: seq<Transaction>, i: nat)
    requires AllSized(txs) && Honest(Run(txs).txs) && i < |txs|
    ensures StepResult(Run(txs[..i]), txs[i]) != Threw
  {
    var tx, final := txs[i], Run(txs);
    if !tx.slp.action.Invalid? {
      assert WellFormed(Run(txs[..i])) by { RunWellFormed(txs[..i]); }
      assert WellFormed(final) by { RunWellFormed(txs); }
      assert Before(Step(Run(txs[..i]), tx), final) by {
        RunGrows(txs, i + 1);
        assert txs[..i + 1][..i] == txs[..i];
      }
      assert tx.txid in Step(Run(txs[..i]), tx).txs;
      var chain := PrefixLineage(txs, i, final.txs[tx.txid].slp.tokenid);
      StepNeverThrows(Run(txs[..i]), tx, final, chain);
    }
  }

  // ----- Batons that were never created -----

  /** The input takes what a valid issuance of the token of `front` names for its baton. */
  ghost predicate TakesBaton(s: State, front: Transaction, o: Outpoint) {
    && o.txid in s.valid && o.txid in s.txs && Issues(s.txs[o.txid]) && o == Baton(s.txs[o.txid])
    && s.txs[o.txid].slp.tokenid == front.slp.tokenid && s.txs[o.txid].slp.tokenType == front.slp.tokenType
  }

  /** The transaction has an input that counts as a baton spend. */
  ghost predicate SpendsSomeBaton(s: State, tx: Transaction) {
    exists k :: 0 <= k < |tx.inputs| && TakesBaton(s, tx, tx.inputs[k])
  }

  /** That input spends a baton that exists. */
  ghost predicate SpendsTrueBaton(s: State, tx: Transaction) {
    exists k :: 0 <= k < |tx.inputs| && TakesBaton(s, tx, tx.inputs[k]) && tx.inputs[k].vout != 0
  }

  /** That input spends output 0, which stands for "no baton". */
  ghost predicate SpendsMissingBaton(s: State, tx: Transaction) {
    exists k :: 0 <= k < |tx.inputs| && TakesBaton(s, tx, tx.inputs[k]) && tx.inputs[k].vout == 0
  }

  lemma TakesIsSpends(s: State, front: Transaction, o: Outpoint)
    ensures TakesBaton(s, front, o) <==> SpendsBaton(s, front, o)
  {
  }

  /** The baton walk finds something exactly when some input counts as a baton spend. */
  lemma {:induction false} ParentsFound(s: State, front: Transaction, inputs: seq<Outpoint>)
    ensures BatonParents(s, front, inputs) != [] <==> exists k :: 0 <= k < |inputs| && SpendsBaton(s, front, inputs[k])
    decreases |inputs|
  {
    if |inputs| > 0 {
      var n := |inputs| - 1;
      ParentsFound(s, front, inputs[..n]);
      assert forall k :: 0 <= k < n ==> inputs[..n][k] == inputs[k];
    }
  }

  /** A MINT is accepted iff an input counts as a baton spend, whether or not the baton exists. */
  lemma MintAccepted(s: State, id: Txid, chain: seq<Txid>, x: Txid)
    requires Keyed(s) && Honest(s.txs) && Lineage(s, id, chain)
    requires x in s.txs && x !in s.valid && s.txs[x].slp.tokenid == id && s.txs[x].slp.action.Mint?
    ensures MintVerdict(s, s.txs[x]) == Accepted <==> SpendsSomeBaton(s, s.txs[x])
  {
    MintDecided(s, id, chain, x);
    var tx := s.txs[x];
    ParentsFound(s, tx, tx.inputs);
    forall k | 0 <= k < |tx.inputs| ensures TakesBaton(s, tx, tx.inputs[k]) <==> SpendsBaton(s, tx, tx.inputs[k]) { TakesIsSpends(s, tx, tx.inputs[k]); }
  }

  lemma TrueBatonExtends(s: State, id: Txid, chain: seq<Txid>, x: Txid)
    requires Keyed(s) && Honest(s.txs) && TrueLineage(s, id, chain)
    requires x in s.txs && x !in s.valid && s.txs[x].slp.tokenid == id && s.txs[x].slp.action.Mint?
    requires SpendsTrueBaton(s, s.txs[x])
    ensures TrueLineage(Accept(s, x), id, chain + [x])
  {
    var tx := s.txs[x];
    var k :| 0 <= k < |tx.inputs| && TakesBaton(s, tx, tx.inputs[k]) && tx.inputs[k].vout != 0;
    TakesIsSpends(s, tx, tx.inputs[k]);
    OnlyLastBaton(s, id, chain, x, tx.inputs[k]);
    MintExtends(s, id, chain, x);
    assert forall i :: 0 <= i < |chain| ==> (chain + [x])[i] == chain[i];
  }

  lemma MintExtends(s: State, id: Txid, chain: seq<Txid>, x: Txid)
    requires Keyed(s) && Honest(s.txs) && Lineage(s, id, chain)
    requires x in s.txs && x !in s.valid && s.txs[x].slp.tokenid == id && s.txs[x].slp.action.Mint?
    requires SpendsSomeBaton(s, s.txs[x])
    ensures Lineage(Accept(s, x), id, chain + [x])
  {
    MintAccepted(s, id, chain, x);
    AcceptanceExtends(s, id, chain, x);
  }

  lemma TrueParent(s: State, id: Txid, x: Txid, c: seq<Txid>)
    requires Keyed(s) && x in s.txs && x !in s.valid && s.txs[x].slp.tokenid == id && s.txs[x].slp.action.Mint?
    requires TrueLineage(Accept(s, x), id, c)
    ensures SpendsTrueBaton(s, s.txs[x])
  {
    var tx := s.txs[x];
    assert x in c;
    var i :| 0 <= i < |c| && c[i] == x;
    assert i > 0;
    var o := Baton(s.txs[c[i - 1]]);
    assert BatonLink(s.txs[c[i - 1]], tx);
    assert c[i - 1] != x && TakesBaton(s, tx, o) && o.vout != 0;
    var k :| 0 <= k < |tx.inputs| && tx.inputs[k] == o;
  }

  /** The lineage stays true exactly when the MINT spends a baton that exists. */
  lemma TrueLineageKept(s: State, id: Txid, chain: seq<Txid>, x: Txid)
    requires Keyed(s) && Honest(s.txs) && TrueLineage(s, id, chain)
    requires x in s.txs && x !in s.valid && s.txs[x].slp.tokenid == id && s.txs[x].slp.action.Mint?
    ensures (exists c :: TrueLineage(Accept(s, x), id, c)) <==> SpendsTrueBaton(s, s.txs[x])
    ensures MintVerdict(s, s.txs[x]) == Accepted && !SpendsTrueBaton(s, s.txs[x]) <==> SpendsMissingBaton(s, s.txs[x])
  {
    var tx := s.txs[x];
    if SpendsTrueBaton(s, tx) {
      TrueBatonExtends(s, id, chain, x);
    } else if c :| TrueLineage(Accept(s, x), id, c) {
      TrueParent(s, id, x, c);
    }
    MintAccepted(s, id, chain, x);
    forall j, k | 0 <= j < |tx.inputs| && 0 <= k < |tx.inputs| && TakesBaton(s, tx, tx.inputs[j]) && TakesBaton(s, tx, tx.inputs[k])
      ensures tx.inputs[j] == tx.inputs[k]
    {
      TakesIsSpends(s, tx, tx.inputs[j]);
      TakesIsSpends(s, tx, tx.inputs[k]);
      OnlyLastBaton(s, id, chain, x, tx.inputs[j]);
      OnlyLastBaton(s, id, chain, x, tx.inputs[k]);
    }
  }

  /** No valid MINT of the token spends output 0 of an issuance of the token that has no baton. */
  ghost predicate NoMissingBaton(s: State, id: Txid) {
    forall x, y :: x in s.valid && x in s.txs && s.txs[x].slp.tokenid == id && s.txs[x].slp.action.Mint?
      && y in s.valid && y in s.txs && Issues(s.txs[y]) && SameToken(s.txs[x], s.txs[y]) && Baton(s.txs[y]).vout == 0
      ==> Baton(s.txs[y]) !in s.txs[x].inputs
  }

  lemma {:induction false} ChainRanks(s: State, id: Txid, chain: seq<Txid>, rank: Txid -> nat, i: nat, j: nat)
    requires Keyed(s) && Lineage(s, id, chain) && Ranked(s.txs, rank) && i <= j < |chain|
    ensures rank(chain[i]) <= rank(chain[j])
    decreases j
  {
    if i < j {
      ChainRanks(s, id, chain, rank, i, j - 1);
      assert BatonLink(s.txs[chain[j - 1]], s.txs[chain[j]]);
      SpendRanks(s.txs, rank, chain[j], Baton(s.txs[chain[j - 1]]));
    }
  }

  lemma SpendRanks(txs: map<Txid, Transaction>, rank: Txid -> nat, x: Txid, o: Outpoint)
    requires Ranked(txs, rank) && x in txs && o in txs[x].inputs && o.txid in txs
    ensures rank(o.txid) < rank(x)
  {
    var k :| 0 <= k < |txs[x].inputs| && txs[x].inputs[k] == o;
  }

  /** In an acyclic state a lineage is true exactly when no valid MINT spends a missing baton. */
  lemma TrueIffNoneMissing(s: State, id: Txid, chain: seq<Txid>)
    requires Keyed(s) && Honest(s.txs) && Lineage(s, id, chain) && Acyclic(s.txs)
    ensures TrueLineage(s, id, chain) <==> NoMissingBaton(s, id)
  {
    if TrueLineage(s, id, chain) {
      forall x, y | x in s.valid && x in s.txs && s.txs[x].slp.tokenid == id && s.txs[x].slp.action.Mint?
        && y in s.valid && y in s.txs && Issues(s.txs[y]) && SameToken(s.txs[x], s.txs[y]) && Baton(s.txs[y]).vout == 0
        ensures Baton(s.txs[y]) !in s.txs[x].inputs
      {
        MissingSpender(s, id, chain, x, y);
      }
    } else {
      var i :| 0 <= i < |chain| - 1 && Baton(s.txs[chain[i]]).vout == 0;
      assert BatonLink(s.txs[chain[i]], s.txs[chain[i + 1]]);
    }
  }

  /** Nothing in a true lineage spends output 0 of a member without a baton. */
  lemma MissingSpender(s: State, id: Txid, chain: seq<Txid>, x: Txid, y: Txid)
    requires Keyed(s) && Honest(s.txs) && TrueLineage(s, id, chain) && Acyclic(s.txs)
    requires x in chain && y in chain && Baton(s.txs[y]).vout == 0
    ensures Baton(s.txs[y]) !in s.txs[x].inputs
  {
    var i :| 0 <= i < |chain| && chain[i] == x;
    var j :| 0 <= j < |chain| && chain[j] == y;
    assert j == |chain| - 1;
    var rank: Txid -> nat :| Ranked(s.txs, rank);
    ChainRanks(s, id, chain, rank, i, j);
    if Baton(s.txs[y]) in s.txs[x].inputs {
      SpendRanks(s.txs, rank, x, Baton(s.txs[y]));
    }
  }

  /** So after every acyclic run, each token has a true lineage exactly when no valid MINT spends a missing baton. */
  lemma RunLineageTrue(txs: seq<Transaction>, id: Txid) returns (chain: seq<Txid>)
    requires AllSized(txs) && Honest(Run(txs).txs) && Acyclic(Run(txs).txs)
    ensures Lineage(Run(txs), id, chain) && (TrueLineage(Run(txs), id, chain) <==> NoMissingBaton(Run(txs), id))
  {
    chain := SingleLineage(txs, id);
    RunWellFormed(txs);
    TrueIffNoneMissing(Run(txs), id, chain);
  }

  // ----- The verdict on a MINT, by ancestors -----

  /** `p` is a valid issuance of the token of `front` whose baton `tx` spends. */
  ghost predicate BatonParent(s: State, front: Transaction, tx: Transaction, p: Txid) {
    exists k :: 0 <= k < |tx.inputs| && tx.inputs[k].txid == p && TakesBaton(s, front, tx.inputs[k])
  }

  ghost predicate Lists(ts: seq<Transaction>, p: Txid) {
    exists i :: 0 <= i < |ts| && ts[i].txid == p
  }

  lemma {:induction false} ParentsListed(s: State, front: Transaction, tx: Transaction, n: nat, p: Txid)
    requires Keyed(s) && n <= |tx.inputs|
    ensures Lists(BatonParents(s, front, tx.inputs[..n]), p)
       <==> exists k :: 0 <= k < n && tx.inputs[k].txid == p && TakesBaton(s, front, tx.inputs[k])
    decreases n
  {
    if n > 0 {
      ParentsListed(s, front, tx, n - 1, p);
      var o, inputs := tx.inputs[n - 1], tx.inputs[..n];
      assert inputs[..n - 1] == tx.inputs[..n - 1];
      TakesIsSpends(s, front, o);
      var rest, all := BatonParents(s, front, inputs[..n - 1]), BatonParents(s, front, inputs);
      assert all == if SpendsBaton(s, front, o) then rest + [s.txs[o.txid]] else rest;
      if i :| 0 <= i < |all| && all[i].txid == p {
        assert i < |rest| ==> rest[i] == all[i];
      }
      if i :| 0 <= i < |rest| && rest[i].txid == p {
        assert all[i] == rest[i];
      }
      if SpendsBaton(s, front, o) && o.txid == p {
        assert all[|rest|].txid == p;
      }
    }
  }

  /** The walk lists the baton parents, as they are stored. */
  lemma HomeListed(s: State, front: Transaction, tx: Transaction, p: Txid)
    requires Keyed(s) && SameToken(front, tx)
    ensures Lists(WalkMintsHome(s, front, tx), p) <==> BatonParent(s, front, tx, p)
  {
    ParentsListed(s, front, tx, |tx.inputs|, p);
    assert tx.inputs[..|tx.inputs|] == tx.inputs;
  }

  lemma HomeStored(s: State, front: Transaction, tx: Transaction, i: nat)
    requires Keyed(s) && i < |WalkMintsHome(s, front, tx)|
    ensures
      var t := WalkMintsHome(s, front, tx)[i];
      t.txid in s.txs && s.txs[t.txid] == t && SameToken(front, t) && BatonParent(s, front, tx, t.txid)
  {
    var k := BatonParentOf(s, front, tx.inputs, i);
    TakesIsSpends(s, front, tx.inputs[k]);
  }

  lemma {:induction false} WalkListed(s: State, front: Transaction, backs: seq<Transaction>, q: Txid)
    requires Keyed(s) && forall i :: 0 <= i < |backs| ==> SameToken(front, backs[i])
    ensures Lists(WalkAll(s, front, backs), q) <==> exists j :: 0 <= j < |backs| && BatonParent(s, front, backs[j], q)
    decreases |backs|
  {
    if |backs| > 0 {
      var n := |backs| - 1;
      WalkListed(s, front, backs[..n], q);
      HomeListed(s, front, backs[n], q);
      var rest, last, all := WalkAll(s, front, backs[..n]), WalkMintsHome(s, front, backs[n]), WalkAll(s, front, backs);
      assert all == rest + last;
      if i :| 0 <= i < |all| && all[i].txid == q {
        assert if i < |rest| then rest[i].txid == q else last[i - |rest|].txid == q;
      }
      if i :| 0 <= i < |rest| && rest[i].txid == q {
        assert all[i].txid == q;
      }
      if i :| 0 <= i < |last| && last[i].txid == q {
        assert all[|rest| + i].txid == q;
      }
      assert forall j :: 0 <= j < n ==> backs[..n][j] == backs[j];
    }
  }

  /** A baton parent of a baton parent. */
  ghost predicate BatonGrandparent(s: State, tx: Transaction, q: Txid) {
    exists p :: BatonParent(s, tx, tx, p) && p in s.txs && BatonParent(s, tx, s.txs[p], q)
  }

  ghost predicate GenesisParent(s: State, tx: Transaction) {
    exists p :: BatonParent(s, tx, tx, p) && p in s.txs && s.txs[p].slp.action.Genesis?
  }

  lemma GrandparentsListed(s: State, tx: Transaction, q: Txid)
    requires Keyed(s)
    ensures Lists(WalkAll(s, tx, WalkMintsHome(s, tx, tx)), q) <==> BatonGrandparent(s, tx, q)
  {
    var home := WalkMintsHome(s, tx, tx);
    forall i | 0 <= i < |home| ensures SameToken(tx, home[i]) { HomeStored(s, tx, tx, i); }
    WalkListed(s, tx, home, q);
    if j :| 0 <= j < |home| && BatonParent(s, tx, home[j], q) {
      HomeStored(s, tx, tx, j);
      assert BatonParent(s, tx, tx, home[j].txid);
    }
    if p :| BatonParent(s, tx, tx, p) && p in s.txs && BatonParent(s, tx, s.txs[p], q) {
      HomeListed(s, tx, tx, p);
      var j :| 0 <= j < |home| && home[j].txid == p;
      HomeStored(s, tx, tx, j);
    }
  }

  lemma GenesisListed(s: State, tx: Transaction)
    requires Keyed(s)
    ensures HasGenesis(WalkMintsHome(s, tx, tx)) <==> GenesisParent(s, tx)
  {
    var home := WalkMintsHome(s, tx, tx);
    if i :| 0 <= i < |home| && home[i].slp.action.Genesis? {
      HomeStored(s, tx, tx, i);
    }
    if p :| BatonParent(s, tx, tx, p) && p in s.txs && s.txs[p].slp.action.Genesis? {
      HomeListed(s, tx, tx, p);
      var j :| 0 <= j < |home| && home[j].txid == p;
      HomeStored(s, tx, tx, j);
    }
  }

  /**
   * The verdict on a MINT in any state, double spends or not: it is accepted if a baton parent is a GENESIS;
   * otherwise its baton grandparents decide, of which there must be one, and not two.
   */
  lemma MintExactly(s: State, tx: Transaction)
    requires Keyed(s)
    ensures MintVerdict(s, tx) == Thrown
       <==> !GenesisParent(s, tx) && exists q, r :: BatonGrandparent(s, tx, q) && BatonGrandparent(s, tx, r) && q != r
    ensures MintVerdict(s, tx) == Rejected <==> !GenesisParent(s, tx) && !exists q :: BatonGrandparent(s, tx, q)
  {
    var grand := WalkAll(s, tx, WalkMintsHome(s, tx, tx));
    GenesisListed(s, tx);
    forall q ensures Lists(grand, q) <==> BatonGrandparent(s, tx, q) { GrandparentsListed(s, tx, q); }
    if |grand| > 0 {
      assert Lists(grand, grand[0].txid);
      if !AllSame(grand) {
        var i :| 0 <= i < |grand| && grand[i].txid != grand[0].txid;
        assert Lists(grand, grand[i].txid);
      }
    }
  }

  // ----- Short runs -----

  /** A transaction of token 1 with its message at output 0 and two more outputs. */
  function Example(txid: Txid, inputs: seq<Outpoint>, action: Action): Transaction {
    Transaction(txid, 1, 0, inputs,
                [Output(txid, 0, 0, [0x6A]), Output(txid, 1, 546, [0x51]), Output(txid, 2, 546, [0x52])],
                SlpMessage(1, 1, action), [])
  }

  /** A plain GENESIS becomes valid. */
  lemma GenesisRun(g: Transaction)
    requires g.slp.action.Genesis? && g.slp.tokenType != 0x41
    ensures Run([g]) == State(map[g.txid := g], {g.txid})
  {
    assert [g][..0] == [] && Run([]) == EMPTY;
    assert Run([g]) == Step(EMPTY, g);
    assert Insert(EMPTY, g).txs[g.txid] == g;
  }

  /** What comes next is valid iff it is accepted. */
  lemma NextRun(txs: seq<Transaction>, tx: Transaction)
    requires AllSized(txs) && tx.txid !in Run(txs).txs && !tx.slp.action.Invalid?
    ensures
      var s1 := Insert(Run(txs), tx);
      Run(txs + [tx]) == s1.(valid := s1.valid + if Check(s1, tx) == Accepted then {tx.txid} else {})
  {
    RunWellFormed(txs);
    assert (txs + [tx])[..|txs|] == txs;
    assert Run(txs + [tx]) == Step(Run(txs), tx);
    var s1 := Insert(Run(txs), tx);
    assert s1.valid + {} == s1.valid;
  }

  /** A MINT of token 1 with one input that spends output `v` of a GENESIS is valid iff that is its baton. */
  lemma MintRun(batonVout: nat, v: nat)
    ensures
      var genesis, mint := Example(1, [], Genesis([], [], [], [], 0, batonVout, 10)), Example(2, [Outpoint(1, v)], Mint(0, 5));
      Run([genesis, mint]).valid == if v == (if batonVout < 3 then batonVout else 0) then {1, 2} else {1}
  {
    var genesis, mint := Example(1, [], Genesis([], [], [], [], 0, batonVout, 10)), Example(2, [Outpoint(1, v)], Mint(0, 5));
    GenesisRun(genesis);
    NextRun([genesis], mint);
    var s1 := Insert(Run([genesis]), mint);
    assert s1.txs == map[1 := genesis, 2 := mint] && s1.valid == {1};
    MintExactly(s1, mint);
    assert BatonParent(s1, mint, mint, 1) <==> TakesBaton(s1, mint, mint.inputs[0]);
    assert forall p :: BatonParent(s1, mint, mint, p) ==> p == 1;
    assert forall q :: !BatonParent(s1, mint, genesis, q);
    assert [genesis] + [mint] == [genesis, mint];
  }

  /** A GENESIS without a baton, and a MINT that spends its output 0: both become valid. */
  lemma MintThroughOutputZero()
    ensures
      var genesis, mint := Example(1, [], Genesis([], [], [], [], 0, 0, 10)), Example(2, [Outpoint(1, 0)], Mint(0, 5));
      Run([genesis, mint]).valid == {1, 2} && !NoMissingBaton(Run([genesis, mint]), 1)
  {
    var genesis, mint := Example(1, [], Genesis([], [], [], [], 0, 0, 10)), Example(2, [Outpoint(1, 0)], Mint(0, 5));
    MintRun(0, 0);
    GenesisRun(genesis);
    NextRun([genesis], mint);
    assert [genesis] + [mint] == [genesis, mint];
    var s := Run([genesis, mint]);
    assert s.txs[1] == genesis && s.txs[2] == mint;
    assert Baton(s.txs[1]) == mint.inputs[0];
  }

  /** A SEND of token 1 that spends the tokens of a GENESIS is valid iff it sends no more than was issued. */
  lemma SendRun(issued: Amount, sent: Amount)
    ensures
      var genesis, send := Example(1, [], Genesis([], [], [], [], 0, 0, issued)), Example(2, [Outpoint(1, 1)], Send([sent]));
      Run([genesis, send]).valid == if sent <= issued then {1, 2} else {1}
  {
    var genesis, send := Example(1, [], Genesis([], [], [], [], 0, 0, issued)), Example(2, [Outpoint(1, 1)], Send([sent]));
    GenesisRun(genesis);
    NextRun([genesis], send);
    var s1 := Insert(Run([genesis]), send);
    assert s1.txs == map[1 := genesis, 2 := send] && s1.valid == {1};
    assert [sent][..0] == [] && SumAmounts([sent]) == sent;
    assert send.inputs[..0] == [] && InputSum(s1, send, []) == 0;
    assert InputSum(s1, send, send.inputs) == issued;
    assert [genesis] + [send] == [genesis, send];
  }
}
