/**
 * Conservation of token supply: in every state that untrusted additions reach, in any order, the
 * unspent amounts of a token never exceed what its valid GENESIS and MINT transactions issued.
 */
module SlpSupply {
  import opened Transactions
  import opened SlpValidator

  datatype Token = Token(id: Txid, kind: nat)

  function TokenOf(tx: Transaction): Token {
    Token(tx.slp.tokenid, tx.slp.tokenType)
  }

  // ----- Sums over sets of outpoints -----

  ghost function AmountOf(txs: map<Txid, Transaction>, o: Outpoint): nat {
    if o.txid in txs then Carried(txs[o.txid], o.vout) else 0
  }

  ghost function SumOver(txs: map<Txid, Transaction>, os: set<Outpoint>): nat
  {
    if os == {} then 0
    else
      var o :| o in os;
      AmountOf(txs, o) + SumOver(txs, os - {o})
  }

  /** The sum does not depend on which element is taken first. */
  lemma {:induction false} SumRemove(txs: map<Txid, Transaction>, os: set<Outpoint>, o: Outpoint)
    requires o in os
    ensures SumOver(txs, os) == AmountOf(txs, o) + SumOver(txs, os - {o})
    decreases |os|
  {
    var first :| first in os && SumOver(txs, os) == AmountOf(txs, first) + SumOver(txs, os - {first});
    if first != o {
      SumRemove(txs, os - {first}, o);
      SumRemove(txs, os - {o}, first);
      assert os - {first} - {o} == os - {o} - {first};
    }
  }

  lemma SumInsert(txs: map<Txid, Transaction>, os: set<Outpoint>, o: Outpoint)
    requires o !in os
    ensures SumOver(txs, os + {o}) == SumOver(txs, os) + AmountOf(txs, o)
  {
    SumRemove(txs, os + {o}, o);
    assert os + {o} - {o} == os;
  }

  lemma {:induction false} SumUnion(txs: map<Txid, Transaction>, a: set<Outpoint>, b: set<Outpoint>)
    requires a !! b
    ensures SumOver(txs, a + b) == SumOver(txs, a) + SumOver(txs, b)
    decreases |b|
  {
    if b == {} {
      assert a + b == a;
    } else {
      var o :| o in b;
      SumUnion(txs, a, b - {o});
      SumRemove(txs, b, o);
      SumRemove(txs, a + b, o);
      assert a + b - {o} == a + (b - {o});
    }
  }

  lemma SumSubset(txs: map<Txid, Transaction>, a: set<Outpoint>, b: set<Outpoint>)
    requires a <= b
    ensures SumOver(txs, a) <= SumOver(txs, b)
  {
    SumUnion(txs, a, b - a);
    assert a + (b - a) == b;
  }

  // ----- The ledger of one token -----

  /** How many outputs may carry an amount: outputs 1 to this number. */
  function Slots(tx: Transaction): nat {
    match tx.slp.action
    case Send(amounts) => |amounts|
    case Invalid => 0
    case _ => 1
  }

  predicate IsOf(s: State, token: Token, x: Txid) {
    x in s.valid && x in s.txs && TokenOf(s.txs[x]) == token
  }

  /** The amount-carrying outputs of one transaction. */
  ghost function OutputsOf(tx: Transaction): set<Outpoint> {
    set v | 1 <= v <= Slots(tx) :: Outpoint(tx.txid, v)
  }

  /** The amount-carrying outputs of the valid transactions of a token. */
  ghost function Outputs(s: State, token: Token): set<Outpoint> {
    set x, v | x in s.valid && IsOf(s, token, x) && 1 <= v <= Slots(s.txs[x]) :: Outpoint(x, v)
  }

  /** Outputs that a valid SEND of the token consumes. */
  ghost predicate SpentIn(s: State, token: Token, o: Outpoint) {
    exists y :: y in s.valid && IsOf(s, token, y) && s.txs[y].slp.action.Send? && o in s.txs[y].inputs
  }

  ghost function Unspent(s: State, token: Token): set<Outpoint> {
    set o | o in Outputs(s, token) && !SpentIn(s, token, o)
  }

  /** The valid GENESIS and MINT transactions of the token. */
  ghost function Issuers(s: State, token: Token): set<Txid> {
    set x | x in s.valid && IsOf(s, token, x) && Issues(s.txs[x])
  }

  ghost predicate AllIssue(txs: map<Txid, Transaction>, xs: set<Txid>) {
    forall x :: x in xs ==> x in txs && Issues(txs[x])
  }

  /** What the messages of some issuances say they issue. */
  ghost function Quantities(txs: map<Txid, Transaction>, xs: set<Txid>): nat
    requires AllIssue(txs, xs)
  {
    if xs == {} then 0
    else
      var x :| x in xs;
      txs[x].slp.action.qty + Quantities(txs, xs - {x})
  }

  lemma {:induction false} QuantityRemove(txs: map<Txid, Transaction>, xs: set<Txid>, x: Txid)
    requires AllIssue(txs, xs) && x in xs
    ensures Quantities(txs, xs) == txs[x].slp.action.qty + Quantities(txs, xs - {x})
    decreases |xs|
  {
    var first :| first in xs && Quantities(txs, xs) == txs[first].slp.action.qty + Quantities(txs, xs - {first});
    if first != x {
      QuantityRemove(txs, xs - {first}, x);
      QuantityRemove(txs, xs - {x}, first);
      assert xs - {first} - {x} == xs - {x} - {first};
    }
  }

  lemma QuantityInsert(txs: map<Txid, Transaction>, xs: set<Txid>, x: Txid)
    requires AllIssue(txs, xs + {x}) && x !in xs
    ensures Quantities(txs, xs + {x}) == Quantities(txs, xs) + txs[x].slp.action.qty
  {
    QuantityRemove(txs, xs + {x}, x);
    assert xs + {x} - {x} == xs;
  }

  /** The unspent amounts of the token are at most what its valid GENESIS and MINT messages issue. */
  ghost predicate Conserved(s: State, token: Token) {
    SumOver(s.txs, Unspent(s, token)) <= Quantities(s.txs, Issuers(s, token))
  }

  /** No outpoint is spent twice, neither by two transactions nor by one. */
  ghost predicate NoDoubleSpend(txs: map<Txid, Transaction>) {
    forall x, y, i, j ::
      x in txs && y in txs && 0 <= i < |txs[x].inputs| && 0 <= j < |txs[y].inputs| && txs[x].inputs[i] == txs[y].inputs[j]
      ==> x == y && i == j
  }

  // ----- One transaction becomes valid -----

  lemma {:induction false} SumOfPrefix(txs: map<Txid, Transaction>, x: Txid, k: nat)
    requires x in txs && txs[x].slp.action.Send? && k <= |txs[x].slp.action.amounts|
    ensures SumOver(txs, set v | 1 <= v <= k :: Outpoint(x, v)) == SumAmounts(txs[x].slp.action.amounts[..k])
  {
    var amounts := txs[x].slp.action.amounts;
    var os := set v | 1 <= v <= k :: Outpoint(x, v);
    if k == 0 {
      assert os == {};
    } else {
      SumOfPrefix(txs, x, k - 1);
      var rest := set v | 1 <= v <= k - 1 :: Outpoint(x, v);
      assert os == rest + {Outpoint(x, k)};
      SumInsert(txs, rest, Outpoint(x, k));
      assert amounts[..k][..k - 1] == amounts[..k - 1];
    }
  }

  /** The outputs of a SEND carry the sum of its amounts. */
  lemma SendTotal(s: State, x: Txid)
    requires x in s.txs && s.txs[x].txid == x && s.txs[x].slp.action.Send?
    ensures SumOver(s.txs, OutputsOf(s.txs[x])) == SumAmounts(s.txs[x].slp.action.amounts)
  {
    var amounts := s.txs[x].slp.action.amounts;
    SumOfPrefix(s.txs, x, |amounts|);
    assert amounts[..|amounts|] == amounts;
    assert OutputsOf(s.txs[x]) == set v | 1 <= v <= |amounts| :: Outpoint(x, v);
  }

  /** The token outputs among a list of inputs. */
  ghost function Consumed(s: State, token: Token, inputs: seq<Outpoint>): set<Outpoint> {
    set o | o in inputs && o in Outputs(s, token)
  }

  /** What the validator adds up for a SEND is what its inputs take from the token's outputs. */
  lemma {:induction false} InputSumIsConsumed(s: State, tx: Transaction, inputs: seq<Outpoint>)
    requires Keyed(s)
    requires forall i, j :: 0 <= i < j < |inputs| ==> inputs[i] != inputs[j]
    ensures InputSum(s, tx, inputs) == SumOver(s.txs, Consumed(s, TokenOf(tx), inputs))
    decreases |inputs|
  {
    var token := TokenOf(tx);
    if |inputs| == 0 {
      assert Consumed(s, token, inputs) == {};
    } else {
      var n := |inputs| - 1;
      var o := inputs[n];
      InputSumIsConsumed(s, tx, inputs[..n]);
      var rest := Consumed(s, token, inputs[..n]);
      if o in Outputs(s, token) {
        assert Consumed(s, token, inputs) == rest + {o};
        SumInsert(s.txs, rest, o);
      } else {
        assert Consumed(s, token, inputs) == rest;
        assert Counted(s, tx, o) ==> Carried(s.txs[o.txid], o.vout) == 0;
      }
    }
  }

  /** A SEND is accepted iff its own outputs carry no more than the valid outputs of its token that it spends. */
  lemma SendAccepted(s: State, x: Txid)
    requires Keyed(s) && x in s.txs && x !in s.valid && s.txs[x].slp.action.Send?
    requires forall i, j :: 0 <= i < j < |s.txs[x].inputs| ==> s.txs[x].inputs[i] != s.txs[x].inputs[j]
    ensures Validation(s, s.txs[x]) == Accepted
       <==> SumOver(s.txs, OutputsOf(s.txs[x])) <= SumOver(s.txs, Consumed(s, TokenOf(s.txs[x]), s.txs[x].inputs))
  {
    SendTotal(s, x);
    InputSumIsConsumed(s, s.txs[x], s.txs[x].inputs);
  }

  /** Transaction `x` joins the valid ones. */
  function Accept(s: State, x: Txid): State {
    s.(valid := s.valid + {x})
  }

  lemma OutputsGrow(s: State, x: Txid, token: Token)
    requires x in s.txs && x !in s.valid && s.txs[x].txid == x
    ensures Outputs(Accept(s, x), token) == Outputs(s, token) + (if TokenOf(s.txs[x]) == token then OutputsOf(s.txs[x]) else {})
    ensures Outputs(s, token) !! OutputsOf(s.txs[x])
  {
  }

  lemma OtherToken(s: State, x: Txid, token: Token)
    requires x in s.txs && x !in s.valid && s.txs[x].txid == x && TokenOf(s.txs[x]) != token
    requires Conserved(s, token)
    ensures Conserved(Accept(s, x), token)
  {
    OutputsGrow(s, x, token);
    var s' := Accept(s, x);
    assert forall y :: IsOf(s', token, y) <==> IsOf(s, token, y);
    assert Unspent(s', token) <= Unspent(s, token);
    SumSubset(s.txs, Unspent(s', token), Unspent(s, token));
    assert Issuers(s', token) == Issuers(s, token);
  }

  lemma IssuanceStep(s: State, x: Txid, token: Token)
    requires x in s.txs && x !in s.valid && s.txs[x].txid == x && TokenOf(s.txs[x]) == token
    requires Issues(s.txs[x])
    requires Conserved(s, token)
    ensures Conserved(Accept(s, x), token)
  {
    OutputsGrow(s, x, token);
    var s', o := Accept(s, x), Outpoint(x, 1);
    assert OutputsOf(s.txs[x]) == {o};
    assert Unspent(s', token) <= Unspent(s, token) + {o};
    SumSubset(s.txs, Unspent(s', token), Unspent(s, token) + {o});
    SumInsert(s.txs, Unspent(s, token), o);
    assert Issuers(s', token) == Issuers(s, token) + {x};
    QuantityInsert(s.txs, Issuers(s, token), x);
  }

  lemma SendStep(s: State, x: Txid, token: Token)
    requires Keyed(s) && NoDoubleSpend(s.txs)
    requires x in s.txs && x !in s.valid && TokenOf(s.txs[x]) == token
    requires s.txs[x].slp.action.Send? && SendOk(s, s.txs[x])
    requires Conserved(s, token)
    ensures Conserved(Accept(s, x), token)
  {
    var s', tx := Accept(s, x), s.txs[x];
    var out, taken, before := OutputsOf(tx), Consumed(s, token, tx.inputs), Unspent(s, token);
    assert SumOver(s.txs, out) <= SumOver(s.txs, taken) by {
      InputSumIsConsumed(s, tx, tx.inputs);
      SendTotal(s, x);
    }
    assert taken <= before;
    assert SumOver(s.txs, before) == SumOver(s.txs, before - taken) + SumOver(s.txs, taken) by {
      SumUnion(s.txs, before - taken, taken);
      assert before - taken + taken == before;
    }
    assert Unspent(s', token) <= (before - taken) + out by {
      OutputsGrow(s, x, token);
      SpentGrows(s, x, token);
    }
    SumSubset(s.txs, Unspent(s', token), (before - taken) + out);
    assert SumOver(s.txs, (before - taken) + out) == SumOver(s.txs, before - taken) + SumOver(s.txs, out) by {
      SumUnion(s.txs, before - taken, out);
    }
    assert Issuers(s', token) == Issuers(s, token);
  }

  /** The accepted SEND spends its inputs, and nothing comes back. */
  lemma SpentGrows(s: State, x: Txid, token: Token)
    requires x in s.txs && TokenOf(s.txs[x]) == token && s.txs[x].slp.action.Send?
    ensures forall o :: o in s.txs[x].inputs ==> SpentIn(Accept(s, x), token, o)
    ensures forall o :: SpentIn(s, token, o) ==> SpentIn(Accept(s, x), token, o)
  {
    var s' := Accept(s, x);
    assert IsOf(s', token, x);
    forall o | SpentIn(s, token, o)
      ensures SpentIn(s', token, o)
    {
      var y :| y in s.valid && IsOf(s, token, y) && s.txs[y].slp.action.Send? && o in s.txs[y].inputs;
      assert IsOf(s', token, y);
    }
  }

  // ----- Every run -----

  /** The transactions known in the end, with the valid set of an earlier moment. */
  function At(s: State, txs: map<Txid, Transaction>): State {
    State(txs, s.valid)
  }

  lemma AcceptanceConserves(s: State, x: Txid, token: Token)
    requires Keyed(s) && NoDoubleSpend(s.txs) && Conserved(s, token)
    requires x in s.txs && x !in s.valid
    requires s.txs[x].slp.action.Send? ==> SendOk(s, s.txs[x])
    ensures Conserved(Accept(s, x), token)
  {
    if TokenOf(s.txs[x]) != token {
      OtherToken(s, x, token);
    } else if s.txs[x].slp.action.Send? {
      SendStep(s, x, token);
    } else {
      IssuanceStep(s, x, token);
    }
  }

  /** An addition, seen with all the transactions that will ever be known. */
  lemma StepConserves(s: State, tx: Transaction, final: State, token: Token)
    requires WellFormed(s) && Sized(tx) && Keyed(final) && NoDoubleSpend(final.txs)
    requires Before(Step(s, tx), final)
    requires Conserved(At(s, final.txs), token)
    ensures Conserved(At(Step(s, tx), final.txs), token)
  {
    var s', x := Step(s, tx), tx.txid;
    if s'.valid != s.valid {
      var s1 := Insert(s, tx);
      var stored := s1.txs[x];
      assert stored == final.txs[x];
      if stored.slp.action.Send? {
        InputSumStable(s1, At(s, final.txs), stored, stored.inputs);
      }
      AcceptanceConserves(At(s, final.txs), x, token);
      assert Accept(At(s, final.txs), x) == At(s', final.txs);
    }
  }

  lemma {:induction false} PrefixConserves(txs: seq<Transaction>, i: nat, token: Token)
    requires AllSized(txs) && NoDoubleSpend(Run(txs).txs) && i <= |txs|
    ensures Conserved(At(Run(txs[..i]), Run(txs).txs), token)
    decreases i
  {
    var final := Run(txs);
    if i == 0 {
      assert Unspent(At(EMPTY, final.txs), token) == {};
    } else {
      PrefixConserves(txs, i - 1, token);
      assert txs[..i][..i - 1] == txs[..i - 1];
      RunWellFormed(txs[..i - 1]);
      RunWellFormed(txs);
      RunGrows(txs, i);
      StepConserves(Run(txs[..i - 1]), txs[i - 1], final, token);
    }
  }

  /**
   * Token supply is conserved: after any run of untrusted additions, in any order and with any
   * repetition, in which no outpoint is spent twice.
   */
  lemma SupplyConserved(txs: seq<Transaction>, token: Token)
    requires AllSized(txs) && NoDoubleSpend(Run(txs).txs)
    ensures Conserved(Run(txs), token)
  {
    PrefixConserves(txs, |txs|, token);
    assert txs[..|txs|] == txs;
  }

  /** Outputs of valid transactions of the token that no known transaction spends at all. */
  ghost function Untouched(s: State, token: Token): set<Outpoint> {
    set o | o in Outputs(s, token) && forall y :: y in s.txs ==> o !in s.txs[y].inputs
  }

  /** In particular the outputs that nothing spends stay within what was issued. */
  lemma UntouchedWithinIssued(txs: seq<Transaction>, token: Token)
    requires AllSized(txs) && NoDoubleSpend(Run(txs).txs)
    ensures SumOver(Run(txs).txs, Untouched(Run(txs), token)) <= Quantities(Run(txs).txs, Issuers(Run(txs), token))
  {
    SupplyConserved(txs, token);
    SumSubset(Run(txs).txs, Untouched(Run(txs), token), Unspent(Run(txs), token));
  }
}
