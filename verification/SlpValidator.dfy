/**
 * The SLP token validator (src/slp_validator.cpp): a map of known transactions and a set of valid
 * ones that untrusted additions extend.
 */
module SlpValidator {
  import opened Transactions

  const U64: nat := 0x10000000000000000
  const U128: nat := 0x100000000000000000000000000000000

  datatype State = State(txs: map<Txid, Transaction>, valid: set<Txid>)

  const EMPTY := State(map[], {})

  /** The outcome of a check; the baton walk may throw. */
  datatype Verdict = Accepted | Rejected | Thrown

  datatype AddResult = Returned(added: bool) | Threw

  /** List lengths fit the size type, so 128-bit sums of 64-bit amounts cannot wrap. */
  predicate Sized(tx: Transaction) {
    |tx.inputs| < U64 && (tx.slp.action.Send? ==> |tx.slp.action.amounts| < U64)
  }

  /** Every entry is stored under its own id and carries an SLP message. */
  predicate Keyed(s: State) {
    forall t :: t in s.txs ==> s.txs[t].txid == t && s.txs[t].slp.action != Invalid && Sized(s.txs[t])
  }

  predicate SameToken(tx: Transaction, other: Transaction) {
    tx.slp.tokenType == other.slp.tokenType && tx.slp.tokenid == other.slp.tokenid
  }

  /** An outpoint of a valid known transaction of the same token. */
  predicate Counted(s: State, tx: Transaction, o: Outpoint) {
    o.txid in s.valid && o.txid in s.txs && SameToken(tx, s.txs[o.txid])
  }

  function InputValue(s: State, tx: Transaction, o: Outpoint): Amount {
    if Counted(s, tx, o) then OutputSlpAmount(s.txs[o.txid], o.vout) else 0
  }

  function InputSum(s: State, tx: Transaction, inputs: seq<Outpoint>): nat {
    if |inputs| == 0 then 0
    else InputSum(s, tx, inputs[..|inputs| - 1]) + InputValue(s, tx, inputs[|inputs| - 1])
  }

  // ----- What the checks decide -----

  predicate SendOk(s: State, tx: Transaction)
    requires tx.slp.action.Send?
  {
    SumAmounts(tx.slp.action.amounts) <= InputSum(s, tx, tx.inputs)
  }

  /** An input that spends the baton of a valid GENESIS or MINT of the token of `front`. */
  predicate SpendsBaton(s: State, front: Transaction, o: Outpoint) {
    && Counted(s, front, o)
    && o == MintBatonOutpoint(s.txs[o.txid])
    && (s.txs[o.txid].slp.action.Mint? || s.txs[o.txid].slp.action.Genesis?)
  }

  /** The baton parents among a list of inputs, in order. */
  function BatonParents(s: State, front: Transaction, inputs: seq<Outpoint>): seq<Transaction>
  {
    if |inputs| == 0 then []
    else
      var rest := BatonParents(s, front, inputs[..|inputs| - 1]);
      var o := inputs[|inputs| - 1];
      if SpendsBaton(s, front, o) then rest + [s.txs[o.txid]] else rest
  }

  /** `walk_mints_home` */
  function WalkMintsHome(s: State, front: Transaction, back: Transaction): seq<Transaction> {
    if SameToken(front, back) then BatonParents(s, front, back.inputs) else []
  }

  /** The baton parents of a list of transactions, concatenated. */
  function WalkAll(s: State, front: Transaction, backs: seq<Transaction>): seq<Transaction> {
    if |backs| == 0 then []
    else WalkAll(s, front, backs[..|backs| - 1]) + WalkMintsHome(s, front, backs[|backs| - 1])
  }

  predicate HasGenesis(txs: seq<Transaction>) {
    exists i :: 0 <= i < |txs| && txs[i].slp.action.Genesis?
  }

  predicate AllSame(txs: seq<Transaction>) {
    forall i :: 0 <= i < |txs| ==> txs[i].txid == txs[0].txid
  }

  /** One level of baton parents decides if it holds a genesis; otherwise the second level does. */
  function MintVerdict(s: State, tx: Transaction): Verdict {
    PassVerdict(s, tx, WalkMintsHome(s, tx, tx))
  }

  function PassVerdict(s: State, tx: Transaction, home: seq<Transaction>): Verdict {
    if HasGenesis(home) then Accepted
    else
      var grand := WalkAll(s, tx, home);
      if |grand| == 0 then Rejected
      else if AllSame(grand) then Accepted
      else Thrown
  }

  /** An NFT child must burn at least one unit of a valid group token with its first input. */
  predicate GenesisOk(s: State, tx: Transaction) {
    tx.slp.tokenType == 0x41 ==>
      && |tx.inputs| > 0
      && var o := tx.inputs[0];
         && o.txid in s.valid && o.txid in s.txs
         && s.txs[o.txid].slp.tokenType == 0x81
         && OutputSlpAmount(s.txs[o.txid], o.vout) >= 1
  }

  function Check(s: State, tx: Transaction): Verdict {
    match tx.slp.action
    case Invalid => Rejected
    case Send(_) => if SendOk(s, tx) then Accepted else Rejected
    case Mint(_, _) => MintVerdict(s, tx)
    case Genesis(_, _, _, _, _, _, _) => if GenesisOk(s, tx) then Accepted else Rejected
  }

  /** `validate(tx)` */
  function Validation(s: State, tx: Transaction): Verdict {
    if tx.slp.action.Invalid? then Rejected
    else if tx.txid in s.valid then Accepted
    else Check(s, tx)
  }

  /** The map after an insertion, which never replaces an entry. */
  function Insert(s: State, tx: Transaction): State {
    if tx.txid in s.txs then s else s.(txs := s.txs[tx.txid := tx])
  }

  /** The state after `add_tx(tx, false)`. A throw leaves the insertion behind. */
  function Step(s: State, tx: Transaction): State {
    if tx.slp.action.Invalid? then s
    else
      var s1 := Insert(s, tx);
      if Validation(s1, s1.txs[tx.txid]).Accepted? then s1.(valid := s1.valid + {tx.txid}) else s1
  }

  /** What `add_tx(tx, false)` returns. */
  function StepResult(s: State, tx: Transaction): AddResult {
    if tx.slp.action.Invalid? then Returned(false)
    else
      var s1 := Insert(s, tx);
      match Validation(s1, s1.txs[tx.txid])
      case Accepted => Returned(tx.txid !in s.txs)
      case Rejected => Returned(false)
      case Thrown => Threw
  }

  /** The state after a run of additions on a fresh validator. */
  function Run(txs: seq<Transaction>): State {
    if |txs| == 0 then EMPTY else Step(Run(txs[..|txs| - 1]), txs[|txs| - 1])
  }

  // ----- Facts about every run -----

  ghost predicate AllSized(txs: seq<Transaction>) {
    forall i :: 0 <= i < |txs| ==> Sized(txs[i])
  }

  /** `s` is an earlier state than `t`: entries and validity are never taken back. */
  ghost predicate Before(s: State, t: State) {
    && s.valid <= t.valid
    && forall x :: x in s.txs ==> x in t.txs && t.txs[x] == s.txs[x]
  }

  ghost predicate WellFormed(s: State) {
    Keyed(s) && s.valid <= s.txs.Keys
  }

  lemma StepFacts(s: State, tx: Transaction)
    requires WellFormed(s) && Sized(tx)
    ensures WellFormed(Step(s, tx)) && Before(s, Step(s, tx))
  {
  }

  /** A transaction that is known already is decided anew, as it was stored; no other becomes valid. */
  lemma StepExactly(s: State, tx: Transaction)
    requires WellFormed(s) && !tx.slp.action.Invalid?
    ensures
      var after := Step(s, tx);
      && after.txs.Keys == s.txs.Keys + {tx.txid}
      && after.txs[tx.txid] == (if tx.txid in s.txs then s.txs[tx.txid] else tx)
      && (tx.txid in after.valid <==> tx.txid in s.valid || Check(State(after.txs, s.valid), after.txs[tx.txid]) == Accepted)
      && after.valid - {tx.txid} == s.valid - {tx.txid}
  {
  }

  /** `true` comes back exactly for a transaction that was not known and is valid now. */
  lemma AddedExactly(s: State, tx: Transaction)
    requires WellFormed(s)
    ensures StepResult(s, tx) == Returned(true) <==> tx.txid !in s.txs && tx.txid in Step(s, tx).valid
    ensures StepResult(s, tx) == Threw <==>
              !tx.slp.action.Invalid? && tx.txid !in s.valid && Check(Insert(s, tx), Insert(s, tx).txs[tx.txid]) == Thrown
  {
  }

  lemma {:induction false} RunWellFormed(txs: seq<Transaction>)
    requires AllSized(txs)
    ensures WellFormed(Run(txs))
    decreases |txs|
  {
    if |txs| > 0 {
      RunWellFormed(txs[..|txs| - 1]);
      StepFacts(Run(txs[..|txs| - 1]), txs[|txs| - 1]);
    }
  }

  lemma {:induction false} RunGrows(txs: seq<Transaction>, i: nat)
    requires AllSized(txs) && i <= |txs|
    ensures Before(Run(txs[..i]), Run(txs))
    decreases |txs|
  {
    if i == |txs| {
      assert txs[..i] == txs;
    } else {
      var n := |txs| - 1;
      RunGrows(txs[..n], i);
      assert txs[..n][..i] == txs[..i];
      RunWellFormed(txs[..n]);
      StepFacts(Run(txs[..n]), txs[n]);
    }
  }

  /** Seeing more transactions without accepting any changes no input sum. */
  lemma {:induction false} InputSumStable(s: State, t: State, tx: Transaction, inputs: seq<Outpoint>)
    requires Before(s, t) && s.valid == t.valid && s.valid <= s.txs.Keys
    ensures InputSum(s, tx, inputs) == InputSum(t, tx, inputs)
    decreases |inputs|
  {
    if |inputs| > 0 {
      InputSumStable(s, t, tx, inputs[..|inputs| - 1]);
    }
  }

  lemma {:induction false} SumBound(amounts: seq<Amount>)
    ensures SumAmounts(amounts) <= |amounts| * (U64 - 1)
    decreases |amounts|
  {
    if |amounts| > 0 {
      SumBound(amounts[..|amounts| - 1]);
    }
  }

  lemma {:induction false} InputSumBound(s: State, tx: Transaction, inputs: seq<Outpoint>)
    ensures InputSum(s, tx, inputs) <= |inputs| * (U64 - 1)
    decreases |inputs|
  {
    if |inputs| > 0 {
      InputSumBound(s, tx, inputs[..|inputs| - 1]);
    }
  }

  /** 128-bit addition, which wraps. */
  function Add128(x: nat, y: nat): (z: nat)
    ensures x + y < U128 ==> z == x + y
  {
    (x + y) % U128
  }

  /** The 128-bit sum of the amounts that a SEND creates. */
  method TotalAmount(amounts: seq<Amount>) returns (total: nat)
    requires |amounts| < U64
    ensures total == SumAmounts(amounts)
  {
    total := 0;
    for i := 0 to |amounts|
      invariant total == SumAmounts(amounts[..i])
    {
      assert amounts[..i + 1][..i] == amounts[..i];
      SumBound(amounts[..i + 1]);
      total := Add128(total, amounts[i]);
    }
    assert amounts[..|amounts|] == amounts;
  }

  /** One pass of the `while (true)` loop of `check_mint`. */
  datatype Pass = Done(verdict: Verdict) | Again(inputTxs: seq<Transaction>, back: Transaction)

  class Validator {
    var transactionMap: map<Txid, Transaction>
    var valid: set<Txid>

    ghost function Abstract(): State
      reads this
    {
      State(transactionMap, valid)
    }

    ghost predicate Valid()
      reads this
    {
      Keyed(Abstract())
    }

    constructor ()
      ensures Valid() && Abstract() == EMPTY
    {
      transactionMap, valid := map[], {};
    }

    /** `add_tx(tx, false)` */
    method AddTx(tx: Transaction) returns (r: AddResult)
      requires Valid() && Sized(tx)
      modifies this
      ensures Valid()
      ensures Abstract() == Step(old(Abstract()), tx)
      ensures r == StepResult(old(Abstract()), tx)
    {
      if tx.slp.action.Invalid? {
        return Returned(false);
      }
      var inserted := tx.txid !in transactionMap;
      if inserted {
        transactionMap := transactionMap[tx.txid := tx];
      }
      var verdict := ValidateTxid(tx.txid);
      match verdict
      case Accepted => r := Returned(inserted);
      case Rejected => r := Returned(false);
      case Thrown => r := Threw;
    }

    /** `validate(txid)` */
    method ValidateTxid(txid: Txid) returns (verdict: Verdict)
      requires Valid()
      modifies this`valid
      ensures Valid()
      ensures txid !in transactionMap ==> verdict == Rejected && valid == old(valid)
      ensures txid in transactionMap ==>
                && verdict == Validation(old(Abstract()), transactionMap[txid])
                && valid == if verdict.Accepted? then old(valid) + {txid} else old(valid)
    {
      if txid !in transactionMap {
        return Rejected;
      }
      verdict := Validate(transactionMap[txid]);
      if verdict.Accepted? {
        valid := valid + {txid};
      }
    }

    /** `validate(tx)` */
    method Validate(tx: Transaction) returns (verdict: Verdict)
      requires Valid() && Sized(tx)
      ensures verdict == Validation(Abstract(), tx)
      decreases if tx.txid in valid then 0 else 2
    {
      if tx.slp.action.Invalid? {
        return Rejected;
      }
      if tx.txid in valid {
        return Accepted;
      }
      verdict := Dispatch(tx, {});
    }

    /** The switch over the message type that `validate` and `check_outputs_valid` share. */
    method Dispatch(tx: Transaction, seen: set<Txid>) returns (verdict: Verdict)
      requires Valid() && Sized(tx)
      ensures verdict == Check(Abstract(), tx)
      decreases 1, 1
    {
      match tx.slp.action
      case Send(_) =>
        var ok, _ := CheckSend(tx, seen);
        verdict := if ok then Accepted else Rejected;
      case Mint(_, _) =>
        verdict := CheckMint(tx);
      case Genesis(_, _, _, _, _, _, _) =>
        var ok := CheckGenesis(tx);
        verdict := if ok then Accepted else Rejected;
      case Invalid =>
        verdict := Rejected;
    }

    /** `check_send`: the result does not depend on `seen`. */
    method CheckSend(tx: Transaction, seen: set<Txid>) returns (ok: bool, seen': set<Txid>)
      requires Valid() && Sized(tx) && tx.slp.action.Send?
      ensures ok == SendOk(Abstract(), tx)
      decreases 1, 0
    {
      var outputAmount := TotalAmount(tx.slp.action.amounts);
      seen' := seen;
      var inputAmount := 0;
      for i := 0 to |tx.inputs|
        invariant inputAmount == InputSum(Abstract(), tx, tx.inputs[..i])
      {
        assert tx.inputs[..i + 1][..i] == tx.inputs[..i];
        InputSumBound(Abstract(), tx, tx.inputs[..i + 1]);
        var o := tx.inputs[i];
        if o.txid in valid && o.txid in transactionMap {
          var txi := transactionMap[o.txid];
          if tx.slp.tokenType == txi.slp.tokenType && tx.slp.tokenid == txi.slp.tokenid {
            var verdict;
            verdict, seen' := CheckOutputsValid(txi, seen');
            if verdict.Accepted? {
              inputAmount := Add128(inputAmount, OutputSlpAmount(txi, o.vout));
            }
          }
        }
      }
      assert tx.inputs[..|tx.inputs|] == tx.inputs;
      ok := !(outputAmount > inputAmount);
    }

    /** `check_outputs_valid`: a valid known transaction is accepted at once, so the recursion ends here. */
    method CheckOutputsValid(tx: Transaction, seen: set<Txid>) returns (verdict: Verdict, seen': set<Txid>)
      requires Valid() && Sized(tx)
      ensures tx.txid !in transactionMap ==> verdict == Rejected
      ensures tx.txid in transactionMap ==>
                verdict == if tx.txid in seen || tx.txid in valid then Accepted else Check(Abstract(), tx)
      decreases if tx.txid in valid then 0 else 2
    {
      if tx.txid !in transactionMap {
        return Rejected, seen;
      }
      if tx.txid in seen {
        return Accepted, seen;
      }
      seen' := seen + {tx.txid};
      if tx.txid in valid {
        return Accepted, seen';
      }
      verdict := Dispatch(tx, seen');
    }

    /** `check_genesis` */
    method CheckGenesis(tx: Transaction) returns (ok: bool)
      requires Valid() && Sized(tx)
      ensures ok == GenesisOk(Abstract(), tx)
      decreases 1, 0
    {
      if tx.slp.tokenType == 0x41 {
        if |tx.inputs| == 0 {
          return false;
        }
        var o := tx.inputs[0];
        if o.txid !in valid || o.txid !in transactionMap {
          return false;
        }
        var txi := transactionMap[o.txid];
        if txi.slp.tokenType != 0x81 || OutputSlpAmount(txi, o.vout) < 1 {
          return false;
        }
        var verdict := Validate(txi);
        return verdict.Accepted?;
      }
      ok := true;
    }

    /** The lambda of `check_mint`. */
    method WalkHome(front: Transaction, back: Transaction) returns (ret: seq<Transaction>)
      ensures ret == WalkMintsHome(Abstract(), front, back)
    {
      ret := [];
      if front.slp.tokenid != back.slp.tokenid {
        return [];
      }
      if front.slp.tokenType != back.slp.tokenType {
        return [];
      }
      for i := 0 to |back.inputs|
        invariant ret == BatonParents(Abstract(), front, back.inputs[..i])
      {
        assert back.inputs[..i + 1][..i] == back.inputs[..i];
        var o := back.inputs[i];
        if o.txid in valid && o.txid in transactionMap {
          var txi := transactionMap[o.txid];
          if SameToken(front, txi) && o == MintBatonOutpoint(txi) && (txi.slp.action.Mint? || txi.slp.action.Genesis?) {
            ret := ret + [txi];
          }
        }
      }
      assert back.inputs[..|back.inputs|] == back.inputs;
    }

    /** `check_mint`: the loop is left on its first pass. */
    method CheckMint(tx: Transaction) returns (verdict: Verdict)
      requires Valid()
      ensures verdict == MintVerdict(Abstract(), tx)
    {
      var inputTxs := WalkHome(tx, tx);
      var pass := MintPass(tx, inputTxs);
      verdict := pass.verdict;
    }

    /**
     * One pass of the loop. What it would go on with is valid, so it never asks for another pass.
     */
    method MintPass(back: Transaction, inputTxs: seq<Transaction>) returns (pass: Pass)
      requires Valid()
      ensures pass == Done(PassVerdict(Abstract(), back, inputTxs))
    {
      var inputs: seq<Transaction> := [];
      for i := 0 to |inputTxs|
        invariant !HasGenesis(inputTxs[..i])
        invariant inputs == WalkAll(Abstract(), back, inputTxs[..i])
      {
        assert inputTxs[..i + 1][..i] == inputTxs[..i];
        if inputTxs[i].slp.action.Genesis? {
          return Done(Accepted);
        }
        var partial := WalkHome(back, inputTxs[i]);
        inputs := inputs + partial;
      }
      assert inputTxs[..|inputTxs|] == inputTxs;
      if |inputs| < 1 {
        return Done(Rejected);
      }
      if |inputs| > 1 {
        for i := 0 to |inputs|
          invariant forall k :: 0 <= k < i ==> inputs[k].txid == inputs[0].txid
        {
          if inputs[0].txid != inputs[i].txid {
            return Done(Thrown);
          }
        }
      }
      WalkedAreValid(Abstract(), back, inputTxs, 0);
      var next := inputs[0];
      pass := if next.txid in valid then Done(Accepted) else Again(inputs, next);
    }
  }

  /** Each baton parent is reached through an input that spends its baton. */
  lemma {:induction false} BatonParentOf(s: State, front: Transaction, inputs: seq<Outpoint>, i: nat) returns (k: nat)
    requires i < |BatonParents(s, front, inputs)|
    ensures k < |inputs| && SpendsBaton(s, front, inputs[k])
    ensures BatonParents(s, front, inputs)[i] == s.txs[inputs[k].txid]
    decreases |inputs|
  {
    var n := |inputs| - 1;
    var rest := BatonParents(s, front, inputs[..n]);
    if i < |rest| {
      k := BatonParentOf(s, front, inputs[..n], i);
    } else {
      k := n;
    }
  }

  /** Whatever the baton walk collects is valid. */
  lemma {:induction false} WalkedAreValid(s: State, front: Transaction, backs: seq<Transaction>, i: nat)
    requires Keyed(s) && i < |WalkAll(s, front, backs)|
    ensures WalkAll(s, front, backs)[i].txid in s.valid
    decreases |backs|
  {
    var n := |backs| - 1;
    var rest := WalkAll(s, front, backs[..n]);
    if i < |rest| {
      WalkedAreValid(s, front, backs[..n], i);
    } else {
      var k := BatonParentOf(s, front, backs[n].inputs, i - |rest|);
    }
  }
}
