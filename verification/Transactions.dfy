/**
 * Transactions, outputs and SLP messages (include/gs++/transaction.hpp, include/gs++/output.hpp,
 * include/gs++/slp_transaction.hpp), with the token amounts and batons that src/transaction.cpp
 * derives from them.
 */
module Transactions {

  /** A 256-bit hash; a token is named by the id of its genesis transaction. */
  type Txid = nat
  type Byte = b: int | 0 <= b < 256
  type Amount = a: int | 0 <= a < 0x10000000000000000

  datatype Outpoint = Outpoint(txid: Txid, vout: nat)

  datatype Output = Output(prevTxId: Txid, prevOutIdx: nat, value: nat, script: seq<Byte>) {
    function AsOutpoint(): Outpoint {
      Outpoint(prevTxId, prevOutIdx)
    }

    predicate IsOpReturn() {
      |script| > 0 && script[0] == 0x6A
    }
  }

  /** The SLP message kinds; a baton vout of 0 means that no baton is created. */
  datatype Action =
    | Invalid
    | Genesis(ticker: seq<Byte>, name: seq<Byte>, documentUri: seq<Byte>, documentHash: seq<Byte>, decimals: nat, batonVout: nat, qty: Amount)
    | Mint(batonVout: nat, qty: Amount)
    | Send(amounts: seq<Amount>)

  datatype SlpMessage = SlpMessage(tokenid: Txid, tokenType: nat, action: Action)

  datatype Transaction = Transaction(
    txid: Txid, version: int, lockTime: nat,
    inputs: seq<Outpoint>, outputs: seq<Output>,
    slp: SlpMessage, serialized: seq<Byte>)

  /** `output_slp_amount` */
  function OutputSlpAmount(tx: Transaction, vout: nat): Amount
  {
    match tx.slp.action
    case Send(amounts) => if vout > 0 && vout - 1 < |amounts| then amounts[vout - 1] else 0
    case Mint(_, qty) => if vout == 1 then qty else 0
    case Genesis(_, _, _, _, _, _, qty) => if vout == 1 then qty else 0
    case Invalid => 0
  }

  /** `mint_baton_outpoint`: vout 0 stands for "no baton". */
  function MintBatonOutpoint(tx: Transaction): Outpoint
  {
    match tx.slp.action
    case Mint(vout, _) => Outpoint(tx.txid, if vout < |tx.outputs| then vout else 0)
    case Genesis(_, _, _, _, _, vout, _) => Outpoint(tx.txid, if vout < |tx.outputs| then vout else 0)
    case _ => Outpoint(tx.txid, 0)
  }

  function SumAmounts(amounts: seq<Amount>): nat
  {
    if |amounts| == 0 then 0 else SumAmounts(amounts[..|amounts| - 1]) + amounts[|amounts| - 1]
  }

  /** `slp_outputs` reads output 1 of a MINT or GENESIS, and output 0 is the message itself. */
  predicate HasSlpOutputs(tx: Transaction) {
    match tx.slp.action
    case Invalid => true
    case Send(_) => |tx.outputs| >= 1
    case _ => |tx.outputs| >= 2
  }

  /** `slp_outputs`: the outputs that carry tokens or a baton. */
  function SlpOutputs(tx: Transaction): seq<Output>
    requires HasSlpOutputs(tx)
  {
    match tx.slp.action
    case Invalid => []
    case Send(amounts) =>
      if |amounts| >= |tx.outputs| - 1 then tx.outputs[1..] else tx.outputs[1..1 + |amounts|]
    case Mint(vout, _) => IssuedOutputs(tx.outputs, vout)
    case Genesis(_, _, _, _, _, vout, _) => IssuedOutputs(tx.outputs, vout)
  }

  function IssuedOutputs(outputs: seq<Output>, batonVout: nat): seq<Output>
    requires |outputs| >= 2
  {
    if batonVout >= |outputs| || batonVout == 0 then [outputs[1]] else [outputs[1], outputs[batonVout]]
  }

  // ----- What the messages say of outputs -----

  predicate Issues(tx: Transaction) {
    tx.slp.action.Genesis? || tx.slp.action.Mint?
  }

  /** The tokens that the message puts on an output, whether or not there is one. */
  ghost function Carried(tx: Transaction, v: nat): nat {
    if tx.slp.action.Send? && 1 <= v <= |tx.slp.action.amounts| then tx.slp.action.amounts[v - 1]
    else if Issues(tx) && v == 1 then tx.slp.action.qty
    else 0
  }

  /** The outpoint that an issuance names for its baton: output 0, the message itself, where it creates none. */
  ghost function Baton(tx: Transaction): Outpoint
    requires Issues(tx)
  {
    Outpoint(tx.txid, if tx.slp.action.batonVout < |tx.outputs| then tx.slp.action.batonVout else 0)
  }

  /** The message speaks of output `v`: it has a place for tokens, or for the baton. */
  ghost predicate Mentions(tx: Transaction, v: nat) {
    && 0 < v < |tx.outputs|
    && ((tx.slp.action.Send? && v <= |tx.slp.action.amounts|) || (Issues(tx) && (v == 1 || v == tx.slp.action.batonVout)))
  }

  lemma AmountIsCarried(tx: Transaction, v: nat)
    ensures OutputSlpAmount(tx, v) == Carried(tx, v)
  {
  }

  lemma BatonIsNamed(tx: Transaction)
    requires Issues(tx)
    ensures MintBatonOutpoint(tx) == Baton(tx)
  {
  }

  /** The SLP outputs are exactly the outputs that the message speaks of. */
  lemma SlpOutputsMentioned(tx: Transaction, o: Output)
    requires HasSlpOutputs(tx)
    ensures o in SlpOutputs(tx) <==> exists v: nat :: Mentions(tx, v) && o == tx.outputs[v]
  {
    var outs := SlpOutputs(tx);
    if o in outs {
      var i :| 0 <= i < |outs| && outs[i] == o;
      PlaceOf(tx, i);
    }
    if v: nat :| Mentions(tx, v) && o == tx.outputs[v] {
      var i := if tx.slp.action.Send? || v == 1 then v - 1 else 1;
      assert outs[i] == o;
    }
  }

  /** How many they are: of a SEND the amounts that have an output, of an issuance one, and one for the baton. */
  lemma SlpOutputCount(tx: Transaction)
    requires HasSlpOutputs(tx) && !tx.slp.action.Invalid?
    ensures tx.slp.action.Send? ==>
              |SlpOutputs(tx)| == if |tx.slp.action.amounts| < |tx.outputs| - 1 then |tx.slp.action.amounts| else |tx.outputs| - 1
    ensures Issues(tx) ==> |SlpOutputs(tx)| == if Baton(tx).vout == 0 then 1 else 2
  {
  }

  /** Their order: token outputs from output 1 on, then the baton. */
  lemma PlaceOf(tx: Transaction, i: nat)
    requires HasSlpOutputs(tx) && i < |SlpOutputs(tx)|
    ensures
      var v := if tx.slp.action.Send? || i == 0 then i + 1 else tx.slp.action.batonVout;
      Mentions(tx, v) && SlpOutputs(tx)[i] == tx.outputs[v]
  {
  }

  /** Every output that holds tokens, and the baton, is among them. */
  lemma HoldersAreSlpOutputs(tx: Transaction, v: nat)
    requires HasSlpOutputs(tx) && 0 < v < |tx.outputs|
    requires Carried(tx, v) > 0 || (Issues(tx) && Baton(tx) == Outpoint(tx.txid, v))
    ensures tx.outputs[v] in SlpOutputs(tx)
  {
    assert Mentions(tx, v);
    SlpOutputsMentioned(tx, tx.outputs[v]);
  }
}
