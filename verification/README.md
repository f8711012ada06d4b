# Verification of gs++

A Dafny 4.11 model of the five cores of gs++, a Bitcoin Cash graph search and token server: the SLP
token validator, the graph and output indexes, the CashAddr codec, the wire parsers, and the secp256k1
multiplication code that ships with it. Every operation is a function or a method that does what the
C++ (or C) does, and the theorems are about all inputs, all runs or all reachable states.
`dafny verify dfyconfig.toml` checks everything.

The main results:

- **Tokens.** In every run of untrusted `add_tx` calls, in any order, the unspent amounts of a token
  never exceed the quantities in its valid GENESIS and MINT messages (`SlpSupply.SupplyConserved`); the
  valid issuances form one chain of baton spends that starts at the genesis, so at most one baton is
  unspent and the "mint rare condition" exception is never thrown, and exactly when every baton in the
  chain was really created is stated too (`SlpBaton`); and whatever
  parents-first order a batch comes in, the valid set is the same, namely the transactions that are
  genuine by recursion on their ancestors (`SlpOrder`).
- **Graphs.** The depth-first topological sort lists every transaction once, parents first
  (`Topology`); graph search with an exclusion set returns exactly the ancestors outside it (`TxGraph`).
- **Outputs.** Applying a block in bulk equals applying its transactions one at a time (`UtxoLaws`); up
  to ten rollbacks restore the address index exactly, in any interleaving with new blocks and arriving
  transactions, and exactly when is stated for one block (`UtxoRollback`); balances are sums over the
  output map (`UtxoQueries`); what they count twice is stated exactly, and for every output and every run
  whether they count it, confirmed or pending, although something spends it (`UtxoBalance`);
  the mempool's index holds exactly the outputs that arrived and were neither spent nor confirmed since
  (`UtxoMempool`).
- **Addresses.** The CashAddr checksum is a linear code that notices every burst of up to eight wrong
  symbols (`CashAddrChecksum`) and every set of up to four wrong symbols within 1025, in lists of any length
  (`CashAddrDistance`): the register holds a polynomial modulo one that has its roots among the powers of an
  element of order 1025 of GF(2^20), and these roots leave no room for few coefficients. Encoding and decoding
  undo each other, and an address with up to eight neighbouring characters changed, anywhere, is rejected
  (`CashAddr`); exactly when `Decode` reads out of range is stated (`CashAddrShort`), and exactly which
  scripts survive the trip to an address and back (`Address`).
- **Parsers.** The SLP parser accepts exactly its grammar (`SlpScript`); transactions are
  self-delimiting (`Wire`), and what is written for any fields is read back as these fields, whatever
  follows (`WireFormat`); a block is read from exactly the data that encode it, and comes back unchanged
  from the cache (`BlockCache`).
- **secp256k1.** Field multiplication is exact modulo p and never overflows (`Field5x52`); wNAF,
  Strauss, Pippenger, the batch driver with its scratch space, and blinded generator multiplication all
  return the sum they are meant to (`Wnaf`, `Strauss`, `FixedWnaf`, `Pippenger`, `Scratch`,
  `EcmultMulti`, `EcmultGen`).

## How the model reads the source

- The curve is an arbitrary abelian group, given as a value with its laws (`Group`); an algorithm may
  use nothing else. Scalars are numbers below the group order, and their width is a parameter. The
  configuration is the one without endomorphism and without assembly, with 5x52 limbs.
- SHA-256, the seed of the blinding and the callback of `ecmult_multi_var` are parameters. Hash maps and
  hash sets are maps and sets; where the source walks a hash set, the model takes elements in any order.
- A hash is the number that its 32 bytes write, lowest first. An `output` compares by its outpoint, so a
  set of outputs is a map from outpoints. The laws about output indexes speak of a function `out` that
  gives the output an outpoint names: a transaction id determines its transaction.
- Symbols of CashAddr are 5-bit vectors; the register of `PolyMod` is a 64-bit vector. Linearity is
  proved for any register over any group in which addition undoes itself (`LinearRegister`) and then
  instantiated. Fields of characteristic two are values with their laws as well: `BinaryField` has powers
  and sums, `QuadraticExtension` adjoins a root, `Traces` works with an element and its inverse, and
  `RootBound` bounds the coefficients of a polynomial with given roots. `CashAddrField` and `CashAddrRoots`
  are the fields and the roots of this code.
- Locks are left out: each method is one atomic step.

Where code and documentation disagree, the model follows the code:

- `utxodb::rollback` repairs the address index but leaves the block's outputs in `outpoint_map`.
  `UtxoRollback.RollbackUndoesBlock` states exactly when each of the two is restored.
- A balance counts an output twice when its transaction arrives after its block
  (`UtxoExamples.CountedTwice`). It counts a confirmed output that a mempool transaction spends when the
  spender arrived before the output's block (`UtxoExamples.CountedThoughSpent`), or after the output's own
  transaction had arrived again (`UtxoExamples.CountedThoughSpentLater`); and it counts a spent output as
  pending when the spender arrived first (`UtxoExamples.PendingThoughSpent`). `UtxoBalance.SpentYetCounted`
  and `UtxoBalance.SpentYetPending` have the exact conditions, and `UtxoBalance.CountedExactly` those of any
  run from any state.
- `slp_outputs` reads output 1 of a GENESIS or MINT, and `transaction::hydrate` accepts one whose only output
  is its message. On such a transaction `process_block` and `process_mempool_tx` read past the outputs; they
  report that outcome here, `SlpIssue.ReadIsReadable` says exactly which blocks are free of it, and
  `SlpIssue.IssueWithoutOutput` is such a transaction.
- The comment on `PolyMod` promises that up to four wrong characters within 1025 are detected. That holds of
  symbols (`CashAddrDistance.FewErrorsDetected`) and of addresses whose colon stays where it is
  (`CashAddrErrors.FewErrorsRejected`). Two wrong characters that move the colon turn all characters between
  from symbols of the payload into letters of the prefix: `CashAddrErrors.ColonMoved` gives, for every prefix
  and payload, two accepted addresses that differ in two characters.
- `scriptpubkey::to_address` takes the length byte of a script hash for the first byte of the hash and
  drops the last byte. `Address.AddressRoundTrip` states exactly which scripts survive.
- `mint_baton_outpoint` returns output 0 for "no baton", so a MINT that spends output 0 of an issuance
  without a baton is accepted. `SlpBaton.MintThroughOutputZero` is such a run, and
  `SlpBaton.TrueLineageKept` and `SlpBaton.RunLineageTrue` say exactly when the chain of baton spends
  stays one of real batons. That there is one chain, with at most one unspent baton and without a throw,
  holds with such MINTs as well.
- A rollback leaves `current_block_height` as it is (`UtxoRollback.HeightCountsBlocks`).
- A SEND whose amounts total zero is valid with no inputs; conservation holds all the same.
- `cashaddr::Decode` cuts eight symbols off whatever verifies, even when there are fewer; that outcome
  is `OutOfRange`, and `CashAddrShort` says exactly when it occurs. Failed assertions of
  `scriptpubkey.hpp` are outcomes too.
- `convertBits` stores its digits at an 8-bit index, so more than 256 of them overwrite the first ones;
  the model does the same (`ConvertBits.FoldedAt`).
- `strauss_batch` does not look at the result of its last allocation; the outcome `NullUsed` of
  `EcmultMulti.StraussBatch` says exactly when it goes on without that block.

## Model

| member | source | states |
|---|---|---|
| `Transactions.AmountIsCarried` | src/transaction.cpp:61-84 | the amount on an output, from the message: amount v of a SEND on output v, the quantity of a GENESIS or MINT on output 1, nothing elsewhere |
| `Transactions.BatonIsNamed` | src/transaction.cpp:86-102 | the baton of a GENESIS or MINT is the output that its message names, if there are so many outputs, and output 0 otherwise |
| `Transactions.SlpOutputsMentioned` | src/transaction.cpp:28-59 | an output is an SLP output iff it is not output 0 and the message has an amount for it, or it is output 1 or the baton of an issuance |
| `Transactions.SlpOutputCount` | src/transaction.cpp:28-59 | how many SLP outputs there are |
| `Transactions.PlaceOf` | src/transaction.cpp:28-59 | their order: from output 1 on, and the baton of an issuance last |
| `Transactions.HoldersAreSlpOutputs` | src/transaction.cpp:28-84 | every output that carries tokens, and every baton, is an SLP output |
| `SlpValidator.Validator.AddTx` | src/slp_validator.cpp:17-35 | one untrusted addition is the step of the state machine: the map grows by a new SLP transaction, the valid set by an accepted one, and the result tells which |
| `SlpValidator.StepExactly` | src/slp_validator.cpp:17-35 | the state after an addition: the first transaction with an id is kept and decided, and no other becomes valid |
| `SlpValidator.AddedExactly` | src/slp_validator.cpp:17-35 | `true` comes back iff the id was new and is valid afterwards; the exception iff its check throws |
| `SlpValidator.Validator.CheckSend` | src/slp_validator.cpp:90-121 | the verdict on a SEND, whatever is in `seen`; the 128-bit sums do not wrap |
| `SlpSupply.SendAccepted` | src/slp_validator.cpp:90-121 | a SEND is accepted iff the amounts of its message are at most those that the messages of valid transactions of its token put on the distinct outputs it spends |
| `SlpBaton.SendRun` | src/slp_validator.cpp:90-121 | for every quantity issued and every amount sent, a SEND of the tokens of a GENESIS is valid iff it sends no more than was issued |
| `SlpValidator.Validator.CheckMint` | src/slp_validator.cpp:123-221 | the verdict of the baton walk: accepted, rejected or thrown |
| `SlpBaton.MintExactly` | src/slp_validator.cpp:123-221 | in every state, double spends or not: thrown iff no baton parent is a GENESIS and there are two different baton grandparents, rejected iff there is neither such a parent nor a grandparent |
| `SlpBaton.MintRun` | src/transaction.cpp:86-102 | for every baton output of a GENESIS with three outputs and every output that a MINT spends: the MINT is valid iff it spends the baton |
| `SlpValidator.Validator.MintPass` | src/slp_validator.cpp:175-218 | the `while(true)` always ends in its first pass |
| `SlpValidator.Validator.WalkHome` | src/slp_validator.cpp:126-168 | the transactions whose baton the inputs spend, among the valid ones of the same token |
| `SlpValidator.Validator.CheckGenesis` | src/slp_validator.cpp:223-243 | a GENESIS is accepted, except that an NFT child must spend, with its first input, at least one unit of a valid group token |
| `SlpValidator.Validator.CheckOutputsValid` | src/slp_validator.cpp:245-269 | a stored transaction that is seen or valid is accepted at once; the recursion does not go past it |
| `SlpValidator.Validator.Validate` | src/slp_validator.cpp:271-292 | the verdict on a transaction: accepted if it is valid already, that of its kind otherwise |
| `SlpValidator.Validator.ValidateTxid` | src/slp_validator.cpp:294-309 | an unknown id is rejected; a known one joins the valid set iff its transaction is accepted |
| `SlpValidator.TotalAmount` | src/slp_validator.cpp:99-102 | the 128-bit sum of the amounts of a SEND is their sum |
| `SlpValidator.RunWellFormed` | src/slp_validator.cpp:17-35 | in every run every entry is stored under its own id, carries a message, and only stored ids are valid |
| `SlpValidator.RunGrows` | src/slp_validator.cpp:17-35 | stored transactions never change and validity is never lost |
| `SlpSupply.InputSumIsConsumed` | src/slp_validator.cpp:104-116 | the amount that `check_send` adds up is that of the distinct valid outputs the inputs spend |
| `SlpSupply.SendStep` | src/slp_validator.cpp:90-121 | accepting a SEND keeps the supply of its token conserved |
| `SlpSupply.StepConserves` | src/slp_validator.cpp:17-35 | every addition keeps every token conserved |
| `SlpSupply.SupplyConserved` | src/slp_validator.cpp:17-121 | in every run, in any order, without double spends: unspent amounts of valid transactions are at most the sum of the quantities in the messages of the valid GENESIS and MINT transactions of the token |
| `SlpSupply.UntouchedWithinIssued` | src/transaction.cpp:61-84 | the same for the outputs that no stored transaction spends |
| `SlpBaton.MintDecided` | src/slp_validator.cpp:123-221 | in a state with a single lineage, the verdict on a MINT is whether the walk finds a baton parent; it never throws |
| `SlpBaton.SingleLineage` | src/slp_validator.cpp:123-221 | in every run, in any order, the valid issuances of a token form one chain from the genesis that its id names; each MINT has among its inputs the output that the message of the one before names for its baton, or output 0 where it names none |
| `SlpBaton.OneUnspentBaton` | src/transaction.cpp:86-102 | each token has at most one unspent baton among its valid transactions |
| `SlpBaton.NeverThrows` | src/slp_validator.cpp:194-210 | the "mint rare condition" is unreachable in every run without double spends |
| `SlpBaton.MintAccepted` | src/slp_validator.cpp:123-221 | a MINT is accepted iff an input is the output that the message of a valid issuance of its token names for its baton, whether or not the baton exists |
| `SlpBaton.TrueLineageKept` | src/transaction.cpp:86-102 | in every state with a lineage of real batons: a MINT keeps one iff it spends a baton that exists, and is accepted without one iff it spends output 0 of the last issuance, which has none |
| `SlpBaton.TrueIffNoneMissing` | src/transaction.cpp:86-102 | in every acyclic state the lineage is one of real batons iff no valid MINT spends output 0 of a valid issuance of its token without a baton |
| `SlpBaton.RunLineageTrue` | src/slp_validator.cpp:123-221 | the same after every acyclic run |
| `SlpBaton.MintThroughOutputZero` | src/transaction.cpp:86-102 | a run in which a MINT that spends output 0 of a genesis without a baton is accepted |
| `SlpOrder.MintAgrees` | src/slp_validator.cpp:123-221 | with its parents decided, the verdict on a MINT is that of the recursion on ancestors |
| `SlpOrder.ValidIsGenuine` | src/slp_validator.cpp:271-309 | after a parents-first run the valid set is the set of transactions that are genuine by recursion on ancestors |
| `SlpOrder.OrderIndependent` | src/slp_validator.cpp:17-35 | any two parents-first orders of an acyclic batch that do not throw give the same valid set |
| `SlpOrder.HonestNeverThrows` | src/slp_validator.cpp:194-210 | batches without double spends do not throw in any order |
| `SlpOrder.ValidateBatch` | src/util.cpp:38-60 | sorting a batch and feeding it to the validator finds exactly its genuine transactions |
| `Topology.Visit` | src/util.cpp:12-36 | a visit adds its transaction behind its unvisited ancestors, each once, and terminates by the ids not yet visited |
| `Topology.BatchFirst` | src/util.cpp:38-60 | of several transactions with one id the first is sorted |
| `Topology.TopologicalSort` | src/util.cpp:38-60 | every distinct id comes out exactly once; if spending inside the batch is acyclic, parents come before children |
| `TxGraph.ReachesIsAncestor` | src/txgraph.cpp:63-98 | paths that avoid an ancestor-closed set lead to exactly the ancestors outside it |
| `TxGraph.Traverse` | src/txgraph.cpp:63-98 | the stack loop finds exactly the nodes reachable past the exclusion set, each once, and terminates by unseen nodes, then stack size |
| `TxGraph.TokenGraphs.Clear` | src/txgraph.cpp:21-27 | both maps are empty and consistent |
| `TxGraph.TokenGraphs.InsertTokenData` | src/txgraph.cpp:100-164 | new transactions get nodes linked to exactly their inputs in the graph, other tokens stay, the count is that of new ids, and the maps stay consistent, so that a known id always has its node |
| `TxGraph.NewLinks` | src/txgraph.cpp:116-161 | a new node holds the bytes of its transaction and is linked to exactly the transactions that it spends from and that are in the graph |
| `TxGraph.LinkedExactly` | src/txgraph.cpp:151-161 | an id is among the links as often as among the inputs if it is in the graph, and not otherwise |
| `TxGraph.FreshExactly` | src/txgraph.cpp:116-149 | an id is new iff it is on the list and was not known |
| `TxGraph.FreshIsFirst` | src/txgraph.cpp:116-149 | the first transaction on the list with a new id is the one that is taken |
| `TxGraph.TokenGraphs.BuildExclusionSet` | src/txgraph.cpp:29-61 | an ancestor-closed set stays closed and grows by exactly the ancestors of the id |
| `TxGraph.TokenGraphs.GraphSearch` | src/txgraph.cpp:63-98 | the start node and exactly its ancestors outside a closed exclusion set, each once, with their data; the exclusion set comes back with exactly these added, and closed; NOT_IN_TOKENGRAPH cannot occur |
| `Utxo.UtxoDb.ProcessBlock` | src/bch.cpp:34-180 | all outputs of the block, then all inputs, then the histories; it is defined iff no transaction lacks the outputs that `slp_outputs` reads, and otherwise has changed the height alone |
| `Utxo.UtxoDb.ConfirmOutputs` | src/bch.cpp:68-93 | outputs join the confirmed layer and leave the mempool; the added outpoints are recorded |
| `Utxo.UtxoDb.SpendOutpoints` | src/bch.cpp:100-147 | inputs leave both layers; what they removed is recorded in order |
| `Utxo.UtxoDb.SaveHistory` | src/bch.cpp:167-177 | both histories grow by one record and keep the last ten |
| `Utxo.UtxoDb.ProcessMempoolTx` | src/bch.cpp:191-242 | outputs join the mempool layer, inputs leave its index or mark confirmed outputs as spent; defined iff the transaction has the outputs that `slp_outputs` reads, and otherwise nothing has changed |
| `Utxo.UtxoDb.Rollback` | src/utxodb.cpp:36-83 | the last record is undone: removed outputs return, added ones leave the address index |
| `SlpIssue.ReadHasOutputs` | src/transaction.cpp:28-59 | a transaction that was read has the outputs that `slp_outputs` reads iff it is not a GENESIS or MINT with one output |
| `SlpIssue.ReadIsReadable` | src/bch.cpp:50-62 | a block that was read can be gathered iff it holds no such transaction |
| `SlpIssue.LoneIssueIsRead` | include/gs++/transaction.hpp:128-183 | every GENESIS or MINT script of up to 252 bytes is read as the only output of such a transaction |
| `SlpIssue.IssueWithoutOutput` | src/transaction.cpp:41-56 | the bytes of such a GENESIS, which issues one token |
| `UtxoLaws.GroupsUnique` | src/bch.cpp:77-81 | a set of outputs has one grouping by script without empty groups |
| `UtxoLaws.BlockEffect` | src/bch.cpp:68-147 | a block adds its outputs and takes its inputs away, from the output map and the address index alike |
| `UtxoLaws.BlockCreates` | src/bch.cpp:50-62 | a block adds an outpoint iff the message of one of its transactions speaks of that output and it is no OP_RETURN |
| `UtxoLaws.BlockTakes` | src/bch.cpp:50-62 | a block takes an outpoint away iff it is an input of one of its transactions |
| `UtxoLaws.UnsavedBlock` | src/bch.cpp:167-177 | a block that is not saved leaves the histories alone and does otherwise what a saved one does |
| `UtxoLaws.BlockKeepsIndexExact` | src/bch.cpp:68-147 | the address index stays the output map grouped by script, without empty groups |
| `UtxoLaws.LedgerKeys` | src/bch.cpp:50-62 | one transaction at a time with parents first, the ledger is old and new outputs without the spent ones |
| `UtxoLaws.BulkIsLedger` | src/bch.cpp:50-147 | whatever the order inside the block, the output map after it is that of applying its transactions one at a time with parents first |
| `UtxoRollback.RollbackEffect` | src/utxodb.cpp:36-83 | a rollback turns the indexed set L into L plus the removed outputs minus the added ones |
| `UtxoRollback.RollbackKeepsMempool` | src/utxodb.cpp:36-83 | a rollback leaves the mempool, its marks and the height alone, and without a record everything |
| `UtxoRollback.BlockRecord` | src/bch.cpp:167-177 | what a saved block records |
| `UtxoRollback.RollbackUndoesBlock` | src/utxodb.cpp:36-83 | a rollback restores the address index iff the block's outputs were not indexed and it spent nothing known but unindexed; it restores the output map iff the block's outputs and the mempool outputs it spent were in it |
| `UtxoRollback.RunsKeepIndex` | src/utxodb.cpp:36-83 | in every run of blocks, arriving transactions and rollbacks the index is exactly the top of the undo stack, and the histories have equal length, at most ten |
| `UtxoRollback.RollbacksRestoreIndex` | src/utxodb.cpp:36-83 | every run with as many rollbacks as blocks and never more than ten blocks to roll back restores the address index exactly, whatever arrives in the mempool meanwhile |
| `UtxoRollback.RollbacksKeepPending` | src/utxodb.cpp:36-83 | in every such run the mempool index holds exactly what blocks and arrivals alone leave pending |
| `UtxoRollback.HeightCountsBlocks` | src/bch.cpp:34-49 | in every run the height grows by the number of blocks, rolled back or not |
| `UtxoMempool.ArrivalEffect` | src/bch.cpp:191-242 | an arriving transaction changes the mempool index by its outputs and inputs and leaves the confirmed layer and the histories alone |
| `UtxoMempool.ConfirmationEffect` | src/bch.cpp:83-147 | a block takes what it confirms and spends out of the mempool index |
| `UtxoMempool.ArrivalMarks` | src/bch.cpp:217-223 | an arriving transaction marks as spent exactly the inputs that the mempool does not know |
| `UtxoMempool.ConfirmationMarks` | src/bch.cpp:87-115 | a block clears exactly the marks of the outputs it creates and of the known outputs it spends |
| `UtxoMempool.RunsKeepPending` | src/bch.cpp:34-242 | in every run the mempool index holds exactly the outputs that arrived and were neither spent nor confirmed since they arrived, all of them known to the mempool's output map |
| `UtxoQueries.ConfirmedIsDirect` | src/utxodb.cpp:153-161 | with an exact index, the confirmed outputs of a script are those a scan of the whole output map finds |
| `UtxoQueries.TotalTake` | src/utxodb.cpp:156-160 | the sum over a set of outputs does not depend on the order of the walk |
| `UtxoQueries.GetBalance` | src/utxodb.cpp:146-172 | the balance is the 64-bit sum of the confirmed outputs of the script without a mark and the pending ones |
| `UtxoQueries.BalanceAfterBlock` | src/utxodb.cpp:146-172 | after a block, the confirmed part is a filter of the transaction-by-transaction ledger |
| `UtxoBalance.BlockKeepsApart` | src/bch.cpp:68-147 | blocks keep the pending outputs apart from the confirmed ones without a mark |
| `UtxoBalance.ArrivalKeepsApart` | src/bch.cpp:191-242 | an arriving transaction keeps them apart iff no output that it creates and does not itself spend is confirmed without a mark |
| `UtxoBalance.TotalShared` | src/utxodb.cpp:156-169 | two sums count the union of their sets once and what they share once more |
| `UtxoBalance.BalanceExact` | src/utxodb.cpp:146-172 | in every state the balance is the sum over the confirmed outputs without a mark and the pending ones, with what is in both counted twice |
| `UtxoBalance.BalanceApart` | src/utxodb.cpp:146-172 | where the layers are apart, the balance counts every output once |
| `UtxoBalance.CountedExactly` | src/bch.cpp:34-242 | after every run from every state, whether an output counts as confirmed and whether it counts as pending, by what the events of the run did to it |
| `UtxoBalance.SpentYetCounted` | src/bch.cpp:87-115 | after the block that confirms an output, in every run whose blocks do not confirm or spend it, it is counted iff no spender arrived since before any transaction that creates it arrived again; spenders that arrived before the block make no difference |
| `UtxoBalance.SpentYetPending` | src/bch.cpp:191-242 | after every run, an output that was not pending counts as pending iff an arrival created it and nothing spent or confirmed it from then on; earlier spenders make no difference |
| `UtxoExamples.CountedTwice` | src/utxodb.cpp:146-172 | a run after which an output is confirmed and pending |
| `UtxoExamples.SendWithChange` | src/transaction.cpp:28-40 | the block of a SEND with one amount and a change output adds the token output alone, and its value is the balance |
| `UtxoExamples.CountedThoughSpent` | src/utxodb.cpp:146-172 | a run after which an output is counted although a mempool transaction spends it |
| `UtxoExamples.CountedThoughSpentLater` | src/bch.cpp:217-223 | a run in which the spender arrives after the block and its output is counted all the same |
| `UtxoExamples.PendingThoughSpent` | src/bch.cpp:191-242 | a run after which an output is pending although a transaction that arrived before spends it |
| `UtxoExamples.RollbackKeepsOutput` | src/utxodb.cpp:64-82 | a block whose rollback restores the address index but leaves its output in the output map |
| `UtxoExamples.RollbackOfRepeatedBlock` | src/utxodb.cpp:36-83 | a block whose rollback does not restore the address index |
| `LinearRegister.RunLinear` | src/cashaddr/cashaddr.cpp:42-147 | runs of a linear register respect addition of states and inputs |
| `LinearRegister.RunInjective` | src/cashaddr/cashaddr.cpp:42-147 | distinct states stay distinct under any input of any length |
| `LinearRegister.BurstDiffers` | src/cashaddr/cashaddr.cpp:42-147 | inputs that differ in one short window never lead to the same state |
| `CashAddrChecksum.PolyMod` | src/cashaddr/cashaddr.cpp:42-147 | the remainder of the symbols, exclusive-or 1 |
| `CashAddrChecksum.CodeLinear` | src/cashaddr/cashaddr.cpp:102-136 | the register of `PolyMod` is linear over 5-bit symbols |
| `CashAddrChecksum.CodeFaithful` | src/cashaddr/cashaddr.cpp:102-136 | it stays within 40 bits and only the zero state steps to zero without input |
| `CashAddrChecksum.CodeHolds` | src/cashaddr/cashaddr.cpp:102-105 | an empty register holds up to eight symbols as they are |
| `CashAddrChecksum.TapsAreMultiples` | src/cashaddr/cashaddr.cpp:108-136 | the five constants are the multiples by 1, a, ..., a^4 of the generator's tail over the field of 32 elements |
| `CashAddrChecksum.BurstDetected` | src/cashaddr/cashaddr.cpp:42-147 | two lists of one length that differ only in a window of eight symbols have different remainders |
| `CashAddrChecksum.ChecksumUnique` | src/cashaddr/cashaddr.cpp:176-196 | of all eight-symbol endings exactly the created checksum verifies |
| `RootBound.Vandermonde` | src/cashaddr/cashaddr.cpp:56-59 | in every field of characteristic two, weights at m distinct points whose first m moments vanish are zero |
| `RootBound.TwoProgressions` | src/cashaddr/cashaddr.cpp:56-59 | the same for m + 1 weights where m moments vanish with and without a factor at distinct points |
| `RootBound.FewCoefficients` | src/cashaddr/cashaddr.cpp:56-59 | a polynomial with roots in two progressions of m powers has more than m + 1 coefficients, or none |
| `QuadraticExtension.ExtensionLawful` | src/cashaddr/cashaddr.cpp:64-71 | adjoining a root of y^2 + y + c to a field in which it has none gives a field |
| `CashAddrField.GF32Lawful` | src/cashaddr/cashaddr.cpp:64-71 | symbols, as their bits, with exclusive or and multiplication modulo a^5 + a^3 + 1 are a field |
| `CashAddrField.TimesAIsDouble` | src/cashaddr/cashaddr.cpp:64-71 | doubling a symbol and reducing it is multiplication by a in that field |
| `CashAddrRoots.Order` | src/cashaddr/cashaddr.cpp:56-59 | the powers of an element of GF(2^20) repeat after 1025 and not before |
| `CashAddrRoots.CheckRoots` | src/cashaddr/cashaddr.cpp:54-57 | that element and its 30th power are roots of the generator |
| `CashAddrDistance.StepSymbols` | src/cashaddr/cashaddr.cpp:101-136 | a step of the register shifts its symbols and adds what the symbol that leaves feeds back |
| `CashAddrDistance.FeedbackIsProduct` | src/cashaddr/cashaddr.cpp:107-136 | what a symbol feeds back is its product, in the field, with the coefficients of the generator |
| `CashAddrDistance.RunValue` | src/cashaddr/cashaddr.cpp:73-100 | at every root of the generator the state has the value of the whole input |
| `CashAddrDistance.FewErrorsDetected` | src/cashaddr/cashaddr.cpp:56-59 | lists of one length, however long, that differ in one to four places within a window of 1025 have different remainders |
| `CashAddr.CharsetInOrder` | src/cashaddr/cashaddr.cpp:15-18 | the characters of the symbols are the 32 of "qpzry9x8gf2tvdw0s3jn54khce6mua7l", in order |
| `CashAddr.SymbolOfChar` | src/cashaddr/cashaddr.cpp:15-27 | the decoding table undoes the encoding table |
| `CashAddr.CharOfSymbol` | src/cashaddr/cashaddr.cpp:15-27 | the encoding table undoes the decoding table up to case |
| `CashAddr.ExpandPrefix` | src/cashaddr/cashaddr.cpp:162-171 | the low five bits of the prefix and a zero |
| `CashAddr.VerifyChecksum` | src/cashaddr/cashaddr.cpp:176-178 | whether prefix and payload have remainder 1 |
| `CashAddr.CreateChecksum` | src/cashaddr/cashaddr.cpp:183-196 | the checksum of prefix and payload |
| `CashAddr.VerifiesIffCreated` | src/cashaddr/cashaddr.cpp:176-196 | a payload verifies with exactly the checksum created for it |
| `CashAddr.Encode` | src/cashaddr/cashaddr.cpp:205-216 | prefix, colon, and the characters of payload and checksum |
| `CashAddr.Scan` | src/cashaddr/cashaddr.cpp:223-265 | finds the colon of a string of letters, a colon, letters and digits in one case, and refuses every other string |
| `CashAddr.Decode` | src/cashaddr/cashaddr.cpp:221-293 | decoding by the grammar of addresses |
| `CashAddr.LowerCaseExactly` | src/cashaddr/cashaddr.cpp:154-157 | the lower case of a letter; digits and the colon stay |
| `CashAddr.CaseMakesNoDifference` | src/cashaddr/cashaddr.cpp:223-265 | texts that differ in case alone decode alike if each is in one case; a text in two cases does not decode |
| `CashAddr.DecodeEncode` | src/cashaddr/cashaddr.cpp:205-293 | decoding an encoding gives prefix and payload back, for every non-empty lower-case prefix and every payload |
| `CashAddr.EncodeDecode` | src/cashaddr/cashaddr.cpp:205-293 | every accepted string is, in lower case, the encoding of what it decodes to |
| `CashAddr.BurstRejected` | src/cashaddr/cashaddr.cpp:287-290 | an accepted address with up to eight neighbouring characters changed, beyond case, is rejected, wherever they are: prefix and colon are no exception |
| `CashAddrErrors.FewErrorsRejected` | src/cashaddr/cashaddr.cpp:56-62 | an accepted address with up to four characters changed, beyond case, within 1025, is rejected unless its colon moved |
| `CashAddrErrors.ColonMoved` | src/cashaddr/cashaddr.cpp:221-293 | for every prefix and payload, two accepted addresses that differ in two characters, of which one is the colon of each |
| `CashAddrShort.VerifiesExactly` | src/cashaddr/cashaddr.cpp:176-178 | symbols verify behind a prefix iff prefix and symbols are at least eight and end in the checksum of what stands before |
| `CashAddrShort.OutOfRangeExactly` | src/cashaddr/cashaddr.cpp:287-292 | `Decode` reads out of range iff there are fewer than eight symbols and they verify |
| `CashAddrShort.SevenSymbols` | src/cashaddr/cashaddr.cpp:287-292 | seven symbols verify for a prefix iff the checksum of its low five bits starts with 0, and then only its other seven do |
| `CashAddrShort.SevenOutOfRange` | src/cashaddr/cashaddr.cpp:287-292 | each such lower-case prefix has a string that `Decode` reads out of range |
| `CashAddrShort.ShortIsOutOfRange` | src/cashaddr/cashaddr.cpp:287-292 | "c:qvdy2z3" is one |
| `ConvertBits.Convert` | include/gs++/scriptpubkey.hpp:118-150 | the digits made are padded (the number moved up to the last digit) or whole (the number without the bits behind, refused iff those are too many or not zero), and the result is what the 8-bit index leaves of them |
| `ConvertBits.FoldedShort` | include/gs++/scriptpubkey.hpp:124-135 | up to 256 digits are stored in order |
| `ConvertBits.FoldedAt` | include/gs++/scriptpubkey.hpp:124-135 | of more, each of the first 256 places holds the last digit stored there, and the others hold zero |
| `ConvertBits.ValueUnique` | include/gs++/scriptpubkey.hpp:118-150 | digits of one length that write one number are the same |
| `Address.RegroupRoundTrip` | include/gs++/scriptpubkey.hpp:118-150 | bytes regrouped into symbols and back are the same bytes |
| `Address.ToCashaddr` | include/gs++/scriptpubkey.hpp:57-87 | the address of a script with a known form and hash size, and no address otherwise |
| `Address.HashSizeExactly` | include/gs++/scriptpubkey.hpp:162-185 | size bits b stand for 20, 24, 28 or 32 bytes by b modulo 4, and twice as many from 4 on; other sizes have none |
| `Address.PayloadExactly` | include/gs++/scriptpubkey.hpp:57-87 | exactly which scripts have an address, and what it holds: a version byte below 8 for a key hash and from 8 to 15 for a script hash, whose low three bits name the size of the hash behind it |
| `AddressExample.ZeroKeyAddress` | include/gs++/scriptpubkey.hpp:57-87 | the address of the key hash script of twenty zero bytes, character by character |
| `Address.FromCashaddr` | include/gs++/scriptpubkey.hpp:89-116 | the script of an address, the empty script where decoding fails or the kind is unknown, and the assertion or read out of range where there is one |
| `Address.ScriptForm` | include/gs++/scriptpubkey.hpp:89-116 | the script that each version byte leads to; the size bits are not looked at |
| `Address.ScriptUnique` | include/gs++/scriptpubkey.hpp:89-116 | a text has exactly one outcome |
| `Address.AddressRoundTrip` | include/gs++/scriptpubkey.hpp:57-150 | a script with an address survives the round trip iff it is a key hash script that ends in OP_EQUALVERIFY OP_CHECKSIG, or a script hash whose 21 middle bytes are all 0x14 |
| `Address.ScriptHashLost` | include/gs++/scriptpubkey.hpp:68-75 | a script hash script that does not survive |
| `Bytes.FromToLE` | include/gs++/util.hpp:22-88 | a number is read back from its bytes |
| `Bytes.ToFromLE` | include/gs++/util.hpp:22-88 | bytes are written back from their number, which fits them |
| `Bytes.PlaceLE` | include/gs++/util.hpp:22-88 | each byte of a number counts 256 times as much as the one before |
| `Bytes.PlaceBE` | include/gs++/slp_transaction.hpp:242-252 | in the numbers of a message each byte counts 256 times as much as the one behind |
| `SlpScript.TagsAreText` | include/gs++/slp_transaction.hpp:131-263 | the tags are "SLP" with a zero byte, "GENESIS", "MINT" and "SEND", and there are three token types |
| `SlpScript.ExtractPushdata` | include/gs++/slp_transaction.hpp:138-177 | the size of the opening at an iterator and the length it announces, read in bounds, or the iterator where it was |
| `SlpScript.Tokenize` | include/gs++/slp_transaction.hpp:207-232 | the chunks of pushes that tile the script, or a reason to refuse it |
| `SlpScript.TokensOfWritten` | include/gs++/slp_transaction.hpp:138-232 | written pushes come back as their data, except that an empty push at the very end is refused |
| `SlpScript.TokensAreWritten` | include/gs++/slp_transaction.hpp:138-232 | whatever the tokenizer accepts is a list of pushes with those data |
| `SlpScript.ParseRendered` | include/gs++/slp_transaction.hpp:239-440 | the chunks of every legal message parse to it |
| `SlpScript.ParsedIsRendered` | include/gs++/slp_transaction.hpp:239-440 | whatever parses is the chunks of a legal message |
| `SlpScript.ParsedByChunks` | include/gs++/slp_transaction.hpp:131-440 | the message depends on the chunks alone, not on the push opcodes |
| `SlpScript.AcceptsGrammar` | include/gs++/slp_transaction.hpp:131-440 | a script parses to a message iff it is OP_RETURN and pushes of the chunks of that message, and the message is legal |
| `SlpScript.Hydrate` | include/gs++/slp_transaction.hpp:110-440 | the parser, reading in bounds on every script, with the token type it leaves behind also where it refuses |
| `SlpScript.ParsedType` | include/gs++/slp_transaction.hpp:242-263 | a message that parses has the token type that is left behind |
| `SlpScript.TypeLeftExactly` | include/gs++/slp_transaction.hpp:207-263 | pushes leave a type behind iff the last is not empty, the first is the tag and the second is that type in one byte or two, and there is a third |
| `SlpScript.TypeLeftByPushes` | include/gs++/slp_transaction.hpp:131-232 | a script that is no list of pushes leaves none |
| `Wire.VarIntRoundTrip` | src/util.cpp:62-73 | every 64-bit number is read back from its variable-length encoding, wherever it stands |
| `Wire.VarIntForm` | src/util.cpp:62-73 | the form of a written number: its marker and size |
| `Wire.VarIntExactly` | include/gs++/util.hpp:90-110 | what is read for each first byte, and that reading the last byte is refused |
| `Wire.TooMany` | include/gs++/transaction.hpp:88-156 | scripts and lists of a million and more are refused |
| `Wire.VarIntStable` | include/gs++/util.hpp:90-110 | a variable-length integer does not depend on what follows it |
| `Wire.RawStable` | include/gs++/transaction.hpp:84-160 | what was read of a transaction is read from any data that agree up to its end |
| `Wire.SelfDelimiting` | include/gs++/transaction.hpp:82-183 | bytes followed by anything hold a transaction of exactly those bytes iff the bytes alone do, and it is the same |
| `Wire.ReadInputs` | include/gs++/transaction.hpp:88-126 | the counted inputs, each check before its read |
| `Wire.ReadOutputs` | include/gs++/transaction.hpp:128-156 | the counted outputs, with 64-bit absolute values |
| `Wire.HydrateTransaction` | include/gs++/transaction.hpp:50-186 | the transaction at the start of the data with its id, outputs, message and bytes, reading in bounds on every byte string |
| `WireFormat.FieldsRead` | include/gs++/transaction.hpp:84-160 | for all fields that fit: version, counted inputs with id, index, script and sequence number, counted outputs with value and script, and lock time, written in this order and followed by anything, are read back as these fields, and the end is found |
| `WireFormat.TruncatedFails` | include/gs++/transaction.hpp:50-160 | no proper prefix of such bytes is read |
| `WireFormat.AbsoluteExactly` | include/gs++/transaction.hpp:139 | a value is read as a signed number without its sign |
| `WireFormat.SignedExactly` | include/gs++/transaction.hpp:85 | the version is a signed number |
| `WireFormat.FieldsHydrated` | include/gs++/transaction.hpp:82-183 | the transaction made of them: its id is the hash of exactly its bytes, its inputs name id and index, its outputs are numbered under its id with value and script |
| `WireFormat.MessageHydrated` | include/gs++/transaction.hpp:162-183 | it has an SLP message iff the script of output 0 is one in the grammar, and a GENESIS is named by the id of its transaction |
| `WireFormat.NoMessageHydrated` | include/gs++/transaction.hpp:162-183 | it has none iff that script is not in the grammar; all that is known then is the type that the parser left |
| `BlockCache.HeaderRoundTrip` | src/block.cpp:19-24 | header fields are read back from their bytes |
| `BlockCache.HeaderFields` | src/block.cpp:19-24 | where each field of the header stands |
| `BlockCache.TransactionReaderDelimits` | include/gs++/block.hpp:103-120 | the transaction reader keeps its bytes and is self-delimiting |
| `BlockCache.HydrateBlock` | include/gs++/block.hpp:28-124 | the header, its hash, and the transactions, filtered by `slp_only` |
| `BlockCache.BlockExactly` | include/gs++/block.hpp:28-124 | a block is read iff the data start with its header, a count, and the bytes of as many transactions, of which it keeps its own; its hash is that of the first 80 bytes |
| `BlockCache.KeptExactly` | include/gs++/block.hpp:114-116 | with `slp_only` exactly the transactions with a message are kept, as often as they come |
| `BlockCache.AllKept` | include/gs++/block.hpp:114-116 | without it all are kept, in order |
| `BlockCache.Serialize` | src/block.cpp:15-37 | header, count and bytes of the transactions |
| `BlockCache.TransactionsRoundTrip` | src/block.cpp:29-31 | transactions written one after the other are read back, whatever follows |
| `BlockCache.BlockRoundTrip` | src/block.cpp:15-37 | hydrating a serialized block gives its header and transactions back |
| `BlockCache.ReadIsSound` | include/gs++/block.hpp:58-121 | every block that is read has fitting fields, its own hash, and transactions that are what their bytes hold |
| `BlockCache.CacheRoundTrip` | src/block.cpp:15-37 | every block that is read comes back from its serialization as it was |
| `Field5x52.FeMulInner` | src/secp256k1/field_5x52_int128_impl.h:18-155 | for limbs below 2^56 (the last below 2^52): no accumulator overflows, the limbs of the result are below 2^52 (the last below 2^49), and it is the product modulo p |
| `Field5x52.FeSqrInner` | src/secp256k1/field_5x52_int128_impl.h:157-277 | the same for the square, limb for limb what multiplying by itself gives |
| `Field5x52.ConvolveIsProduct` | src/secp256k1/field_5x52_int128_impl.h:37-41 | the nine column sums represent the product |
| `Field5x52.ReduceIsExact` | src/secp256k1/field_5x52_int128_impl.h:43-154 | the reduced limbs differ from the column sums by a multiple of p |
| `Field5x52.ReduceBounds` | src/secp256k1/field_5x52_int128_impl.h:43-154 | the bounds of the result |
| `Field5x52.ReducedProduct` | src/secp256k1/field_5x52_int128_impl.h:18-155 | reduction of the column sums is the product modulo p within the output bounds |
| `Wnaf.EcmultWnaf` | src/secp256k1/ecmult_impl.h:397-447 | the digits sum to a or a - n; each is zero or odd and below 2^(w-1) in magnitude; non-zero digits are at least w apart; the final carry is 0; the count ends at the last non-zero digit |
| `Wnaf.LastCarry` | src/secp256k1/ecmult_impl.h:430-441 | the last window of a scalar below half the range leaves no carry |
| `Strauss.OddMultiplesTable` | src/secp256k1/ecmult_impl.h:97-130 | the table holds p, 3p, 5p, ... |
| `Strauss.TableGetIsMultiple` | src/secp256k1/ecmult_impl.h:290-300 | looking up an odd digit n, negative or positive, gives np |
| `Strauss.DoubleAndAdd` | src/secp256k1/ecmult_impl.h:582-616 | doubling and adding digits from the top gives the linear combination |
| `Strauss.StraussWnaf` | src/secp256k1/ecmult_impl.h:473-621 | the result is the sum of na_i A_i, plus ng G where given |
| `FixedWnaf.WnafFixed` | src/secp256k1/ecmult_impl.h:710-770 | for every scalar and window: digits are zero or odd and below 2^w in magnitude, their weighted sum minus the skew is the scalar, and nothing outside the row changes |
| `FixedWnaf.SettleValue` | src/secp256k1/ecmult_impl.h:753-766 | moving a 1 or -1 down a window keeps the sum |
| `Pippenger.RunningSumsWeigh` | src/secp256k1/ecmult_impl.h:845-862 | the running sums of the buckets weigh bucket j by 2j + 1 |
| `Pippenger.WeightedUpdate` | src/secp256k1/ecmult_impl.h:831-838 | adding a point to bucket j adds 2j + 1 times the point to the weighted sum |
| `Pippenger.Recode` | src/secp256k1/ecmult_impl.h:796-803 | rows of digits for the points that count; skipping zero scalars and points at infinity does not change the sum |
| `Pippenger.FillBuckets` | src/secp256k1/ecmult_impl.h:813-839 | the buckets weigh to the digit column, corrected for the skew; bucket indices are in range |
| `Pippenger.CollapseBuckets` | src/secp256k1/ecmult_impl.h:841-862 | the doublings and running sums give 2^w r plus the weighted sum of the buckets |
| `Pippenger.PippengerWnaf` | src/secp256k1/ecmult_impl.h:789-864 | for every list of scalars and points and every window the result is the sum of s_k P_k |
| `Scratch.ScratchSpace.ApplyCheckpoint` | src/secp256k1/scratch_impl.h:46-56 | allocations after a checkpoint are dropped; a checkpoint ahead of the present is refused |
| `Scratch.ScratchSpace.MaxAllocation` | src/secp256k1/scratch_impl.h:58-67 | a total that fits behind what is allocated even if every one of the objects pays the worst alignment cost |
| `Scratch.ScratchSpace.Alloc` | src/secp256k1/scratch_impl.h:69-86 | succeeds iff the rounded size fits, and the block starts at the end of the last one |
| `Scratch.WindowAndInverse` | src/secp256k1/ecmult_impl.h:870-958 | the window for n points is at most w iff n is at most the inverse of w |
| `Scratch.WindowByThresholds` | src/secp256k1/ecmult_impl.h:870-925 | the window by the number of thresholds that the number of points passes |
| `Scratch.Layouts` | src/secp256k1/ecmult_impl.h:449-471 | the sizes of the structures, from their members |
| `Scratch.BlocksFit` | src/secp256k1/ecmult_impl.h:982-990 | the six blocks of a batch stay within `pippenger_scratch_size` |
| `Scratch.PippengerMaxPoints` | src/secp256k1/ecmult_impl.h:1084-1118 | the largest limit such that for every n up to it a batch of n points fits the scratch space at the window it will choose: one point more does not fit |
| `EcmultMulti.PippengerBatch` | src/secp256k1/ecmult_impl.h:992-1072 | every exit restores the checkpoint; success gives the sum, computed in buffers as long as the blocks hold; within the limit it succeeds iff the callback delivers |
| `EcmultMulti.BuffersSuffice` | src/secp256k1/ecmult_impl.h:1018-1033 | the blocks hold all point states, all digit rows and all buckets |
| `EcmultMulti.StraussBatch` | src/secp256k1/ecmult_impl.h:652-692 | fails iff one of the first five blocks is not found or the callback refuses; uses a block that was not found iff only the sixth is missing and some term counts; otherwise gives the sum; restores the checkpoint |
| `EcmultMulti.OnePointTooFew` | src/secp256k1/ecmult_impl.h:664-679 | one point with 2208 bytes free: five blocks are found and the sixth is not |
| `EcmultMulti.StraussFits` | src/secp256k1/ecmult_impl.h:699-701 | within `strauss_max_points` all six blocks are found |
| `EcmultMulti.MultiSimple` | src/secp256k1/ecmult_impl.h:1122-1145 | the sum, one multiplication at a time, iff the callback delivers |
| `EcmultMulti.BatchSizes` | src/secp256k1/ecmult_impl.h:1149-1165 | batches within the limits that tile the points |
| `EcmultMulti.BatchesTile` | src/secp256k1/ecmult_impl.h:1161-1163 | all batches but the last are full and the last is not empty |
| `EcmultMulti.RunBatches` | src/secp256k1/ecmult_impl.h:1203-1212 | the batch loop covers every index once: its total is the whole sum |
| `EcmultMulti.MultiVar` | src/secp256k1/ecmult_impl.h:1168-1214 | with any scratch space or none: succeeds iff the callback delivers every point, returns ng G plus the whole sum, and leaves the scratch space as it was |
| `EcmultGen.OffsetsCancel` | src/secp256k1/ecmult_gen_impl.h:70-89 | the offsets of the table rows sum to zero |
| `EcmultGen.BuildTable` | src/secp256k1/ecmult_gen_impl.h:29-102 | entry i of row j is i times the j-th power of the row size times G, plus the offset of the row |
| `EcmultGen.GenContext.constructor` | src/secp256k1/ecmult_gen_impl.h:29-102 | the table is right and the initial point is minus the blinding multiple of G |
| `EcmultGen.GenContext.EcmultGen` | src/secp256k1/ecmult_gen_impl.h:125-157 | in every valid context, however blinded, the result is gn G |
| `EcmultGen.GenContext.Blind` | src/secp256k1/ecmult_gen_impl.h:160-206 | blinding anew keeps the context valid, so any sequence of blindings does |

## Left out

- Servers, command line tools, the REST and gRPC front ends, `src/rpc.cpp`, file and socket I/O, stream printers and fuzz drivers: plumbing around the modelled cores.
- Locks, atomics and threads: each method is one atomic step.
- Trusted `add_tx` calls, `remove_tx` and `add_valid_txid` of the validator: they bypass the checks that the theorems rest on.
- `slpdb` (include/gs++/slpdb.hpp), a second token ledger beside the validator, and the calls into it from `process_block` and `process_mempool_tx`.
- The insides of SHA-256, and where random seeds come from: parameters.
- Jacobian and affine coordinates, z-ratio tables, the endomorphism, assembly, other limb sizes and constant-time behaviour: the group is abstract.
- `get_outputs_by_outpoints` and `get_outputs_by_scriptpubkey`: they would add easy members beside the balance query.
- `transaction::slp_inputs`: unused by the modelled operations.
- ConvertBits.Convert: the result length is computed exactly; the source computes it in floating point, which is exact for lists of less than two million digits.
- SlpScript.Hydrate: where the source never sets `token_type` it is 0; the source leaves it uninitialised.
- Detection of five errors within 160 symbols and six within 126 (src/cashaddr/cashaddr.cpp:59-61): the source found these by choosing among codes, and they do not follow from the roots of the generator.
- Overflow of `size_t` products in `strauss_scratch_size` and the like: sizes are unbounded numbers below the address space.
