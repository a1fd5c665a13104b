# Verified model of the DogeOS execution layer

This project models the state changes that the DogeOS variant of revm makes on top of Ethereum: the
EIP-7709 `BLOCKHASH` instruction, the transaction fee lifecycle, the L1 data fee, and the native
transfer precompile. All four act on one ledger with a journal, so the journal is modelled once and
everything else is proved about it.

`dafny verify dfyconfig.toml` checks the whole project. The modules, bottom up:

| file | what it holds |
|---|---|
| `Words`, `Specs` | 256-, 128- and 64-bit words with checked and saturating operations; the hard forks |
| `L1Block` | the oracle read, the four fee formulas and their cap; the exact formulas they are compared with |
| `JournalState`, `JournalLaws`, `JournalEffects`, `TransferEffects` | the journal as a value, why its log can undo everything, and what each operation changes |
| `JournaledState` | the journal as a mutable object, proved equal to the value model operation by operation |
| `Blockhash`, `BlockhashLaws` | the instruction, in place and as a function, and its reference meaning |
| `TransferPrecompile` | the precompile and its reference meaning |
| `Runs`, `Refinement`, `RunLaws`, `AccessLists`, `Reads` | interleavings of all operations, a snapshot machine that they refine, when access lists may be replaced, and how often the database is read |
| `OracleRead`, `Commit` | the journaled oracle read; writing the journal back to the database |
| `Transactions`, `FeeLifecycle`, `FeeLaws`, `StorageLaws`, `Supply`, `Settlement` | transactions, deduction and settlement, and what they take, pay and leave alone |
| `LedgerLaws`, `LedgerRuns` | conservation and exact fees over one transaction and over lists of transactions and commits |
| `Verdicts` | which transactions are accepted, the exact reason of every rejection, and what a failure leaves behind |
| `RingBuffer` | the EIP-2935 ring over a chain of blocks of transactions |
| `Handler` | the handler as an object that updates journal, oracle info and frame gas in place |

The shape is the same throughout. An object whose fields the program updates is a class; each of its
methods is proved to compute a function of the old state; and the properties are lemmas about those
functions, stated against an independent reference: unbounded arithmetic for the fees, snapshots that
are copied and put back for checkpoints, a table of reasons for rejections, the sum of all balances
for settlement.

## What the proofs say

- **One run, two machines.** From every journal between call frames, whatever its transaction has already
  deducted, loaded and warmed, and for every interleaving of BLOCKHASH, SLOAD, BALANCE, SSTORE, transfer
  calls, nested checkpoints, commits, reverts and transaction ends, the journal gives the same words, gas
  and halts as a machine that stores plain values and sets of warm addresses, saves a copy at a
  checkpoint and puts it back at a revert (`Refinement.RunRefines`, `Refinement.EveryJournalRefines`).
  A transaction's access list may be replaced during such a run exactly if the new list covers the old
  one (`AccessLists.ReplacementIsSafeExactly`); the handler loads one list per transaction.
- **The fast path is exact.** Reading the cached history account equals always loading it under a
  checkpoint and rolling back, from every well-formed journal, database errors included; only the
  history account's transaction stamp, cold flag and original info can differ
  (`BlockhashLaws.FastPathMatchesRollback`).
- **Saturation is invisible.** With info fetched at any fork that includes the one priced at, the fee is
  the cap applied to the exact formula over unbounded integers (`L1FeeLaws.FeeIsExact`).
- **The regime change is exact.** TsukiV2 rejects what Tsuki accepts for one interval of balances, and
  whatever it accepts leaves the identical journal (`FeeLaws.RegimeGapIsExact`,
  `FeeLaws.TsukiV2AcceptanceImpliesTsuki`).
- **Value is conserved, exactly when it can be.** Over every list of transactions of every class, across
  forks and with commits to the database between any two of them, the sum of all balances never grows, and
  stays constant exactly if no settlement's credit overflows a 256-bit balance
  (`LedgerRuns.RunConservesSupply`). A ledger that holds at most 2^256 - 1 in all always meets the condition
  (`LedgerRuns.BoundedLedgerFits`); `LedgerRuns.RewardCanVanish` is an executed transaction that does not:
  its beneficiary already holds 2^256 - 1 and the reward is lost.
- **Every fee is the exact fee on the latest oracle.** After any such list, what the next transaction pays and
  its beneficiary earns is the exact formula on the oracle's contents as the last executed transaction left
  them, committed to the database or not; rejected transactions and the transaction's own writes do not
  count (`LedgerRuns.EveryFeeIsExact`).
- **Every verdict is exact.** From every ledger a transaction of any class, in any fork, is executed exactly if
  its gas limit, nonce, sender code and balance meet the inequalities of its class, with the L1 fee in unbounded
  arithmetic on the oracle's present contents; otherwise it gets the first reason that holds, amounts included
  (`Verdicts.TransactVerdict`). An error at any stage, a failing database included, changes no account and no
  slot (`Verdicts.FailureLeavesNothing`).
- **A commit loses nothing.** Whatever balance, nonce, code or slot differs from the database belongs to a
  touched account, after every run of operations and every list of transactions. That is exactly what a
  commit of the touched accounts needs to keep every account, every slot and the sum of all balances
  (`Commits.CommitKeepsExactly`, `LedgerRuns.CommitKeepsLedger`), and what makes reading the oracle through
  the journal equal to reading the committed database (`OracleReadLaws.JournalReadEqualsCommittedRead`).
- **Ancestors stay readable.** In a chain whose every block writes its parent's hash to the ring, executes an
  arbitrary list of transactions that leaves the history contract alone, and commits them to the database,
  BLOCKHASH in any transaction of any block returns the hash of each of the last 256 ancestors below 2^64,
  across any number of wraps (`RingBuffer.BlockhashInEveryTransaction`). From 2^64 on the 64-bit ring index
  saturates; `RingBuffer.BlockhashReturnsAncestors` gives the block that answers every lookup, and
  `RingBuffer.ServedExactly` when it is the right one.

## Behaviour taken from revm

The journal and the mainnet handler are library code that the repository calls. The model follows what
the repository's code relies on and its tests pin down:

- a journal keeps cached values when it reverts; a slot or account is warm by its transaction id and
  cold flag, or by the access list; a store refreshes nothing but the present value;
- the mainnet check is `gasLimit * maxFee + value <= balance` with the product held in 128 bits, then
  `gasLimit * effectivePrice` is taken; the reimbursement is a saturating 128-bit product;
- `incr_balance` and `decr_balance` drop an amount that does not fit and only report it; the handler
  ignores that report (src/handler.rs:338, src/handler.rs:375), so the proofs show that no debit is ever
  dropped, and exactly when a credit is;
- the journal's transfer debits first and keeps the debit when the credit then overflows;
- an out-of-gas halt spends all gas; the receipt's gas is taken before the floor is charged.

Where the comments and the code disagree the model follows the code: the overview at
src/handler.rs:58-59 says that the *maximum* fee is deducted, while the gas cost at the *effective*
price is, together with the L1 fee (src/tests/upfront_balance.rs:105).

Parameters of the model, standing for things outside it: the keccak hash of the pre-Feynman BLOCKHASH,
the intrinsic gas schedule, and the execution of call frames between deduction and settlement. An
execution may do anything that keeps the journal well formed, the database, the sum of all balances and
the gas budget, and touches the accounts it changes; it may rewrite oracle slots. Every run of reads,
writes, BLOCKHASH and transfer calls in nested frames is proved to be such an execution
(`LedgerRuns.RunsAreFaithful`).

## Model

| member | source | states |
|---|---|---|
| `Refinement.RunRefines` | src/instructions.rs:106-216 | over every interleaved run the journal machine and the snapshot machine give the same outputs (words, gas left, halts, transfer results) and stay related in every account, slot and warm flag, the frames still open included |
| `Refinement.StepRefines` | tests/eip7709.rs:73-139 | each single operation, from every pair of related states, gives the same output and related states |
| `Refinement.StepBlockhash` | src/instructions.rs:106-177 | one BLOCKHASH with any fork, number and gas costs 20, 120 or 2120 and returns and warms what the snapshot says |
| `Refinement.StepSload` | tests/eip7709.rs:73-89 | SLOAD shares slot warmth with BLOCKHASH in both directions: 100 warm, 2100 cold |
| `Refinement.StepReadBalance` | tests/eip7709.rs:91-106 | BALANCE pays 100 or 2600 by the account's own warmth, and warms it |
| `Refinement.StepSstore` | tests/eip7709.rs:387-397 | a store warms the slot and is what later reads see |
| `Refinement.StepTransfer` | src/precompile/transfer.rs:23-83 | a precompile call is, on snapshots, a guarded payment of the whole value or none |
| `Refinement.StepWarmList` | tests/eip7709.rs:368-385 | replacing the access list by one that covers it, the first list of a transaction for instance, keeps the machines related in every open frame, so listed slots stay warm through reverts |
| `AccessLists.ReplacementIsSafeExactly` | src/handler.rs:300 | delimits the hypothesis of the run theorems on access lists, of which the handler loads one per transaction: replacing one list by another within a transaction keeps both machines' outputs equal in every run exactly if the new list covers the old one; otherwise a dropped entry that a reverted frame read is still warm |
| `AccessLists.ListReplaces` | src/handler.rs:300 | after a list is loaded, warm is exactly what it names and what was loaded before and not undone; an entry that only an earlier list named is forgotten |
| `Refinement.StepCommit` | tests/eip7709.rs:212-218 | committing a child forgets its snapshot and keeps every outer one, so an outer revert still undoes the child |
| `Refinement.StepRevert` | tests/eip7709.rs:202-223 | reverting puts the matching snapshot back while cached values stay cached |
| `Refinement.StepEndTransaction` | tests/eip7709.rs:141-200 | ending a transaction in a kept journal turns everything cold, drops access lists and keeps written values |
| `Refinement.EveryJournalRefines` | src/instructions.rs:194-216 | every well-formed journal between call frames over a healthy database, caches, warmth and pending writes included, starts related to the snapshot read off it |
| `RunLaws.RevertRestoresFrame` | src/instructions.rs:205-215 | after any well-bracketed run inside a frame, reverting the frame restores every value, balance and warm flag its opening saw, slots warmed by committed children included |
| `RunLaws.BracketedKeepsFrames` | tests/eip7709.rs:202-223 | a well-bracketed run leaves every frame below it untouched |
| `RunLaws.TransfersConserveSupply` | src/precompile/transfer.rs:53-82 | from every such journal and over every interleaving of precompile calls with reads, writes, checkpoints, reverts and transaction ends the sum of all balances is constant |
| `RunLaws.RunKeepsUntouched` | tests/eip7709.rs:345-356 | every run keeps, through all its reverts, that an account or slot which differs from the database belongs to a touched account |
| `RunLaws.SimpleTransferKeepsSupply` | src/precompile/transfer.rs:57-82 | one call, whatever its outcome, keeps the sum of all balances |
| `BlockhashLaws.FastPathMatchesRollback` | src/instructions.rs:179-216 | the cached path and the always-roll-back path agree in value or error, prior warmth, log, slots, database reads and every warm flag; only three metadata fields of the history account may differ |
| `Reads.EachIsReadOnce` | tests/eip7709.rs:225-257 | over every run, rollbacks, reverts and transaction ends included, the database is read exactly once for each account and each slot that was not cached before |
| `BlockhashLaws.BlockhashMeetsReference` | src/instructions.rs:100-177 | for every stack, BLOCKHASH succeeds exactly when its gas covers the EIP-7709 cost; then it replaces the last word by the reference word and no other, charges exactly that cost and warms at most the one slot; otherwise it halts with no storage read, nothing warmed or logged and no checkpoint open |
| `BlockhashLaws.BlockhashHaltsExactly` | src/instructions.rs:106-177 | over every database: an empty stack underflows after the base cost, and a fatal error comes exactly from a lookup in the window, from Feynman on, that needs and cannot load the account, its delegate or the slot; gas and stack are then as charged up to that point |
| `BlockhashLaws.BlockhashNeverWarmsAnAccount` | src/instructions.rs:179-216 | from TsukiV2 no account's warmth changes, for any gas and even on database errors; at most one log entry is added, and none if it halts |
| `BlockhashLaws.HistorySloadEffect` | src/instructions.rs:194-216 | the history read warms exactly one slot, or is skipped without a trace exactly when the slot is cold and unaffordable, or fails only with the database |
| `BlockhashLaws.PrepareHistoryEffect` | src/instructions.rs:205-213 | the checkpointed account load leaves the view, log, depth and slots as they were and the account cached; it fails only on a broken account that was not cached |
| `BlockhashLaws.MeteredReadEffect` | src/instructions.rs:140-159 | 100 or 2100 decides alone between success, which puts the slot's value in place of the last word, and a traceless out-of-gas: the cold surcharge after a warming never fails |
| `BlockhashLaws.UnmeteredReadEffect` | src/instructions.rs:160-173 | from Feynman until TsukiV2 the read is free of charge, puts the slot's value in place of the last word, and warms the slot, the account and the account it delegates to, if any |
| `JournalEffects.LoadAccountDelegatedEffect` | src/instructions.rs:161-166 | loading through a delegation warms exactly the account and its delegate, and can be undone |
| `BlockhashLaws.WindowTest` | src/instructions.rs:115-126 | the checked subtraction with a saturated difference is the window of the last 256 blocks, for all 256-bit numbers |
| `RingBuffer.RingHoldsAncestors` | src/instructions.rs:135-138 | over every chain, with one parent-hash write per block and arbitrary block steps that leave the history slots alone, each of the last 8191 recorded ancestors is still in its slot, however often the ring wrapped |
| `RingBuffer.BlocksLeaveRing` | src/instructions.rs:190-191 | a block of any transactions, executed and then committed to the database, is such a block step if no execution writes the history contract |
| `RingBuffer.TransactionsKeepHistory` | src/instructions.rs:133-138 | within a block, every journal between transactions shows the history slots the block started with: fees, settlements, commits and discards never touch them |
| `RingBuffer.RunsKeepHistory` | src/instructions.rs:133-138 | every run of operations without a store to the history contract is an execution as blocks ask for |
| `RingBuffer.BlockhashReturnsAncestors` | src/instructions.rs:115-138 | in every block of every such chain, from every journal that shows the chain's history slots and after every run that leaves them alone, BLOCKHASH returns for each of the last 256 numbers the hash of the block that its ring index serves, which is that block's own hash unless the index saturates, and zero for every other number |
| `RingBuffer.BlockhashInEveryTransaction` | src/instructions.rs:106-216 | over every chain of blocks of transactions, in the execution of any transaction of any block, BLOCKHASH returns the hash of each of the last 256 ancestors below 2^64 and zero for every other such number |
| `RingBuffer.RunKeepsHistory` | src/instructions.rs:133-138 | a run without a store to the history contract changes no history slot, neither in the present nor in any frame still open |
| `RingBuffer.RingIndexExactly` | src/instructions.rs:137-138 | the saturated 64-bit index is the number's own slot exactly below 2^64 or on a coincidence of residues |
| `RingBuffer.ServedExactly` | src/instructions.rs:137-138 | a number of the window is answered with its own block exactly below 2^64 or on a coincidence of residues |
| `RingBuffer.ServesParentAbove64Bits` | src/instructions.rs:137-138 | number 2^64 is answered with the hash of its parent |
| `Instructions.Eip7709HistorySload` | src/instructions.rs:194-216 | in place: skip test, checkpoint, load, revert, read, with early returns, equal to the specified read |
| `Instructions.BlockhashInstruction` | src/instructions.rs:106-177 | in place on stack top, gas and halt, equal to the specified lookup |
| `Instructions.StepBlockhash` | src/instructions.rs:85 | in place, base cost included: enough gas for the EIP-7709 cost gives the reference word at that cost with one slot warm, less halts without a trace |
| `JournalEffects.SloadEffect` | tests/eip7709.rs:426-449 | a slot read is skipped exactly for an absent account or a cold slot with skipping on, then changing nothing, and fails exactly if it needs a slot that the database cannot read; otherwise it reports value and prior warmth and warms just that slot with one log entry if cold |
| `JournalEffects.SloadRefreshesOriginal` | tests/eip7709.rs:259-301 | a read makes the present value the original one unless the transaction has read the slot before, so what an earlier transaction left in the journal counts as original |
| `JournalEffects.LoadAccountEffect` | tests/eip7709.rs:91-106 | loading reports and warms exactly one account with one log entry if cold, or fails without a trace, exactly if the account is not cached and the database cannot read it |
| `JournalEffects.LoadRefreshesOriginal` | tests/eip7709.rs:285-289 | a load makes the present info the original one unless the transaction has loaded the account before |
| `JournalEffects.SstoreEffect` | tests/eip7709.rs:387-397 | storing touches the account, warms the slot, changes that one value, and can be undone |
| `JournalEffects.SetBalanceEffect` | src/handler.rs:338 | a balance write changes that balance alone, touches the account, and can be undone |
| `JournalEffects.BumpNonceEffect` | src/handler.rs:418-422 | a nonce bump changes that nonce alone unless it is at its maximum, and can be undone |
| `JournalLaws.UndoToView` | tests/eip7709.rs:202-223 | undoing the log cannot tell journals apart that contracts cannot: caching and the form of coldness never leak |
| `JournalLaws.UndoToTwice` | tests/eip7709.rs:212-218 | undoing to an inner and then an outer mark is undoing to the outer one |
| `JournalLaws.UndoToWellFormed` | tests/eip7709.rs:125-135 | undoing keeps the journal's invariant and every cached value |
| `JournalLaws.ExtendsTransitive` | src/instructions.rs:209-212 | steps that the log can undo compose into one that it can undo |
| `JournaledStates.JournaledState.LoadAccount` | src/instructions.rs:210-211 | in place: the account is cached, stamped and logged as specified |
| `JournaledStates.JournaledState.SloadSkipColdLoad` | src/instructions.rs:199-203 | in place: the slot is cached, stamped and logged as specified, or skipped |
| `JournaledStates.JournaledState.Sstore` | tests/eip7709.rs:392 | in place: touch, read, overwrite and log as specified |
| `JournaledStates.JournaledState.IncrBalance` | src/handler.rs:530 | reports whether the sum fits, and credits exactly then |
| `JournaledStates.JournaledState.DecrBalance` | src/handler.rs:375 | reports whether the balance suffices, and debits exactly then |
| `JournaledStates.JournaledState.BumpNonce` | src/handler.rs:421 | in place: the nonce moves and is logged as specified |
| `JournaledStates.JournaledState.Transfer` | src/precompile/transfer.rs:73 | in place: loads both accounts, debits, then credits, with the specified failure |
| `JournaledStates.JournaledState.UndoLog` | src/instructions.rs:212 | the loop over the log, newest entry first, undoes exactly what lies above the mark |
| `JournaledStates.JournaledState.CheckpointRevert` | src/instructions.rs:212 | in place: undo to the mark and close the frame |
| `JournaledStates.JournaledState.CommitTx` | tests/eip7709.rs:166-170 | in place: a new transaction id, no access list, no log |
| `JournaledStates.JournaledState.DiscardTx` | src/tests/upfront_balance.rs:200-207 | in place: everything the transaction did is undone |
| `TransferPrecompile.RunPrecompile` | src/precompile/transfer.rs:23-83 | the ordered guards, decoding, receiver check and transfer, in place, equal to the specified run |
| `TransferLaws.RunMeetsReference` | src/precompile/transfer.rs:23-83 | a call ends with the first guard's error and an untouched journal, or succeeds exactly when the payer has the value and another receiver has room and then moves exactly the value, or reverts with every balance unchanged; all of it can be undone |
| `TransferLaws.RunOutcomeExactly` | src/precompile/transfer.rs:23-83 | over every database: the guards pass exactly for a direct, non-static call by the token with 9000 gas and 96 bytes; otherwise the first of the five reasons that holds is returned and the journal is untouched; behind the guards a fatal error comes exactly from an account that must be loaded and cannot be, and every other outcome costs 9000 |
| `TransferLaws.CheckedTransferIsAtomic` | src/precompile/transfer.rs:57-71 | after the receiver check the journal's overflow-after-debit case is unreachable, even with database errors |
| `TransferLaws.TransferEffect` | src/precompile/transfer.rs:73-77 | the transfer moves exactly the value if affordable and nothing otherwise; a self-transfer succeeds exactly when the balance suffices |
| `TransferEffects.OverflowLosesDebit` | src/precompile/transfer.rs:57-57 | the library transfer fails with an overflow exactly when the funds suffice and the receiver has no room, and then the debit stays, unrecorded in the log, and nobody else's account changes |
| `TransferEffects.TransferLoadedEffect` | src/precompile/transfer.rs:73-77 | outside that case the transfer moves the whole value or nothing, and can be undone |
| `TransferEffects.TransferTouches` | src/precompile/transfer.rs:73-77 | a transfer touches nobody if it pays itself, the payee alone if it moves nothing, the payer alone if it cannot pay, and else both |
| `TransferLaws.DecodeRoundTrip` | src/precompile/transfer.rs:53-55 | decoding returns exactly the payer, receiver and value that were encoded, whatever the padding |
| `L1FeeLaws.FeeIsExact` | src/l1block.rs:169-394 | for all oracle values, inputs and forks, with info fetched at a fork that includes the one priced at: the fee is the cap applied to the exact unbounded formula, each formula and cap given by the names of its forks, and the only errors are those of the compression data |
| `L1FeeLaws.FetchIsExact` | src/l1block.rs:169-221 | a fetch reads three, six or eight slots by fork, fails exactly if one of them cannot be read, and otherwise holds their values and the product of commit scalar and base fee |
| `Specs.ForksInOrder` | src/spec.rs:9-41 | each of the nine forks enables exactly itself and the earlier ones |
| `L1FeeLaws.MissingExactlyAtLaterStage` | src/l1block.rs:177-204 | an oracle value is missing exactly when the info was fetched at an earlier stage than priced at and the compression data passes its own checks |
| `L1FeeLaws.ShanghaiExact` | src/l1block.rs:245-251 | the cap hides every saturation of the pre-Curie formula |
| `L1FeeLaws.CurieExact` | src/l1block.rs:253-259 | the cap hides every saturation of the Curie formula, that of the fetched `calldata_gas` included |
| `L1FeeLaws.FeynmanExact` | src/l1block.rs:261-321 | the cap hides every saturation of the Feynman formula, whose reference divides once by 10^18 |
| `L1FeeLaws.GalileoExact` | src/l1block.rs:323-365 | the cap hides every saturation of the Galileo formula, although a saturated product is divided before an addition |
| `L1FeeLaws.SaturatedSquareHasLargeBase` | src/l1block.rs:357-364 | where the squared term saturates the base term alone already exceeds the cap, as a size is below 2^64 |
| `L1FeeLaws.GalileoShape` | src/l1block.rs:340-364 | the uncapped fee never falls when a price, scalar or the size rises or the penalty factor falls, zero counting as one |
| `L1FeeLaws.GalileoSuperadditive` | src/l1block.rs:357-364 | fee(a) + fee(b) <= fee(a + b) despite the nested floors |
| `L1FeeLaws.CalldataCostCounts` | src/l1block.rs:227-230 | the byte fold is four times the number of zero bytes plus sixteen times the rest |
| `L1Block.TryCalculateTxL1Cost` | src/l1block.rs:370-394 | a fee is never above 2^64 - 1 before Tsuki and 2^96 - 1 from Tsuki |
| `OracleReadLaws.JournalReadEqualsCommittedRead` | src/l1block.rs:142-166 | after every run, from every journal in which all that differs from the database has been touched, reading the oracle through the journal equals reading the database to which the touched accounts were written |
| `Commits.CommitKeepsExactly` | src/instructions.rs:190-191 | a commit of the touched accounts keeps every account's info and every slot exactly if whatever differs from the database has been touched |
| `Commits.CommitKeepsSupply` | src/instructions.rs:190-191 | such a commit keeps the sum of all balances |
| `LedgerRuns.CommitKeepsLedger` | src/instructions.rs:190-191 | between any two transactions a commit leaves a ledger with every account, every slot and the total unchanged |
| `OracleReadLaws.FetchedFeeIsExactAfterAnyRun` | src/l1block.rs:148-220 | from every journal and after every run of operations, the info fetched through the journal prices a transaction as the exact formula does on the oracle's present contents: uncommitted writes are seen and reverted ones are not |
| `Transactions.Tx.EffectiveGasPrice` | src/handler.rs:512 | the fee cap for a legacy or access-list transaction and without a tip; otherwise the smaller of the fee cap and base fee plus tip |
| `FeeLaws.MainnetDeductEffect` | src/handler.rs:323-325 | mainnet deduction accepts exactly when sender and `gasLimit * maxFee + value` are in order, takes exactly the effective gas cost, and changes no account otherwise |
| `FeeLaws.DeductBeforeTsukiV2` | src/handler.rs:318-340 | acceptance is exactly the two-stage check; both fees are then taken; when only the L1 fee fails the mainnet deduction and nonce bump are still in the journal |
| `FeeLaws.DeductFromTsukiV2` | src/handler.rs:341-378 | acceptance is exactly the combined check with the sender checks; the unchecked debit never falls short, at least `value` remains, and a rejection changes no balance or nonce |
| `FeeLaws.VerdictBeforeTsukiV2` | src/handler.rs:318-340 | the exact error, amounts included: sender, then overflow, then fee cap and value, then the L1 fee against what is left |
| `FeeLaws.VerdictFromTsukiV2` | src/handler.rs:341-378 | the exact error, amounts included: the L1 fee's own error, then overflow, then the total against the original balance, then the sender |
| `FeeLaws.RegimeGapIsExact` | src/handler.rs:318-378 | Tsuki accepts and TsukiV2 rejects exactly when the checks other than the balance pass and the balance lies from max(fee cap cost + value, effective cost + L1 fee) up to, but not including, fee cap cost + value + L1 fee |
| `FeeLaws.TsukiV2AcceptanceImpliesTsuki` | src/handler.rs:318-378 | whatever TsukiV2 accepts Tsuki accepts with the identical journal, log included |
| `FeeLaws.SameFeeAcrossTsuki` | src/l1block.rs:384-393 | the L1 fee or its error is the same at Tsuki and TsukiV2 |
| `LedgerLaws.AdmitL1MessageEffect` | src/handler.rs:381-425 | an L1 message is admitted exactly by the sender check and, before Euclid, the balance check; it pays nothing and a call's nonce goes up |
| `FeeLaws.L1MessageVerdict` | src/handler.rs:381-425 | the exact error of an L1 message, amounts included: before Euclid overflow, then fee cap and value against the balance, and then sender code; never the nonce |
| `LedgerLaws.DeductEffect` | src/handler.rs:306-427 | for every class and both regimes an accepted transaction has paid exactly gas at the effective price plus the L1 fee, gas alone, or nothing |
| `LedgerLaws.PreExecutionEffect` | src/handler.rs:289-303 | what is taken is priced by the oracle as it stood at the start of the transaction; no slot's value changes; a rejection can be discarded |
| `Verdicts.PreExecutionVerdict` | src/handler.rs:289-427 | from every journal over every database, pre-execution returns exactly the first reason that holds: an oracle slot or caller that cannot be read, then those of an L1 message, of a system transaction, or of a transaction that owes the exact L1 fee on what the oracle holds, in its regime's order; it accepts if there is none, and only a transaction that is charged the fee refreshes the info |
| `Verdicts.TransactVerdict` | src/handler.rs:220-427 | from every ledger a transaction is executed exactly if its limit covers intrinsic gas and floor and it has what its class needs: an accepted sender, its nonce, and the balance for fee cap and value and for the exact L1 fee; otherwise the error is the first of the reasons, gas before all others |
| `Verdicts.PostExecutionVerdict` | src/handler.rs:485-533 | over every database, settlement fails exactly if the caller cannot be loaded, the L1 fee has an error, or the beneficiary cannot be loaded, in that order, and never for an L1 message, whose journal it leaves alone |
| `Verdicts.FailureLeavesNothing` | src/handler.rs:289-549 | over every database, an error at any stage, settlement included, leaves every account and every slot as it was, with nothing warm and nothing to undo |
| `LedgerLaws.StartsWithListedWarm` | src/handler.rs:300 | whatever earlier transactions warmed, the first frame starts with exactly the listed slots warm, and exactly the caller, the beneficiary and the listed accounts |
| `LedgerLaws.ListedExactly` | src/handler.rs:300 | the loaded list names exactly the accounts and slots of the transaction's entries, repeated addresses merged |
| `StorageLaws.DeductionKeepsStorage` | src/handler.rs:306-427 | deduction of any class, in either regime, accepted or not, leaves every slot's value and warmth and warms only the caller |
| `StorageLaws.DeductionTouchesCaller` | src/handler.rs:423-424 | the caller of every accepted transaction is touched, so a commit writes it back |
| `StorageLaws.PostExecutionKeepsStorage` | src/handler.rs:485-533 | reimbursement and reward leave every slot's value and warmth |
| `LedgerRuns.PricedAtCommittedOracle` | src/handler.rs:293-297 | after every list of transactions and commits the info that prices the next transaction is what the database would give after a commit of the touched accounts |
| `LedgerRuns.EveryFeeIsExact` | src/handler.rs:293-297 | after every list of transactions and commits, across forks, the fee the next transaction pays, and the equal amount its beneficiary earns, is the exact formula on the oracle as the last executed transaction left it |
| `LedgerRuns.ValuesComeFromLastExecuted` | src/handler.rs:289-549 | over every list of transactions and commits each slot shows what the last execution left: deductions, settlements, commits and discards change none |
| `SettlementLaws.PostExecutionEffect` | src/handler.rs:485-533 | the exact balances after reimbursement and reward, also when caller and beneficiary are one account; the two add up to the deduction exactly if both credits fit a balance |
| `SettlementLaws.PaidOutConservesExactly` | src/handler.rs:485-533 | two successive credits add both amounts to the total exactly if both fit, and never more |
| `SettlementLaws.ReimbursementIsExact` | src/handler.rs:485-495 | the 128-bit reimbursement never saturates and is the price of exactly the unused gas |
| `SettlementLaws.RewardIsExact` | src/handler.rs:528-529 | the saturating product and sum of the reward never saturate |
| `SettlementLaws.CreditConservesExactly` | src/handler.rs:530 | a credit adds to the total exactly when the sum fits in a word; otherwise it silently vanishes |
| `LedgerRuns.RewardCanVanish` | src/handler.rs:528-530 | an executed transaction whose beneficiary holds 2^256 - 1 loses the whole reward from the total |
| `LedgerLaws.DiscardRestores` | src/tests/upfront_balance.rs:200-207 | discarding a rejected transaction restores every account and every slot and leaves nothing warm |
| `LedgerLaws.ValidatedGas` | src/handler.rs:220-286 | validation returns the schedule's price of the number of listed accounts and of listed slots, none for a legacy transaction, with the floor dropped before Feynman or when it is disabled; it passes exactly when the limit covers both, and otherwise names intrinsic gas first and then the floor, with the amounts |
| `LedgerLaws.CountSlotsCounts` | src/handler.rs:236-246 | the count is the number of pairs of an entry and a slot position in it |
| `LedgerLaws.TransactConserves` | src/handler.rs:289-549 | any transaction on any ledger: a rejected one leaves no account and no slot changed; an executed one leaves execution's slots, gives the caller the unused gas and the beneficiary the gas the receipt reports plus the same L1 fee the caller paid, fixed before execution; the sum of all balances is unchanged exactly if both credits fit, and never grows |
| `LedgerRuns.RunConservesSupply` | src/handler.rs:289-549 | over every list of transactions of every class, each under its own fork and with commits to the database between any two, the sum of all balances is constant exactly if no credit overflows, and never grows |
| `LedgerRuns.BoundedLedgerFits` | src/handler.rs:528-530 | if all balances together fit in 256 bits, no credit of any such list overflows and the sum is constant |
| `LedgerRuns.RunsAreFaithful` | src/precompile/transfer.rs:23-83 | call frames that perform any run of reads, writes, BLOCKHASH and transfer calls, left open, committed or reverted, meet everything that is asked of an execution |
| `GasSettlement.SettlementBounds` | src/handler.rs:430-482 | used, remaining and refunded gas split the limit; at most a fifth of the spent gas is refunded; used gas is at least the floor and four fifths of the intrinsic gas; the receipt reports what is paid for |
| `GasSettlement.RefundedGas` | src/handler.rs:430-482 | the counter after the last frame: a halt keeps no gas, only success earns the frame's refund, and the cap is a fifth of the gas consumed |
| `GasSettlement.L1MessageSettlement` | src/handler.rs:536-548 | an L1 message reports exactly the gas it spent, with no refund and no floor |
| `Handler.Evm.ValidateInitialTxGas` | src/handler.rs:220-286 | the counting loop over the access list and the two limit checks compute the specified verdict |
| `Handler.Evm.AdmitL1Message` | src/handler.rs:381-425 | in place, with its early returns, equal to the specified admission |
| `Handler.Evm.DeductBeforeTsukiV2` | src/handler.rs:318-340 | in place, with its early returns, equal to the specified deduction |
| `Handler.Evm.CombinedCheck` | src/handler.rs:343-362 | in place, equal to the specified check |
| `Handler.Evm.DeductFromTsukiV2` | src/handler.rs:341-378 | in place, with the result of the debit ignored, equal to the specified deduction |
| `Handler.Evm.ValidateAgainstStateAndDeductCaller` | src/handler.rs:306-427 | in place, for all classes and regimes, equal to the specified deduction |
| `Handler.Evm.LoadAccounts` | src/handler.rs:300 | the loop over the access list, in place, loads the specified map and the beneficiary |
| `Handler.Evm.PreExecution` | src/handler.rs:289-303 | refreshes the oracle info of fee-charged transactions only, deducts, and loads the access list; journal and info as specified |
| `Handler.Evm.LastFrameResult` | src/handler.rs:430-453 | step by step on the frame's gas, equal to the specified counter |
| `Handler.Evm.Refund` | src/handler.rs:470-482 | in place, equal to the capped refund |
| `Handler.Evm.Eip7623CheckGasFloor` | src/handler.rs:456-467 | in place, equal to the floored gas |
| `Handler.Evm.ReimburseCaller` | src/handler.rs:485-495 | in place, with the result of the credit ignored, equal to the specified reimbursement |
| `Handler.Evm.RewardBeneficiary` | src/handler.rs:497-533 | in place, equal to the specified reward |
| `Handler.Evm.ExecutionResult` | src/handler.rs:536-548 | the receipt of an L1 message carries no floor, and the journal is committed |
| `Handler.Evm.Transact` | src/handler.rs:220-549 | the whole sequence on mutable state, with every error path discarding, equal to the specified transaction |
| `Handler.Evm.TransactOne` | src/handler.rs:698-700 | on a ledger, in place: it stays a ledger, its total is unchanged exactly if every credit fits, and an error changes no account and no slot |

## Left out

- Handler.Evm.PreExecution: does not apply the authorization list (src/handler.rs:301); setting delegations
  and its refund are part of the arbitrary execution.
- The EVM interpreter: execution between deduction and settlement is any function that keeps the
  journal's invariants, the database, the sum of all balances and the gas budget.
- `validate_env` (src/handler.rs:82-217): a flat list of rejections. Blob transactions do not occur, and
  the switches that turn off balance, nonce or base-fee checks are off.
- The intrinsic gas schedule: a parameter; only its comparison with the limit is modelled.
- Keccak in the pre-Feynman BLOCKHASH: a parameter.
- Database errors over whole runs: single operations and transactions are proved with failing reads, but the
  theorems about runs and lists assume a healthy database, because a failed read ends the execution.
- Account creation and destruction flags, and code bytes: an account's code is absent, a contract, or a
  delegation; the oracle and history accounts are existing predeploys.
- The price of a store: original slot values, which it depends on, are modelled; the price belongs to the
  interpreter.
- Precompile addresses, which are always warm: they count as access-list entries without slots.
- The clearing of touched empty accounts at a commit (EIP-161): an empty account reads the same whether it
  is stored or not, but slots it might still have are kept.
- Event logs and transient storage: they take no part in the modelled properties.
- Other overridden opcodes, the cryptographic precompiles, the per-fork precompile and gas tables: thin
  wrappers and finite lookups.
- System calls, inspectors, builders and the executor traits: plumbing.
- Byte strings of 2^60 bytes or more: the calldata fold is assumed to fit in 64 bits.
