/** Which transactions are accepted, why the others are not, and that a failure leaves nothing behind. */
module Verdicts {
  import opened Words
  import opened Specs
  import opened JournalState
  import opened JournalLaws
  import opened JournalEffects
  import opened Transactions
  import opened GasSettlement
  import opened L1Block
  import L1FeeLaws
  import opened FeeLifecycle
  import opened FeeLaws
  import opened StorageLaws
  import opened SettlementLaws
  import opened LedgerLaws
  import opened LedgerRuns
  import OracleRead
  import OracleReadLaws

  predicate PaysNoL1Fee(tx: Tx) {
    tx.txType == L1Message || tx.caller == 0xFFFF_FFFF_FFFF_FFFF_FFFF_FFFF_FFFF_FFFF_FFFF_FFFE
  }

  /** The oracle cannot be read. */
  predicate Unfetchable(s: Journal, spec: SpecId) {
    exists slot ::
      slot in L1FeeLaws.OracleSlots(spec) && Unreadable(s, 0x5300000000000000000000000000000000000002, slot)
  }

  /** The first reason to reject a transaction that covers its gas. The L1 fee is the exact fee on what
      the oracle holds when the transaction starts. */
  function Reason(s: Journal, cfg: Cfg, block: Block, tx: Tx): Option<TxError> {
    var caller := s.InfoOf(tx.caller);
    if !PaysNoL1Fee(tx) && Unfetchable(s, cfg.spec) then Some(DatabaseFailure)
    else if Unloadable(s, tx.caller) then Some(DatabaseFailure)
    else if tx.txType == L1Message then L1MessageReason(caller, cfg, tx)
    else if PaysNoL1Fee(tx) then MainnetReason(caller, cfg, tx)
    else if cfg.spec == TSUKI_V2 then ReasonFromTsukiV2(ExactFeeOf(s, cfg, tx), caller, cfg, tx)
    else ReasonBeforeTsukiV2(ExactFeeOf(s, cfg, tx), caller, cfg, block, tx)
  }

  /** What a transaction of each class needs, if the database can be read. */
  predicate Acceptable(s: Journal, cfg: Cfg, block: Block, tx: Tx) {
    var caller, fee := s.InfoOf(tx.caller), ExactFeeOf(s, cfg, tx);
    var cap := tx.gasLimit * tx.gasPrice;
    && (cfg.eip3607Disabled || caller.code != Contract)
    && (tx.txType == L1Message || tx.nonce == caller.nonce)
    && ((tx.txType == L1Message && cfg.spec !in {SHANGHAI, BERNOULLI, CURIE, DARWIN})
        || (cap <= U128_MAX && cap + tx.value <= caller.balance))
    && (PaysNoL1Fee(tx)
        || (fee.Ok?
            && if cfg.spec == TSUKI_V2 then cap + tx.value + fee.value <= caller.balance
               else tx.gasLimit * PricePaid(block, tx) + fee.value <= caller.balance))
  }

  lemma AcceptableExactly(s: Journal, cfg: Cfg, block: Block, tx: Tx)
    ensures Reason(s, cfg, block, tx).None?
       <==> Acceptable(s, cfg, block, tx) && !Unloadable(s, tx.caller)
            && (PaysNoL1Fee(tx) || !Unfetchable(s, cfg.spec))
  {
    hide ExactFeeOf, PricePaid, Unloadable, Unfetchable;
    EffectiveCostWithinMax(block, tx);
  }

  lemma ClassesAreExclusive(cfg: Cfg, tx: Tx)
    ensures tx.IsL1Msg() <==> tx.txType == L1Message
    ensures tx.IsFeeCharged() <==> !PaysNoL1Fee(tx)
    ensures cfg.spec.IsEnabledIn(TSUKI_V2) <==> cfg.spec == TSUKI_V2
  {
  }

  lemma UnloadableVerdict(s: Journal, info: L1BlockInfo, cfg: Cfg, block: Block, tx: Tx)
    requires WellFormed(s) && Unloadable(s, tx.caller)
    ensures ValidateAndDeduct(s, info, cfg, block, tx) == Step(LoadAccount(s, tx.caller).journal, Err(DatabaseFailure))
  {
    LoadAccountEffect(s, tx.caller);
    hide LoadAccount, WellFormed, Extends;
  }

  /** Deduction with info that prices the transaction exactly. */
  lemma DeductionVerdict(s: Journal, info: L1BlockInfo, cfg: Cfg, block: Block, tx: Tx)
    requires WellFormed(s) && (PaysNoL1Fee(tx) || !Unfetchable(s, cfg.spec))
    requires !PaysNoL1Fee(tx) ==> TxL1Cost(info, tx, cfg.spec) == ExactFeeOf(s, cfg, tx)
    ensures ValidateAndDeduct(s, info, cfg, block, tx).result == Verdict(Reason(s, cfg, block, tx))
  {
    hide WellFormed, TxL1Cost, ExactFeeOf, MainnetDeduct, AdmitL1Message, MainnetReason, L1MessageReason,
      ReasonBeforeTsukiV2, ReasonFromTsukiV2, Unfetchable, PaysNoL1Fee;
    ClassesAreExclusive(cfg, tx);
    if Unloadable(s, tx.caller) {
      UnloadableVerdict(s, info, cfg, block, tx);
      hide ValidateAndDeduct;
    } else if tx.IsL1Msg() {
      L1MessageVerdict(s, cfg, tx);
    } else if !tx.IsFeeCharged() {
      MainnetVerdict(s, cfg, block, tx);
    } else if cfg.spec.IsEnabledIn(TSUKI_V2) {
      VerdictFromTsukiV2(s, info, cfg, block, tx);
    } else {
      VerdictBeforeTsukiV2(s, info, cfg, block, tx);
    }
  }

  /** The info with which a transaction is priced: fetched anew if it is charged an L1 fee. */
  function PricingInfo(s: Journal, info: L1BlockInfo, cfg: Cfg, tx: Tx): L1BlockInfo {
    if PaysNoL1Fee(tx) then info else L1FeeLaws.InfoAt(OracleReadLaws.OracleIn(s), cfg.spec)
  }

  lemma FetchedFromJournal(s: Journal, spec: SpecId)
    ensures OracleRead.TryFetchFromJournal(s, spec)
         == if Unfetchable(s, spec) then None else Some(L1FeeLaws.InfoAt(OracleReadLaws.OracleIn(s), spec))
  {
    var storage := (slot: U256) => OracleRead.JournaledSlot(s, slot);
    var o := OracleReadLaws.OracleIn(s);
    forall slot: U256
      ensures storage(slot) == if Unreadable(s, L1_GAS_PRICE_ORACLE, slot) then None else Some(o(slot))
    {
    }
    L1FeeLaws.FetchIsExact(storage, o, spec);
    hide L1FeeLaws.OracleSlots, L1FeeLaws.InfoAt, TryFetchWith, Unreadable, OracleReadLaws.OracleIn;
  }

  lemma PricedExactly(s: Journal, cfg: Cfg, tx: Tx)
    ensures TxL1Cost(L1FeeLaws.InfoAt(OracleReadLaws.OracleIn(s), cfg.spec), tx, cfg.spec) == ExactFeeOf(s, cfg, tx)
  {
    var bytes := if tx.rlpBytes.Some? then tx.rlpBytes.value else [];
    var o := OracleReadLaws.OracleIn(s);
    L1FeeLaws.FetchIsExact(L1FeeLaws.Reader(o), o, cfg.spec);
    L1FeeLaws.FeeIsExact(o, cfg.spec, bytes, cfg.spec, tx.compressionRatio, tx.compressedSize);
    hide L1FeeLaws.InfoAt, TryFetchWith, TryCalculateTxL1Cost, L1FeeLaws.ExactFee, OracleReadLaws.OracleIn,
      L1FeeLaws.OracleSlots;
  }

  /** The exact verdict of pre-execution, from every journal over every database: the first reason of the
      transaction's class, or acceptance. Only a transaction that is charged an L1 fee fetches the info
      anew. */
  lemma PreExecutionVerdict(s: Journal, info: L1BlockInfo, cfg: Cfg, block: Block, tx: Tx)
    requires WellFormed(s)
    ensures var (r, current) := PreExecution(s, info, cfg, block, tx);
      && r.result == Verdict(Reason(s, cfg, block, tx))
      && current == (if !PaysNoL1Fee(tx) && Unfetchable(s, cfg.spec) then info else PricingInfo(s, info, cfg, tx))
  {
    hide WellFormed, Unfetchable, ValidateAndDeduct, LoadAccounts, TxL1Cost, OracleRead.TryFetchFromJournal,
      L1FeeLaws.InfoAt, ExactFeeOf, L1MessageReason, MainnetReason, ReasonFromTsukiV2, ReasonBeforeTsukiV2, Unloadable;
    ClassesAreExclusive(cfg, tx);
    hide PaysNoL1Fee;
    FetchedFromJournal(s, cfg.spec);
    PricedExactly(s, cfg, tx);
    if PaysNoL1Fee(tx) || !Unfetchable(s, cfg.spec) {
      DeductionVerdict(s, PricingInfo(s, info, cfg, tx), cfg, block, tx);
      hide Reason;
    }
  }

  /** Why settlement fails, given the L1 fee. */
  function SettlementReason(s: Journal, fee: Result<U256, TxError>, block: Block, tx: Tx): Option<TxError> {
    if tx.txType == L1Message then None
    else if Unloadable(s, tx.caller) then Some(DatabaseFailure)
    else if !PaysNoL1Fee(tx) && fee.Err? then Some(fee.error)
    else if Unloadable(s, block.beneficiary) then Some(DatabaseFailure)
    else None
  }

  /** The exact verdict of settlement, over every database; it leaves an L1 message's journal alone. */
  lemma PostExecutionVerdict(s: Journal, info: L1BlockInfo, cfg: Cfg, block: Block, tx: Tx, gas: Gas)
    ensures var r := PostExecution(s, info, cfg, block, tx, gas);
      && r.result == Verdict(SettlementReason(s, TxL1Cost(info, tx, cfg.spec), block, tx))
      && (tx.txType == L1Message ==> r.journal == s)
  {
    hide TxL1Cost, Credit, Unloadable, Reimbursement, Reward;
    var fee := if tx.IsSystemTx() then Ok(0) else TxL1Cost(info, tx, cfg.spec);
    var t := Credit(s, tx.caller, Reimbursement(block, tx, gas)).journal;
    CreditKeepsLoadable(s, tx.caller, Reimbursement(block, tx, gas));
    if fee.Ok? {
      CreditKeepsLoadable(t, block.beneficiary, Reward(block, tx, gas, fee.value));
    }
  }

  /** The exact verdict on every transaction from every ledger: rejected for its gas, or else for the first
      reason of its class, and otherwise executed. */
  lemma TransactVerdict(s: Journal, info: L1BlockInfo, cfg: Cfg, block: Block, tx: Tx, intrinsic: Intrinsic,
                        exec: Execution)
    requires Ledger(s) && FaithfulTo(exec, cfg, tx, intrinsic)
    ensures var r := Transact(s, info, cfg, block, tx, intrinsic, exec);
      var tooLittleGas, reason := GasReason(cfg, tx, intrinsic), Reason(s, cfg, block, tx);
      && (r.result.Ok? <==> tooLittleGas.None? && Acceptable(s, cfg, block, tx))
      && (tooLittleGas.Some? ==> r.result == Err(tooLittleGas.value) && r.info == info)
      && (tooLittleGas.None? ==> r.info == PricingInfo(s, info, cfg, tx))
      && (tooLittleGas.None? && reason.Some? ==> r.result == Err(reason.value))
  {
    hide *;
    LedgerBasics(s);
    LedgerReads(s, cfg, tx);
    AcceptableExactly(s, cfg, block, tx);
    ValidatedGas(cfg, tx, intrinsic);
    PreExecutionVerdict(s, info, cfg, block, tx);
    PreExecutionEffect(s, info, cfg, block, tx);
    ShapeOfTransaction(s, info, cfg, block, tx, intrinsic, exec);
    VerdictMeaning(Reason(s, cfg, block, tx));
    var (deducted, current) := PreExecution(s, info, cfg, block, tx);
    var validated := ValidateInitialTxGas(cfg, tx, intrinsic);
    if validated.Ok? && deducted.result.Ok? {
      FaithfulWhenValid(exec, cfg, tx, intrinsic);
      if tx.IsL1Msg() {
        L1MessageOwesNothing(s, info, cfg, block, tx, current);
        ExecutedL1Message(s, deducted.journal, current, cfg, block, tx, validated.value, exec);
      } else {
        ExecutedTransaction(s, deducted.journal, current, cfg, block, tx, validated.value, exec);
      }
      ExecutionKeepsInfo(deducted.journal, current, cfg, block, tx, validated.value, exec);
    }
  }

  lemma LedgerReads(s: Journal, cfg: Cfg, tx: Tx)
    requires Ledger(s)
    ensures WellFormed(s) && !Unfetchable(s, cfg.spec) && !Unloadable(s, tx.caller)
  {
  }

  lemma VerdictMeaning(reason: Option<TxError>)
    ensures Verdict(reason) == match reason case None => Ok(()) case Some(error) => Err(error)
  {
  }

  lemma ExecutionKeepsInfo(d: Journal, current: L1BlockInfo, cfg: Cfg, block: Block, tx: Tx, gas: InitialGas,
                           exec: Execution)
    ensures ExecuteAndSettle(d, current, cfg, block, tx, gas, exec).info == current
  {
    hide PostExecution, CommitTx, DiscardTx, FinalGas, ReceiptOf;
  }

  // Failures at any stage, over databases that may fail at any read.

  /** Execution whose effects the journal can undo. */
  ghost predicate Undoable(exec: Execution) {
    forall d: Journal :: WellFormed(d) ==> Extends(exec(d).journal, d)
  }

  lemma DeductionExtends(s: Journal, info: L1BlockInfo, cfg: Cfg, block: Block, tx: Tx)
    requires WellFormed(s)
    ensures Extends(ValidateAndDeduct(s, info, cfg, block, tx).journal, s)
  {
    if Unloadable(s, tx.caller) {
      UnloadableVerdict(s, info, cfg, block, tx);
      LoadAccountEffect(s, tx.caller);
    } else {
      DeductEffect(s, info, cfg, block, tx);
    }
    hide LoadAccount, ValidateAndDeduct, WellFormed, Extends;
  }

  lemma CreditExtends(s: Journal, a: Address, amount: U256)
    requires WellFormed(s)
    ensures Extends(Credit(s, a, amount).journal, s)
  {
    hide WellFormed, Extends, SetBalance;
    LoadAccountEffect(s, a);
    if !Unloadable(s, a) {
      CreditEffect(s, a, amount);
    }
    hide LoadAccount, IncrBalance;
  }

  lemma PostExecutionExtends(s: Journal, info: L1BlockInfo, cfg: Cfg, block: Block, tx: Tx, gas: Gas)
    requires WellFormed(s)
    ensures Extends(PostExecution(s, info, cfg, block, tx, gas).journal, s)
  {
    hide WellFormed, Extends, Credit, TxL1Cost, Reimbursement, Reward;
    ExtendsReflexive(s);
    if !tx.IsL1Msg() {
      var fee := if tx.IsSystemTx() then Ok(0) else TxL1Cost(info, tx, cfg.spec);
      var t := Credit(s, tx.caller, Reimbursement(block, tx, gas)).journal;
      CreditExtends(s, tx.caller, Reimbursement(block, tx, gas));
      ExtendsKeepsContext(t, s);
      if fee.Ok? {
        var reward := Reward(block, tx, gas, fee.value);
        CreditExtends(t, block.beneficiary, reward);
        ExtendsTransitive(s, t, Credit(t, block.beneficiary, reward).journal);
      }
    }
  }

  lemma {:induction false} UndoUnderList(s: Journal, list: AccessList, size: nat)
    ensures UndoTo(WarmAccessList(s, list), size) == WarmAccessList(UndoTo(s, size), list)
    decreases |s.log|
  {
    if |s.log| > size {
      assert Popped(WarmAccessList(s, list)) == WarmAccessList(Popped(s), list);
      UndoUnderList(Popped(s), list, size);
    }
  }

  /** `t` has been brought back to what `s` shows, and nothing is warm. */
  ghost predicate Restored(t: Journal, s: Journal) {
    && WellFormed(t) && t.log == [] && AllCold(t) && SameInfos(t, s) && SameValues(t, s)
  }

  lemma DiscardedIsRestored(t: Journal, s: Journal)
    requires WellFormed(t) && SameInfos(UndoTo(t, 0), s) && SameValues(UndoTo(t, 0), s)
    ensures Restored(DiscardTx(t), s)
  {
    var u := UndoTo(t, 0);
    UndoToWellFormed(t, 0);
    CommitEffect(u);
    hide WellFormed, AllCold, SameValues;
    SameValuesTransitive(CommitTx(u), u, s);
    forall a: Address ensures DiscardTx(t).InfoOf(a) == s.InfoOf(a) {
      assert CommitTx(u).InfoOf(a) == u.InfoOf(a);
    }
  }

  /** The access list that is loaded after deduction does not get in the way of undoing. */
  lemma UndoAcrossList(p: Journal, d: Journal, s: Journal, list: AccessList)
    requires WellFormed(s) && s.log == [] && Extends(d, s) && Extends(p, WarmAccessList(d, list))
    ensures WellFormed(p) && SameInfos(UndoTo(p, 0), s) && SameValues(UndoTo(p, 0), s)
  {
    var listed := WarmAccessList(d, list);
    assert WellFormed(listed);
    ExtendsUndo(listed, p, 0);
    UndoUnderList(d, list, 0);
    hide WellFormed;
    UndoneView(UndoTo(p, 0), WarmAccessList(UndoTo(d, 0), list));
    UndoneView(UndoTo(d, 0), s);
    hide SameView;
  }

  /** Pre-execution fails with everything undoable; otherwise only the access list came in between. */
  lemma PreExecutionUndoable(s: Journal, info: L1BlockInfo, cfg: Cfg, block: Block, tx: Tx)
    requires WellFormed(s)
    ensures var r := PreExecution(s, info, cfg, block, tx).0;
      && (r.result.Err? ==> Extends(r.journal, s))
      && (r.result.Ok? ==>
            exists d, list :: Extends(d, s) && r.journal == WarmAccessList(d, list) && WellFormed(r.journal))
  {
    ExtendsReflexive(s);
    var current := RefreshedInfo(s, info, cfg, tx);
    if current.Some? {
      var d := ValidateAndDeduct(s, current.value, cfg, block, tx).journal;
      DeductionExtends(s, current.value, cfg, block, tx);
      assert WellFormed(WarmAccessList(d, WarmAtStart(block, tx)));
    }
    hide RefreshedInfo, ValidateAndDeduct, WellFormed, Extends, WarmAccessList, WarmAtStart;
  }

  lemma ShapeOfFailure(d: Journal, current: L1BlockInfo, cfg: Cfg, block: Block, tx: Tx, gas: InitialGas,
                       exec: Execution)
    ensures var r := ExecuteAndSettle(d, current, cfg, block, tx, gas, exec);
      r.result.Err? ==>
        r.journal == DiscardTx(PostExecution(exec(d).journal, current, cfg, block, tx,
                                             FinalGas(tx, exec(d), gas)).journal)
  {
    hide PostExecution, FinalGas, ReceiptOf, DiscardTx, CommitTx;
  }

  lemma SettlementUndoable(d: Journal, current: L1BlockInfo, cfg: Cfg, block: Block, tx: Tx, gas: Gas,
                           exec: Execution)
    requires WellFormed(d) && Undoable(exec)
    ensures Extends(PostExecution(exec(d).journal, current, cfg, block, tx, gas).journal, d)
  {
    hide WellFormed, Extends, PostExecution;
    var e := exec(d).journal;
    assert Extends(e, d);
    ExtendsKeepsContext(e, d);
    PostExecutionExtends(e, current, cfg, block, tx, gas);
    ExtendsTransitive(d, e, PostExecution(e, current, cfg, block, tx, gas).journal);
  }

  lemma RejectionRestores(t: Journal, s: Journal)
    requires WellFormed(s) && s.log == [] && Extends(t, s)
    ensures Restored(DiscardTx(t), s)
  {
    UndoneView(UndoTo(t, 0), s);
    hide SameView, WellFormed;
    DiscardedIsRestored(t, s);
  }

  /** An error at any stage, a failing database included, changes no account and no slot and leaves nothing
      warm. */
  lemma FailureLeavesNothing(s: Journal, info: L1BlockInfo, cfg: Cfg, block: Block, tx: Tx, intrinsic: Intrinsic,
                             exec: Execution)
    requires WellFormed(s) && s.log == [] && Undoable(exec)
    ensures var r := Transact(s, info, cfg, block, tx, intrinsic, exec);
      r.result.Err? ==> Restored(r.journal, s)
  {
    hide *;
    ShapeOfTransaction(s, info, cfg, block, tx, intrinsic, exec);
    PreExecutionUndoable(s, info, cfg, block, tx);
    var gas := ValidateInitialTxGas(cfg, tx, intrinsic);
    var (pre, current) := PreExecution(s, info, cfg, block, tx);
    if gas.Err? {
      ExtendsReflexive(s);
      RejectionRestores(s, s);
    } else if pre.result.Err? {
      RejectionRestores(pre.journal, s);
    } else {
      var d, list :| Extends(d, s) && pre.journal == WarmAccessList(d, list) && WellFormed(pre.journal);
      var final := FinalGas(tx, exec(pre.journal), gas.value);
      var p := PostExecution(exec(pre.journal).journal, current, cfg, block, tx, final).journal;
      ShapeOfFailure(pre.journal, current, cfg, block, tx, gas.value, exec);
      SettlementUndoable(pre.journal, current, cfg, block, tx, final, exec);
      UndoAcrossList(p, d, s, list);
      DiscardedIsRestored(p, s);
    }
  }
}
