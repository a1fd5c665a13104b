/** The transaction handler as it runs: it updates the journal, the chain's oracle info and the
    frame's gas in place. */
module Handler {
  import opened Words
  import opened Specs
  import opened JournalState
  import opened JournalLaws
  import opened JournaledStates
  import opened Transactions
  import opened GasSettlement
  import opened L1Block
  import FeeLifecycle
  import opened FeeLaws
  import opened LedgerLaws
  import opened Supply
  import OracleRead

  /** The result of the first call frame. */
  class FrameResult {
    const status: Status
    var gas: Gas

    constructor (outcome: Status, counter: Gas)
      ensures status == outcome && gas == counter
    {
      status, gas := outcome, counter;
    }
  }

  class Evm {
    const journal: JournaledState
    const cfg: Cfg
    const block: Block
    var l1BlockInfo: L1BlockInfo

    constructor (state: JournaledState, config: Cfg, current: Block, info: L1BlockInfo)
      ensures journal == state && cfg == config && block == current && l1BlockInfo == info
    {
      journal, cfg, block, l1BlockInfo := state, config, current, info;
    }

    method ValidateInitialTxGas(tx: Tx, intrinsic: Intrinsic) returns (r: Result<InitialGas, TxError>)
      ensures r == Transactions.ValidateInitialTxGas(cfg, tx, intrinsic)
    {
      var accounts, slots: nat := 0, 0;
      if tx.txType != Legacy {
        var i := 0;
        while i < |tx.accessList|
          invariant 0 <= i <= |tx.accessList|
          invariant accounts == i && slots == CountSlots(tx.accessList[..i])
        {
          accounts := accounts + 1;
          slots := slots + |tx.accessList[i].1|;
          assert tx.accessList[..i + 1][..i] == tx.accessList[..i];
          i := i + 1;
        }
        assert tx.accessList[..i] == tx.accessList;
      }
      var gas := intrinsic(tx, accounts, slots);
      if cfg.eip7623Disabled || !cfg.spec.IsEnabledIn(FEYNMAN) {
        gas := gas.(floor := 0);
      }
      if gas.initial > tx.gasLimit {
        return Err(CallGasCostMoreThanGasLimit(tx.gasLimit, gas.initial));
      }
      if cfg.spec.IsEnabledIn(FEYNMAN) && gas.floor > tx.gasLimit {
        return Err(GasFloorMoreThanGasLimit(gas.floor, tx.gasLimit));
      }
      r := Ok(gas);
    }

    method MainnetDeduct(tx: Tx) returns (r: Result<(), TxError>)
      modifies journal
      ensures Step(journal.State(), r) == FeeLifecycle.MainnetDeduct(old(journal.State()), cfg, block, tx)
    {
      var loaded := journal.LoadAccount(tx.caller);
      if loaded.Err? {
        return Err(DatabaseFailure);
      }
      var caller := loaded.value.data;
      if FeeLifecycle.RejectsCode(cfg, caller) {
        return Err(RejectCallerWithCode);
      }
      if tx.nonce > caller.nonce {
        return Err(NonceTooHigh);
      }
      if tx.nonce < caller.nonce {
        return Err(NonceTooLow);
      }
      var max := MaxBalanceSpending(tx);
      if max.Err? {
        return Err(max.error);
      }
      if max.value > caller.balance {
        return Err(LackOfFundForMaxFee(max.value, caller.balance));
      }
      var cost := tx.gasLimit * tx.EffectiveGasPrice(block.baseFee);
      journal.SetBalance(tx.caller, if cost <= caller.balance then caller.balance - cost else 0);
      if tx.isCall {
        journal.BumpNonce(tx.caller);
      }
      r := Ok(());
    }

    method AdmitL1Message(tx: Tx) returns (r: Result<(), TxError>)
      modifies journal
      ensures Step(journal.State(), r) == FeeLifecycle.AdmitL1Message(old(journal.State()), cfg, tx)
    {
      var loaded := journal.LoadAccount(tx.caller);
      if loaded.Err? {
        return Err(DatabaseFailure);
      }
      var caller := loaded.value.data;
      if !cfg.spec.IsEnabledIn(EUCLID) {
        var max := MaxBalanceSpending(tx);
        if max.Err? {
          return Err(max.error);
        }
        if max.value > caller.balance {
          return Err(LackOfFundForMaxFee(max.value, caller.balance));
        }
      }
      if FeeLifecycle.RejectsCode(cfg, caller) {
        return Err(RejectCallerWithCode);
      }
      if tx.isCall {
        journal.BumpNonce(tx.caller);
      }
      journal.Touch(tx.caller);
      r := Ok(());
    }

    /** The fee regime before TsukiV2. */
    method DeductBeforeTsukiV2(tx: Tx) returns (r: Result<(), TxError>)
      requires tx.IsFeeCharged() && !cfg.spec.IsEnabledIn(TSUKI_V2)
      modifies journal
      ensures Step(journal.State(), r)
           == FeeLifecycle.ValidateAndDeduct(old(journal.State()), l1BlockInfo, cfg, block, tx)
    {
      hide TxL1Cost;
      r := MainnetDeduct(tx);
      if r.Err? {
        return;
      }
      var cost := TxL1Cost(l1BlockInfo, tx, cfg.spec);
      if cost.Err? {
        return Err(cost.error);
      }
      var loaded := journal.LoadAccount(tx.caller);
      if loaded.Err? {
        return Err(DatabaseFailure);
      }
      if cost.value > loaded.value.data.balance {
        return Err(LackOfFundForMaxFee(cost.value, loaded.value.data.balance));
      }
      var _ := journal.DecrBalance(tx.caller, cost.value);
    }

    method CombinedCheck(tx: Tx) returns (r: Result<U256, TxError>)
      modifies journal
      ensures Step(journal.State(), r)
           == FeeLifecycle.CombinedCheck(old(journal.State()), l1BlockInfo, cfg, tx)
    {
      hide TxL1Cost, MaxBalanceSpending, LoadAccount;
      var loaded := journal.LoadAccount(tx.caller);
      if loaded.Err? {
        return Err(DatabaseFailure);
      }
      var balance := loaded.value.data.balance;
      var cost := TxL1Cost(l1BlockInfo, tx, cfg.spec);
      if cost.Err? {
        return Err(cost.error);
      }
      var max := MaxBalanceSpending(tx);
      if max.Err? {
        return Err(max.error);
      }
      var required := CheckedAdd(max.value, cost.value);
      if required.None? {
        return Err(OverflowPaymentInTransaction);
      }
      if required.value > balance {
        return Err(LackOfFundForMaxFee(required.value, balance));
      }
      r := cost;
    }

    method TakeL1Fee(tx: Tx, cost: U256) returns (r: Result<(), TxError>)
      modifies journal
      ensures Step(journal.State(), r) == FeeLifecycle.TakeL1Fee(old(journal.State()), tx, cost)
    {
      var loaded := journal.LoadAccount(tx.caller);
      if loaded.Err? {
        return Err(DatabaseFailure);
      }
      var _ := journal.DecrBalance(tx.caller, cost);
      r := Ok(());
    }

    /** The fee regime from TsukiV2; the result of the final debit is not looked at. */
    method DeductFromTsukiV2(tx: Tx) returns (r: Result<(), TxError>)
      requires tx.IsFeeCharged() && cfg.spec.IsEnabledIn(TSUKI_V2)
      modifies journal
      ensures Step(journal.State(), r)
           == FeeLifecycle.ValidateAndDeduct(old(journal.State()), l1BlockInfo, cfg, block, tx)
    {
      hide FeeLifecycle.CombinedCheck, FeeLifecycle.MainnetDeduct, FeeLifecycle.TakeL1Fee;
      var cost := CombinedCheck(tx);
      if cost.Err? {
        return Err(cost.error);
      }
      r := MainnetDeduct(tx);
      if r.Ok? {
        r := TakeL1Fee(tx, cost.value);
      }
    }

    method ValidateAgainstStateAndDeductCaller(tx: Tx) returns (r: Result<(), TxError>)
      modifies journal
      ensures Step(journal.State(), r)
           == FeeLifecycle.ValidateAndDeduct(old(journal.State()), l1BlockInfo, cfg, block, tx)
    {
      if tx.IsL1Msg() {
        r := AdmitL1Message(tx);
      } else if tx.IsSystemTx() {
        r := MainnetDeduct(tx);
      } else if !cfg.spec.IsEnabledIn(TSUKI_V2) {
        r := DeductBeforeTsukiV2(tx);
      } else {
        r := DeductFromTsukiV2(tx);
      }
    }

    /** Warms the access list, entry by entry, and the beneficiary. */
    method LoadAccounts(tx: Tx)
      modifies journal
      ensures journal.State() == FeeLifecycle.LoadAccounts(old(journal.State()), block, tx)
    {
      var warm: AccessList := map[];
      if tx.txType != Legacy {
        var i := 0;
        while i < |tx.accessList|
          invariant 0 <= i <= |tx.accessList|
          invariant warm == FeeLifecycle.Listed(tx.accessList[..i])
        {
          var (a, keys) := tx.accessList[i];
          var slots := if a in warm then warm[a] else {};
          warm := warm[a := slots + set k | k in keys];
          assert tx.accessList[..i + 1][..i] == tx.accessList[..i];
          i := i + 1;
        }
        assert tx.accessList[..i] == tx.accessList;
      }
      journal.WarmAccessList(FeeLifecycle.Including(warm, block.beneficiary, []));
    }

    /** Refreshes the oracle info of a fee-charged transaction, validates and deducts, and loads what
        is warm from the start. */
    method PreExecution(tx: Tx) returns (r: Result<(), TxError>)
      modifies this, journal
      ensures (Step(journal.State(), r), l1BlockInfo)
           == FeeLifecycle.PreExecution(old(journal.State()), old(l1BlockInfo), cfg, block, tx)
    {
      if !tx.IsL1Msg() && !tx.IsSystemTx() {
        var info := OracleRead.TryFetchFromJournal(journal.State(), cfg.spec);
        if info.None? {
          return Err(DatabaseFailure);
        }
        l1BlockInfo := info.value;
      }
      r := ValidateAgainstStateAndDeductCaller(tx);
      if r.Ok? {
        LoadAccounts(tx);
      }
    }

    method LastFrameResult(tx: Tx, frame: FrameResult)
      modifies frame
      ensures frame.gas == LastFrameGas(tx, frame.status, old(frame.gas.remaining), old(frame.gas.refunded))
    {
      var remaining, refunded := frame.gas.remaining, frame.gas.refunded;
      frame.gas := Gas(tx.gasLimit, 0, 0);
      if !frame.status.Halt? {
        frame.gas := frame.gas.(remaining := remaining);
      }
      if !tx.IsL1Msg() && frame.status.Success? {
        frame.gas := frame.gas.(refunded := refunded);
      }
    }

    method Refund(tx: Tx, frame: FrameResult, authRefund: I64)
      modifies frame
      ensures frame.gas == Refunded(tx, old(frame.gas), authRefund)
    {
      if tx.IsL1Msg() {
        return;
      }
      frame.gas := frame.gas.(refunded := frame.gas.refunded + authRefund);
      frame.gas := frame.gas.(refunded := Min(AsU64(frame.gas.refunded), frame.gas.Spent() / 5));
    }

    method Eip7623CheckGasFloor(tx: Tx, frame: FrameResult, gas: InitialGas)
      modifies frame
      ensures frame.gas == Floored(tx, old(frame.gas), gas.floor)
    {
      if tx.IsL1Msg() {
        return;
      }
      if frame.gas.Used() < gas.floor {
        var limit := frame.gas.limit;
        frame.gas := frame.gas.(remaining := if gas.floor <= limit then limit - gas.floor else 0);
        frame.gas := frame.gas.(refunded := 0);
      }
    }

    method ReimburseCaller(tx: Tx, frame: FrameResult) returns (r: Result<(), TxError>)
      modifies journal
      ensures Step(journal.State(), r)
           == FeeLifecycle.ReimburseCaller(old(journal.State()), block, tx, frame.gas)
    {
      if tx.IsL1Msg() {
        return Ok(());
      }
      var loaded := journal.LoadAccount(tx.caller);
      if loaded.Err? {
        return Err(DatabaseFailure);
      }
      var _ := journal.IncrBalance(tx.caller, FeeLifecycle.Reimbursement(block, tx, frame.gas));
      r := Ok(());
    }

    method RewardBeneficiary(tx: Tx, frame: FrameResult) returns (r: Result<(), TxError>)
      modifies journal
      ensures Step(journal.State(), r)
           == FeeLifecycle.RewardBeneficiary(old(journal.State()), l1BlockInfo, cfg, block, tx, frame.gas)
    {
      if tx.IsL1Msg() {
        return Ok(());
      }
      var price := tx.EffectiveGasPrice(block.baseFee);
      var l1Cost: U256 := 0;
      if !tx.IsSystemTx() {
        var cost := TxL1Cost(l1BlockInfo, tx, cfg.spec);
        if cost.Err? {
          return Err(cost.error);
        }
        l1Cost := cost.value;
      }
      var reward := SaturatingAdd(SaturatingMul(price, frame.gas.Used()), l1Cost);
      var loaded := journal.LoadAccount(block.beneficiary);
      if loaded.Err? {
        return Err(DatabaseFailure);
      }
      var _ := journal.IncrBalance(block.beneficiary, reward);
      r := Ok(());
    }

    /** The receipt; an L1 message's carries no floor. The transaction is committed to the journal. */
    method ExecutionResult(tx: Tx, status: Status, receiptGas: ResultGas) returns (receipt: FeeLifecycle.Receipt)
      modifies journal
      ensures journal.State() == CommitTx(old(journal.State()))
      ensures receipt == FeeLifecycle.Receipt(status,
                (if tx.IsL1Msg() then receiptGas.(floor := 0) else receiptGas).Used())
    {
      var gas := receiptGas;
      if tx.IsL1Msg() {
        gas := gas.(floor := 0);
      }
      journal.CommitTx();
      receipt := FeeLifecycle.Receipt(status, gas.Used());
    }

    /** Runs one transaction to its receipt, or discards it. */
    method Transact(tx: Tx, intrinsic: Intrinsic, exec: FeeLifecycle.Execution)
      returns (r: Result<FeeLifecycle.Receipt, TxError>)
      modifies this, journal
      ensures FeeLifecycle.Transacted(journal.State(), l1BlockInfo, r)
           == FeeLifecycle.Transact(old(journal.State()), old(l1BlockInfo), cfg, block, tx, intrinsic, exec)
    {
      var gas := ValidateInitialTxGas(tx, intrinsic);
      if gas.Err? {
        journal.DiscardTx();
        return Err(gas.error);
      }
      var deducted := PreExecution(tx);
      if deducted.Err? {
        journal.DiscardTx();
        return Err(deducted.error);
      }
      var outcome := exec(journal.State());
      journal.Become(outcome.journal);
      var frame := new FrameResult(outcome.status, Gas(tx.gasLimit, outcome.remaining, outcome.refunded));
      LastFrameResult(tx, frame);
      Refund(tx, frame, outcome.authRefund);
      var receiptGas := ResultGas(frame.gas.Spent(), AsU64(frame.gas.refunded), gas.value.floor);
      Eip7623CheckGasFloor(tx, frame, gas.value);
      var paid := ReimburseCaller(tx, frame);
      if paid.Ok? {
        paid := RewardBeneficiary(tx, frame);
      }
      if paid.Err? {
        journal.DiscardTx();
        return Err(paid.error);
      }
      var receipt := ExecutionResult(tx, outcome.status, receiptGas);
      r := Ok(receipt);
    }

    /** One transaction on a ledger: it stays a ledger, its total is unchanged exactly if every credit
        fits, and an error changes no account and no slot. */
    method TransactOne(tx: Tx, intrinsic: Intrinsic, exec: FeeLifecycle.Execution)
      returns (r: Result<FeeLifecycle.Receipt, TxError>)
      requires Ledger(journal.State()) && FaithfulTo(exec, cfg, tx, intrinsic)
      modifies this, journal
      ensures var s, t := old(journal.State()), journal.State();
        && Ledger(t) && SupplyOf(t) <= SupplyOf(s)
        && (SupplyOf(t) == SupplyOf(s) <==> TransactionFits(s, old(l1BlockInfo), cfg, block, tx, intrinsic, exec))
        && (r.Err? ==> SameInfos(t, s) && SameValues(t, s))
    {
      TransactConserves(journal.State(), l1BlockInfo, cfg, block, tx, intrinsic, exec);
      hide *;
      r := Transact(tx, intrinsic, exec);
    }
  }
}
