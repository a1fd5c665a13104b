/** The fee lifecycle on the journal: deduct, execute, reimburse, reward. */
module FeeLifecycle {
  import opened Words
  import opened Specs
  import opened JournalState
  import opened Transactions
  import opened GasSettlement
  import opened L1Block
  import OracleRead

  /** EIP-3607: a sender with contract code is rejected; a delegation is not contract code. */
  predicate RejectsCode(cfg: Cfg, info: Info) {
    !cfg.eip3607Disabled && info.code == Contract
  }

  /** Mainnet checks and deduction: sender code, nonce, the balance for the fee cap plus value; then
      the effective gas cost is taken and a call's nonce bumped. */
  function MainnetDeduct(s: Journal, cfg: Cfg, block: Block, tx: Tx): Step<(), TxError> {
    var loaded := LoadAccount(s, tx.caller);
    match loaded.result
    case Err(_) => Step(loaded.journal, Err(DatabaseFailure))
    case Ok(load) =>
      var t, caller := loaded.journal, load.data;
      if RejectsCode(cfg, caller) then Step(t, Err(RejectCallerWithCode))
      else if tx.nonce > caller.nonce then Step(t, Err(NonceTooHigh))
      else if tx.nonce < caller.nonce then Step(t, Err(NonceTooLow))
      else
        match MaxBalanceSpending(tx)
        case Err(error) => Step(t, Err(error))
        case Ok(max) =>
          if max > caller.balance then Step(t, Err(LackOfFundForMaxFee(max, caller.balance)))
          else
            var cost := tx.gasLimit * tx.EffectiveGasPrice(block.baseFee);
            var left := if cost <= caller.balance then caller.balance - cost else 0;
            var u := SetBalance(t, tx.caller, left);
            Step(if tx.isCall then BumpNonce(u, tx.caller) else u, Ok(()))
  }

  /** Before TsukiV2: the L1 fee is checked against what mainnet left, then taken. */
  function TakeCheckedL1Fee(s: Journal, info: L1BlockInfo, cfg: Cfg, tx: Tx): Step<(), TxError> {
    match TxL1Cost(info, tx, cfg.spec)
    case Err(error) => Step(s, Err(error))
    case Ok(cost) =>
      var loaded := LoadAccount(s, tx.caller);
      match loaded.result
      case Err(_) => Step(loaded.journal, Err(DatabaseFailure))
      case Ok(load) =>
        if cost > load.data.balance
        then Step(loaded.journal, Err(LackOfFundForMaxFee(cost, load.data.balance)))
        else Step(DecrBalance(loaded.journal, tx.caller, cost), Ok(()))
  }

  /** From TsukiV2: fee cap, value and L1 fee together are checked against the original balance. */
  function CombinedCheck(s: Journal, info: L1BlockInfo, cfg: Cfg, tx: Tx): Step<U256, TxError> {
    var loaded := LoadAccount(s, tx.caller);
    match loaded.result
    case Err(_) => Step(loaded.journal, Err(DatabaseFailure))
    case Ok(load) =>
      var required :=
        match TxL1Cost(info, tx, cfg.spec)
        case Err(error) => Err(error)
        case Ok(cost) =>
          match MaxBalanceSpending(tx)
          case Err(error) => Err(error)
          case Ok(max) =>
            if max + cost > U256_MAX then Err(OverflowPaymentInTransaction)
            else if max + cost > load.data.balance
            then Err(LackOfFundForMaxFee(max + cost, load.data.balance))
            else Ok(cost);
      Step(loaded.journal, required)
  }

  /** From TsukiV2: the L1 fee is taken without a further check. */
  function TakeL1Fee(s: Journal, tx: Tx, cost: U256): Step<(), TxError> {
    var loaded := LoadAccount(s, tx.caller);
    match loaded.result
    case Err(_) => Step(loaded.journal, Err(DatabaseFailure))
    case Ok(_) => Step(DecrBalance(loaded.journal, tx.caller, cost), Ok(()))
  }

  /** An L1 message pays nothing. From Euclid even its value is checked only during execution. */
  function AdmitL1Message(s: Journal, cfg: Cfg, tx: Tx): Step<(), TxError> {
    var loaded := LoadAccount(s, tx.caller);
    match loaded.result
    case Err(_) => Step(loaded.journal, Err(DatabaseFailure))
    case Ok(load) =>
      var t := loaded.journal;
      var funds: Result<(), TxError> :=
        if cfg.spec.IsEnabledIn(EUCLID) then Ok(())
        else
          match MaxBalanceSpending(tx)
          case Err(error) => Err(error)
          case Ok(max) =>
            if max > load.data.balance then Err(LackOfFundForMaxFee(max, load.data.balance)) else Ok(());
      if funds.Err? then Step(t, funds)
      else if RejectsCode(cfg, load.data) then Step(t, Err(RejectCallerWithCode))
      else
        var u := if tx.isCall then BumpNonce(t, tx.caller) else t;
        Step(Touch(u, tx.caller), Ok(()))
  }

  function ValidateAndDeduct(s: Journal, info: L1BlockInfo, cfg: Cfg, block: Block, tx: Tx): Step<(), TxError> {
    if tx.IsL1Msg() then AdmitL1Message(s, cfg, tx)
    else if !tx.IsFeeCharged() then MainnetDeduct(s, cfg, block, tx)
    else if !cfg.spec.IsEnabledIn(TSUKI_V2) then
      var mainnet := MainnetDeduct(s, cfg, block, tx);
      if mainnet.result.Err? then mainnet else TakeCheckedL1Fee(mainnet.journal, info, cfg, tx)
    else
      var check := CombinedCheck(s, info, cfg, tx);
      match check.result
      case Err(error) => Step(check.journal, Err(error))
      case Ok(cost) =>
        var mainnet := MainnetDeduct(check.journal, cfg, block, tx);
        if mainnet.result.Err? then mainnet else TakeL1Fee(mainnet.journal, tx, cost)
  }

  /** The info that pre-execution leaves: refreshed for every fee-charged transaction. `None` is a
      failed oracle read. */
  function RefreshedInfo(s: Journal, info: L1BlockInfo, cfg: Cfg, tx: Tx): Option<L1BlockInfo> {
    if tx.IsFeeCharged() then OracleRead.TryFetchFromJournal(s, cfg.spec) else Some(info)
  }

  function Including(list: AccessList, a: Address, keys: seq<U256>): AccessList {
    list[a := (if a in list then list[a] else {}) + set k | k in keys]
  }

  /** The access list as a map; an address listed twice gets all its slots. */
  function Listed(list: seq<(Address, seq<U256>)>): AccessList {
    if list == [] then map[]
    else
      var last := |list| - 1;
      Including(Listed(list[..last]), list[last].0, list[last].1)
  }

  /** What is warm before the first frame, next to the caller: the access list, unless the transaction
      is a legacy one, and the beneficiary. */
  function WarmAtStart(block: Block, tx: Tx): AccessList {
    Including(if tx.txType == Legacy then map[] else Listed(tx.accessList), block.beneficiary, [])
  }

  function LoadAccounts(s: Journal, block: Block, tx: Tx): Journal {
    WarmAccessList(s, WarmAtStart(block, tx))
  }

  function PreExecution(s: Journal, info: L1BlockInfo, cfg: Cfg, block: Block, tx: Tx)
    : (Step<(), TxError>, L1BlockInfo)
  {
    match RefreshedInfo(s, info, cfg, tx)
    case None => (Step(s, Err(DatabaseFailure)), info)
    case Some(current) =>
      var r := ValidateAndDeduct(s, current, cfg, block, tx);
      (if r.result.Err? then r else Step(LoadAccounts(r.journal, block, tx), r.result), current)
  }

  function Credit(s: Journal, a: Address, amount: U256): Step<(), TxError> {
    var loaded := LoadAccount(s, a);
    match loaded.result
    case Err(_) => Step(loaded.journal, Err(DatabaseFailure))
    case Ok(_) => Step(IncrBalance(loaded.journal, a, amount), Ok(()))
  }

  /** Unspent and refunded gas, at the effective price, in saturating 128-bit arithmetic. */
  function Reimbursement(block: Block, tx: Tx, gas: Gas): U256 {
    SaturatingMul128(tx.EffectiveGasPrice(block.baseFee), AsU64(gas.remaining + AsU64(gas.refunded)))
  }

  function ReimburseCaller(s: Journal, block: Block, tx: Tx, gas: Gas): Step<(), TxError> {
    if tx.IsL1Msg() then Step(s, Ok(())) else Credit(s, tx.caller, Reimbursement(block, tx, gas))
  }

  /** Used gas at the effective price plus the L1 fee, in saturating 256-bit arithmetic. */
  function Reward(block: Block, tx: Tx, gas: Gas, l1Cost: U256): U256 {
    SaturatingAdd(SaturatingMul(tx.EffectiveGasPrice(block.baseFee), gas.Used()), l1Cost)
  }

  function RewardBeneficiary(s: Journal, info: L1BlockInfo, cfg: Cfg, block: Block, tx: Tx, gas: Gas)
    : Step<(), TxError>
  {
    if tx.IsL1Msg() then Step(s, Ok(()))
    else
      var cost := if tx.IsSystemTx() then Ok(0) else TxL1Cost(info, tx, cfg.spec);
      match cost
      case Err(error) => Step(s, Err(error))
      case Ok(l1Cost) => Credit(s, block.beneficiary, Reward(block, tx, gas, l1Cost))
  }

  function PostExecution(s: Journal, info: L1BlockInfo, cfg: Cfg, block: Block, tx: Tx, gas: Gas): Step<(), TxError> {
    var reimbursed := ReimburseCaller(s, block, tx, gas);
    if reimbursed.result.Err? then reimbursed
    else RewardBeneficiary(reimbursed.journal, info, cfg, block, tx, gas)
  }

  /** What the EVM hands back: the journal after the last frame and the frame's gas. */
  datatype Outcome = Outcome(journal: Journal, status: Status, remaining: U64, refunded: I64, authRefund: I64)

  /** Everything between deduction and settlement. */
  type Execution = Journal -> Outcome

  datatype Receipt = Receipt(status: Status, gasUsed: nat)

  datatype Transacted = Transacted(journal: Journal, info: L1BlockInfo, result: Result<Receipt, TxError>)

  function FinalGas(tx: Tx, outcome: Outcome, gas: InitialGas): Gas {
    Settled(tx, outcome.status, outcome.remaining, outcome.refunded, outcome.authRefund, gas.floor)
  }

  function ReceiptOf(tx: Tx, outcome: Outcome, gas: InitialGas): Receipt {
    Receipt(outcome.status,
            Reported(tx, outcome.status, outcome.remaining, outcome.refunded, outcome.authRefund, gas.floor))
  }

  /** Execution, settlement and commit of an accepted transaction. */
  function ExecuteAndSettle(d: Journal, current: L1BlockInfo, cfg: Cfg, block: Block, tx: Tx, gas: InitialGas,
                            exec: Execution): Transacted
  {
    var outcome := exec(d);
    var settled := PostExecution(outcome.journal, current, cfg, block, tx, FinalGas(tx, outcome, gas));
    match settled.result
    case Err(error) => Transacted(DiscardTx(settled.journal), current, Err(error))
    case Ok(_) => Transacted(CommitTx(settled.journal), current, Ok(ReceiptOf(tx, outcome, gas)))
  }

  /** One transaction. An error at any stage discards all its effects on the journal. */
  function Transact(s: Journal, info: L1BlockInfo, cfg: Cfg, block: Block, tx: Tx, intrinsic: Intrinsic,
                    exec: Execution): Transacted
  {
    match ValidateInitialTxGas(cfg, tx, intrinsic)
    case Err(error) => Transacted(DiscardTx(s), info, Err(error))
    case Ok(gas) =>
      var (deducted, current) := PreExecution(s, info, cfg, block, tx);
      match deducted.result
      case Err(error) => Transacted(DiscardTx(deducted.journal), current, Err(error))
      case Ok(_) => ExecuteAndSettle(deducted.journal, current, cfg, block, tx, gas, exec)
  }
}
