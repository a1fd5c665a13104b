/** What deduction accepts and takes, and what settlement gives back. */
module FeeLaws {
  import opened Words
  import opened Specs
  import opened JournalState
  import opened JournalLaws
  import opened JournalEffects
  import opened Transactions
  import opened GasSettlement
  import opened L1Block
  import opened FeeLifecycle
  import OracleRead

  /** The caller paid `amount`, a call's nonce went up, and nobody else's account changed. */
  ghost predicate Charged(t: Journal, s: Journal, tx: Tx, amount: nat) {
    && amount <= s.Balance(tx.caller)
    && (forall a: Address :: a != tx.caller ==> t.InfoOf(a) == s.InfoOf(a))
    && t.Balance(tx.caller) == s.Balance(tx.caller) - amount
    && t.InfoOf(tx.caller).code == s.InfoOf(tx.caller).code
    && t.InfoOf(tx.caller).nonce
       == if tx.isCall then BumpedNonce(s.InfoOf(tx.caller).nonce) else s.InfoOf(tx.caller).nonce
  }

  /** What a unit of gas costs: the fee cap, or base fee plus tip if there is a tip and that is less. */
  function PricePaid(block: Block, tx: Tx): nat {
    if tx.txType == Legacy || tx.txType == AccessListTx || tx.priorityFee.None? then tx.gasPrice
    else if tx.gasPrice <= block.baseFee + tx.priorityFee.value then tx.gasPrice
    else block.baseFee + tx.priorityFee.value
  }

  lemma EffectiveIsPaid(block: Block, tx: Tx)
    ensures tx.EffectiveGasPrice(block.baseFee) == PricePaid(block, tx)
  {
  }

  function EffectiveCost(block: Block, tx: Tx): nat {
    tx.gasLimit * PricePaid(block, tx)
  }

  function MaxCost(tx: Tx): nat {
    tx.gasLimit * tx.gasPrice
  }

  lemma EffectiveCostWithinMax(block: Block, tx: Tx)
    ensures EffectiveCost(block, tx) <= MaxCost(tx)
  {
  }

  /** The checks that do not look at the balance. */
  predicate SenderOk(cfg: Cfg, tx: Tx, caller: Info) {
    !RejectsCode(cfg, caller) && tx.nonce == caller.nonce
  }

  predicate MainnetAccepts(s: Journal, cfg: Cfg, tx: Tx) {
    && SenderOk(cfg, tx, s.InfoOf(tx.caller))
    && MaxCost(tx) <= U128_MAX
    && MaxCost(tx) + tx.value <= s.Balance(tx.caller)
  }

  /** One write to the loaded caller, and possibly the nonce. */
  lemma ChargeEffect(t: Journal, tx: Tx, left: U256)
    requires WellFormed(t) && tx.caller in t.accounts && left <= t.Balance(tx.caller)
    ensures var u := SetBalance(t, tx.caller, left);
      tx.caller in u.accounts
      && var v := if tx.isCall then BumpNonce(u, tx.caller) else u;
      Extends(v, t) && Charged(v, t, tx, t.Balance(tx.caller) - left) && tx.caller in v.accounts
  {
    hide WellFormed, Extends;
    var u := SetBalance(t, tx.caller, left);
    SetBalanceEffect(t, tx.caller, left);
    hide SetBalance;
    assert u.InfoOf(tx.caller) == t.InfoOf(tx.caller).(balance := left);
    ExtendsKeepsContext(u, t);
    if tx.isCall {
      BumpNonceEffect(u, tx.caller);
      ExtendsTransitive(t, u, BumpNonce(u, tx.caller));
      hide BumpNonce;
      assert forall a: Address :: a != tx.caller ==> u.InfoOf(a) == t.InfoOf(a);
    }
  }

  lemma MainnetAccepted(s: Journal, cfg: Cfg, block: Block, tx: Tx)
    requires LoadAccount(s, tx.caller).result == Ok(StateLoad(s.InfoOf(tx.caller), !s.IsAccountWarm(tx.caller)))
    requires MainnetAccepts(s, cfg, tx)
    ensures EffectiveCost(block, tx) <= s.Balance(tx.caller)
    ensures var t := LoadAccount(s, tx.caller).journal;
      var u := SetBalance(t, tx.caller, s.Balance(tx.caller) - EffectiveCost(block, tx));
      MainnetDeduct(s, cfg, block, tx)
      == Step(if tx.isCall && tx.caller in u.accounts then BumpNonce(u, tx.caller) else u, Ok(()))
  {
    EffectiveCostWithinMax(block, tx);
    EffectiveIsPaid(block, tx);
    hide LoadAccount, BumpNonce;
  }

  /** Mainnet deduction accepts exactly when sender and funds are in order, then takes exactly the
      effective gas cost; otherwise it changes no account. */
  lemma MainnetDeductEffect(s: Journal, cfg: Cfg, block: Block, tx: Tx)
    requires WellFormed(s) && !Unloadable(s, tx.caller)
    ensures var r := MainnetDeduct(s, cfg, block, tx);
      && Extends(r.journal, s)
      && (r.result.Ok? <==> MainnetAccepts(s, cfg, tx))
      && (r.result.Ok? ==> tx.caller in r.journal.accounts && Charged(r.journal, s, tx, EffectiveCost(block, tx)))
      && (r.result.Err? ==> SameInfos(r.journal, s))
  {
    hide WellFormed, Extends;
    var t := LoadAccount(s, tx.caller).journal;
    LoadAccountEffect(s, tx.caller);
    hide LoadAccount;
    if MainnetAccepts(s, cfg, tx) {
      assert t.InfoOf(tx.caller) == s.InfoOf(tx.caller);
      MainnetAccepted(s, cfg, block, tx);
      hide MainnetDeduct;
      var left := s.Balance(tx.caller) - EffectiveCost(block, tx);
      hide EffectiveCost;
      ExtendsKeepsContext(t, s);
      ChargeEffect(t, tx, left);
      hide SetBalance, BumpNonce, AccountLoaded;
      ExtendsTransitive(s, t, MainnetDeduct(s, cfg, block, tx).journal);
    }
  }

  /** The caller's account after a debit that fits; everyone else as before. */
  ghost predicate Debited(t: Journal, s: Journal, a: Address, amount: nat) {
    && amount <= s.Balance(a)
    && (forall b: Address :: t.InfoOf(b) == if b == a then s.InfoOf(a).(balance := s.Balance(a) - amount)
                                            else s.InfoOf(b))
  }

  /** The debit is made exactly if the balance covers it. */
  lemma DecrBalanceEffect(s: Journal, a: Address, amount: U256)
    requires WellFormed(s) && a in s.accounts
    ensures var t := DecrBalance(s, a, amount);
      && (amount <= s.Balance(a) ==> Extends(t, s) && Debited(t, s, a, amount))
      && (amount > s.Balance(a) ==> t == s)
  {
    hide SetBalance, Extends, WellFormed;
    if amount <= s.Balance(a) {
      SetBalanceEffect(s, a, s.Balance(a) - amount);
      assert DecrBalance(s, a, amount) == SetBalance(s, a, s.Balance(a) - amount);
      hide DecrBalance;
    }
  }

  lemma TakeL1FeeEffect(s: Journal, tx: Tx, cost: U256)
    requires WellFormed(s) && !Unloadable(s, tx.caller) && cost <= s.Balance(tx.caller)
    ensures var r := TakeL1Fee(s, tx, cost);
      r.result == Ok(()) && Extends(r.journal, s) && Debited(r.journal, s, tx.caller, cost)
  {
    hide WellFormed, Extends;
    var t := LoadAccount(s, tx.caller).journal;
    LoadAccountEffect(s, tx.caller);
    hide LoadAccount;
    assert t.InfoOf(tx.caller) == s.InfoOf(tx.caller);
    ExtendsKeepsContext(t, s);
    DecrBalanceEffect(t, tx.caller, cost);
    hide DecrBalance;
    ExtendsTransitive(s, t, DecrBalance(t, tx.caller, cost));
    hide Extends;
  }

  lemma TakeCheckedL1FeeEffect(s: Journal, info: L1BlockInfo, cfg: Cfg, tx: Tx)
    requires WellFormed(s) && !Unloadable(s, tx.caller)
    ensures var r, cost := TakeCheckedL1Fee(s, info, cfg, tx), TxL1Cost(info, tx, cfg.spec);
      && Extends(r.journal, s)
      && (r.result.Ok? <==> cost.Ok? && cost.value <= s.Balance(tx.caller))
      && (r.result.Ok? ==> Debited(r.journal, s, tx.caller, cost.value))
      && (r.result.Err? ==> SameInfos(r.journal, s))
  {
    hide WellFormed, Extends;
    hide TxL1Cost;
    var cost := TxL1Cost(info, tx, cfg.spec);
    ExtendsReflexive(s);
    LoadAccountEffect(s, tx.caller);
    if cost.Ok? && cost.value <= s.Balance(tx.caller) {
      TakeL1FeeEffect(s, tx, cost.value);
    }
    hide LoadAccount, DecrBalance;
  }

  lemma ChargedThenDebited(s: Journal, t: Journal, u: Journal, tx: Tx, amount: nat, more: nat)
    requires Charged(t, s, tx, amount) && Debited(u, t, tx.caller, more)
    ensures Charged(u, s, tx, amount + more)
  {
  }

  /** Before TsukiV2: mainnet accepts, and the L1 fee fits what its deduction leaves. */
  predicate AcceptsBeforeTsukiV2(s: Journal, info: L1BlockInfo, cfg: Cfg, block: Block, tx: Tx) {
    && MainnetAccepts(s, cfg, tx)
    && TxL1Cost(info, tx, cfg.spec).Ok?
    && EffectiveCost(block, tx) + TxL1Cost(info, tx, cfg.spec).value <= s.Balance(tx.caller)
  }

  /** From TsukiV2: fee cap, value and L1 fee together fit the original balance. */
  predicate AcceptsFromTsukiV2(s: Journal, info: L1BlockInfo, cfg: Cfg, tx: Tx) {
    && SenderOk(cfg, tx, s.InfoOf(tx.caller))
    && MaxCost(tx) <= U128_MAX
    && TxL1Cost(info, tx, cfg.spec).Ok?
    && MaxCost(tx) + tx.value + TxL1Cost(info, tx, cfg.spec).value <= s.Balance(tx.caller)
  }

  /** Before TsukiV2, acceptance is exactly the two-stage check, and both fees are then taken. When
      only the L1 fee fails, the mainnet deduction and nonce bump stay in the journal until the
      transaction is discarded. */
  lemma DeductBeforeTsukiV2(s: Journal, info: L1BlockInfo, cfg: Cfg, block: Block, tx: Tx)
    requires WellFormed(s) && !Unloadable(s, tx.caller) && tx.IsFeeCharged() && !cfg.spec.IsEnabledIn(TSUKI_V2)
    ensures var r := ValidateAndDeduct(s, info, cfg, block, tx);
      && Extends(r.journal, s)
      && (r.result.Ok? <==> AcceptsBeforeTsukiV2(s, info, cfg, block, tx))
      && (r.result.Ok? ==>
            Charged(r.journal, s, tx, EffectiveCost(block, tx) + TxL1Cost(info, tx, cfg.spec).value))
      && (r.result.Err? && MainnetAccepts(s, cfg, tx) ==> Charged(r.journal, s, tx, EffectiveCost(block, tx)))
  {
    hide WellFormed, Extends;
    hide TxL1Cost;
    var mainnet := MainnetDeduct(s, cfg, block, tx);
    MainnetDeductEffect(s, cfg, block, tx);
    hide MainnetDeduct;
    if mainnet.result.Ok? {
      var t := mainnet.journal;
      var r := TakeCheckedL1Fee(t, info, cfg, tx);
      ExtendsKeepsContext(t, s);
      TakeCheckedL1FeeEffect(t, info, cfg, tx);
      hide TakeCheckedL1Fee;
      ExtendsTransitive(s, t, r.journal);
      if r.result.Err? {
        ChargedUntilSameInfos(s, t, r.journal, tx, EffectiveCost(block, tx));
      } else {
        ChargedThenDebited(s, t, r.journal, tx, EffectiveCost(block, tx), TxL1Cost(info, tx, cfg.spec).value);
      }
    }
  }

  lemma CombinedCheckEffect(s: Journal, info: L1BlockInfo, cfg: Cfg, tx: Tx)
    requires WellFormed(s) && !Unloadable(s, tx.caller)
    ensures var r, cost := CombinedCheck(s, info, cfg, tx), TxL1Cost(info, tx, cfg.spec);
      && Extends(r.journal, s) && SameInfos(r.journal, s)
      && r.journal == LoadAccount(s, tx.caller).journal
      && (r.result.Ok? <==> cost.Ok? && MaxCost(tx) <= U128_MAX
                            && MaxCost(tx) + tx.value + cost.value <= s.Balance(tx.caller))
      && (r.result.Ok? ==> r.result == cost)
  {
    hide WellFormed, Extends;
    hide TxL1Cost;
    LoadAccountEffect(s, tx.caller);
    hide LoadAccount, Extends;
  }

  /** From TsukiV2, acceptance is exactly the combined check with the sender checks. The unchecked
      debit of the L1 fee then never falls short, and at least `value` is left for the first frame's
      transfer. A rejection changes neither a balance nor a nonce. */
  lemma DeductFromTsukiV2(s: Journal, info: L1BlockInfo, cfg: Cfg, block: Block, tx: Tx)
    requires WellFormed(s) && !Unloadable(s, tx.caller) && tx.IsFeeCharged() && cfg.spec.IsEnabledIn(TSUKI_V2)
    ensures var r := ValidateAndDeduct(s, info, cfg, block, tx);
      && Extends(r.journal, s)
      && (r.result.Ok? <==> AcceptsFromTsukiV2(s, info, cfg, tx))
      && (r.result.Ok? ==>
            && Charged(r.journal, s, tx, EffectiveCost(block, tx) + TxL1Cost(info, tx, cfg.spec).value)
            && tx.value <= r.journal.Balance(tx.caller))
      && (r.result.Err? ==> SameInfos(r.journal, s))
  {
    hide WellFormed, Extends;
    hide TxL1Cost;
    var check := CombinedCheck(s, info, cfg, tx);
    var t := check.journal;
    CombinedCheckEffect(s, info, cfg, tx);
    EffectiveCostWithinMax(block, tx);
    hide CombinedCheck, LoadAccount;
    if check.result.Ok? {
      assert t.InfoOf(tx.caller) == s.InfoOf(tx.caller);
      ExtendsKeepsContext(t, s);
      MainnetDeductEffect(t, cfg, block, tx);
      var mainnet := MainnetDeduct(t, cfg, block, tx);
      hide MainnetDeduct;
      ExtendsTransitive(s, t, mainnet.journal);
      if mainnet.result.Ok? {
        TakeAfterMainnet(s, t, mainnet.journal, block, tx, check.result.value);
      }
    }
  }

  lemma TakeAfterMainnet(s: Journal, t: Journal, u: Journal, block: Block, tx: Tx, cost: U256)
    requires WellFormed(s) && SameInfos(t, s) && Extends(u, s) && tx.caller in u.accounts
    requires Charged(u, t, tx, EffectiveCost(block, tx))
    requires MaxCost(tx) + tx.value + cost <= s.Balance(tx.caller)
    ensures var r := TakeL1Fee(u, tx, cost);
      && r.result == Ok(()) && Extends(r.journal, s)
      && Charged(r.journal, s, tx, EffectiveCost(block, tx) + cost)
      && tx.value <= r.journal.Balance(tx.caller)
  {
    hide WellFormed, Extends;
    EffectiveCostWithinMax(block, tx);
    assert t.InfoOf(tx.caller) == s.InfoOf(tx.caller);
    ExtendsKeepsContext(u, s);
    TakeL1FeeEffect(u, tx, cost);
    hide TakeL1Fee;
    ExtendsTransitive(s, u, TakeL1Fee(u, tx, cost).journal);
    ChargedThenDebited(t, u, TakeL1Fee(u, tx, cost).journal, tx, EffectiveCost(block, tx), cost);
    hide TakeL1Fee;
    ChargedOnSameInfos(s, t, TakeL1Fee(u, tx, cost).journal, tx, EffectiveCost(block, tx) + cost);
  }

  lemma ChargedOnSameInfos(s: Journal, t: Journal, u: Journal, tx: Tx, amount: nat)
    requires SameInfos(t, s) && Charged(u, t, tx, amount)
    ensures Charged(u, s, tx, amount)
  {
  }

  lemma ChargedUntilSameInfos(s: Journal, t: Journal, u: Journal, tx: Tx, amount: nat)
    requires Charged(t, s, tx, amount) && SameInfos(u, t)
    ensures Charged(u, s, tx, amount)
  {
  }

  // Reasons for rejection, in the order in which each regime finds them.

  function SenderReason(cfg: Cfg, tx: Tx, caller: Info): Option<TxError> {
    if !cfg.eip3607Disabled && caller.code == Contract then Some(RejectCallerWithCode)
    else if caller.nonce < tx.nonce then Some(NonceTooHigh)
    else if tx.nonce < caller.nonce then Some(NonceTooLow)
    else None
  }

  predicate Unrepresentable(tx: Tx) {
    MaxCost(tx) > U128_MAX || MaxCost(tx) + tx.value > U256_MAX
  }

  /** Of a transaction that pays no L1 fee: sender first, then fee cap and value. */
  function MainnetReason(caller: Info, cfg: Cfg, tx: Tx): Option<TxError> {
    if SenderReason(cfg, tx, caller).Some? then SenderReason(cfg, tx, caller)
    else if Unrepresentable(tx) then Some(OverflowPaymentInTransaction)
    else if caller.balance < MaxCost(tx) + tx.value then
      Some(LackOfFundForMaxFee(MaxCost(tx) + tx.value, caller.balance))
    else None
  }

  /** Of an L1 message: before Euclid fee cap and value, then the sender's code; never the nonce. */
  function L1MessageReason(caller: Info, cfg: Cfg, tx: Tx): Option<TxError> {
    var early := cfg.spec in {SHANGHAI, BERNOULLI, CURIE, DARWIN};
    if early && Unrepresentable(tx) then Some(OverflowPaymentInTransaction)
    else if early && caller.balance < MaxCost(tx) + tx.value then
      Some(LackOfFundForMaxFee(MaxCost(tx) + tx.value, caller.balance))
    else if !cfg.eip3607Disabled && caller.code == Contract then Some(RejectCallerWithCode)
    else None
  }

  /** Before TsukiV2: sender first, then fee cap and value, then the L1 fee against what is left. */
  function ReasonBeforeTsukiV2(fee: Result<U256, TxError>, caller: Info, cfg: Cfg, block: Block, tx: Tx)
    : Option<TxError>
  {
    if MainnetReason(caller, cfg, tx).Some? then MainnetReason(caller, cfg, tx)
    else if fee.Err? then Some(fee.error)
    else
      EffectiveCostWithinMax(block, tx);
      var left := caller.balance - EffectiveCost(block, tx);
      if left < fee.value then Some(LackOfFundForMaxFee(fee.value, left)) else None
  }

  /** From TsukiV2: the L1 fee first, then everything together against the balance, then the sender. */
  function ReasonFromTsukiV2(fee: Result<U256, TxError>, caller: Info, cfg: Cfg, tx: Tx): Option<TxError> {
    if fee.Err? then Some(fee.error)
    else if Unrepresentable(tx) || MaxCost(tx) + tx.value + fee.value > U256_MAX then
      Some(OverflowPaymentInTransaction)
    else if caller.balance < MaxCost(tx) + tx.value + fee.value then
      Some(LackOfFundForMaxFee(MaxCost(tx) + tx.value + fee.value, caller.balance))
    else SenderReason(cfg, tx, caller)
  }

  function Verdict(reason: Option<TxError>): Result<(), TxError> {
    match reason
    case None => Ok(())
    case Some(error) => Err(error)
  }

  lemma MainnetVerdict(s: Journal, cfg: Cfg, block: Block, tx: Tx)
    requires WellFormed(s) && !Unloadable(s, tx.caller)
    ensures MainnetDeduct(s, cfg, block, tx).result == Verdict(MainnetReason(s.InfoOf(tx.caller), cfg, tx))
  {
    hide WellFormed, Extends, SetBalance, BumpNonce, AccountLoaded;
    LoadAccountEffect(s, tx.caller);
    hide LoadAccount;
  }

  lemma L1MessageVerdict(s: Journal, cfg: Cfg, tx: Tx)
    requires WellFormed(s) && !Unloadable(s, tx.caller)
    ensures AdmitL1Message(s, cfg, tx).result == Verdict(L1MessageReason(s.InfoOf(tx.caller), cfg, tx))
  {
    hide WellFormed, Extends, BumpNonce, Touch, AccountLoaded;
    LoadAccountEffect(s, tx.caller);
    hide LoadAccount;
  }

  lemma CheckedFeeVerdict(t: Journal, info: L1BlockInfo, cfg: Cfg, tx: Tx)
    requires WellFormed(t) && !Unloadable(t, tx.caller)
    ensures var fee, balance := TxL1Cost(info, tx, cfg.spec), t.Balance(tx.caller);
      TakeCheckedL1Fee(t, info, cfg, tx).result
      == Verdict(if fee.Err? then Some(fee.error)
                 else if balance < fee.value then Some(LackOfFundForMaxFee(fee.value, balance))
                 else None)
  {
    hide WellFormed, Extends, TxL1Cost, DecrBalance, AccountLoaded;
    LoadAccountEffect(t, tx.caller);
    hide LoadAccount;
  }

  lemma LeftByMainnet(s: Journal, cfg: Cfg, block: Block, tx: Tx)
    requires WellFormed(s) && !Unloadable(s, tx.caller) && MainnetDeduct(s, cfg, block, tx).result.Ok?
    ensures var t := MainnetDeduct(s, cfg, block, tx).journal;
      && WellFormed(t) && !Unloadable(t, tx.caller)
      && EffectiveCost(block, tx) <= s.Balance(tx.caller)
      && t.Balance(tx.caller) == s.Balance(tx.caller) - EffectiveCost(block, tx)
  {
    hide WellFormed, Extends, MainnetDeduct, EffectiveCost, MainnetAccepts, SameInfos;
    MainnetDeductEffect(s, cfg, block, tx);
    ExtendsKeepsContext(MainnetDeduct(s, cfg, block, tx).journal, s);
  }

  /** The exact error of a fee-charged transaction before TsukiV2, amounts included. */
  lemma VerdictBeforeTsukiV2(s: Journal, info: L1BlockInfo, cfg: Cfg, block: Block, tx: Tx)
    requires WellFormed(s) && !Unloadable(s, tx.caller) && tx.IsFeeCharged() && !cfg.spec.IsEnabledIn(TSUKI_V2)
    ensures ValidateAndDeduct(s, info, cfg, block, tx).result
         == Verdict(ReasonBeforeTsukiV2(TxL1Cost(info, tx, cfg.spec), s.InfoOf(tx.caller), cfg, block, tx))
  {
    hide WellFormed, TxL1Cost, EffectiveCost, MaxCost, TakeCheckedL1Fee, MainnetDeduct, SenderReason, Unrepresentable;
    MainnetVerdict(s, cfg, block, tx);
    EffectiveCostWithinMax(block, tx);
    if MainnetDeduct(s, cfg, block, tx).result.Ok? {
      LeftByMainnet(s, cfg, block, tx);
      CheckedFeeVerdict(MainnetDeduct(s, cfg, block, tx).journal, info, cfg, tx);
    }
  }

  /** The exact error of a fee-charged transaction from TsukiV2, amounts included. */
  lemma VerdictFromTsukiV2(s: Journal, info: L1BlockInfo, cfg: Cfg, block: Block, tx: Tx)
    requires WellFormed(s) && !Unloadable(s, tx.caller) && tx.IsFeeCharged() && cfg.spec.IsEnabledIn(TSUKI_V2)
    ensures ValidateAndDeduct(s, info, cfg, block, tx).result
         == Verdict(ReasonFromTsukiV2(TxL1Cost(info, tx, cfg.spec), s.InfoOf(tx.caller), cfg, tx))
  {
    hide WellFormed, Extends, TxL1Cost, MaxCost, DecrBalance, AccountLoaded;
    LoadAccountEffect(s, tx.caller);
    CombinedVerdict(s, info, cfg, tx);
    CombinedCheckEffect(s, info, cfg, tx);
    var check := CombinedCheck(s, info, cfg, tx);
    hide CombinedCheck, LoadAccount;
    if check.result.Ok? {
      var t := check.journal;
      ExtendsKeepsContext(t, s);
      assert t.InfoOf(tx.caller) == s.InfoOf(tx.caller);
      MainnetVerdict(t, cfg, block, tx);
      DeductFromTsukiV2(s, info, cfg, block, tx);
      hide MainnetDeduct, Charged;
    }
  }

  lemma CombinedVerdict(s: Journal, info: L1BlockInfo, cfg: Cfg, tx: Tx)
    requires WellFormed(s) && !Unloadable(s, tx.caller)
    ensures var fee, caller, r := TxL1Cost(info, tx, cfg.spec), s.InfoOf(tx.caller), CombinedCheck(s, info, cfg, tx);
      r.result
      == if fee.Err? then fee
         else if Unrepresentable(tx) || MaxCost(tx) + tx.value + fee.value > U256_MAX then
           Err(OverflowPaymentInTransaction)
         else if caller.balance < MaxCost(tx) + tx.value + fee.value then
           Err(LackOfFundForMaxFee(MaxCost(tx) + tx.value + fee.value, caller.balance))
         else fee
  {
    hide WellFormed, Extends, TxL1Cost, AccountLoaded;
    LoadAccountEffect(s, tx.caller);
    hide LoadAccount;
  }

  // The regime change.

  predicate NonBalanceChecks(s: Journal, info: L1BlockInfo, cfg: Cfg, tx: Tx) {
    && SenderOk(cfg, tx, s.InfoOf(tx.caller))
    && MaxCost(tx) <= U128_MAX
    && TxL1Cost(info, tx, cfg.spec).Ok?
  }

  lemma SameFeeAcrossTsuki(info: L1BlockInfo, tx: Tx)
    ensures TxL1Cost(info, tx, TSUKI) == TxL1Cost(info, tx, TSUKI_V2)
  {
    hide CostShanghai, CostCurie, CostFeynman, CostGalileo;
  }

  lemma AcceptanceByBalance(s: Journal, info: L1BlockInfo, cfg: Cfg, block: Block, tx: Tx)
    requires cfg.spec == TSUKI
    ensures AcceptsBeforeTsukiV2(s, info, cfg, block, tx)
       <==> NonBalanceChecks(s, info, cfg, tx)
            && MaxCost(tx) + tx.value <= s.Balance(tx.caller)
            && EffectiveCost(block, tx) + TxL1Cost(info, tx, TSUKI).value <= s.Balance(tx.caller)
    ensures AcceptsFromTsukiV2(s, info, cfg.(spec := TSUKI_V2), tx)
       <==> NonBalanceChecks(s, info, cfg, tx)
            && MaxCost(tx) + tx.value + TxL1Cost(info, tx, TSUKI).value <= s.Balance(tx.caller)
  {
    SameFeeAcrossTsuki(info, tx);
    hide TxL1Cost, MaxCost, EffectiveCost;
  }

  /** Tsuki accepts what TsukiV2 rejects for exactly the balances in this interval. */
  lemma RegimeGapIsExact(s: Journal, info: L1BlockInfo, cfg: Cfg, block: Block, tx: Tx)
    requires WellFormed(s) && !Unloadable(s, tx.caller) && tx.IsFeeCharged() && cfg.spec == TSUKI
    ensures ValidateAndDeduct(s, info, cfg, block, tx).result.Ok?
            && ValidateAndDeduct(s, info, cfg.(spec := TSUKI_V2), block, tx).result.Err?
       <==> NonBalanceChecks(s, info, cfg, tx)
            && var fee, balance := TxL1Cost(info, tx, TSUKI).value, s.Balance(tx.caller);
            && MaxCost(tx) + tx.value <= balance && EffectiveCost(block, tx) + fee <= balance
            && balance < MaxCost(tx) + tx.value + fee
  {
    hide WellFormed, Extends, ValidateAndDeduct, MaxCost, EffectiveCost, TxL1Cost, Charged, SameInfos;
    DeductBeforeTsukiV2(s, info, cfg, block, tx);
    DeductFromTsukiV2(s, info, cfg.(spec := TSUKI_V2), block, tx);
    AcceptanceByBalance(s, info, cfg, block, tx);
    hide *;
  }

  lemma ReloadIsIdempotent(s: Journal, a: Address)
    requires WellFormed(s)
    ensures var r := LoadAccount(s, a);
      r.result.Ok? ==>
        && LoadAccount(r.journal, a).journal == r.journal
        && LoadAccount(r.journal, a).result == Ok(StateLoad(r.result.value.data, false))
  {
  }

  /** Whatever TsukiV2 accepts, Tsuki accepts too, and leaves the identical journal. */
  lemma TsukiV2AcceptanceImpliesTsuki(s: Journal, info: L1BlockInfo, cfg: Cfg, block: Block, tx: Tx)
    requires WellFormed(s) && !Unloadable(s, tx.caller) && tx.IsFeeCharged() && cfg.spec == TSUKI
    ensures ValidateAndDeduct(s, info, cfg.(spec := TSUKI_V2), block, tx).result.Ok?
        ==> ValidateAndDeduct(s, info, cfg, block, tx)
            == ValidateAndDeduct(s, info, cfg.(spec := TSUKI_V2), block, tx)
  {
    hide WellFormed, Extends;
    var next := cfg.(spec := TSUKI_V2);
    DeductBeforeTsukiV2(s, info, cfg, block, tx);
    DeductFromTsukiV2(s, info, next, block, tx);
    SameFeeAcrossTsuki(info, tx);
    EffectiveCostWithinMax(block, tx);
    CombinedCheckEffect(s, info, next, tx);
    var t := CombinedCheck(s, info, next, tx).journal;
    ReloadIsIdempotent(s, tx.caller);
    MainnetIgnoresReload(s, t, cfg, block, tx);
  }

  lemma MainnetIgnoresReload(s: Journal, t: Journal, cfg: Cfg, block: Block, tx: Tx)
    requires WellFormed(s) && t == LoadAccount(s, tx.caller).journal && LoadAccount(s, tx.caller).result.Ok?
    ensures MainnetDeduct(t, cfg.(spec := TSUKI_V2), block, tx) == MainnetDeduct(s, cfg, block, tx)
  {
    ReloadIsIdempotent(s, tx.caller);
    hide LoadAccount;
  }
}
