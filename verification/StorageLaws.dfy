/** Fees never touch storage: deduction and settlement leave every slot's value as it was. */
module StorageLaws {
  import opened Words
  import opened Specs
  import opened JournalState
  import opened JournalLaws
  import opened Transactions
  import opened GasSettlement
  import opened L1Block
  import opened FeeLifecycle

  /** Every slot as it was, everything that was touched or whose info changed touched, and no account
      warmed but the named ones. */
  ghost predicate KeepsStorage(t: Journal, s: Journal, loaded: set<Address>) {
    && SameContext(t, s)
    && (forall a: Address, k: U256 :: SameSlotAt(t, s, a, k))
    && (forall a: Address :: s.IsTouched(a) ==> t.IsTouched(a))
    && (forall a: Address :: t.IsTouched(a) || t.InfoOf(a) == s.InfoOf(a))
    && (forall a: Address :: s.IsAccountWarm(a) ==> t.IsAccountWarm(a))
    && (forall a: Address :: t.IsAccountWarm(a) ==> a in loaded || s.IsAccountWarm(a))
  }

  lemma KeepsStorageTransitive(u: Journal, t: Journal, s: Journal, loaded: set<Address>)
    requires KeepsStorage(u, t, loaded) && KeepsStorage(t, s, loaded)
    ensures KeepsStorage(u, s, loaded)
  {
    forall a: Address, k: U256 ensures SameSlotAt(u, s, a, k) {
      assert SameSlotAt(u, t, a, k) && SameSlotAt(t, s, a, k);
    }
    forall a: Address ensures u.IsTouched(a) || u.InfoOf(a) == s.InfoOf(a) {
      assert t.IsTouched(a) || t.InfoOf(a) == s.InfoOf(a);
    }
  }

  lemma KeepsUntouched(t: Journal, s: Journal, loaded: set<Address>)
    requires KeepsStorage(t, s, loaded) && UntouchedMatchesDb(s)
    ensures UntouchedMatchesDb(t)
  {
    forall a: Address ensures t.IsTouched(a) || t.InfoOf(a) == t.db.InfoAt(a) {
      assert s.IsTouched(a) || s.InfoOf(a) == s.db.InfoAt(a);
    }
    forall a: Address, k: U256 ensures t.IsTouched(a) || t.Value(a, k) == t.db.SlotAt(a, k) {
      assert SameSlotAt(t, s, a, k);
    }
  }

  lemma SameStorage(s: Journal, loaded: set<Address>)
    ensures KeepsStorage(s, s, loaded)
  {
  }

  lemma LoadKeeps(s: Journal, a: Address, loaded: set<Address>)
    requires a in loaded
    ensures KeepsStorage(LoadAccount(s, a).journal, s, loaded)
    ensures LoadAccount(s, a).result.Ok? ==> LoadAccount(s, a).journal.IsAccountWarm(a)
  {
  }

  lemma TouchKeeps(s: Journal, a: Address, loaded: set<Address>)
    ensures KeepsStorage(Touch(s, a), s, loaded)
  {
  }

  lemma SetBalanceKeeps(s: Journal, a: Address, balance: U256, loaded: set<Address>)
    requires a in s.accounts
    ensures KeepsStorage(SetBalance(s, a, balance), s, loaded) && a in SetBalance(s, a, balance).accounts
  {
  }

  lemma BumpNonceKeeps(s: Journal, a: Address, loaded: set<Address>)
    requires a in s.accounts
    ensures KeepsStorage(BumpNonce(s, a), s, loaded)
  {
  }

  lemma DecrBalanceKeeps(s: Journal, a: Address, amount: U256, loaded: set<Address>)
    requires a in s.accounts
    ensures KeepsStorage(DecrBalance(s, a, amount), s, loaded)
  {
  }

  lemma CreditKeeps(s: Journal, a: Address, amount: U256, loaded: set<Address>)
    requires a in loaded
    ensures KeepsStorage(Credit(s, a, amount).journal, s, loaded)
  {
    var t := LoadAccount(s, a).journal;
    LoadKeeps(s, a, loaded);
    if LoadAccount(s, a).result.Ok? && t.accounts[a].info.balance + amount <= U256_MAX {
      SetBalanceKeeps(t, a, t.accounts[a].info.balance + amount, loaded);
      KeepsStorageTransitive(SetBalance(t, a, t.accounts[a].info.balance + amount), t, s, loaded);
    }
    hide LoadAccount, SetBalance, KeepsStorage;
  }

  /** The storage is kept, and the caller is the one account that gets warm. */
  ghost predicate KeepsAllButCaller(r: Step<(), TxError>, s: Journal, tx: Tx) {
    KeepsStorage(r.journal, s, {tx.caller}) && (r.result.Ok? ==> r.journal.IsAccountWarm(tx.caller))
  }

  lemma KeepsAllAfter(r: Step<(), TxError>, t: Journal, s: Journal, tx: Tx)
    requires KeepsStorage(r.journal, t, {tx.caller}) && KeepsStorage(t, s, {tx.caller}) && t.IsAccountWarm(tx.caller)
    ensures KeepsAllButCaller(r, s, tx)
  {
    KeepsStorageTransitive(r.journal, t, s, {tx.caller});
  }

  lemma MainnetDeductKeeps(s: Journal, cfg: Cfg, block: Block, tx: Tx)
    ensures KeepsAllButCaller(MainnetDeduct(s, cfg, block, tx), s, tx)
  {
    var r, t := MainnetDeduct(s, cfg, block, tx), LoadAccount(s, tx.caller).journal;
    LoadKeeps(s, tx.caller, {tx.caller});
    if r.result.Ok? {
      var cost := tx.gasLimit * tx.EffectiveGasPrice(block.baseFee);
      var balance := t.accounts[tx.caller].info.balance;
      var left := if cost <= balance then balance - cost else 0;
      var u := SetBalance(t, tx.caller, left);
      SetBalanceKeeps(t, tx.caller, left, {tx.caller});
      BumpNonceKeeps(u, tx.caller, {tx.caller});
      hide LoadAccount, SetBalance, BumpNonce;
      if tx.isCall {
        KeepsStorageTransitive(BumpNonce(u, tx.caller), u, t, {tx.caller});
      }
      KeepsAllAfter(r, t, s, tx);
    } else {
      hide LoadAccount, SetBalance, BumpNonce, KeepsStorage;
    }
  }

  lemma TakeL1FeeKeeps(s: Journal, tx: Tx, cost: U256)
    ensures KeepsAllButCaller(TakeL1Fee(s, tx, cost), s, tx)
  {
    var r, t := TakeL1Fee(s, tx, cost), LoadAccount(s, tx.caller).journal;
    LoadKeeps(s, tx.caller, {tx.caller});
    if r.result.Ok? {
      DecrBalanceKeeps(t, tx.caller, cost, {tx.caller});
      hide LoadAccount, DecrBalance, KeepsStorage;
      KeepsAllAfter(r, t, s, tx);
    }
    hide LoadAccount, DecrBalance, KeepsStorage;
  }

  lemma TakeCheckedL1FeeKeeps(s: Journal, info: L1BlockInfo, cfg: Cfg, tx: Tx)
    ensures KeepsAllButCaller(TakeCheckedL1Fee(s, info, cfg, tx), s, tx)
  {
    LoadKeeps(s, tx.caller, {tx.caller});
    SameStorage(s, {tx.caller});
    var cost := TxL1Cost(info, tx, cfg.spec);
    if cost.Ok? {
      TakeL1FeeKeeps(s, tx, cost.value);
    }
    hide LoadAccount, DecrBalance, KeepsStorage, TxL1Cost;
  }

  lemma AdmitL1MessageKeeps(s: Journal, cfg: Cfg, tx: Tx)
    ensures KeepsAllButCaller(AdmitL1Message(s, cfg, tx), s, tx)
  {
    var r, t := AdmitL1Message(s, cfg, tx), LoadAccount(s, tx.caller).journal;
    LoadKeeps(s, tx.caller, {tx.caller});
    if r.result.Ok? {
      var u := if tx.isCall then BumpNonce(t, tx.caller) else t;
      BumpNonceKeeps(t, tx.caller, {tx.caller});
      SameStorage(t, {tx.caller});
      TouchKeeps(u, tx.caller, {tx.caller});
      hide LoadAccount, BumpNonce, Touch, KeepsStorage;
      KeepsStorageTransitive(Touch(u, tx.caller), u, t, {tx.caller});
      KeepsAllAfter(r, t, s, tx);
    }
    hide LoadAccount, BumpNonce, Touch, KeepsStorage;
  }

  /** Deduction of any class, in either regime, accepted or not. */
  lemma DeductionKeepsStorage(s: Journal, info: L1BlockInfo, cfg: Cfg, block: Block, tx: Tx)
    ensures KeepsAllButCaller(ValidateAndDeduct(s, info, cfg, block, tx), s, tx)
  {
    hide LoadAccount, AdmitL1Message, MainnetDeduct, TakeCheckedL1Fee, TakeL1Fee, KeepsStorage, TxL1Cost;
    AdmitL1MessageKeeps(s, cfg, tx);
    MainnetDeductKeeps(s, cfg, block, tx);
    if tx.IsFeeCharged() && !cfg.spec.IsEnabledIn(TSUKI_V2) {
      var t := MainnetDeduct(s, cfg, block, tx).journal;
      TakeCheckedL1FeeKeeps(t, info, cfg, tx);
      if MainnetDeduct(s, cfg, block, tx).result.Ok? {
        KeepsAllAfter(TakeCheckedL1Fee(t, info, cfg, tx), t, s, tx);
      }
    } else if tx.IsFeeCharged() {
      LateDeductionKeepsStorage(s, info, cfg, block, tx);
    }
    hide KeepsAllButCaller;
  }

  lemma LateDeductionKeepsStorage(s: Journal, info: L1BlockInfo, cfg: Cfg, block: Block, tx: Tx)
    requires tx.IsFeeCharged() && cfg.spec.IsEnabledIn(TSUKI_V2)
    ensures KeepsAllButCaller(ValidateAndDeduct(s, info, cfg, block, tx), s, tx)
  {
    hide LoadAccount, MainnetDeduct, TakeL1Fee, KeepsStorage, TxL1Cost;
    var check := CombinedCheck(s, info, cfg, tx);
    var t := LoadAccount(s, tx.caller).journal;
    assert check.journal == t;
    LoadKeeps(s, tx.caller, {tx.caller});
    if check.result.Ok? {
      var mainnet := MainnetDeduct(t, cfg, block, tx);
      MainnetDeductKeeps(t, cfg, block, tx);
      KeepsAllAfter(mainnet, t, s, tx);
      if mainnet.result.Ok? {
        TakeL1FeeKeeps(mainnet.journal, tx, check.result.value);
        KeepsAllAfter(TakeL1Fee(mainnet.journal, tx, check.result.value), mainnet.journal, s, tx);
      }
    }
    hide CombinedCheck;
  }

  lemma MainnetTouchesCaller(s: Journal, cfg: Cfg, block: Block, tx: Tx)
    ensures var r := MainnetDeduct(s, cfg, block, tx); r.result.Ok? ==> r.journal.IsTouched(tx.caller)
  {
    hide LoadAccount;
  }

  lemma AdmittedCallerTouched(s: Journal, cfg: Cfg, tx: Tx)
    ensures var r := AdmitL1Message(s, cfg, tx); r.result.Ok? ==> r.journal.IsTouched(tx.caller)
  {
    hide LoadAccount;
  }

  /** The caller of every accepted transaction is touched, so a commit will write it back. */
  lemma DeductionTouchesCaller(s: Journal, info: L1BlockInfo, cfg: Cfg, block: Block, tx: Tx)
    ensures var r := ValidateAndDeduct(s, info, cfg, block, tx); r.result.Ok? ==> r.journal.IsTouched(tx.caller)
  {
    AdmittedCallerTouched(s, cfg, tx);
    MainnetTouchesCaller(s, cfg, block, tx);
    var check := CombinedCheck(s, info, cfg, tx);
    MainnetTouchesCaller(check.journal, cfg, block, tx);
    TakeCheckedL1FeeKeeps(MainnetDeduct(s, cfg, block, tx).journal, info, cfg, tx);
    if check.result.Ok? {
      TakeL1FeeKeeps(MainnetDeduct(check.journal, cfg, block, tx).journal, tx, check.result.value);
    }
    hide AdmitL1Message, MainnetDeduct, CombinedCheck, TakeCheckedL1Fee, TakeL1Fee;
  }

  /** Reimbursement and reward. */
  lemma PostExecutionKeepsStorage(s: Journal, info: L1BlockInfo, cfg: Cfg, block: Block, tx: Tx, gas: Gas)
    ensures KeepsStorage(PostExecution(s, info, cfg, block, tx, gas).journal, s, {tx.caller, block.beneficiary})
  {
    hide KeepsStorage, Credit, TxL1Cost, Reimbursement, Reward;
    var paid := {tx.caller, block.beneficiary};
    SameStorage(s, paid);
    var t := ReimburseCaller(s, block, tx, gas).journal;
    CreditKeeps(s, tx.caller, Reimbursement(block, tx, gas), paid);
    var u := RewardBeneficiary(t, info, cfg, block, tx, gas).journal;
    if u != t {
      var l1Cost := if tx.IsSystemTx() then 0 else TxL1Cost(info, tx, cfg.spec).value;
      CreditKeeps(t, block.beneficiary, Reward(block, tx, gas, l1Cost), paid);
      KeepsStorageTransitive(u, t, s, paid);
    }
  }
}
