/** Conservation: where every unit of a transaction's money goes, over any run of transactions. */
module LedgerLaws {
  import opened Words
  import opened Specs
  import opened JournalState
  import opened JournalLaws
  import opened JournalEffects
  import opened Supply
  import opened Transactions
  import opened GasSettlement
  import opened L1Block
  import opened FeeLifecycle
  import opened FeeLaws
  import opened StorageLaws
  import opened SettlementLaws

  predicate AdmitsL1Message(s: Journal, cfg: Cfg, tx: Tx) {
    && !RejectsCode(cfg, s.InfoOf(tx.caller))
    && (!cfg.spec.IsEnabledIn(EUCLID) ==>
          MaxCost(tx) <= U128_MAX && MaxCost(tx) + tx.value <= s.Balance(tx.caller))
  }

  lemma ChargedNothing(t: Journal, u: Journal, v: Journal, tx: Tx)
    requires var info := t.InfoOf(tx.caller);
      InfoWritten(u, t, tx.caller, if tx.isCall then info.(nonce := BumpedNonce(info.nonce)) else info)
    requires InfoWritten(v, u, tx.caller, u.InfoOf(tx.caller))
    ensures Charged(v, t, tx, 0)
  {
  }

  lemma BumpAndTouch(t: Journal, tx: Tx)
    requires WellFormed(t) && tx.caller in t.accounts
    ensures var u := if tx.isCall then BumpNonce(t, tx.caller) else t;
      Extends(Touch(u, tx.caller), t) && Charged(Touch(u, tx.caller), t, tx, 0)
  {
    hide InfoWritten, Extends, WellFormed, Charged;
    ExtendsReflexive(t);
    BumpNonceEffect(t, tx.caller);
    TouchEffect(t, tx.caller);
    hide BumpNonce;
    if tx.isCall {
      var u := BumpNonce(t, tx.caller);
      ExtendsKeepsContext(u, t);
      TouchEffect(u, tx.caller);
      hide Touch;
      ExtendsTransitive(t, u, Touch(u, tx.caller));
      ChargedNothing(t, u, Touch(u, tx.caller), tx);
    } else {
      TouchCharges(t, Touch(t, tx.caller), tx);
    }
  }

  lemma TouchCharges(t: Journal, v: Journal, tx: Tx)
    requires !tx.isCall && InfoWritten(v, t, tx.caller, t.InfoOf(tx.caller))
    ensures Charged(v, t, tx, 0)
  {
  }

  /** An L1 message is admitted without paying anything. */
  lemma AdmitL1MessageEffect(s: Journal, cfg: Cfg, tx: Tx)
    requires WellFormed(s) && !Unloadable(s, tx.caller)
    ensures var r := AdmitL1Message(s, cfg, tx);
      && Extends(r.journal, s)
      && (r.result.Ok? <==> AdmitsL1Message(s, cfg, tx))
      && (r.result.Ok? ==> Charged(r.journal, s, tx, 0))
      && (r.result.Err? ==> SameInfos(r.journal, s))
  {
    var t := LoadAccount(s, tx.caller).journal;
    hide WellFormed, Extends;
    LoadAccountEffect(s, tx.caller);
    hide LoadAccount;
    ExtendsKeepsContext(t, s);
    assert t.InfoOf(tx.caller) == s.InfoOf(tx.caller);
    if AdmitsL1Message(s, cfg, tx) {
      BumpAndTouch(t, tx);
      hide BumpNonce, Touch;
      ExtendsTransitive(s, t, AdmitL1Message(s, cfg, tx).journal);
      ChargedOnSameInfos(s, t, AdmitL1Message(s, cfg, tx).journal, tx, 0);
    }
  }

  /** For every class of transaction and in both regimes, an accepted transaction has paid exactly
      the deducted amount, and can still be discarded. */
  lemma DeductEffect(s: Journal, info: L1BlockInfo, cfg: Cfg, block: Block, tx: Tx)
    requires WellFormed(s) && !Unloadable(s, tx.caller)
    ensures var r := ValidateAndDeduct(s, info, cfg, block, tx);
      && Extends(r.journal, s)
      && (r.result.Ok? ==>
            && Charged(r.journal, s, tx, Deducted(info, cfg, block, tx))
            && (!tx.IsL1Msg() ==> MaxCost(tx) <= U128_MAX)
            && (tx.IsFeeCharged() ==> TxL1Cost(info, tx, cfg.spec).Ok?))
  {
    hide WellFormed, Extends, Charged, TxL1Cost, EffectiveCost, MaxCost;
    if tx.IsL1Msg() {
      AdmitL1MessageEffect(s, cfg, tx);
    } else if !tx.IsFeeCharged() {
      MainnetDeductEffect(s, cfg, block, tx);
    } else if cfg.spec.IsEnabledIn(TSUKI_V2) {
      DeductFromTsukiV2(s, info, cfg, block, tx);
    } else {
      DeductBeforeTsukiV2(s, info, cfg, block, tx);
    }
    hide AdmitL1Message, MainnetDeduct;
  }

  lemma ChargedSupply(t: Journal, s: Journal, tx: Tx, amount: nat)
    requires Charged(t, s, tx, amount)
    ensures SupplyOf(t) == SupplyOf(s) - amount
  {
    SupplyChangedAt(t, s, tx.caller);
  }

  // The state of the ledger.

  ghost predicate AllCold(s: Journal) {
    && (forall a: Address :: !s.IsAccountWarm(a))
    && (forall a: Address, k: U256 :: !s.IsSlotWarm(a, k))
  }

  /** The journal between call frames. */
  ghost predicate InTransaction(s: Journal) {
    WellFormed(s) && s.db.Healthy() && s.depth == 0 && UntouchedMatchesDb(s)
  }

  /** The journal between transactions: nothing to undo, and nothing warm. */
  ghost predicate Ledger(s: Journal) {
    InTransaction(s) && s.log == [] && AllCold(s)
  }

  /** Execution may do anything that keeps the journal well formed, the database and the total of all
      balances, touches what it changes, and hands back no more gas than it was given. It may rewrite
      oracle slots. */
  ghost predicate Faithful(exec: Execution, budget: nat) {
    forall s: Journal :: InTransaction(s) ==>
      && WellFormed(exec(s).journal)
      && exec(s).journal.db == s.db
      && UntouchedMatchesDb(exec(s).journal)
      && SupplyOf(exec(s).journal) == SupplyOf(s)
      && exec(s).remaining <= budget
  }

  ghost predicate FaithfulTo(exec: Execution, cfg: Cfg, tx: Tx, intrinsic: Intrinsic) {
    var gas := ValidateInitialTxGas(cfg, tx, intrinsic);
    gas.Ok? ==> Faithful(exec, tx.gasLimit - gas.value.initial)
  }

  lemma CommitEffect(s: Journal)
    requires WellFormed(s)
    ensures WellFormed(CommitTx(s)) && SameInfos(CommitTx(s), s) && SameValues(CommitTx(s), s)
    ensures AllCold(CommitTx(s))
    ensures UntouchedMatchesDb(s) ==> UntouchedMatchesDb(CommitTx(s))
  {
  }

  lemma CommittedLedger(s: Journal)
    requires WellFormed(s) && s.db.Healthy() && UntouchedMatchesDb(s)
    ensures Ledger(CommitTx(s)) && SupplyOf(CommitTx(s)) == SupplyOf(s)
    ensures SameInfos(CommitTx(s), s) && SameValues(CommitTx(s), s)
  {
    hide WellFormed, UntouchedMatchesDb, AllCold;
    CommitEffect(s);
    SameInfosSameSupply(CommitTx(s), s);
  }

  lemma SameInfosSameSupply(t: Journal, s: Journal)
    requires SameInfos(t, s)
    ensures SupplyOf(t) == SupplyOf(s)
  {
    SameBalancesSameSupply(t, s);
  }

  lemma UndoneView(u: Journal, s: Journal)
    requires SameView(u, s)
    ensures SameInfos(u, s) && SameValues(u, s)
  {
    forall a: Address ensures u.InfoOf(a) == s.InfoOf(a) {
      assert SameAt(u, s, a);
    }
    forall a: Address, k: U256 ensures u.Value(a, k) == s.Value(a, k) {
      assert SameAt(u, s, a) && SameSlotAt(u, s, a, k);
    }
  }

  /** Discarding a rejected transaction restores every account and every slot. */
  lemma DiscardRestores(t: Journal, s: Journal)
    requires Ledger(s) && Extends(t, s)
    ensures Ledger(DiscardTx(t)) && SupplyOf(DiscardTx(t)) == SupplyOf(s)
    ensures SameInfos(DiscardTx(t), s) && SameValues(DiscardTx(t), s)
  {
    var u := UndoTo(t, 0);
    UndoToWellFormed(t, 0);
    UndoneView(u, s);
    UntouchedThroughView(u, s);
    hide WellFormed, UntouchedMatchesDb, SameView, AllCold;
    CommittedLedger(u);
    SameInfosSameSupply(u, s);
    hide Ledger;
    forall a: Address ensures DiscardTx(t).InfoOf(a) == s.InfoOf(a) {
      assert DiscardTx(t).InfoOf(a) == u.InfoOf(a);
    }
    forall a: Address, k: U256 ensures DiscardTx(t).Value(a, k) == s.Value(a, k) {
      assert DiscardTx(t).Value(a, k) == u.Value(a, k);
    }
  }

  // Before execution.

  /** The fee that a transaction starting at `s` owes: fixed before it executes. */
  function FeeAt(s: Journal, info: L1BlockInfo, cfg: Cfg, tx: Tx): nat {
    match RefreshedInfo(s, info, cfg, tx)
    case None => 0
    case Some(current) => L1FeeOf(current, cfg, tx)
  }

  lemma LoadAccountsEffect(s: Journal, block: Block, tx: Tx)
    requires WellFormed(s)
    ensures var t := LoadAccounts(s, block, tx);
      && WellFormed(t) && SameInfos(t, s) && SameValues(t, s)
      && (UntouchedMatchesDb(s) ==> UntouchedMatchesDb(t))
  {
  }

  /** Pre-execution takes exactly gas at the effective price and the fee at the starting oracle, or
      nothing from an L1 message, and leaves every slot's value; a rejected transaction can be
      discarded. */
  lemma PreExecutionEffect(s: Journal, info: L1BlockInfo, cfg: Cfg, block: Block, tx: Tx)
    requires InTransaction(s)
    ensures var (r, current) := PreExecution(s, info, cfg, block, tx);
      && (r.result.Err? ==> Extends(r.journal, s))
      && (r.result.Ok? ==>
            && InTransaction(r.journal) && r.journal.db == s.db && SameValues(r.journal, s)
            && L1FeeOf(current, cfg, tx) == FeeAt(s, info, cfg, tx)
            && Charged(r.journal, s, tx, Deducted(current, cfg, block, tx))
            && (!tx.IsL1Msg() ==> MaxCost(tx) <= U128_MAX)
            && (tx.IsFeeCharged() ==> TxL1Cost(current, tx, cfg.spec).Ok?))
  {
    ExtendsReflexive(s);
    hide WellFormed, Extends, Charged, TxL1Cost, Deducted, MaxCost, ValidateAndDeduct, UntouchedMatchesDb,
      LoadAccounts, SameValues, KeepsStorage;
    var current := RefreshedInfo(s, info, cfg, tx);
    if current.Some? {
      var r := ValidateAndDeduct(s, current.value, cfg, block, tx);
      DeductEffect(s, current.value, cfg, block, tx);
      DeductionKeepsStorage(s, current.value, cfg, block, tx);
      KeepsUntouched(r.journal, s, {tx.caller});
      ExtendsKeepsContext(r.journal, s);
      ExtendsKeepsDepth(r.journal, s);
      LoadedAfterDeduction(s, r.journal, block, tx, Deducted(current.value, cfg, block, tx));
    }
    hide RefreshedInfo;
  }

  /** The access list warms an account exactly if some entry names it, and a slot exactly if some entry
      of its account lists it. */
  lemma {:induction false} ListedExactly(list: seq<(Address, seq<U256>)>, a: Address)
    ensures a in Listed(list) <==> exists i :: 0 <= i < |list| && list[i].0 == a
    ensures a in Listed(list) ==>
              forall k: U256 ::
                k in Listed(list)[a] <==> exists i :: 0 <= i < |list| && list[i].0 == a && k in list[i].1
  {
    if list == [] {
    } else {
      var last := |list| - 1;
      var before := list[..last];
      ListedExactly(before, a);
      forall k: U256 | a in Listed(list)
        ensures k in Listed(list)[a] <==> exists i :: 0 <= i < |list| && list[i].0 == a && k in list[i].1
      {
        assert k in Listed(list)[a]
           <==> (a in Listed(before) && k in Listed(before)[a]) || (list[last].0 == a && k in list[last].1);
        if a in Listed(before) && k in Listed(before)[a] {
          var i :| 0 <= i < |before| && before[i].0 == a && k in before[i].1;
          assert list[i].0 == a && k in list[i].1;
        }
        if i :| 0 <= i < |list| && list[i].0 == a && k in list[i].1 {
          assert i == last || (before[i].0 == a && k in before[i].1);
        }
      }
      if a in Listed(before) {
        var i :| 0 <= i < |before| && before[i].0 == a;
        assert list[i].0 == a;
      }
      if i :| 0 <= i < |list| && list[i].0 == a {
        assert i == last || before[i].0 == a;
      }
    }
  }

  /** Whatever earlier transactions warmed, the first frame starts with exactly the listed slots warm,
      and exactly the caller, the beneficiary and the listed accounts. */
  lemma StartsWithListedWarm(s: Journal, info: L1BlockInfo, cfg: Cfg, block: Block, tx: Tx)
    requires Ledger(s)
    ensures var r := PreExecution(s, info, cfg, block, tx).0;
      var listed := if tx.txType == Legacy then map[] else Listed(tx.accessList);
      r.result.Ok? ==>
        && (forall a: Address :: r.journal.IsAccountWarm(a)
              <==> a == tx.caller || a == block.beneficiary || a in listed)
        && (forall a: Address, k: U256 :: r.journal.IsSlotWarm(a, k) <==> a in listed && k in listed[a])
  {
    var current := RefreshedInfo(s, info, cfg, tx);
    if current.Some? {
      var r := ValidateAndDeduct(s, current.value, cfg, block, tx);
      DeductionKeepsStorage(s, current.value, cfg, block, tx);
      hide ValidateAndDeduct, Listed, RefreshedInfo, InTransaction;
      if r.result.Ok? {
        WarmAfterLoad(s, r.journal, block, tx);
      }
      hide KeepsAllButCaller, AllCold, LoadAccounts;
    }
    hide RefreshedInfo;
  }

  lemma WarmAfterLoad(s: Journal, d: Journal, block: Block, tx: Tx)
    requires AllCold(s) && KeepsStorage(d, s, {tx.caller}) && d.IsAccountWarm(tx.caller)
    ensures var t := LoadAccounts(d, block, tx);
      var listed := if tx.txType == Legacy then map[] else Listed(tx.accessList);
      && (forall a: Address :: t.IsAccountWarm(a) <==> a == tx.caller || a == block.beneficiary || a in listed)
      && (forall a: Address, k: U256 :: t.IsSlotWarm(a, k) <==> a in listed && k in listed[a])
  {
    hide Listed;
    var t := LoadAccounts(d, block, tx);
    var listed := if tx.txType == Legacy then map[] else Listed(tx.accessList);
    forall a: Address ensures t.IsAccountWarm(a) <==> a == tx.caller || a == block.beneficiary || a in listed {
      assert !s.IsAccountWarm(a);
    }
    forall a: Address, k: U256 ensures t.IsSlotWarm(a, k) <==> a in listed && k in listed[a] {
      assert !s.IsSlotWarm(a, k) && SameSlotAt(d, s, a, k);
    }
  }

  lemma ExtendsKeepsDepth(t: Journal, s: Journal)
    requires Extends(t, s)
    ensures t.depth == s.depth
  {
  }

  lemma LoadedAfterDeduction(s: Journal, d: Journal, block: Block, tx: Tx, amount: nat)
    requires WellFormed(d) && d.db == s.db && UntouchedMatchesDb(d) && KeepsStorage(d, s, {tx.caller})
    ensures var t := LoadAccounts(d, block, tx);
      && WellFormed(t) && UntouchedMatchesDb(t) && t.db == s.db && t.depth == d.depth && SameValues(t, s)
      && (Charged(d, s, tx, amount) ==> Charged(t, s, tx, amount))
  {
    var t := LoadAccounts(d, block, tx);
    LoadAccountsEffect(d, block, tx);
    forall a: Address, k: U256 ensures t.Value(a, k) == s.Value(a, k) {
      assert t.Value(a, k) == d.Value(a, k) && SameSlotAt(d, s, a, k);
    }
    assert t.InfoOf(tx.caller) == d.InfoOf(tx.caller);
    hide WellFormed, UntouchedMatchesDb, KeepsStorage, SameValues;
    forall a: Address | a != tx.caller && Charged(d, s, tx, amount) ensures t.InfoOf(a) == s.InfoOf(a) {
      assert t.InfoOf(a) == d.InfoOf(a);
    }
  }

  lemma FinalGasSplitsLimit(tx: Tx, outcome: Outcome, gas: InitialGas)
    requires !tx.IsL1Msg() && gas.initial <= tx.gasLimit && gas.floor <= tx.gasLimit
    requires outcome.remaining <= tx.gasLimit - gas.initial
    ensures SplitsLimit(FinalGas(tx, outcome, gas), tx) && FinalGas(tx, outcome, gas).Used() <= tx.gasLimit
    ensures ReceiptOf(tx, outcome, gas).gasUsed == FinalGas(tx, outcome, gas).Used()
  {
    SettlementBounds(tx, gas, outcome.status, outcome.remaining, outcome.refunded, outcome.authRefund);
  }

  // The gas that a limit must cover.

  /** Positions of the listed storage slots: an entry, and a slot of that entry. */
  function ListedSlots(list: seq<(Address, seq<U256>)>): set<(nat, nat)> {
    set i: nat, j: nat | i < |list| && j < |list[i].1| :: (i, j)
  }

  lemma {:induction false} RowOfPairs(i: nat, n: nat)
    ensures |set j: nat | j < n :: (i, j)| == n
  {
    if n == 0 {
    } else {
      RowOfPairs(i, n - 1);
      assert (set j: nat | j < n :: (i, j)) == (set j: nat | j < n - 1 :: (i, j)) + {(i, n - 1)};
    }
  }

  /** Every listed slot is counted once, also in entries that repeat an address. */
  lemma {:induction false} CountSlotsCounts(list: seq<(Address, seq<U256>)>)
    ensures CountSlots(list) == |ListedSlots(list)|
  {
    if list == [] {
      assert ListedSlots(list) == {};
    } else {
      var last := |list| - 1;
      CountSlotsCounts(list[..last]);
      var row := set j: nat | j < |list[last].1| :: (last, j);
      RowOfPairs(last, |list[last].1|);
      assert ListedSlots(list) == ListedSlots(list[..last]) + row;
      assert ListedSlots(list[..last]) !! row;
    }
  }

  /** The schedule's price: of the listed accounts and slots, and of none for a legacy transaction. The
      floor of EIP-7623 binds from Feynman on, unless it is disabled. */
  function Required(cfg: Cfg, tx: Tx, intrinsic: Intrinsic): InitialGas {
    var raw :=
      if tx.txType == Legacy then intrinsic(tx, 0, 0)
      else intrinsic(tx, |tx.accessList|, |ListedSlots(tx.accessList)|);
    if cfg.spec.IsEnabledIn(FEYNMAN) && !cfg.eip7623Disabled then raw else InitialGas(raw.initial, 0)
  }

  /** Why the limit is too small, the intrinsic gas first. */
  function GasReason(cfg: Cfg, tx: Tx, intrinsic: Intrinsic): Option<TxError> {
    var required := Required(cfg, tx, intrinsic);
    if tx.gasLimit < required.initial then Some(CallGasCostMoreThanGasLimit(tx.gasLimit, required.initial))
    else if tx.gasLimit < required.floor then Some(GasFloorMoreThanGasLimit(required.floor, tx.gasLimit))
    else None
  }

  /** Validation passes exactly when the limit covers the intrinsic gas and the floor that binds, for
      L1 messages as for others, and otherwise names what it does not cover. */
  lemma ValidatedGas(cfg: Cfg, tx: Tx, intrinsic: Intrinsic)
    ensures var r, required := ValidateInitialTxGas(cfg, tx, intrinsic), Required(cfg, tx, intrinsic);
      && r == (match GasReason(cfg, tx, intrinsic) case Some(error) => Err(error) case None => Ok(required))
      && (r.Ok? <==> Max(required.initial, required.floor) <= tx.gasLimit)
      && (r.Ok? ==> r.value.initial <= tx.gasLimit && r.value.floor <= tx.gasLimit)
  {
    CountSlotsCounts(tx.accessList);
    hide ListedSlots, CountSlots;
  }

  // Whole transactions.

  /** The caller has paid gas at the effective price for the whole limit, and the L1 fee. */
  function PrepaidOf(block: Block, tx: Tx, fee: nat): nat {
    tx.gasLimit * PricePaid(block, tx) + fee
  }

  /** Both of the settlement's credits fit. */
  predicate SettlementFits(e: Journal, block: Block, tx: Tx, used: nat, fee: nat) {
    tx.IsL1Msg()
    || BothFit(e, tx.caller, BackOf(block, tx, used), block.beneficiary, EarnedOf(block, tx, used, fee))
  }

  /** An executed transaction: the slots that execution left, and its balances with the caller's unused
      gas and the beneficiary's earnings for exactly the gas that the receipt reports. The L1 fee taken
      and the L1 fee earned are the same amount, fixed by the oracle before execution. */
  ghost predicate Executes(t: Journal, receipt: Receipt, s: Journal, deducted: Journal, fee: nat, block: Block,
                           tx: Tx, exec: Execution) {
    var outcome := exec(deducted);
    && receipt.status == outcome.status
    && SameValues(t, outcome.journal)
    && if tx.IsL1Msg() then
         Charged(deducted, s, tx, 0) && SameInfos(t, outcome.journal)
       else
         && receipt.gasUsed <= tx.gasLimit
         && Charged(deducted, s, tx, PrepaidOf(block, tx, fee))
         && PaidOut(t, outcome.journal, tx.caller, BackOf(block, tx, receipt.gasUsed),
                    block.beneficiary, EarnedOf(block, tx, receipt.gasUsed, fee))
  }

  lemma FaithfulAt(exec: Execution, budget: nat, s: Journal)
    requires Faithful(exec, budget) && InTransaction(s)
    ensures WellFormed(exec(s).journal) && exec(s).journal.db == s.db && s.db.Healthy()
    ensures UntouchedMatchesDb(exec(s).journal)
    ensures SupplyOf(exec(s).journal) == SupplyOf(s) && exec(s).remaining <= budget
  {
  }

  lemma PaidOutAcrossCommit(u: Journal, t: Journal, s: Journal, caller: Address, back: nat,
                            beneficiary: Address, reward: nat)
    requires PaidOut(t, s, caller, back, beneficiary, reward) && SameInfos(u, t)
    ensures PaidOut(u, s, caller, back, beneficiary, reward)
  {
  }

  lemma SameValuesThrough(u: Journal, t: Journal, s: Journal, paid: set<Address>)
    requires SameValues(u, t) && KeepsStorage(t, s, paid)
    ensures SameValues(u, s)
  {
    forall a: Address, k: U256 ensures u.Value(a, k) == s.Value(a, k) {
      assert u.Value(a, k) == t.Value(a, k) && SameSlotAt(t, s, a, k);
    }
  }

  lemma ExecutedL1Message(s: Journal, d: Journal, current: L1BlockInfo, cfg: Cfg, block: Block, tx: Tx,
                          gas: InitialGas, exec: Execution)
    requires InTransaction(d) && Charged(d, s, tx, 0) && tx.IsL1Msg()
    requires gas.initial <= tx.gasLimit && Faithful(exec, tx.gasLimit - gas.initial)
    ensures var r := ExecuteAndSettle(d, current, cfg, block, tx, gas, exec);
      && r.result == Ok(ReceiptOf(tx, exec(d), gas))
      && Ledger(r.journal) && SupplyOf(r.journal) == SupplyOf(s)
      && Executes(r.journal, r.result.value, s, d, 0, block, tx, exec)
  {
    hide *;
    ChargedSupply(d, s, tx, 0);
    FaithfulAt(exec, tx.gasLimit - gas.initial, d);
    CommittedLedger(exec(d).journal);
    ShapeOfL1Message(d, current, cfg, block, tx, gas, exec);
    L1MessageExecutes(CommitTx(exec(d).journal), ReceiptOf(tx, exec(d), gas), s, d, block, tx, exec);
  }

  lemma ShapeOfL1Message(d: Journal, current: L1BlockInfo, cfg: Cfg, block: Block, tx: Tx, gas: InitialGas,
                         exec: Execution)
    requires tx.IsL1Msg()
    ensures ExecuteAndSettle(d, current, cfg, block, tx, gas, exec)
         == Transacted(CommitTx(exec(d).journal), current, Ok(ReceiptOf(tx, exec(d), gas)))
    ensures ReceiptOf(tx, exec(d), gas).status == exec(d).status
  {
    hide CommitTx, Reported, FinalGas;
  }

  lemma L1MessageExecutes(t: Journal, receipt: Receipt, s: Journal, d: Journal, block: Block, tx: Tx, exec: Execution)
    requires tx.IsL1Msg() && receipt.status == exec(d).status && Charged(d, s, tx, 0)
    requires SameInfos(t, exec(d).journal) && SameValues(t, exec(d).journal)
    ensures Executes(t, receipt, s, d, 0, block, tx, exec)
  {
  }

  lemma FinalGasOfExecution(tx: Tx, exec: Execution, d: Journal, gas: InitialGas)
    requires !tx.IsL1Msg() && gas.initial <= tx.gasLimit && gas.floor <= tx.gasLimit
    requires InTransaction(d) && Faithful(exec, tx.gasLimit - gas.initial)
    ensures var outcome := exec(d);
      && SplitsLimit(FinalGas(tx, outcome, gas), tx)
      && FinalGas(tx, outcome, gas).Used() <= tx.gasLimit
      && ReceiptOf(tx, outcome, gas).gasUsed == FinalGas(tx, outcome, gas).Used()
      && ReceiptOf(tx, outcome, gas).status == outcome.status
  {
    hide SplitsLimit, FinalGas, InTransaction, Reported;
    FaithfulAt(exec, tx.gasLimit - gas.initial, d);
    FinalGasSplitsLimit(tx, exec(d), gas);
  }

  lemma SettledTransaction(s: Journal, d: Journal, current: L1BlockInfo, cfg: Cfg, block: Block, tx: Tx,
                           gas: InitialGas, exec: Execution)
    requires InTransaction(d) && !tx.IsL1Msg()
    requires Charged(d, s, tx, Deducted(current, cfg, block, tx))
    requires gas.initial <= tx.gasLimit && gas.floor <= tx.gasLimit
    requires Faithful(exec, tx.gasLimit - gas.initial)
    requires MaxCost(tx) <= U128_MAX
    requires tx.IsFeeCharged() ==> TxL1Cost(current, tx, cfg.spec).Ok?
    ensures var outcome := exec(d);
      var final := FinalGas(tx, outcome, gas);
      var settled := PostExecution(outcome.journal, current, cfg, block, tx, final);
      var back, reward := BackOf(block, tx, final.Used()), EarnedOf(block, tx, final.Used(), L1FeeOf(current, cfg, tx));
      && settled.result == Ok(())
      && WellFormed(settled.journal) && settled.journal.db.Healthy() && UntouchedMatchesDb(settled.journal)
      && KeepsStorage(settled.journal, outcome.journal, {tx.caller, block.beneficiary})
      && PaidOut(settled.journal, outcome.journal, tx.caller, back, block.beneficiary, reward)
      && (SupplyOf(settled.journal) == SupplyOf(s)
          <==> BothFit(outcome.journal, tx.caller, back, block.beneficiary, reward))
      && SupplyOf(settled.journal) <= SupplyOf(s)
  {
    hide *;
    ChargedSupply(d, s, tx, Deducted(current, cfg, block, tx));
    FaithfulAt(exec, tx.gasLimit - gas.initial, d);
    var outcome := exec(d);
    var e, final := outcome.journal, FinalGas(tx, outcome, gas);
    FinalGasOfExecution(tx, exec, d, gas);
    HealthyLoads(e);
    PostExecutionEffect(e, current, cfg, block, tx, final);
    PostExecutionKeepsStorage(e, current, cfg, block, tx, final);
    var settled := PostExecution(e, current, cfg, block, tx, final).journal;
    KeepsUntouched(settled, e, {tx.caller, block.beneficiary});
    ExtendsKeepsContext(settled, e);
    ContextKeepsDb(settled, e);
  }

  lemma HealthyLoads(s: Journal)
    requires s.db.Healthy()
    ensures forall a: Address :: !Unloadable(s, a)
  {
  }

  lemma ContextKeepsDb(t: Journal, s: Journal)
    requires SameContext(t, s)
    ensures t.db == s.db
  {
  }

  lemma ShapeOfExecution(d: Journal, current: L1BlockInfo, cfg: Cfg, block: Block, tx: Tx, gas: InitialGas,
                         exec: Execution)
    ensures var settled := PostExecution(exec(d).journal, current, cfg, block, tx, FinalGas(tx, exec(d), gas));
      settled.result == Ok(()) ==>
        ExecuteAndSettle(d, current, cfg, block, tx, gas, exec)
        == Transacted(CommitTx(settled.journal), current, Ok(ReceiptOf(tx, exec(d), gas)))
  {
  }

  lemma ExecutedTransaction(s: Journal, d: Journal, current: L1BlockInfo, cfg: Cfg, block: Block, tx: Tx,
                            gas: InitialGas, exec: Execution)
    requires InTransaction(d) && !tx.IsL1Msg()
    requires Charged(d, s, tx, Deducted(current, cfg, block, tx))
    requires gas.initial <= tx.gasLimit && gas.floor <= tx.gasLimit
    requires Faithful(exec, tx.gasLimit - gas.initial)
    requires MaxCost(tx) <= U128_MAX
    requires tx.IsFeeCharged() ==> TxL1Cost(current, tx, cfg.spec).Ok?
    ensures var r, fee := ExecuteAndSettle(d, current, cfg, block, tx, gas, exec), L1FeeOf(current, cfg, tx);
      && r.result == Ok(ReceiptOf(tx, exec(d), gas))
      && Ledger(r.journal)
      && Executes(r.journal, r.result.value, s, d, fee, block, tx, exec)
      && (SupplyOf(r.journal) == SupplyOf(s)
          <==> SettlementFits(exec(d).journal, block, tx, r.result.value.gasUsed, fee))
      && SupplyOf(r.journal) <= SupplyOf(s)
  {
    hide *;
    SettledTransaction(s, d, current, cfg, block, tx, gas, exec);
    var outcome := exec(d);
    var final := FinalGas(tx, outcome, gas);
    var settled := PostExecution(outcome.journal, current, cfg, block, tx, final).journal;
    CommittedLedger(settled);
    FinalGasOfExecution(tx, exec, d, gas);
    ShapeOfExecution(d, current, cfg, block, tx, gas, exec);
    SameValuesThrough(CommitTx(settled), settled, outcome.journal, {tx.caller, block.beneficiary});
    PaidOutAcrossCommit(CommitTx(settled), settled, outcome.journal, tx.caller, BackOf(block, tx, final.Used()),
                        block.beneficiary, EarnedOf(block, tx, final.Used(), L1FeeOf(current, cfg, tx)));
    ExecutesFrom(CommitTx(settled), ReceiptOf(tx, outcome, gas), s, d, current, cfg, block, tx, exec);
  }

  lemma ExecutesFrom(t: Journal, receipt: Receipt, s: Journal, d: Journal, current: L1BlockInfo, cfg: Cfg,
                     block: Block, tx: Tx, exec: Execution)
    requires !tx.IsL1Msg() && receipt.status == exec(d).status && receipt.gasUsed <= tx.gasLimit
    requires SameValues(t, exec(d).journal)
    requires Charged(d, s, tx, Deducted(current, cfg, block, tx))
    requires PaidOut(t, exec(d).journal, tx.caller, BackOf(block, tx, receipt.gasUsed),
                     block.beneficiary, EarnedOf(block, tx, receipt.gasUsed, L1FeeOf(current, cfg, tx)))
    ensures Executes(t, receipt, s, d, L1FeeOf(current, cfg, tx), block, tx, exec)
    ensures SettlementFits(exec(d).journal, block, tx, receipt.gasUsed, L1FeeOf(current, cfg, tx))
       <==> BothFit(exec(d).journal, tx.caller, BackOf(block, tx, receipt.gasUsed),
                    block.beneficiary, EarnedOf(block, tx, receipt.gasUsed, L1FeeOf(current, cfg, tx)))
  {
  }

  /** Everything that a transaction which is not rejected pays out fits. */
  predicate TransactionFits(s: Journal, info: L1BlockInfo, cfg: Cfg, block: Block, tx: Tx, intrinsic: Intrinsic,
                            exec: Execution)
  {
    var r := Transact(s, info, cfg, block, tx, intrinsic, exec);
    r.result.Ok? ==>
      SettlementFits(exec(PreExecution(s, info, cfg, block, tx).0.journal).journal, block, tx,
                     r.result.value.gasUsed, FeeAt(s, info, cfg, tx))
  }

  /** One transaction of any class, in either regime, accepted or not, keeps the ledger: a rejected
      transaction leaves no account and no slot changed; an executed one does exactly what `Executes`
      says; and the total of all balances is unchanged exactly if both credits fit, and never grows. */
  lemma TransactConserves(s: Journal, info: L1BlockInfo, cfg: Cfg, block: Block, tx: Tx, intrinsic: Intrinsic,
                          exec: Execution)
    requires Ledger(s) && FaithfulTo(exec, cfg, tx, intrinsic)
    ensures var r := Transact(s, info, cfg, block, tx, intrinsic, exec);
      && Ledger(r.journal)
      && (match r.result
          case Err(_) => SameInfos(r.journal, s) && SameValues(r.journal, s)
          case Ok(receipt) =>
            Executes(r.journal, receipt, s, PreExecution(s, info, cfg, block, tx).0.journal,
                     FeeAt(s, info, cfg, tx), block, tx, exec))
      && (SupplyOf(r.journal) == SupplyOf(s) <==> TransactionFits(s, info, cfg, block, tx, intrinsic, exec))
      && SupplyOf(r.journal) <= SupplyOf(s)
  {
    hide *;
    var (deducted, current) := PreExecution(s, info, cfg, block, tx);
    var validated := ValidateInitialTxGas(cfg, tx, intrinsic);
    LedgerBasics(s);
    DiscardRestores(s, s);
    PreExecutionEffect(s, info, cfg, block, tx);
    ShapeOfTransaction(s, info, cfg, block, tx, intrinsic, exec);
    MeaningOfFits(s, info, cfg, block, tx, intrinsic, exec);
    if validated.Ok? && deducted.result.Ok? {
      ValidatedGas(cfg, tx, intrinsic);
      FaithfulWhenValid(exec, cfg, tx, intrinsic);
      if tx.IsL1Msg() {
        L1MessageOwesNothing(s, info, cfg, block, tx, current);
        ExecutedL1Message(s, deducted.journal, current, cfg, block, tx, validated.value, exec);
      } else {
        ExecutedTransaction(s, deducted.journal, current, cfg, block, tx, validated.value, exec);
      }
    } else if validated.Ok? {
      DiscardRestores(deducted.journal, s);
    }
  }

  lemma MeaningOfFits(s: Journal, info: L1BlockInfo, cfg: Cfg, block: Block, tx: Tx, intrinsic: Intrinsic,
                      exec: Execution)
    ensures var r := Transact(s, info, cfg, block, tx, intrinsic, exec);
      TransactionFits(s, info, cfg, block, tx, intrinsic, exec)
      <==> (r.result.Ok? && !tx.IsL1Msg() ==>
              SettlementFits(exec(PreExecution(s, info, cfg, block, tx).0.journal).journal, block, tx,
                             r.result.value.gasUsed, FeeAt(s, info, cfg, tx)))
  {
    hide Transact, PreExecution, FeeAt;
  }

  lemma ShapeOfTransaction(s: Journal, info: L1BlockInfo, cfg: Cfg, block: Block, tx: Tx, intrinsic: Intrinsic,
                           exec: Execution)
    ensures var gas := ValidateInitialTxGas(cfg, tx, intrinsic);
      var pre := PreExecution(s, info, cfg, block, tx);
      Transact(s, info, cfg, block, tx, intrinsic, exec)
      == if gas.Err? then Transacted(DiscardTx(s), info, Err(gas.error))
         else if pre.0.result.Err? then Transacted(DiscardTx(pre.0.journal), pre.1, Err(pre.0.result.error))
         else ExecuteAndSettle(pre.0.journal, pre.1, cfg, block, tx, gas.value, exec)
  {
    hide PreExecution, ExecuteAndSettle, ValidateInitialTxGas, DiscardTx;
  }

  lemma FaithfulWhenValid(exec: Execution, cfg: Cfg, tx: Tx, intrinsic: Intrinsic)
    requires FaithfulTo(exec, cfg, tx, intrinsic) && ValidateInitialTxGas(cfg, tx, intrinsic).Ok?
    ensures var gas := ValidateInitialTxGas(cfg, tx, intrinsic).value;
      gas.initial <= tx.gasLimit && Faithful(exec, tx.gasLimit - gas.initial)
  {
  }

  lemma LedgerBasics(s: Journal)
    requires Ledger(s)
    ensures InTransaction(s) && Extends(s, s)
  {
  }

  lemma L1MessageOwesNothing(s: Journal, info: L1BlockInfo, cfg: Cfg, block: Block, tx: Tx, current: L1BlockInfo)
    requires tx.IsL1Msg()
    ensures FeeAt(s, info, cfg, tx) == 0 && Deducted(current, cfg, block, tx) == 0
  {
  }

}
