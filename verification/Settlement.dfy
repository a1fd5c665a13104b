/** Settlement: what the caller gets back, what the beneficiary earns, and when nothing is lost. */
module SettlementLaws {
  import opened Words
  import opened Specs
  import opened JournalState
  import opened JournalLaws
  import opened JournalEffects
  import opened Supply
  import opened Transactions
  import opened GasSettlement
  import opened L1Block
  import opened FeeLifecycle
  import opened FeeLaws

  function L1FeeOf(info: L1BlockInfo, cfg: Cfg, tx: Tx): nat {
    if tx.IsFeeCharged() && TxL1Cost(info, tx, cfg.spec).Ok? then TxL1Cost(info, tx, cfg.spec).value else 0
  }

  /** What deduction takes: nothing from an L1 message, only gas from a system transaction. */
  function Deducted(info: L1BlockInfo, cfg: Cfg, block: Block, tx: Tx): nat {
    if tx.IsL1Msg() then 0 else EffectiveCost(block, tx) + L1FeeOf(info, cfg, tx)
  }

  // One credit.

  /** A balance after a credit; an amount that does not fit is dropped. */
  function Topped(balance: U256, amount: nat): U256 {
    if balance + amount <= U256_MAX then balance + amount else balance
  }

  ghost predicate Credited(t: Journal, s: Journal, a: Address, amount: nat) {
    forall b: Address ::
      t.InfoOf(b) == if b == a then s.InfoOf(b).(balance := Topped(s.Balance(b), amount)) else s.InfoOf(b)
  }

  lemma CreditFits(s: Journal, a: Address, amount: U256)
    requires WellFormed(s) && !Unloadable(s, a) && s.Balance(a) + amount <= U256_MAX
    ensures var r := Credit(s, a, amount);
      r.result == Ok(()) && Extends(r.journal, s) && Credited(r.journal, s, a, amount)
  {
    hide WellFormed, Extends;
    var t := LoadAccount(s, a).journal;
    LoadAccountEffect(s, a);
    hide LoadAccount;
    ExtendsKeepsContext(t, s);
    assert t.InfoOf(a) == s.InfoOf(a);
    var u := SetBalance(t, a, s.Balance(a) + amount);
    assert Credit(s, a, amount) == Step(u, Ok(()));
    SetBalanceEffect(t, a, s.Balance(a) + amount);
    hide SetBalance, Credit;
    ExtendsTransitive(s, t, u);
    forall b: Address ensures b == a || u.InfoOf(b) == s.InfoOf(b) {
      assert t.InfoOf(b) == s.InfoOf(b);
    }
  }

  lemma CreditOverflows(s: Journal, a: Address, amount: U256)
    requires WellFormed(s) && !Unloadable(s, a) && s.Balance(a) + amount > U256_MAX
    ensures var r := Credit(s, a, amount);
      r.result == Ok(()) && Extends(r.journal, s) && Credited(r.journal, s, a, amount)
  {
    hide WellFormed, Extends;
    var t := LoadAccount(s, a).journal;
    LoadAccountEffect(s, a);
    hide LoadAccount;
    assert t.InfoOf(a) == s.InfoOf(a);
    forall b: Address ensures t.InfoOf(b) == s.InfoOf(b) {
    }
  }

  lemma CreditKeepsLoadable(s: Journal, a: Address, amount: U256)
    ensures var r := Credit(s, a, amount);
      && r.result == (if Unloadable(s, a) then Err(DatabaseFailure) else Ok(()))
      && (forall b: Address :: Unloadable(r.journal, b) == (Unloadable(s, b) && (b != a || r.result.Err?)))
  {
    LoadKeepsReadability(s, a);
  }

  /** The amount is added if it fits, and nothing else about any account changes. */
  lemma CreditEffect(s: Journal, a: Address, amount: U256)
    requires WellFormed(s) && !Unloadable(s, a)
    ensures var r := Credit(s, a, amount);
      && r.result == Ok(()) && Extends(r.journal, s) && Credited(r.journal, s, a, amount)
      && forall b: Address :: Unloadable(r.journal, b) == (Unloadable(s, b) && b != a)
  {
    CreditKeepsLoadable(s, a, amount);
    hide WellFormed, Extends, Credit, Credited, Unloadable;
    if s.Balance(a) + amount <= U256_MAX {
      CreditFits(s, a, amount);
    } else {
      CreditOverflows(s, a, amount);
    }
  }

  /** A credit adds up exactly when the sum fits in a word; otherwise the amount vanishes. */
  lemma CreditConservesExactly(s: Journal, a: Address, amount: U256)
    requires WellFormed(s) && !Unloadable(s, a)
    ensures SupplyOf(Credit(s, a, amount).journal) == SupplyOf(s) + amount <==> s.Balance(a) + amount <= U256_MAX
    ensures s.Balance(a) + amount > U256_MAX ==> SupplyOf(Credit(s, a, amount).journal) == SupplyOf(s)
  {
    CreditEffect(s, a, amount);
    hide WellFormed, Extends, Credit;
    SupplyChangedAt(Credit(s, a, amount).journal, s, a);
  }

  // Two credits.

  /** The balance of `a` after the caller's credit and then the beneficiary's, which may be the same
      account's. */
  function PaidBalance(e: Journal, caller: Address, back: nat, beneficiary: Address, reward: nat, a: Address): U256 {
    var balance := if a == caller then Topped(e.Balance(a), back) else e.Balance(a);
    if a == beneficiary then Topped(balance, reward) else balance
  }

  ghost predicate PaidOut(t: Journal, e: Journal, caller: Address, back: nat, beneficiary: Address, reward: nat) {
    forall a: Address ::
      t.InfoOf(a) == e.InfoOf(a).(balance := PaidBalance(e, caller, back, beneficiary, reward, a))
  }

  predicate BothFit(e: Journal, caller: Address, back: nat, beneficiary: Address, reward: nat) {
    && e.Balance(caller) + back <= U256_MAX
    && e.Balance(beneficiary) + (if beneficiary == caller then back else 0) + reward <= U256_MAX
  }

  lemma PaidOutBalances(t: Journal, e: Journal, caller: Address, back: nat, beneficiary: Address, reward: nat)
    requires PaidOut(t, e, caller, back, beneficiary, reward)
    ensures forall a: Address :: t.Balance(a) == PaidBalance(e, caller, back, beneficiary, reward, a)
  {
    hide PaidBalance;
  }

  lemma PaidOutSupply(t: Journal, e: Journal, caller: Address, back: nat, beneficiary: Address, reward: nat)
    requires PaidOut(t, e, caller, back, beneficiary, reward)
    ensures var balance := e.Balance(caller);
      var other := if beneficiary == caller then Topped(balance, back) else e.Balance(beneficiary);
      SupplyOf(t) == SupplyOf(e) + (Topped(balance, back) - balance) + (Topped(other, reward) - other)
  {
    PaidOutBalances(t, e, caller, back, beneficiary, reward);
    hide Topped, PaidOut;
    var f: Balances := (a: Address) => if a == caller then Topped(e.Balance(a), back) else e.Balance(a);
    TotalChangedAt(BalancesOf(e), f, caller, ADDRESS_COUNT);
    TotalChangedAt(f, BalancesOf(t), beneficiary, ADDRESS_COUNT);
  }

  /** Paying out adds both amounts to the total exactly when both fit; it never adds more. */
  lemma PaidOutConservesExactly(t: Journal, e: Journal, caller: Address, back: nat, beneficiary: Address, reward: nat)
    requires PaidOut(t, e, caller, back, beneficiary, reward)
    ensures SupplyOf(t) == SupplyOf(e) + back + reward <==> BothFit(e, caller, back, beneficiary, reward)
    ensures SupplyOf(t) <= SupplyOf(e) + back + reward
  {
    PaidOutSupply(t, e, caller, back, beneficiary, reward);
    hide SupplyOf, PaidOut;
  }

  /** Both amounts fit if the whole ledger does. */
  lemma BoundedSupplyFits(e: Journal, caller: Address, back: nat, beneficiary: Address, reward: nat)
    requires SupplyOf(e) + back + reward <= U256_MAX
    ensures BothFit(e, caller, back, beneficiary, reward)
  {
    BalanceWithinSupply(e, caller);
    BalanceWithinSupply(e, beneficiary);
  }

  lemma TwoCredits(s: Journal, caller: Address, back: U256, beneficiary: Address, reward: U256)
    requires WellFormed(s) && !Unloadable(s, caller) && !Unloadable(s, beneficiary)
    ensures var r := Credit(s, caller, back);
      && r.result == Ok(())
      && var q := Credit(r.journal, beneficiary, reward);
      && q.result == Ok(()) && Extends(q.journal, s)
      && PaidOut(q.journal, s, caller, back, beneficiary, reward)
  {
    hide WellFormed, Extends, Credit;
    var t := Credit(s, caller, back).journal;
    CreditEffect(s, caller, back);
    ExtendsKeepsContext(t, s);
    CreditEffect(t, beneficiary, reward);
    ExtendsTransitive(s, t, Credit(t, beneficiary, reward).journal);
  }

  // The amounts.

  /** Gas that splits the limit, as settlement leaves it. */
  ghost predicate SplitsLimit(gas: Gas, tx: Tx) {
    && gas.limit == tx.gasLimit && 0 <= gas.refunded
    && gas.Used() + gas.remaining + gas.refunded == tx.gasLimit
  }

  /** What the caller gets back for the gas not used, over unbounded integers. */
  function BackOf(block: Block, tx: Tx, used: nat): nat {
    PricePaid(block, tx) * if used <= tx.gasLimit then tx.gasLimit - used else 0
  }

  /** What the beneficiary earns for the gas used, over unbounded integers. */
  function EarnedOf(block: Block, tx: Tx, used: nat, fee: nat): nat {
    PricePaid(block, tx) * used + fee
  }

  /** The 128-bit product of the reimbursement never saturates. */
  lemma ReimbursementIsExact(block: Block, tx: Tx, gas: Gas)
    requires SplitsLimit(gas, tx) && MaxCost(tx) <= U128_MAX
    ensures Reimbursement(block, tx, gas) == BackOf(block, tx, gas.Used())
  {
    var unused := tx.gasLimit - gas.Used();
    MulMonotone(unused, tx.gasLimit, PricePaid(block, tx));
    EffectiveCostWithinMax(block, tx);
    EffectiveIsPaid(block, tx);
    AsU64OfWord(gas.refunded);
    AsU64OfWord(unused);
    hide PricePaid, Tx.EffectiveGasPrice, Gas.Used, AsU64;
    Commutes(unused, PricePaid(block, tx));
  }

  lemma WideProduct(price: U128, used: U64)
    ensures price * used <= U128_MAX * U64_MAX
  {
    MulMonotone(price, U128_MAX, used);
    MulMonotone(used, U64_MAX, U128_MAX);
  }

  /** The 256-bit sum and product of the reward never saturate. */
  lemma RewardIsExact(block: Block, tx: Tx, gas: Gas, fee: U256)
    requires fee <= U96_MAX
    ensures Reward(block, tx, gas, fee) == EarnedOf(block, tx, gas.Used(), fee)
  {
    EffectiveIsPaid(block, tx);
    WideProduct(PricePaid(block, tx), gas.Used());
  }

  lemma L1FeeIsCapped(info: L1BlockInfo, cfg: Cfg, tx: Tx)
    ensures L1FeeOf(info, cfg, tx) <= U96_MAX
  {
  }

  lemma SplitCost(price: nat, used: nat, limit: nat)
    requires used <= limit
    ensures price * (limit - used) + price * used == limit * price
  {
  }

  /** What goes back and what is earned split what was deducted. */
  lemma SettlementSplitsDeduction(info: L1BlockInfo, cfg: Cfg, block: Block, tx: Tx, used: nat)
    requires used <= tx.gasLimit && !tx.IsL1Msg()
    ensures BackOf(block, tx, used) + EarnedOf(block, tx, used, L1FeeOf(info, cfg, tx))
         == Deducted(info, cfg, block, tx)
  {
    hide L1FeeOf;
    SplitCost(PricePaid(block, tx), used, tx.gasLimit);
  }

  /** After execution, unspent gas goes back to the caller and the rest of the deduction, L1 fee
      included, to the beneficiary. The two add up to the deduction exactly when both credits fit. */
  lemma PostExecutionEffect(s: Journal, info: L1BlockInfo, cfg: Cfg, block: Block, tx: Tx, gas: Gas)
    requires WellFormed(s) && !Unloadable(s, tx.caller) && !Unloadable(s, block.beneficiary) && !tx.IsL1Msg()
    requires SplitsLimit(gas, tx) && MaxCost(tx) <= U128_MAX
    requires tx.IsFeeCharged() ==> TxL1Cost(info, tx, cfg.spec).Ok?
    ensures var r := PostExecution(s, info, cfg, block, tx, gas);
      var back := BackOf(block, tx, gas.Used());
      var reward := EarnedOf(block, tx, gas.Used(), L1FeeOf(info, cfg, tx));
      && r.result == Ok(()) && Extends(r.journal, s)
      && PaidOut(r.journal, s, tx.caller, back, block.beneficiary, reward)
      && (SupplyOf(r.journal) == SupplyOf(s) + Deducted(info, cfg, block, tx)
          <==> BothFit(s, tx.caller, back, block.beneficiary, reward))
      && SupplyOf(r.journal) <= SupplyOf(s) + Deducted(info, cfg, block, tx)
  {
    hide WellFormed, Extends, TxL1Cost, PaidOut, BothFit, SupplyOf;
    var fee := L1FeeOf(info, cfg, tx);
    var back, reward := BackOf(block, tx, gas.Used()), EarnedOf(block, tx, gas.Used(), fee);
    L1FeeIsCapped(info, cfg, tx);
    ReimbursementIsExact(block, tx, gas);
    RewardIsExact(block, tx, gas, fee);
    SettlementSplitsDeduction(info, cfg, block, tx, gas.Used());
    hide Reimbursement, Reward, Deducted, BackOf, EarnedOf, MaxCost;
    TwoCredits(s, tx.caller, Reimbursement(block, tx, gas), block.beneficiary, Reward(block, tx, gas, fee));
    hide Credit;
    PaidOutConservesExactly(PostExecution(s, info, cfg, block, tx, gas).journal, s, tx.caller, back,
                            block.beneficiary, reward);
  }
}
