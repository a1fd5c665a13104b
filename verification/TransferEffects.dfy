/** The journal's value transfer: what it moves, when it can be undone, and when it loses money. */
module TransferEffects {
  import opened Words
  import opened JournalState
  import opened JournalLaws
  import opened JournalEffects

  /** The balance of `a` after `value` went from `from` to `to`. */
  function Moved(s: Journal, from: Address, to: Address, value: nat, a: Address): int {
    s.Balance(a) + (if a == to then value else 0) - (if a == from then value else 0)
  }

  /** Only balances differ, and they moved. */
  ghost predicate ValueMoved(t: Journal, s: Journal, from: Address, to: Address, value: nat) {
    && SameContext(t, s)
    && (forall a: Address :: t.Balance(a) == Moved(s, from, to, value, a))
    && (forall a: Address :: t.InfoOf(a) == s.InfoOf(a).(balance := t.Balance(a)))
    && (forall a: Address :: s.IsTouched(a) ==> t.IsTouched(a))
    && (forall a: Address :: t.IsTouched(a) || t.InfoOf(a) == s.InfoOf(a))
    && (forall a: Address :: t.IsAccountWarm(a) == s.IsAccountWarm(a))
    && (forall a: Address, k: U256 :: SameSlotAt(t, s, a, k))
  }

  function MoveBalance(s: Journal, from: Address, to: Address, value: U256): Journal
    requires from in s.accounts && to in s.accounts && from != to
    requires value <= s.Balance(from) && s.Balance(to) + value <= U256_MAX
  {
    s.WithInfo(from, s.InfoOf(from).(balance := s.Balance(from) - value))
     .WithInfo(to, s.InfoOf(to).(balance := s.Balance(to) + value))
     .Logged(BalanceMoved(from, to, value))
  }

  lemma MoveBalanceView(s: Journal, from: Address, to: Address, value: U256)
    requires from in s.accounts && to in s.accounts && from != to && s.IsTouched(from) && s.IsTouched(to)
    requires value <= s.Balance(from) && s.Balance(to) + value <= U256_MAX
    ensures ValueMoved(MoveBalance(s, from, to, value), s, from, to, value)
    ensures CachesAtLeast(MoveBalance(s, from, to, value), s)
  {
  }

  lemma MoveBalanceWellFormed(s: Journal, from: Address, to: Address, value: U256)
    requires WellFormed(s) && from in s.accounts && to in s.accounts && from != to
    requires value <= s.Balance(from) && s.Balance(to) + value <= U256_MAX
    ensures WellFormed(MoveBalance(s, from, to, value))
  {
  }

  lemma MoveBalanceUndone(s: Journal, from: Address, to: Address, value: U256)
    requires from in s.accounts && to in s.accounts && from != to
    requires value <= s.Balance(from) && s.Balance(to) + value <= U256_MAX
    ensures SameView(Popped(MoveBalance(s, from, to, value)), s)
  {
    var t := MoveBalance(s, from, to, value);
    assert Popped(t).accounts == s.accounts;
    ViewOfAccounts(Popped(t), s);
  }

  lemma MoveBalanceEffect(s: Journal, from: Address, to: Address, value: U256)
    requires WellFormed(s) && from in s.accounts && to in s.accounts && from != to
    requires s.IsTouched(from) && s.IsTouched(to)
    requires value <= s.Balance(from) && s.Balance(to) + value <= U256_MAX
    ensures Extends(MoveBalance(s, from, to, value), s)
    ensures ValueMoved(MoveBalance(s, from, to, value), s, from, to, value)
  {
    hide WellFormed, ValueMoved;
    var t := MoveBalance(s, from, to, value);
    MoveBalanceView(s, from, to, value);
    MoveBalanceWellFormed(s, from, to, value);
    MoveBalanceUndone(s, from, to, value);
    hide Popped, SameView, Extends;
    ExtendsByOne(t, s, BalanceMoved(from, to, value));
  }

  /** The only case in which the transfer is not atomic: funds suffice but the receiver overflows. */
  predicate Overflows(s: Journal, from: Address, to: Address, value: U256) {
    from != to && value <= s.Balance(from) && s.Balance(to) + value > U256_MAX
  }

  predicate Affordable(s: Journal, from: Address, value: U256) {
    value <= s.Balance(from)
  }

  lemma TouchesEffect(s: Journal, from: Address, to: Address)
    requires WellFormed(s) && from in s.accounts && to in s.accounts
    ensures var t := Touch(Touch(s, from), to);
      && Extends(t, s) && CachesAtLeast(t, s) && ValueMoved(t, s, from, to, 0)
      && t.IsTouched(from) && t.IsTouched(to)
  {
    hide WellFormed, Extends;
    var t := Touch(s, from);
    TouchEffect(s, from);
    TouchEffect(t, to);
    ExtendsTransitive(s, t, Touch(t, to));
    SlotsTransitive(Touch(t, to), t, s);
  }

  lemma ValueMovedAfterTouches(s: Journal, t: Journal, u: Journal, from: Address, to: Address, value: U256)
    requires ValueMoved(t, s, from, to, 0) && ValueMoved(u, t, from, to, value)
    ensures ValueMoved(u, s, from, to, value)
  {
    SlotsTransitive(u, t, s);
    forall a: Address ensures u.Balance(a) == Moved(s, from, to, value, a) {
      assert t.Balance(a) == Moved(s, from, to, 0, a);
    }
    forall a: Address ensures u.IsTouched(a) || u.InfoOf(a) == s.InfoOf(a) {
      assert t.IsTouched(a) || t.InfoOf(a) == s.InfoOf(a);
    }
  }

  lemma TransferLoadedSuccess(s: Journal, from: Address, to: Address, value: U256)
    requires WellFormed(s) && from in s.accounts && to in s.accounts
    requires from != to && value != 0 && Affordable(s, from, value) && !Overflows(s, from, to, value)
    ensures var (t, failure) := TransferLoaded(s, from, to, value);
      Extends(t, s) && failure == None && ValueMoved(t, s, from, to, value)
  {
    var u := Touch(Touch(s, from), to);
    TouchesEffect(s, from, to);
    TransferLoadedShape(s, from, to, value);
    hide TransferLoaded, MoveBalance, Touch;
    assert u.Balance(from) == Moved(s, from, to, 0, from) && u.Balance(to) == Moved(s, from, to, 0, to);
    MoveBalanceEffect(u, from, to, value);
    ExtendsTransitive(s, u, MoveBalance(u, from, to, value));
    ValueMovedAfterTouches(s, u, MoveBalance(u, from, to, value), from, to, value);
  }

  /** A transfer of loaded accounts moves exactly `value` if it is affordable and fits, changes no
      balance if it is not affordable, and can be undone in both cases. */
  lemma TransferLoadedEffect(s: Journal, from: Address, to: Address, value: U256)
    requires WellFormed(s) && from in s.accounts && to in s.accounts
    requires !Overflows(s, from, to, value)
    ensures var (t, failure) := TransferLoaded(s, from, to, value);
      && Extends(t, s)
      && failure == (if Affordable(s, from, value) then None else Some(OutOfFunds))
      && ValueMoved(t, s, from, to, if failure.None? then value else 0)
  {
    if from == to {
      ExtendsReflexive(s);
    } else if value == 0 {
      TouchEffect(s, to);
    } else if Affordable(s, from, value) {
      TransferLoadedSuccess(s, from, to, value);
    } else {
      TouchEffect(s, from);
    }
  }

  /** Whom a transfer touches: nobody if it pays itself, the payee alone if it moves nothing, the payer
      alone if it cannot pay, and else both. */
  function Parties(s: Journal, from: Address, to: Address, value: U256): set<Address> {
    if from == to then {} else if value == 0 then {to} else if Affordable(s, from, value) then {from, to} else {from}
  }

  /** A transfer touches exactly its parties, also where it loses the debit. */
  lemma TransferTouches(s: Journal, from: Address, to: Address, value: U256)
    requires from in s.accounts && to in s.accounts
    ensures var t := TransferLoaded(s, from, to, value).0;
      forall a: Address :: t.IsTouched(a) <==> s.IsTouched(a) || a in Parties(s, from, to, value)
  {
  }

  /** Touching the payee commutes with debiting the payer. */
  lemma TransferLoadedShape(s: Journal, from: Address, to: Address, value: U256)
    requires from in s.accounts && to in s.accounts && from != to && value != 0
    requires Affordable(s, from, value) && !Overflows(s, from, to, value)
    ensures TransferLoaded(s, from, to, value)
         == (MoveBalance(Touch(Touch(s, from), to), from, to, value), None)
  {
    var t := Touch(s, from);
    var payer := t.accounts[from].info;
    var debited := t.WithInfo(from, payer.(balance := payer.balance - value));
    var u := MoveBalance(Touch(t, to), from, to, value);
    assert Touch(debited, to).accounts
        == Touch(t, to).WithInfo(from, payer.(balance := payer.balance - value)).accounts;
  }

  /** When the receiver overflows, the payer's debit stays: the payee gets nothing and no log entry
      records the loss. */
  lemma OverflowLosesDebit(s: Journal, from: Address, to: Address, value: U256)
    requires from in s.accounts && to in s.accounts
    ensures var (t, failure) := TransferLoaded(s, from, to, value);
      && (failure == Some(OverflowPayment) <==> Overflows(s, from, to, value))
      && (failure == Some(OverflowPayment) ==>
            && t.Balance(from) == s.Balance(from) - value < s.Balance(from)
            && t.InfoOf(from) == s.InfoOf(from).(balance := t.Balance(from))
            && (forall a: Address :: a != from ==> t.InfoOf(a) == s.InfoOf(a))
            && (forall e | e in t.log && e !in s.log :: e.AccountTouched?))
  {
  }
}
