/** The total of all balances. */
module Supply {
  import opened Words
  import opened JournalState

  type Balances = Address -> U256

  function Total(f: Balances, n: nat): nat
    requires n <= ADDRESS_COUNT
  {
    if n == 0 then 0 else Total(f, n - 1) + f(n - 1)
  }

  function BalancesOf(s: Journal): Balances {
    (a: Address) => s.Balance(a)
  }

  /** The money in the ledger: the balances of all addresses, cached or not. */
  function SupplyOf(s: Journal): nat {
    Total(BalancesOf(s), ADDRESS_COUNT)
  }

  /** Changing one balance changes the total by as much. */
  lemma {:induction false} TotalChangedAt(f: Balances, g: Balances, x: Address, n: nat)
    requires n <= ADDRESS_COUNT
    requires forall a: Address :: a != x ==> g(a) == f(a)
    ensures Total(g, n) == if x < n then Total(f, n) - f(x) + g(x) else Total(f, n)
  {
    if n == 0 {
    } else {
      TotalChangedAt(f, g, x, n - 1);
    }
  }

  lemma {:induction false} TotalAgrees(f: Balances, g: Balances, n: nat)
    requires n <= ADDRESS_COUNT && forall a: Address :: g(a) == f(a)
    ensures Total(g, n) == Total(f, n)
  {
    if n == 0 {
    } else {
      TotalAgrees(f, g, n - 1);
    }
  }

  /** Moving value between two addresses leaves the total alone. */
  lemma {:induction false} TotalMoved(f: Balances, g: Balances, from: Address, to: Address, value: nat, n: nat)
    requires n <= ADDRESS_COUNT
    requires forall a: Address ::
               g(a) == f(a) + (if a == to then value else 0) - (if a == from then value else 0)
    ensures Total(g, n) == Total(f, n) + (if to < n then value else 0) - (if from < n then value else 0)
  {
    if n == 0 {
    } else {
      TotalMoved(f, g, from, to, value, n - 1);
    }
  }

  lemma {:induction false} TotalBoundsTwo(f: Balances, x: Address, y: Address, n: nat)
    requires n <= ADDRESS_COUNT
    ensures (if x < n then f(x) else 0) <= Total(f, n)
    ensures x != y ==> (if x < n then f(x) else 0) + (if y < n then f(y) else 0) <= Total(f, n)
  {
    if n == 0 {
    } else {
      TotalBoundsTwo(f, x, y, n - 1);
    }
  }

  lemma SameBalancesSameSupply(t: Journal, s: Journal)
    requires forall a: Address :: t.Balance(a) == s.Balance(a)
    ensures SupplyOf(t) == SupplyOf(s)
  {
    TotalAgrees(BalancesOf(s), BalancesOf(t), ADDRESS_COUNT);
  }

  lemma SupplyChangedAt(t: Journal, s: Journal, x: Address)
    requires forall a: Address :: a != x ==> t.Balance(a) == s.Balance(a)
    ensures SupplyOf(t) == SupplyOf(s) - s.Balance(x) + t.Balance(x)
  {
    TotalChangedAt(BalancesOf(s), BalancesOf(t), x, ADDRESS_COUNT);
  }

  lemma BalanceWithinSupply(s: Journal, x: Address)
    ensures s.Balance(x) <= SupplyOf(s)
  {
    TotalBoundsTwo(BalancesOf(s), x, x, ADDRESS_COUNT);
  }
}
