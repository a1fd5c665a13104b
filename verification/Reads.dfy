/** How often the database is read: once for each account and each slot, over whole runs. */
module Reads {
  import opened Words
  import opened Specs
  import opened JournalState
  import Blockhash
  import BlockhashLaws
  import TransferPrecompile
  import opened Runs

  function CachedSlots(s: Journal): set<(Address, U256)> {
    set a, k | a in s.accounts && k in s.accounts[a].storage :: (a, k)
  }

  /** Every read of the database from `s` to `t` has put something new into the cache. */
  predicate ReadsOnce(t: Journal, s: Journal) {
    && t.db == s.db
    && t.infoReads + |s.accounts| == s.infoReads + |t.accounts|
    && t.slotReads + |CachedSlots(s)| == s.slotReads + |CachedSlots(t)|
  }

  /** Nothing is read and nothing is cached. */
  ghost predicate SameCaches(t: Journal, s: Journal) {
    && t.db == s.db && t.infoReads == s.infoReads && t.slotReads == s.slotReads
    && t.accounts.Keys == s.accounts.Keys
    && forall a :: a in s.accounts ==> t.accounts[a].storage.Keys == s.accounts[a].storage.Keys
  }

  lemma SameCachesReadNothing(t: Journal, s: Journal)
    requires SameCaches(t, s)
    ensures ReadsOnce(t, s)
  {
    assert CachedSlots(t) == CachedSlots(s);
    assert |t.accounts| == |t.accounts.Keys| && |s.accounts| == |s.accounts.Keys|;
  }

  lemma ReadsTransitive(u: Journal, t: Journal, s: Journal)
    requires (u == t || ReadsOnce(u, t)) && ReadsOnce(t, s)
    ensures ReadsOnce(u, s)
  {
  }

  lemma LoadReads(s: Journal, a: Address)
    requires s.db.Healthy()
    ensures ReadsOnce(LoadAccount(s, a).journal, s) && LoadAccount(s, a).journal.db == s.db
  {
    var t := LoadAccount(s, a).journal;
    if a in s.accounts {
      SameCachesReadNothing(t, s);
    } else {
      assert CachedSlots(t) == CachedSlots(s);
      assert |t.accounts| == |t.accounts.Keys| && |s.accounts| == |s.accounts.Keys|;
      assert t.accounts.Keys == s.accounts.Keys + {a};
    }
  }

  lemma SloadReads(s: Journal, a: Address, k: U256, skipCold: bool)
    requires s.db.Healthy()
    ensures ReadsOnce(SloadSkipColdLoad(s, a, k, skipCold).journal, s)
  {
    var t := SloadSkipColdLoad(s, a, k, skipCold).journal;
    if s.Caches(a, k) || t == s {
      SameCachesReadNothing(t, s);
    } else {
      assert t.accounts == s.WithSlot(a, k, t.accounts[a].storage[k]).accounts;
      NewSlot(t, s, a, k, t.accounts[a].storage[k]);
    }
  }

  lemma NewSlot(t: Journal, s: Journal, a: Address, k: U256, slot: Slot)
    requires a in s.accounts && !s.Caches(a, k) && t.accounts == s.WithSlot(a, k, slot).accounts
    ensures |t.accounts| == |s.accounts| && |CachedSlots(t)| == |CachedSlots(s)| + 1
  {
    assert CachedSlots(t) == CachedSlots(s) + {(a, k)};
    assert |t.accounts| == |t.accounts.Keys| && |s.accounts| == |s.accounts.Keys|;
    assert t.accounts.Keys == s.accounts.Keys;
  }

  lemma DelegatedReads(s: Journal, a: Address)
    requires s.db.Healthy()
    ensures ReadsOnce(LoadAccountDelegated(s, a).journal, s)
  {
    var loaded := LoadAccount(s, a);
    LoadReads(s, a);
    if loaded.result.Ok? && loaded.result.value.data.code.Delegation? {
      LoadReads(loaded.journal, loaded.result.value.data.code.target);
    }
    hide LoadAccount, CachedSlots;
  }

  lemma SstoreReads(s: Journal, a: Address, k: U256, value: U256)
    requires s.db.Healthy()
    ensures ReadsOnce(JournalState.Sstore(s, a, k, value).journal, s)
  {
    var t := Touch(s, a);
    var loaded := SloadSkipColdLoad(t, a, k, false);
    TouchReads(s, a);
    SloadReads(t, a, k, false);
    if loaded.result.Ok? {
      SloadCaches(t, a, k);
      StoreReads(loaded.journal, a, k, value);
    }
    hide CachedSlots, Touch, SloadSkipColdLoad, StoreSlot;
  }

  lemma SloadCaches(s: Journal, a: Address, k: U256)
    ensures var r := SloadSkipColdLoad(s, a, k, false); r.result.Ok? ==> r.journal.Caches(a, k)
  {
  }

  lemma TouchReads(s: Journal, a: Address)
    ensures ReadsOnce(Touch(s, a), s)
  {
    SameCachesReadNothing(Touch(s, a), s);
  }

  lemma StoreReads(s: Journal, a: Address, k: U256, value: U256)
    requires s.Caches(a, k)
    ensures ReadsOnce(StoreSlot(s, a, k, value), s)
  {
    var t := StoreSlot(s, a, k, value);
    assert t.accounts.Keys == s.accounts.Keys;
    SameCachesReadNothing(t, s);
  }

  lemma TransferReads(s: Journal, from: Address, to: Address, value: U256)
    requires s.db.Healthy()
    ensures ReadsOnce(Transfer(s, from, to, value).journal, s)
  {
    var t := LoadAccount(s, from).journal;
    LoadReads(s, from);
    var u := LoadAccount(t, to).journal;
    LoadReads(t, to);
    if LoadAccount(s, from).result.Ok? && LoadAccount(t, to).result.Ok? {
      TransferLoadedCaches(u, from, to, value);
      SameCachesReadNothing(TransferLoaded(u, from, to, value).0, u);
    }
    hide LoadAccount, TransferLoaded, CachedSlots, SameCaches;
  }

  lemma TransferLoadedCaches(s: Journal, from: Address, to: Address, value: U256)
    requires from in s.accounts && to in s.accounts
    ensures SameCaches(TransferLoaded(s, from, to, value).0, s)
  {
  }

  lemma {:induction false} UndoCaches(s: Journal, size: nat)
    ensures SameCaches(UndoTo(s, size), s)
    decreases |s.log|
  {
    if |s.log| > size {
      PoppedCaches(s);
      UndoCaches(Popped(s), size);
    }
    hide Popped;
  }

  lemma PoppedCaches(s: Journal)
    requires s.log != []
    ensures SameCaches(Popped(s), s)
  {
    var e := s.log[|s.log| - 1];
    forall a | a in s.accounts ensures Popped(s).accounts[a].storage.Keys == s.accounts[a].storage.Keys {
      UndoneKeys(s.accounts[a], e, a);
    }
    hide UndoneAccount;
  }

  lemma UndoneKeys(account: Account, e: Entry, a: Address)
    ensures UndoneAccount(account, e, a).storage.Keys == account.storage.Keys
  {
  }

  /** The rollback neither reads again nor forgets what it has read. */
  lemma HistoryReads(s: Journal, k: U256, skipCold: bool)
    requires s.db.Healthy()
    ensures ReadsOnce(Blockhash.HistorySload(s, k, skipCold).journal, s)
  {
    SloadReads(s, Blockhash.HISTORY, k, skipCold);
    var fast := SloadSkipColdLoad(s, Blockhash.HISTORY, k, skipCold).journal;
    var inner := OpenCheckpoint(fast);
    SameCachesReadNothing(inner, fast);
    var loaded := LoadAccount(inner, Blockhash.HISTORY).journal;
    LoadReads(inner, Blockhash.HISTORY);
    var prepared := RevertCheckpoint(loaded, |fast.log|);
    UndoCaches(loaded, |fast.log|);
    SameCachesReadNothing(prepared, loaded);
    SloadReads(prepared, Blockhash.HISTORY, k, skipCold);
    hide LoadAccount, SloadSkipColdLoad, UndoTo, CachedSlots, SameCaches;
  }

  lemma MeteredReads(s: Journal, f: Blockhash.Frame, k: U256)
    requires s.db.Healthy() && f.stack != []
    ensures ReadsOnce(Blockhash.MeteredRead(s, f, k).0, s)
  {
    SameCachesReadNothing(s, s);
    forall skip: bool ensures ReadsOnce(Blockhash.HistorySload(s, k, skip).journal, s) {
      HistoryReads(s, k, skip);
    }
    hide Blockhash.HistorySload, ReadsOnce, SameCaches;
  }

  lemma UnmeteredReads(s: Journal, f: Blockhash.Frame, k: U256)
    requires s.db.Healthy() && f.stack != []
    ensures ReadsOnce(Blockhash.UnmeteredRead(s, f, k).0, s)
  {
    DelegatedReads(s, Blockhash.HISTORY);
    SloadReads(LoadAccountDelegated(s, Blockhash.HISTORY).journal, Blockhash.HISTORY, k, false);
    hide LoadAccountDelegated, SloadSkipColdLoad, CachedSlots;
  }

  lemma BlockhashReads(env: Blockhash.Env, s: Journal, f: Blockhash.Frame)
    requires s.db.Healthy()
    ensures ReadsOnce(Blockhash.Execute(env, s, f).0, s)
  {
    SameCachesReadNothing(s, s);
    if f.stack != [] && Blockhash.BASE_COST <= f.gas {
      var g := f.(gas := f.gas - Blockhash.BASE_COST);
      BlockhashLaws.ExecuteByWindow(env, s, f);
      MeteredReads(s, g, Blockhash.RingIndex(f.Top()));
      UnmeteredReads(s, g, Blockhash.RingIndex(f.Top()));
      hide Blockhash.Execute;
    }
    hide Blockhash.Lookup, Blockhash.MeteredRead, Blockhash.UnmeteredRead, Blockhash.RingIndex, BlockhashLaws.InWindow,
      BlockhashLaws.Word, ReadsOnce, SameCaches;
  }

  lemma CallReads(s: Journal, call: TransferPrecompile.Call)
    requires s.db.Healthy()
    ensures ReadsOnce(TransferPrecompile.Run(s, call).journal, s)
  {
    hide TransferPrecompile.Decode;
    SameCachesReadNothing(s, s);
    if TransferPrecompile.Guard(call).None? {
      var order := TransferPrecompile.Decode(call.data);
      var t := TransferPrecompile.CheckReceiver(s, order).journal;
      LoadReads(s, order.to);
      TransferReads(t, order.from, order.to, order.value);
    }
    hide LoadAccount, Transfer, CachedSlots, SameCaches;
  }

  lemma ExecuteSloadReads(s: Journal, a: Address, f: Blockhash.Frame)
    requires s.db.Healthy() && f.stack != []
    ensures ReadsOnce(ExecuteSload(s, a, f).0, s)
  {
    SameCachesReadNothing(s, s);
    forall skip: bool ensures ReadsOnce(SloadSkipColdLoad(s, a, f.Top(), skip).journal, s) {
      SloadReads(s, a, f.Top(), skip);
    }
    hide SloadSkipColdLoad, CachedSlots, SameCaches;
  }

  lemma RevertReads(s: Journal, mark: nat)
    ensures ReadsOnce(RevertCheckpoint(s, mark), s)
  {
    UndoCaches(s, mark);
    SameCachesReadNothing(RevertCheckpoint(s, mark), s);
    hide UndoTo;
  }

  lemma PerformReads(c: Machine, op: Op)
    requires c.journal.db.Healthy()
    ensures ReadsOnce(Perform(c, op).0.journal, c.journal)
  {
    var s := c.journal;
    SameCachesReadNothing(s, s);
    match op
    case Blockhash(env, number, gas) => BlockhashReads(env, s, Blockhash.Frame([number], gas, None));
    case Sload(a, k, gas) =>
      LoadReads(s, a);
      ExecuteSloadReads(LoadAccount(s, a).journal, a, Blockhash.Frame([k], gas, None));
      ReadsTransitive(Perform(c, op).0.journal, LoadAccount(s, a).journal, s);
    case ReadBalance(a) => LoadReads(s, a);
    case Sstore(a, k, value) =>
      LoadReads(s, a);
      SstoreReads(LoadAccount(s, a).journal, a, k, value);
      ReadsTransitive(Perform(c, op).0.journal, LoadAccount(s, a).journal, s);
    case CallTransfer(call) => CallReads(s, call);
    case RevertFrame =>
      if c.marks != [] {
        RevertReads(s, c.marks[|c.marks| - 1]);
      }
    case _ => SameCachesReadNothing(Perform(c, op).0.journal, s);
    hide LoadAccount, ExecuteSload, JournalState.Sstore, Blockhash.Execute, TransferPrecompile.Run, RevertCheckpoint,
      ReadsOnce;
  }

  lemma {:induction false} MachineReads(c: Machine, ops: seq<Op>)
    requires c.journal.db.Healthy()
    ensures ReadsOnce(Run(c, ops).0.journal, c.journal)
    decreases |ops|
  {
    hide Perform, CachedSlots;
    if ops != [] {
      PerformReads(c, ops[0]);
      MachineReads(Perform(c, ops[0]).0, ops[1..]);
    }
  }

  /** Over every run, reverts and transaction ends included, the database is read exactly once for each
      account and each slot that was not cached before. */
  lemma EachIsReadOnce(s: Journal, ops: seq<Op>)
    requires s.db.Healthy()
    ensures var t := RunFrom(s, ops).0;
      && t.infoReads - s.infoReads == |t.accounts| - |s.accounts|
      && t.slotReads - s.slotReads == |CachedSlots(t)| - |CachedSlots(s)|
  {
    hide CachedSlots, Run;
    MachineReads(Machine(s, []), ops);
  }
}
