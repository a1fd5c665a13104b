/** What each journal operation changes in the view, and that the log can undo it. */
module JournalEffects {
  import opened Words
  import opened JournalState
  import opened JournalLaws

  /** Only the account at `a` may differ. */
  ghost predicate ChangesOnly(t: Journal, s: Journal, a: Address) {
    && SameContext(t, s)
    && t.accounts.Keys - {a} == s.accounts.Keys - {a}
    && forall b :: b in s.accounts && b != a ==> b in t.accounts && t.accounts[b] == s.accounts[b]
  }

  lemma ExtendsQuietly(t: Journal, s: Journal)
    requires WellFormed(t) && t.log == s.log && t.depth == s.depth && SameView(t, s)
    ensures Extends(t, s)
  {
  }

  lemma ExtendsByOne(t: Journal, s: Journal, e: Entry)
    requires WellFormed(t) && t.log == s.log + [e] && t.depth == s.depth
    requires SameView(Popped(t), s)
    ensures Extends(t, s)
  {
  }

  /** A change of one account that keeps stamps and caches is well formed, with its own entry. */
  lemma StaysWellFormed(t: Journal, s: Journal, a: Address)
    requires WellFormed(s) && ChangesOnly(t, s, a) && CachesAtLeast(t, s)
    requires a in t.accounts && StampedAt(t.accounts[a], t.txId)
    requires t.log == s.log
             || (|s.log| < |t.log| && t.log == s.log + [t.log[|s.log|]] && Applies(t, t.log[|s.log|]))
    ensures WellFormed(t)
  {
    forall e | e in t.log ensures Applies(t, e) {
      if e in s.log {
        AppliesInLargerCache(s, t, e);
      }
    }
    forall b | b in t.accounts ensures StampedAt(t.accounts[b], t.txId) {
      assert b == a || b in t.accounts.Keys - {a};
    }
  }

  /** `t` is `s` with the account at `a` warm. */
  ghost predicate AccountLoaded(t: Journal, s: Journal, a: Address) {
    && SameContext(t, s)
    && (forall b: Address :: t.InfoOf(b) == s.InfoOf(b))
    && (forall b: Address :: t.IsTouched(b) == s.IsTouched(b))
    && (forall b: Address :: t.IsAccountWarm(b) <==> b == a || s.IsAccountWarm(b))
    && (forall b: Address, k: U256 :: SameSlotAt(t, s, b, k))
  }

  /** `t` is `s` with one slot warm. */
  ghost predicate SlotLoaded(t: Journal, s: Journal, a: Address, k: U256) {
    && SameContext(t, s)
    && (forall b: Address :: t.InfoOf(b) == s.InfoOf(b))
    && (forall b: Address :: t.IsTouched(b) == s.IsTouched(b))
    && (forall b: Address :: t.IsAccountWarm(b) == s.IsAccountWarm(b))
    && (forall b: Address, j: U256 :: t.Value(b, j) == s.Value(b, j))
    && (forall b: Address, j: U256 :: t.IsSlotWarm(b, j) <==> (b == a && j == k) || s.IsSlotWarm(b, j))
  }

  function StorageOf(s: Journal, a: Address): map<U256, Slot> {
    if a in s.accounts then s.accounts[a].storage else map[]
  }

  /** Replacing an account's metadata changes whether it shows as warm and nothing else. */
  lemma PutAccount(s: Journal, t: Journal, a: Address, account: Account)
    requires SameContext(t, s) && t.accounts == s.accounts[a := account]
    requires account.info == s.InfoOf(a) && account.touched == s.IsTouched(a)
    requires account.storage == StorageOf(s, a)
    ensures forall b: Address :: t.InfoOf(b) == s.InfoOf(b)
    ensures forall b: Address :: t.IsTouched(b) == s.IsTouched(b)
    ensures forall b: Address :: b == a || t.IsAccountWarm(b) == s.IsAccountWarm(b)
    ensures forall b: Address, k: U256 :: SameSlotAt(t, s, b, k)
    ensures t.IsAccountWarm(a) <==> a in s.accessList || (!account.cold && account.txId == s.txId)
  {
  }

  lemma AccountViewUnchanged(s: Journal, t: Journal, a: Address, account: Account)
    requires SameContext(t, s) && t.accounts == s.accounts[a := account]
    requires account.info == s.InfoOf(a) && account.touched == s.IsTouched(a)
    requires account.storage == StorageOf(s, a)
    requires s.IsAccountWarm(a) <==> a in s.accessList || (!account.cold && account.txId == s.txId)
    ensures SameView(t, s)
  {
    PutAccount(s, t, a, account);
  }

  lemma FreshAccountUndone(s: Journal, t: Journal, a: Address, account: Account)
    requires SameContext(t, s) && t.accounts == s.accounts[a := account]
    requires account.info == s.InfoOf(a) && account.touched == s.IsTouched(a)
    requires account.storage == StorageOf(s, a)
    requires !s.IsAccountWarm(a) && t.log == s.log + [AccountWarmed(a)]
    ensures SameView(Popped(t), s)
  {
    assert Popped(t).accounts == s.accounts[a := account.(cold := true)];
    AccountViewUnchanged(s, Popped(t), a, account.(cold := true));
  }

  /** A fresh stamp on an account that was not hot: what a load of such an account stores. */
  lemma FreshAccount(s: Journal, t: Journal, a: Address, account: Account)
    requires WellFormed(s) && SameContext(t, s) && t.depth == s.depth
    requires t.accounts == s.accounts[a := account]
    requires account.info == s.InfoOf(a) && account.touched == s.IsTouched(a)
    requires account.storage == StorageOf(s, a) && account.txId == s.txId && !account.cold
    requires t.log == if s.IsAccountWarm(a) then s.log else s.log + [AccountWarmed(a)]
    ensures Extends(t, s) && AccountLoaded(t, s, a) && CachesAtLeast(t, s)
  {
    assert StampedAt(account, t.txId);
    StaysWellFormed(t, s, a);
    PutAccount(s, t, a, account);
    hide WellFormed, Extends, SameView;
    if s.IsAccountWarm(a) {
      AccountViewUnchanged(s, t, a, account);
      ExtendsQuietly(t, s);
    } else {
      FreshAccountUndone(s, t, a, account);
      hide Popped;
      ExtendsByOne(t, s, AccountWarmed(a));
    }
  }

  /** Loading the account fails: it is not cached, and the database cannot read it. */
  predicate Unloadable(s: Journal, a: Address) {
    a !in s.accounts && a in s.db.brokenInfos
  }

  /** Reading the slot fails. */
  predicate Unreadable(s: Journal, a: Address, k: U256) {
    !s.Caches(a, k) && (a, k) in s.db.brokenSlots
  }

  /** Loading warms exactly the account, reports whether it was cold, and can be undone. */
  lemma LoadAccountEffect(s: Journal, a: Address)
    requires WellFormed(s)
    ensures var r := LoadAccount(s, a);
      && Extends(r.journal, s)
      && (r.result.Err? <==> Unloadable(s, a))
      && (r.result.Err? ==> r.result.error == DBError && SameView(r.journal, s) && r.journal.log == s.log)
      && (r.result.Ok? ==>
            && r.result.value == StateLoad(s.InfoOf(a), !s.IsAccountWarm(a))
            && a in r.journal.accounts && CachesAtLeast(r.journal, s)
            && AccountLoaded(r.journal, s, a)
            && |r.journal.log| == |s.log| + if s.IsAccountWarm(a) then 0 else 1)
  {
    var r := LoadAccount(s, a);
    var t := r.journal;
    if t == s {
      ExtendsReflexive(s);
    } else if r.result.Err? {
      ViewOfAccounts(t, s);
      ExtendsQuietly(t, s);
    } else {
      FreshAccount(s, t, a, t.accounts[a]);
    }
  }

  lemma LoadKeepsReadability(s: Journal, a: Address)
    ensures var t := LoadAccount(s, a).journal;
      && (forall b: Address :: Unloadable(t, b)
            == (Unloadable(s, b) && (b != a || LoadAccount(s, a).result.Err?)))
      && (forall b: Address, k: U256 :: Unreadable(t, b, k) == Unreadable(s, b, k))
  {
  }

  /** `t` is `s` with some accounts warm. */
  ghost predicate AccountsLoaded(t: Journal, s: Journal, loaded: set<Address>) {
    && SameContext(t, s)
    && (forall b: Address :: t.InfoOf(b) == s.InfoOf(b))
    && (forall b: Address :: t.IsTouched(b) == s.IsTouched(b))
    && (forall b: Address :: t.IsAccountWarm(b) <==> b in loaded || s.IsAccountWarm(b))
    && (forall b: Address, k: U256 :: SameSlotAt(t, s, b, k))
  }

  lemma AccountsLoadedTwice(u: Journal, t: Journal, s: Journal, a: Address, b: Address)
    requires AccountLoaded(t, s, a) && AccountLoaded(u, t, b)
    ensures AccountsLoaded(u, s, {a, b})
  {
    SlotsTransitive(u, t, s);
    forall c: Address ensures u.InfoOf(c) == s.InfoOf(c) && u.IsTouched(c) == s.IsTouched(c) {
      assert u.InfoOf(c) == t.InfoOf(c) && u.IsTouched(c) == t.IsTouched(c);
    }
  }

  /** Loading through a delegation warms the account and its delegate. */
  lemma LoadAccountDelegatedEffect(s: Journal, a: Address)
    requires WellFormed(s) && s.db.Healthy()
    ensures var r := LoadAccountDelegated(s, a);
      && Extends(r.journal, s)
      && r.result == Ok(StateLoad(s.InfoOf(a), !s.IsAccountWarm(a)))
      && a in r.journal.accounts
      && AccountsLoaded(r.journal, s, CodeAccounts(a, s.InfoOf(a)))
  {
    hide WellFormed, Extends;
    var t := LoadAccount(s, a).journal;
    LoadAccountEffect(s, a);
    ExtendsKeepsContext(t, s);
    if s.InfoOf(a).code.Delegation? {
      var target := s.InfoOf(a).code.target;
      var u := LoadAccount(t, target).journal;
      LoadAccountEffect(t, target);
      hide LoadAccount;
      ExtendsTransitive(s, t, u);
      AccountsLoadedTwice(u, t, s, a, target);
    }
    hide LoadAccount;
  }

  /** Writing one cached slot changes what that slot shows and nothing else. */
  lemma PutSlot(s: Journal, t: Journal, a: Address, k: U256, slot: Slot)
    requires a in s.accounts && SameContext(t, s)
    requires t.accounts == s.WithSlot(a, k, slot).accounts
    ensures forall b: Address :: t.InfoOf(b) == s.InfoOf(b)
    ensures forall b: Address :: t.IsTouched(b) == s.IsTouched(b)
    ensures forall b: Address :: t.IsAccountWarm(b) == s.IsAccountWarm(b)
    ensures forall b: Address, j: U256 :: (b == a && j == k) || SameSlotAt(t, s, b, j)
    ensures t.Value(a, k) == slot.present
    ensures t.IsSlotWarm(a, k) <==> s.Lists(a, k) || (!slot.cold && slot.txId == s.txId)
  {
  }

  /** The second of two writes to one slot wins. */
  lemma OverwriteTwice(s: Journal, t: Journal, a: Address, k: U256, slot: Slot, slot': Slot, u: Journal)
    requires a in s.accounts && t.accounts == s.WithSlot(a, k, slot).accounts
    requires u.accounts.Keys == t.accounts.Keys
    requires forall b :: b in t.accounts && b != a ==> u.accounts[b] == t.accounts[b]
    requires u.accounts[a] == t.accounts[a].(storage := t.accounts[a].storage[k := slot'])
    ensures u.accounts == s.WithSlot(a, k, slot').accounts
  {
    assert t.accounts[a].storage[k := slot'] == s.accounts[a].storage[k := slot'];
  }

  lemma SloadView(s: Journal, t: Journal, a: Address, k: U256)
    requires a in s.accounts && SameContext(t, s)
    requires t.Caches(a, k) && t.accounts == s.WithSlot(a, k, t.accounts[a].storage[k]).accounts
    requires t.accounts[a].storage[k].present == s.Value(a, k) && t.IsSlotWarm(a, k)
    ensures SlotLoaded(t, s, a, k)
  {
    PutSlot(s, t, a, k, t.accounts[a].storage[k]);
    forall b: Address, j: U256
      ensures t.Value(b, j) == s.Value(b, j)
      ensures t.IsSlotWarm(b, j) <==> (b == a && j == k) || s.IsSlotWarm(b, j)
    {
      assert (b == a && j == k) || SameSlotAt(t, s, b, j);
    }
  }

  lemma SlotViewUnchanged(s: Journal, t: Journal, a: Address, k: U256, slot: Slot)
    requires a in s.accounts && SameContext(t, s)
    requires t.accounts == s.WithSlot(a, k, slot).accounts
    requires slot.present == s.Value(a, k)
    requires s.IsSlotWarm(a, k) <==> s.Lists(a, k) || (!slot.cold && slot.txId == s.txId)
    ensures SameView(t, s)
  {
    PutSlot(s, t, a, k, slot);
    forall b: Address ensures SameAt(t, s, b) {
      forall j: U256 ensures SameSlotAt(t, s, b, j) {
      }
    }
  }

  /** A fresh stamp on a slot that was not hot: what a successful read of such a slot stores. */
  lemma FreshSlot(s: Journal, t: Journal, a: Address, k: U256, slot: Slot)
    requires WellFormed(s) && a in s.accounts && SameContext(t, s) && t.depth == s.depth
    requires t.accounts == s.WithSlot(a, k, slot).accounts
    requires slot.present == s.Value(a, k) && slot.txId == s.txId && !slot.cold
    requires t.log == if s.IsSlotWarm(a, k) then s.log else s.log + [StorageWarmed(a, k)]
    ensures Extends(t, s) && SlotLoaded(t, s, a, k) && CachesAtLeast(t, s) && t.Caches(a, k)
  {
    assert StampedAt(t.accounts[a], t.txId) by {
      assert StampedAt(s.accounts[a], s.txId);
    }
    StaysWellFormed(t, s, a);
    SloadView(s, t, a, k);
    if s.IsSlotWarm(a, k) {
      SlotViewUnchanged(s, t, a, k, slot);
      ExtendsQuietly(t, s);
    } else {
      OverwriteTwice(s, t, a, k, slot, slot.(cold := true), Popped(t));
      SlotViewUnchanged(s, Popped(t), a, k, slot.(cold := true));
      ExtendsByOne(t, s, StorageWarmed(a, k));
    }
  }

  /** A slot read either warms exactly that slot and reports its value and prior warmth, or leaves
      no trace: skipped when the account is absent or the slot is cold and unaffordable, and failing
      on a database error. */
  lemma SloadEffect(s: Journal, a: Address, k: U256, skipCold: bool)
    requires WellFormed(s)
    ensures var r := SloadSkipColdLoad(s, a, k, skipCold);
      && Extends(r.journal, s)
      && (r.result == Err(ColdLoadSkipped)
          <==> a !in s.accounts || (skipCold && !s.IsSlotWarm(a, k)))
      && (r.result == Err(ColdLoadSkipped) ==> r.journal == s)
      && (r.result == Err(DBError)
          <==> a in s.accounts && Unreadable(s, a, k) && (s.IsSlotWarm(a, k) || !skipCold))
      && (r.result == Err(DBError) ==> SameView(r.journal, s) && r.journal.log == s.log)
      && (r.result.Ok? ==>
            && r.result.value == StateLoad(s.Value(a, k), !s.IsSlotWarm(a, k))
            && CachesAtLeast(r.journal, s) && r.journal.Caches(a, k)
            && SlotLoaded(r.journal, s, a, k)
            && |r.journal.log| == |s.log| + if s.IsSlotWarm(a, k) then 0 else 1)
  {
    var r := SloadSkipColdLoad(s, a, k, skipCold);
    var t := r.journal;
    if r.result == Err(ColdLoadSkipped) || t == s {
      ExtendsReflexive(s);
    } else if r.result == Err(DBError) {
      ViewOfAccounts(t, s);
      ExtendsQuietly(t, s);
    } else {
      FreshSlot(s, t, a, k, t.accounts[a].storage[k]);
    }
  }

  /** The slot was read earlier in this transaction, and that read was not undone. */
  predicate IsHot(s: Journal, a: Address, k: U256) {
    s.Caches(a, k) && !s.accounts[a].storage[k].cold && s.accounts[a].storage[k].txId == s.txId
  }

  /** A read stamps the slot for this transaction. Its original value, which prices later stores,
      becomes its present value unless the transaction had read it already; so a value that an earlier
      transaction left in the journal counts as original. */
  lemma SloadRefreshesOriginal(s: Journal, a: Address, k: U256, skipCold: bool)
    requires SloadSkipColdLoad(s, a, k, skipCold).result.Ok?
    ensures var t := SloadSkipColdLoad(s, a, k, skipCold).journal;
      && IsHot(t, a, k)
      && t.accounts[a].storage[k].present == s.Value(a, k)
      && t.accounts[a].storage[k].original
         == (if IsHot(s, a, k) then s.accounts[a].storage[k].original else s.Value(a, k))
      && t.accounts[a] == s.accounts[a].(storage := t.accounts[a].storage)
  {
  }

  /** A load does the same for an account's original info. */
  lemma LoadRefreshesOriginal(s: Journal, a: Address)
    requires LoadAccount(s, a).result.Ok?
    ensures var t := LoadAccount(s, a).journal;
      && a in t.accounts && !t.accounts[a].cold && t.accounts[a].txId == s.txId
      && t.accounts[a].originalInfo
         == (if a in s.accounts && !s.accounts[a].cold && s.accounts[a].txId == s.txId
             then s.accounts[a].originalInfo else s.InfoOf(a))
  {
  }

  /** `t` is `s` after a write to the account at `a`, which is now touched and has `info`. */
  ghost predicate InfoWritten(t: Journal, s: Journal, a: Address, info: Info) {
    && SameContext(t, s)
    && (forall b: Address :: t.InfoOf(b) == if b == a then info else s.InfoOf(b))
    && (forall b: Address :: t.IsTouched(b) <==> b == a || s.IsTouched(b))
    && (forall b: Address :: t.IsAccountWarm(b) == s.IsAccountWarm(b))
    && (forall b: Address, k: U256 :: SameSlotAt(t, s, b, k))
  }

  lemma PutInfo(s: Journal, t: Journal, a: Address, info: Info, touched: bool)
    requires a in s.accounts && SameContext(t, s)
    requires t.accounts == s.accounts[a := s.accounts[a].(info := info, touched := touched)]
    ensures forall b: Address :: t.InfoOf(b) == if b == a then info else s.InfoOf(b)
    ensures forall b: Address :: t.IsTouched(b) == if b == a then touched else s.IsTouched(b)
    ensures forall b: Address :: t.IsAccountWarm(b) == s.IsAccountWarm(b)
    ensures forall b: Address, k: U256 :: SameSlotAt(t, s, b, k)
    ensures CachesAtLeast(t, s) && ChangesOnly(t, s, a)
  {
  }

  lemma TouchEffect(s: Journal, a: Address)
    requires WellFormed(s) && a in s.accounts
    ensures Extends(Touch(s, a), s) && InfoWritten(Touch(s, a), s, a, s.InfoOf(a))
    ensures CachesAtLeast(Touch(s, a), s)
  {
    var t := Touch(s, a);
    if t == s {
      ExtendsReflexive(s);
    } else {
      PutInfo(s, t, a, s.accounts[a].info, true);
      StaysWellFormed(t, s, a);
      assert Popped(t).accounts == s.accounts;
      ViewOfAccounts(Popped(t), s);
      ExtendsByOne(t, s, AccountTouched(a));
    }
  }

  /** One logged change of the account's info. */
  lemma InfoStep(s: Journal, t: Journal, a: Address, info: Info, e: Entry)
    requires WellFormed(s) && a in s.accounts && s.accounts[a].touched
    requires t == s.WithInfo(a, info).Logged(e) && Applies(s, e)
    requires UndoEntry(t, e).accounts == s.accounts
    ensures Extends(t, s) && InfoWritten(t, s, a, info) && CachesAtLeast(t, s)
  {
    PutInfo(s, t, a, info, true);
    AppliesInLargerCache(s, t, e);
    StaysWellFormed(t, s, a);
    ViewOfAccounts(Popped(t), s);
    ExtendsByOne(t, s, e);
  }

  lemma SetBalanceEffect(s: Journal, a: Address, balance: U256)
    requires WellFormed(s) && a in s.accounts
    ensures Extends(SetBalance(s, a, balance), s)
    ensures InfoWritten(SetBalance(s, a, balance), s, a, s.InfoOf(a).(balance := balance))
    ensures CachesAtLeast(SetBalance(s, a, balance), s)
  {
    hide Extends, WellFormed;
    var t := Touch(s, a);
    var u := SetBalance(s, a, balance);
    TouchEffect(s, a);
    if u != t {
      var info := t.accounts[a].info;
      ExtendsKeepsContext(t, s);
      assert UndoEntry(u, BalanceChanged(a, info.balance)).accounts == t.accounts;
      InfoStep(t, u, a, info.(balance := balance), BalanceChanged(a, info.balance));
      InfoWrittenAfterTouch(s, t, u, a, info.(balance := balance));
    }
  }

  /** A touch and then one change of the account's info. */
  lemma InfoWrittenAfterTouch(s: Journal, t: Journal, u: Journal, a: Address, info: Info)
    requires WellFormed(s) && Extends(t, s) && InfoWritten(t, s, a, s.InfoOf(a)) && CachesAtLeast(t, s)
    requires Extends(u, t) && InfoWritten(u, t, a, info) && CachesAtLeast(u, t)
    ensures Extends(u, s) && InfoWritten(u, s, a, info) && CachesAtLeast(u, s)
  {
    hide Extends, WellFormed;
    ExtendsTransitive(s, t, u);
    assert forall b: Address :: u.IsTouched(b) <==> b == a || t.IsTouched(b);
    SlotsTransitive(u, t, s);
  }

  lemma SlotsTransitive(u: Journal, t: Journal, s: Journal)
    requires forall b: Address, k: U256 :: SameSlotAt(u, t, b, k)
    requires forall b: Address, k: U256 :: SameSlotAt(t, s, b, k)
    ensures forall b: Address, k: U256 :: SameSlotAt(u, s, b, k)
  {
    forall b: Address, k: U256 ensures SameSlotAt(u, s, b, k) {
      assert SameSlotAt(u, t, b, k) && SameSlotAt(t, s, b, k);
    }
  }

  function BumpedNonce(nonce: U64): U64 {
    if nonce == U64_MAX then nonce else nonce + 1
  }

  lemma BumpNonceEffect(s: Journal, a: Address)
    requires WellFormed(s) && a in s.accounts
    ensures Extends(BumpNonce(s, a), s)
    ensures InfoWritten(BumpNonce(s, a), s, a, s.InfoOf(a).(nonce := BumpedNonce(s.InfoOf(a).nonce)))
    ensures CachesAtLeast(BumpNonce(s, a), s)
  {
    hide Extends, WellFormed;
    var t := Touch(s, a);
    var u := BumpNonce(s, a);
    TouchEffect(s, a);
    if u != t {
      var info := t.accounts[a].info;
      ExtendsKeepsContext(t, s);
      assert UndoEntry(u, NonceChanged(a, info.nonce)).accounts == t.accounts;
      InfoStep(t, u, a, info.(nonce := info.nonce + 1), NonceChanged(a, info.nonce));
      InfoWrittenAfterTouch(s, t, u, a, info.(nonce := info.nonce + 1));
    }
  }

  /** `t` is `s` with one slot holding `value`. */
  ghost predicate SlotWritten(t: Journal, s: Journal, a: Address, k: U256, value: U256) {
    && SameContext(t, s)
    && (forall b: Address :: t.InfoOf(b) == s.InfoOf(b))
    && (forall b: Address :: t.IsTouched(b) == s.IsTouched(b))
    && (forall b: Address :: t.IsAccountWarm(b) == s.IsAccountWarm(b))
    && (forall b: Address, j: U256 ::
          t.Value(b, j) == if b == a && j == k then value else s.Value(b, j))
    && (forall b: Address, j: U256 :: t.IsSlotWarm(b, j) == s.IsSlotWarm(b, j))
  }

  lemma StoreSlotEffect(s: Journal, a: Address, k: U256, value: U256)
    requires WellFormed(s) && s.Caches(a, k)
    ensures Extends(StoreSlot(s, a, k, value), s)
    ensures SlotWritten(StoreSlot(s, a, k, value), s, a, k, value)
  {
    var t := StoreSlot(s, a, k, value);
    var slot := s.accounts[a].storage[k];
    if t == s {
      ExtendsReflexive(s);
    } else {
      var slot' := slot.(present := value);
      PutSlot(s, t, a, k, slot');
      forall b: Address, j: U256
        ensures t.Value(b, j) == if b == a && j == k then value else s.Value(b, j)
        ensures t.IsSlotWarm(b, j) == s.IsSlotWarm(b, j)
      {
        assert (b == a && j == k) || SameSlotAt(t, s, b, j);
      }
      assert StampedAt(t.accounts[a], t.txId) by {
        assert StampedAt(s.accounts[a], s.txId);
      }
      StaysWellFormed(t, s, a);
      OverwriteTwice(s, t, a, k, slot', slot, Popped(t));
      SlotViewUnchanged(s, Popped(t), a, k, slot);
      ExtendsByOne(t, s, StorageChanged(a, k, slot.present));
    }
  }

  /** Storing touches the account, warms the slot and leaves `value` in it. */
  lemma SstoreEffect(s: Journal, a: Address, k: U256, value: U256)
    requires WellFormed(s) && a in s.accounts
    ensures var r := Sstore(s, a, k, value);
      && Extends(r.journal, s)
      && (r.result.Err? <==> Unreadable(s, a, k))
      && (r.result.Err? ==> r.result.error == DBError)
      && (r.result.Ok? ==>
            && r.result.value == StateLoad(s.Value(a, k), !s.IsSlotWarm(a, k))
            && SameContext(r.journal, s)
            && (forall b: Address :: r.journal.InfoOf(b) == s.InfoOf(b))
            && (forall b: Address :: r.journal.IsTouched(b) <==> b == a || s.IsTouched(b))
            && (forall b: Address :: r.journal.IsAccountWarm(b) == s.IsAccountWarm(b))
            && (forall b: Address, j: U256 ::
                  r.journal.Value(b, j) == if b == a && j == k then value else s.Value(b, j))
            && (forall b: Address, j: U256 ::
                  r.journal.IsSlotWarm(b, j) <==> (b == a && j == k) || s.IsSlotWarm(b, j)))
  {
    var t := Touch(s, a);
    var loaded := SloadSkipColdLoad(t, a, k, false);
    var u := loaded.journal;
    TouchEffect(s, a);
    SloadEffect(t, a, k, false);
    ExtendsTransitive(s, t, u);
    if loaded.result.Ok? {
      StoreSlotEffect(u, a, k, value);
      ExtendsTransitive(s, u, StoreSlot(u, a, k, value));
      SstoreView(s, t, u, StoreSlot(u, a, k, value), a, k, value);
    }
  }

  lemma SstoreView(s: Journal, t: Journal, u: Journal, v: Journal, a: Address, k: U256, value: U256)
    requires InfoWritten(t, s, a, s.InfoOf(a)) && SlotLoaded(u, t, a, k) && SlotWritten(v, u, a, k, value)
    ensures forall b: Address, j: U256 ::
              v.Value(b, j) == if b == a && j == k then value else s.Value(b, j)
    ensures forall b: Address, j: U256 ::
              v.IsSlotWarm(b, j) <==> (b == a && j == k) || s.IsSlotWarm(b, j)
  {
    forall b: Address, j: U256
      ensures v.Value(b, j) == if b == a && j == k then value else s.Value(b, j)
      ensures v.IsSlotWarm(b, j) <==> (b == a && j == k) || s.IsSlotWarm(b, j)
    {
      assert SameSlotAt(t, s, b, j);
    }
  }
}
