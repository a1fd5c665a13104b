/** Why undoing the log restores the past: laws of the journal up to what contracts observe. */
module JournalLaws {
  import opened Words
  import opened JournalState

  ghost predicate SameContext(s: Journal, t: Journal) {
    s.db == t.db && s.accessList == t.accessList && s.txId == t.txId
  }

  predicate SameSlotAt(s: Journal, t: Journal, a: Address, k: U256) {
    s.Value(a, k) == t.Value(a, k) && s.IsSlotWarm(a, k) == t.IsSlotWarm(a, k)
  }

  ghost predicate SameAt(s: Journal, t: Journal, a: Address) {
    && s.InfoOf(a) == t.InfoOf(a)
    && s.IsAccountWarm(a) == t.IsAccountWarm(a)
    && s.IsTouched(a) == t.IsTouched(a)
    && forall k: U256 :: SameSlotAt(s, t, a, k)
  }

  /** Two journals that no contract can tell apart: same values, same warmth. How accounts and
      slots are cached, and the representation of coldness, may differ. */
  ghost predicate SameView(s: Journal, t: Journal) {
    SameContext(s, t) && forall a: Address :: SameAt(s, t, a)
  }

  /** The view depends on the accounts and the context only. */
  lemma ViewOfAccounts(s: Journal, t: Journal)
    requires SameContext(s, t) && s.accounts == t.accounts
    ensures SameView(s, t)
  {
  }

  lemma SameViewSymmetric(s: Journal, t: Journal)
    requires SameView(s, t)
    ensures SameView(t, s)
  {
    forall a: Address ensures SameAt(t, s, a) {
      assert SameAt(s, t, a);
      forall k: U256 ensures SameSlotAt(t, s, a, k) {
        assert SameSlotAt(s, t, a, k);
      }
    }
  }

  lemma SameViewTransitive(s: Journal, t: Journal, u: Journal)
    requires SameView(s, t) && SameView(t, u)
    ensures SameView(s, u)
  {
    forall a: Address ensures SameAt(s, u, a) {
      assert SameAt(s, t, a) && SameAt(t, u, a);
      forall k: U256 ensures SameSlotAt(s, u, a, k) {
        assert SameSlotAt(s, t, a, k) && SameSlotAt(t, u, a, k);
      }
    }
  }

  ghost predicate SameInfos(t: Journal, s: Journal) {
    forall a: Address :: t.InfoOf(a) == s.InfoOf(a)
  }

  ghost predicate SameValues(t: Journal, s: Journal) {
    forall a: Address, k: U256 :: t.Value(a, k) == s.Value(a, k)
  }

  /** What lets a database keep only touched accounts: whatever differs from it has been touched. */
  ghost predicate UntouchedMatchesDb(s: Journal) {
    && (forall a: Address :: s.IsTouched(a) || s.InfoOf(a) == s.db.InfoAt(a))
    && (forall a: Address, k: U256 :: s.IsTouched(a) || s.Value(a, k) == s.db.SlotAt(a, k))
  }

  lemma UntouchedThroughView(t: Journal, s: Journal)
    requires SameView(t, s) && UntouchedMatchesDb(s)
    ensures UntouchedMatchesDb(t)
  {
    forall a: Address ensures t.IsTouched(a) || t.InfoOf(a) == t.db.InfoAt(a) {
      assert SameAt(t, s, a);
    }
    forall a: Address, k: U256 ensures t.IsTouched(a) || t.Value(a, k) == t.db.SlotAt(a, k) {
      assert SameAt(t, s, a) && SameSlotAt(t, s, a, k);
    }
  }

  /** What an entry names is cached. */
  predicate Applies(s: Journal, e: Entry) {
    match e
    case AccountWarmed(a) => a in s.accounts
    case AccountTouched(a) => a in s.accounts
    case StorageWarmed(a, k) => s.Caches(a, k)
    case StorageChanged(a, k, _) => s.Caches(a, k)
    case BalanceMoved(from, to, _) => from in s.accounts && to in s.accounts
    case BalanceChanged(a, _) => a in s.accounts
    case NonceChanged(a, _) => a in s.accounts
  }

  ghost predicate StampedAt(account: Account, txId: nat) {
    && account.txId <= txId
    && forall k :: k in account.storage ==> account.storage[k].txId <= txId
  }

  /** The invariant of every journal: no stamp from the future, and no entry without its target. */
  ghost predicate WellFormed(s: Journal) {
    && (forall a :: a in s.accounts ==> StampedAt(s.accounts[a], s.txId))
    && (forall e :: e in s.log ==> Applies(s, e))
  }

  /** Caches only grow. */
  ghost predicate CachesAtLeast(t: Journal, s: Journal) {
    forall a :: a in s.accounts ==> a in t.accounts && s.accounts[a].storage.Keys <= t.accounts[a].storage.Keys
  }

  lemma UndoneAccountKeys(account: Account, e: Entry, a: Address, txId: nat)
    requires StampedAt(account, txId)
    ensures UndoneAccount(account, e, a).storage.Keys == account.storage.Keys
    ensures StampedAt(UndoneAccount(account, e, a), txId)
  {
  }

  lemma AppliesInLargerCache(s: Journal, t: Journal, e: Entry)
    requires CachesAtLeast(t, s) && Applies(s, e)
    ensures Applies(t, e)
  {
  }

  lemma SlotAfterUndo(s: Journal, e: Entry, a: Address, k: U256)
    requires Applies(s, e)
    ensures UndoEntry(s, e).Value(a, k)
         == if e.StorageChanged? && e.address == a && e.key == k then e.had else s.Value(a, k)
    ensures UndoEntry(s, e).IsSlotWarm(a, k)
         == if e.StorageWarmed? && e.address == a && e.key == k then s.Lists(a, k) else s.IsSlotWarm(a, k)
  {
  }

  lemma UndoEntrySlotAt(s: Journal, t: Journal, e: Entry, a: Address, k: U256)
    requires SameContext(s, t) && SameSlotAt(s, t, a, k) && Applies(s, e) && Applies(t, e)
    ensures SameSlotAt(UndoEntry(s, e), UndoEntry(t, e), a, k)
  {
    SlotAfterUndo(s, e, a, k);
    SlotAfterUndo(t, e, a, k);
    hide UndoEntry, Applies;
  }

  lemma UndoEntryInfo(s: Journal, t: Journal, e: Entry, a: Address)
    requires s.db == t.db && s.InfoOf(a) == t.InfoOf(a) && Applies(s, e) && Applies(t, e)
    ensures UndoEntry(s, e).InfoOf(a) == UndoEntry(t, e).InfoOf(a)
  {
  }

  lemma FlagsAfterUndo(s: Journal, e: Entry, a: Address)
    requires Applies(s, e)
    ensures UndoEntry(s, e).IsAccountWarm(a)
         == if e == AccountWarmed(a) then a in s.accessList else s.IsAccountWarm(a)
    ensures UndoEntry(s, e).IsTouched(a) == (e != AccountTouched(a) && s.IsTouched(a))
  {
  }

  lemma UndoEntryAt(s: Journal, t: Journal, e: Entry, a: Address)
    requires SameContext(s, t) && SameAt(s, t, a) && Applies(s, e) && Applies(t, e)
    ensures SameAt(UndoEntry(s, e), UndoEntry(t, e), a)
  {
    var s', t' := UndoEntry(s, e), UndoEntry(t, e);
    UndoEntryInfo(s, t, e, a);
    FlagsAfterUndo(s, e, a);
    FlagsAfterUndo(t, e, a);
    hide UndoEntry, Applies;
    forall k: U256 ensures SameSlotAt(s', t', a, k) {
      assert SameSlotAt(s, t, a, k);
      UndoEntrySlotAt(s, t, e, a, k);
    }
  }

  /** Taking back one entry from indistinguishable journals leaves them indistinguishable. */
  lemma UndoEntryView(s: Journal, t: Journal, e: Entry)
    requires SameView(s, t) && Applies(s, e) && Applies(t, e)
    ensures SameView(UndoEntry(s, e), UndoEntry(t, e))
  {
    forall a: Address ensures SameAt(UndoEntry(s, e), UndoEntry(t, e), a) {
      UndoEntryAt(s, t, e, a);
    }
  }

  lemma PoppedWellFormed(s: Journal)
    requires WellFormed(s) && s.log != []
    ensures WellFormed(Popped(s)) && CachesAtLeast(Popped(s), s)
  {
    var e := s.log[|s.log| - 1];
    var t := Popped(s);
    forall a | a in s.accounts
      ensures StampedAt(t.accounts[a], s.txId)
      ensures t.accounts[a].storage.Keys == s.accounts[a].storage.Keys
    {
      UndoneAccountKeys(s.accounts[a], e, a, s.txId);
    }
    forall f | f in t.log ensures Applies(t, f) {
      assert Applies(s, f);
      AppliesInLargerCache(s, t, f);
    }
  }

  lemma PoppedView(s: Journal, t: Journal)
    requires SameView(s, t) && s.log == t.log && s.log != []
    requires WellFormed(s) && WellFormed(t)
    ensures SameView(Popped(s), Popped(t))
  {
    var e := s.log[|s.log| - 1];
    var s', t' := UndoEntry(s, e), UndoEntry(t, e);
    assert e in s.log && e in t.log;
    UndoEntryView(s, t, e);
    ViewOfAccounts(Popped(s), s');
    ViewOfAccounts(t', Popped(t));
    hide UndoEntry, Popped, SameAt;
    SameViewTransitive(Popped(s), s', t');
    SameViewTransitive(Popped(s), t', Popped(t));
  }

  lemma {:induction false} UndoToWellFormed(s: Journal, size: nat)
    requires WellFormed(s)
    ensures WellFormed(UndoTo(s, size))
    ensures CachesAtLeast(UndoTo(s, size), s)
    decreases |s.log|
  {
    if |s.log| <= size {
    } else {
      PoppedWellFormed(s);
      UndoToWellFormed(Popped(s), size);
    }
  }

  /** Undo does not look behind the view. */
  lemma {:induction false} UndoToView(s: Journal, t: Journal, size: nat)
    requires SameView(s, t) && s.log == t.log
    requires WellFormed(s) && WellFormed(t)
    ensures SameView(UndoTo(s, size), UndoTo(t, size))
    decreases |s.log|
  {
    if |s.log| <= size {
    } else {
      PoppedView(s, t);
      PoppedWellFormed(s);
      PoppedWellFormed(t);
      UndoToView(Popped(s), Popped(t), size);
    }
  }

  /** Undoing in two stages is undoing once. */
  lemma {:induction false} UndoToTwice(s: Journal, middle: nat, size: nat)
    requires size <= middle
    ensures UndoTo(UndoTo(s, middle), size) == UndoTo(s, size)
    decreases |s.log|
  {
    if |s.log| <= middle {
    } else {
      UndoToTwice(Popped(s), middle, size);
    }
  }

  /** `t` continues `s` within the transaction: undoing what `t` added gives back `s`. */
  ghost predicate Extends(t: Journal, s: Journal) {
    && WellFormed(t)
    && |s.log| <= |t.log| && t.log[..|s.log|] == s.log
    && t.depth == s.depth
    && SameView(UndoTo(t, |s.log|), s)
  }

  lemma ExtendsReflexive(s: Journal)
    requires WellFormed(s)
    ensures Extends(s, s)
  {
  }

  lemma ExtendsKeepsContext(t: Journal, s: Journal)
    requires Extends(t, s)
    ensures WellFormed(t) && SameContext(t, s)
  {
  }

  lemma ExtendsUndo(s: Journal, t: Journal, size: nat)
    requires WellFormed(s) && Extends(t, s) && size <= |s.log|
    ensures SameView(UndoTo(t, size), UndoTo(s, size))
  {
    UndoToTwice(t, |s.log|, size);
    UndoToWellFormed(t, |s.log|);
    UndoToView(UndoTo(t, |s.log|), s, size);
  }

  lemma ExtendsTransitive(s: Journal, t: Journal, u: Journal)
    requires WellFormed(s) && Extends(t, s) && Extends(u, t)
    ensures Extends(u, s)
  {
    ExtendsUndo(t, u, |s.log|);
    SameViewTransitive(UndoTo(u, |s.log|), UndoTo(t, |s.log|), s);
    assert u.log[..|s.log|] == u.log[..|t.log|][..|s.log|];
  }
}
