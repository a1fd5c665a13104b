/** Writing a journal back to its database: the finalized state of the touched accounts. */
module Commits {
  import opened Words
  import opened JournalState
  import opened JournalLaws
  import opened Supply
  import opened Runs

  /** The database after a commit: the infos and the cached slots of touched accounts are written. */
  function Committed(s: Journal): Database {
    var infos := map a: Address | a in s.accounts && s.accounts[a].touched :: s.accounts[a].info;
    var slots := map a: Address, k: U256 | a in s.accounts && s.accounts[a].touched && k in s.accounts[a].storage
      :: (a, k) := s.accounts[a].storage[k].present;
    s.db.(infos := s.db.infos + infos, slots := s.db.slots + slots)
  }

  /** The journal of the next transaction, after a commit. */
  function Finalized(s: Journal): Journal {
    Fresh(Committed(s))
  }

  lemma CommittedInfo(s: Journal, a: Address)
    ensures Committed(s).InfoAt(a) == if s.IsTouched(a) then s.InfoOf(a) else s.db.InfoAt(a)
  {
  }

  lemma CommittedSlot(s: Journal, a: Address, k: U256)
    ensures Committed(s).SlotAt(a, k) == if s.IsTouched(a) then s.Value(a, k) else s.db.SlotAt(a, k)
  {
  }

  /** A commit keeps every info and every slot exactly if all that differs from the database has been
      touched. */
  lemma CommitKeepsExactly(s: Journal)
    ensures SameInfos(Finalized(s), s) && SameValues(Finalized(s), s) <==> UntouchedMatchesDb(s)
  {
    forall a: Address
      ensures Finalized(s).InfoOf(a) == if s.IsTouched(a) then s.InfoOf(a) else s.db.InfoAt(a)
    {
      CommittedInfo(s, a);
    }
    forall a: Address, k: U256
      ensures Finalized(s).Value(a, k) == if s.IsTouched(a) then s.Value(a, k) else s.db.SlotAt(a, k)
    {
      CommittedSlot(s, a, k);
    }
    hide Committed;
    if SameInfos(Finalized(s), s) && SameValues(Finalized(s), s) {
      forall a: Address ensures s.IsTouched(a) || s.InfoOf(a) == s.db.InfoAt(a) {
        assert Finalized(s).InfoOf(a) == s.InfoOf(a);
      }
      forall a: Address, k: U256 ensures s.IsTouched(a) || s.Value(a, k) == s.db.SlotAt(a, k) {
        assert Finalized(s).Value(a, k) == s.Value(a, k);
      }
    }
  }

  /** So a commit moves no money. */
  lemma CommitKeepsSupply(s: Journal)
    requires UntouchedMatchesDb(s)
    ensures SupplyOf(Finalized(s)) == SupplyOf(s)
  {
    CommitKeepsExactly(s);
    hide Finalized, UntouchedMatchesDb;
    SameBalancesSameSupply(Finalized(s), s);
  }

  lemma CommittedIsHealthy(s: Journal)
    requires s.db.Healthy()
    ensures Committed(s).Healthy()
  {
  }
}
