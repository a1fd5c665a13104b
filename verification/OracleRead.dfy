/** Reading the L1 gas price oracle through the journal. */
module OracleRead {
  import opened Words
  import opened Specs
  import opened JournalState
  import opened L1Block

  /** A journaled slot if there is one, else the database: nothing is loaded or warmed. */
  function JournaledSlot(s: Journal, slot: U256): Option<U256> {
    if s.Caches(L1_GAS_PRICE_ORACLE, slot)
    then Some(s.accounts[L1_GAS_PRICE_ORACLE].storage[slot].present)
    else s.db.Storage(L1_GAS_PRICE_ORACLE, slot)
  }

  function TryFetch(db: Database, spec: SpecId): Option<L1BlockInfo> {
    TryFetchWith((slot: U256) => db.Storage(L1_GAS_PRICE_ORACLE, slot), spec)
  }

  function TryFetchFromJournal(s: Journal, spec: SpecId): Option<L1BlockInfo> {
    TryFetchWith((slot: U256) => JournaledSlot(s, slot), spec)
  }
}

/** The journal read sees exactly what a commit would put into the database. */
module OracleReadLaws {
  import opened Words
  import opened Specs
  import opened JournalState
  import opened JournalLaws
  import opened Commits
  import opened L1Block
  import L1FeeLaws
  import opened OracleRead
  import opened Runs
  import opened Snapshots
  import opened RunLaws

  /** Reading the oracle through the journal equals reading the database after a commit of touched
      accounts: after any run, from any journal in which all that
      differs from the database has been touched. */
  lemma JournalReadEqualsCommittedRead(s: Journal, ops: seq<Op>, spec: SpecId)
    requires WellFormed(s) && s.db.Healthy() && s.depth == 0 && ListsGrow(ops, s.accessList)
    requires UntouchedMatchesDb(s)
    ensures var t := RunFrom(s, ops).0;
      TryFetchFromJournal(t, spec) == TryFetch(Committed(t), spec)
  {
    RunFromRefines(s, ops);
    RunKeepsUntouched(s, ops);
    CommittedRead(RunFrom(s, ops).0, spec);
  }

  lemma CommittedRead(s: Journal, spec: SpecId)
    requires s.db.Healthy() && UntouchedMatchesDb(s)
    ensures TryFetchFromJournal(s, spec) == TryFetch(Committed(s), spec)
  {
    var db := Committed(s);
    CommittedIsHealthy(s);
    forall slot: U256 ensures JournaledSlot(s, slot) == db.Storage(L1_GAS_PRICE_ORACLE, slot) {
      hide Committed;
      CommittedSlot(s, L1_GAS_PRICE_ORACLE, slot);
      assert db.SlotAt(L1_GAS_PRICE_ORACLE, slot) == s.Value(L1_GAS_PRICE_ORACLE, slot);
    }
    FetchAgrees((slot: U256) => JournaledSlot(s, slot),
                (slot: U256) => db.Storage(L1_GAS_PRICE_ORACLE, slot), spec);
  }

  /** The oracle's contents as a journal shows them. */
  function OracleIn(s: Journal): L1FeeLaws.Oracle {
    (slot: U256) => s.Value(0x5300000000000000000000000000000000000002, slot)
  }

  /** The fetched info prices a transaction as the exact formula does on any oracle that shows the
      same values. */
  lemma FetchedFeeIsExact(s: Journal, o: L1FeeLaws.Oracle, fetched: SpecId, input: Bytes, spec: SpecId,
                          ratio: Option<U256>, compressedSize: Option<U64>)
    requires s.db.Healthy() && fetched.IsEnabledIn(spec)
    requires forall slot: U256 :: o(slot) == s.Value(L1_GAS_PRICE_ORACLE, slot)
    ensures var info := TryFetchFromJournal(s, fetched);
      && info.Some?
      && TryCalculateTxL1Cost(info.value, input, spec, ratio, compressedSize)
         == L1FeeLaws.ExactFee(o, input, spec, ratio, compressedSize)
  {
    FetchAgrees((slot: U256) => JournaledSlot(s, slot), L1FeeLaws.Reader(o), fetched);
    L1FeeLaws.FeeIsExact(o, fetched, input, spec, ratio, compressedSize);
    hide TryCalculateTxL1Cost, L1FeeLaws.ExactFee;
  }

  function OracleOf(m: Simple): L1FeeLaws.Oracle {
    (slot: U256) => m.Value(0x5300000000000000000000000000000000000002, slot)
  }

  /** After any run from any journal, the fetched info prices a transaction as the exact formula does
      on the oracle's present contents: every earlier write that is still uncommitted is seen, none
      that was reverted is. */
  lemma FetchedFeeIsExactAfterAnyRun(s: Journal, ops: seq<Op>, fetched: SpecId, input: Bytes, spec: SpecId,
                                     ratio: Option<U256>, compressedSize: Option<U64>)
    requires WellFormed(s) && s.db.Healthy() && s.depth == 0 && ListsGrow(ops, s.accessList)
    requires fetched.IsEnabledIn(spec)
    ensures var info := TryFetchFromJournal(RunFrom(s, ops).0, fetched);
      && info.Some?
      && TryCalculateTxL1Cost(info.value, input, spec, ratio, compressedSize)
         == L1FeeLaws.ExactFee(OracleOf(SimpleRun(SimpleOf(s), ops).0), input, spec, ratio, compressedSize)
  {
    var t, m := RunFrom(s, ops).0, SimpleRun(SimpleOf(s), ops).0;
    RunFromRefines(s, ops);
    hide RunFrom, SimpleRun, ListsGrow;
    FetchedFeeIsExact(t, OracleOf(m), fetched, input, spec, ratio, compressedSize);
    hide TryCalculateTxL1Cost, L1FeeLaws.ExactFee;
  }

  lemma FetchAgrees(f: SlotReader, g: SlotReader, spec: SpecId)
    requires forall slot: U256 :: f(slot) == g(slot)
    ensures TryFetchWith(f, spec) == TryFetchWith(g, spec)
  {
  }
}
