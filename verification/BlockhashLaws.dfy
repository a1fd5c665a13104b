/** What BLOCKHASH returns, charges, warms and leaves alone, from every journal. */
module BlockhashLaws {
  import opened Words
  import opened Specs
  import opened JournalState
  import opened JournalLaws
  import opened JournalEffects
  import opened Blockhash

  /** Preparing the history account leaves no trace but the cached account. */
  lemma PrepareHistoryEffect(s: Journal)
    requires WellFormed(s)
    ensures var p := PrepareHistory(s);
      && WellFormed(p.journal) && SameView(p.journal, s) && Extends(p.journal, s)
      && p.journal.log == s.log && p.journal.slotReads == s.slotReads
      && (forall a: Address :: StorageOf(p.journal, a) == StorageOf(s, a))
      && (p.result.Err? ==> p.result.error == DBError && HISTORY !in s.accounts && HISTORY in s.db.brokenInfos)
      && (p.result.Ok? ==> HISTORY in p.journal.accounts)
  {
    hide AccountLoaded;
    var open := OpenCheckpoint(s);
    var loaded := LoadAccount(open, HISTORY);
    var undone := UndoTo(loaded.journal, |s.log|);
    ViewOfAccounts(open, s);
    assert WellFormed(open);
    LoadAccountEffect(open, HISTORY);
    UndoToWellFormed(loaded.journal, |s.log|);
    SameViewTransitive(undone, open, s);
    ViewOfAccounts(RevertCheckpoint(loaded.journal, |s.log|), undone);
    SameViewTransitive(RevertCheckpoint(loaded.journal, |s.log|), undone, s);
    ExtendsQuietly(RevertCheckpoint(loaded.journal, |s.log|), s);
    PreparedAccounts(s);
  }

  /** Only the history account's transaction stamp, cold flag and original info may change. */
  predicate SameButMetadata(t: Account, s: Account) {
    t == s.(txId := t.txId, cold := t.cold, originalInfo := t.originalInfo)
  }

  lemma LoadedAccounts(s: Journal, t: Journal)
    requires t == LoadAccount(s, HISTORY).journal
    ensures t == s.(accounts := t.accounts, infoReads := t.infoReads, log := t.log)
    ensures forall a: Address :: StorageOf(t, a) == StorageOf(s, a)
    ensures t.log != s.log ==> HISTORY in t.accounts
  {
  }

  lemma PreparedAccounts(s: Journal)
    requires WellFormed(s)
    ensures var t := PrepareHistory(s).journal;
      && t == s.(accounts := t.accounts, infoReads := t.infoReads)
      && (forall a: Address :: StorageOf(t, a) == StorageOf(s, a))
  {
    var loaded := LoadAccount(OpenCheckpoint(s), HISTORY).journal;
    RolledBack(s, loaded);
    LoadedAccounts(OpenCheckpoint(s), loaded);
    hide UndoTo, LoadAccount;
    forall a: Address ensures StorageOf(PrepareHistory(s).journal, a) == StorageOf(s, a) {
      assert StorageOf(loaded, a) == StorageOf(OpenCheckpoint(s), a);
    }
  }

  lemma RolledBack(s: Journal, loaded: Journal)
    requires loaded == LoadAccount(OpenCheckpoint(s), HISTORY).journal
    ensures UndoTo(loaded, |s.log|)
         == if loaded.log == s.log then loaded
            else loaded.(log := s.log,
                         accounts := loaded.accounts[HISTORY := loaded.accounts[HISTORY].(cold := true)])
  {
    hide UndoEntry, Popped;
    if loaded.log != s.log {
      assert loaded.log == s.log + [AccountWarmed(HISTORY)];
      UndoWarming(loaded, s.log);
      assert UndoTo(loaded, |s.log|) == UndoTo(Popped(loaded), |s.log|) == Popped(loaded);
    }
  }

  lemma UndoWarming(loaded: Journal, log: seq<Entry>)
    requires loaded.log == log + [AccountWarmed(HISTORY)] && HISTORY in loaded.accounts
    ensures Popped(loaded)
         == loaded.(log := log,
                    accounts := loaded.accounts[HISTORY := loaded.accounts[HISTORY].(cold := true)])
  {
  }

  lemma PreparedCachedAccount(s: Journal)
    requires WellFormed(s) && HISTORY in s.accounts
    ensures var t := PrepareHistory(s).journal;
      && PrepareHistory(s).result.Ok?
      && HISTORY in t.accounts && SameButMetadata(t.accounts[HISTORY], s.accounts[HISTORY])
      && t == s.(accounts := s.accounts[HISTORY := t.accounts[HISTORY]])
  {
    var loaded := LoadAccount(OpenCheckpoint(s), HISTORY).journal;
    RolledBack(s, loaded);
  }

  /** What a read of a history slot means: it is skipped only when the slot is cold and
      unaffordable, then reading and keeping nothing; it fails only with the database; otherwise it
      reports the slot and warms exactly that slot, with at most one log entry. */
  ghost predicate ReadsSlot(r: Step<StateLoad<U256>, LoadError>, s: Journal, k: U256, skipCold: bool) {
    var t := r.journal;
    && Extends(t, s)
    && match r.result
       case Ok(load) =>
         && load == StateLoad(s.Value(HISTORY, k), !s.IsSlotWarm(HISTORY, k))
         && !(skipCold && !s.IsSlotWarm(HISTORY, k))
         && SlotLoaded(t, s, HISTORY, k)
         && |t.log| == |s.log| + if s.IsSlotWarm(HISTORY, k) then 0 else 1
       case Err(ColdLoadSkipped) =>
         skipCold && !s.IsSlotWarm(HISTORY, k) && NoTrace(t, s)
       case Err(DBError) =>
         !s.db.Healthy() && SameView(t, s) && t.log == s.log
  }

  /** Nothing was read, warmed or logged, and no checkpoint is left open. */
  ghost predicate NoTrace(t: Journal, s: Journal) {
    && SameView(t, s) && t.log == s.log && t.depth == s.depth && t.slotReads == s.slotReads
    && (forall a: Address :: StorageOf(t, a) == StorageOf(s, a))
  }

  lemma SloadReadsSlot(s: Journal, k: U256, skipCold: bool)
    requires WellFormed(s) && HISTORY in s.accounts
    ensures ReadsSlot(SloadSkipColdLoad(s, HISTORY, k, skipCold), s, k, skipCold)
  {
    SloadEffect(s, HISTORY, k, skipCold);
    ViewOfAccounts(s, s);
    hide SloadSkipColdLoad;
  }

  lemma ReadsThroughView(r: Step<StateLoad<U256>, LoadError>, t: Journal, s: Journal, k: U256, skipCold: bool)
    requires WellFormed(s) && Extends(t, s) && NoTrace(t, s) && ReadsSlot(r, t, k, skipCold)
    ensures ReadsSlot(r, s, k, skipCold)
  {
    ExtendsTransitive(s, t, r.journal);
    assert SameAt(t, s, HISTORY) && SameSlotAt(t, s, HISTORY, k);
    if r.result.Ok? {
      SlotLoadedThroughView(r.journal, t, s, HISTORY, k);
    } else {
      SameViewTransitive(r.journal, t, s);
    }
  }

  lemma RollbackReadsSlot(s: Journal, k: U256, skipCold: bool)
    requires WellFormed(s)
    ensures ReadsSlot(SloadAfterRollback(s, k, skipCold), s, k, skipCold)
  {
    PrepareHistoryEffect(s);
    var p := PrepareHistory(s);
    hide PrepareHistory;
    if p.result.Ok? {
      SloadReadsSlot(p.journal, k, skipCold);
      ReadsThroughView(SloadSkipColdLoad(p.journal, HISTORY, k, skipCold), p.journal, s, k, skipCold);
    }
  }

  /** The read behind BLOCKHASH is an SLOAD of one history slot. */
  lemma HistorySloadEffect(s: Journal, k: U256, skipCold: bool)
    requires WellFormed(s)
    ensures ReadsSlot(HistorySload(s, k, skipCold), s, k, skipCold)
  {
    if HISTORY in s.accounts {
      SloadReadsSlot(s, k, skipCold);
    }
    SloadEffect(s, HISTORY, k, skipCold);
    RollbackReadsSlot(s, k, skipCold);
  }

  lemma SlotLoadedThroughView(u: Journal, t: Journal, s: Journal, a: Address, k: U256)
    requires SlotLoaded(u, t, a, k) && SameView(t, s)
    ensures SlotLoaded(u, s, a, k)
  {
    forall b: Address
      ensures u.InfoOf(b) == s.InfoOf(b) && u.IsTouched(b) == s.IsTouched(b)
      ensures u.IsAccountWarm(b) == s.IsAccountWarm(b)
    {
      assert SameAt(t, s, b);
    }
    forall b: Address, j: U256
      ensures u.Value(b, j) == s.Value(b, j)
      ensures u.IsSlotWarm(b, j) <==> (b == a && j == k) || s.IsSlotWarm(b, j)
    {
      assert SameAt(t, s, b) && SameSlotAt(t, s, b, j);
    }
  }

  /** The two ways of reading leave journals that differ only in when the history account's own
      metadata is refreshed. */
  ghost predicate SameButHistoryMetadata(slow: Journal, fast: Journal) {
    || slow == fast
    || (&& HISTORY in slow.accounts && HISTORY in fast.accounts
        && slow == fast.(accounts := fast.accounts[HISTORY := slow.accounts[HISTORY]])
        && SameButMetadata(slow.accounts[HISTORY], fast.accounts[HISTORY]))
  }

  lemma FastPathResult(s: Journal, k: U256, skipCold: bool)
    requires WellFormed(s)
    ensures var fast, slow := HistorySload(s, k, skipCold), SloadAfterRollback(s, k, skipCold);
      slow.result == fast.result && SameButHistoryMetadata(slow.journal, fast.journal)
  {
    hide LoadAccount, UndoTo;
    if SloadSkipColdLoad(s, HISTORY, k, skipCold).result != Err(ColdLoadSkipped) {
      PreparedCachedAccount(s);
      var p := PrepareHistory(s).journal;
      hide PrepareHistory;
      SloadIgnoresMetadata(s, p, k, skipCold);
      hide SloadSkipColdLoad, SameButHistoryMetadata;
    } else {
      hide SloadSkipColdLoad, PrepareHistory;
    }
  }

  /** The fast path is exact: reading the cached account, or always preparing it under a checkpoint
      first, gives the same value or error, the same warmth, log, slots and database reads. */
  lemma FastPathMatchesRollback(s: Journal, k: U256, skipCold: bool)
    requires WellFormed(s)
    ensures var fast, slow := HistorySload(s, k, skipCold), SloadAfterRollback(s, k, skipCold);
      && slow.result == fast.result
      && SameButHistoryMetadata(slow.journal, fast.journal)
      && SameView(slow.journal, fast.journal)
  {
    var fast, slow := HistorySload(s, k, skipCold), SloadAfterRollback(s, k, skipCold);
    FastPathResult(s, k, skipCold);
    RollbackReadsSlot(s, k, skipCold);
    HistorySloadEffect(s, k, skipCold);
    ReadsSlotUnique(slow, fast, s, k, skipCold);
  }

  lemma SloadIgnoresMetadata(s: Journal, p: Journal, k: U256, skipCold: bool)
    requires HISTORY in s.accounts && HISTORY in p.accounts
    requires p == s.(accounts := s.accounts[HISTORY := p.accounts[HISTORY]])
    requires SameButMetadata(p.accounts[HISTORY], s.accounts[HISTORY])
    ensures var slow, fast :=
        SloadSkipColdLoad(p, HISTORY, k, skipCold), SloadSkipColdLoad(s, HISTORY, k, skipCold);
      slow.result == fast.result && SameButHistoryMetadata(slow.journal, fast.journal)
  {
  }

  lemma ReadsSlotUnique(slow: Step<StateLoad<U256>, LoadError>, fast: Step<StateLoad<U256>, LoadError>,
                        s: Journal, k: U256, skipCold: bool)
    requires ReadsSlot(slow, s, k, skipCold) && ReadsSlot(fast, s, k, skipCold)
    requires slow.result.Ok? <==> fast.result.Ok?
    ensures SameView(slow.journal, fast.journal)
  {
    if fast.result.Ok? {
      SlotLoadedUnique(slow.journal, fast.journal, s, HISTORY, k);
    } else {
      SameViewSymmetric(fast.journal, s);
      SameViewTransitive(slow.journal, s, fast.journal);
    }
  }

  lemma SlotLoadedUnique(u: Journal, t: Journal, s: Journal, a: Address, k: U256)
    requires SlotLoaded(u, s, a, k) && SlotLoaded(t, s, a, k)
    ensures SameView(u, t)
  {
  }

  // The reference: what EIP-7709 promises, stated without the journal's mechanics.

  predicate InWindow(number: nat, blockNumber: nat) {
    number < blockNumber <= number + 256
  }

  /** 20 for the opcode, and from TsukiV2 the SLOAD price of the history slot for an ancestor. */
  function Cost(env: Env, s: Journal, number: U256): nat {
    if !InWindow(number, env.blockNumber) || !env.spec.IsEnabledIn(TSUKI_V2) then 20
    else if s.IsSlotWarm(HISTORY, RingIndex(number)) then 120
    else 2120
  }

  function Word(env: Env, s: Journal, number: U256): U256 {
    if !InWindow(number, env.blockNumber) then 0
    else if !env.spec.IsEnabledIn(FEYNMAN) then
      env.hashOf(Min(env.chainId, U64_MAX), Min(number, U64_MAX))
    else s.Value(HISTORY, RingIndex(number))
  }

  /** The view after a paid BLOCKHASH. */
  ghost predicate Performed(env: Env, t: Journal, s: Journal, number: U256) {
    if !InWindow(number, env.blockNumber) || !env.spec.IsEnabledIn(FEYNMAN) then t == s
    else if env.spec.IsEnabledIn(TSUKI_V2) then
      && SlotLoaded(t, s, HISTORY, RingIndex(number))
      && |t.log| <= |s.log| + 1
      && (s.IsSlotWarm(HISTORY, RingIndex(number)) ==> |t.log| == |s.log|)
    else
      exists u :: AccountsLoaded(u, s, CodeAccounts(HISTORY, s.InfoOf(HISTORY)))
                  && SlotLoaded(t, u, HISTORY, RingIndex(number))
  }

  lemma WindowTest(number: U256, blockNumber: U256)
    ensures InWindow(number, blockNumber)
       <==> number <= blockNumber
            && AsU64Saturated(blockNumber - number) != 0
            && AsU64Saturated(blockNumber - number) <= HASH_HISTORY
  {
  }

  /** The number that is asked for. */
  function Asked(f: Frame): U256
    requires f.stack != []
  {
    f.stack[|f.stack| - 1]
  }

  /** The frame after an answer: the top word replaced, every word below it kept, the cost charged. */
  function Answered(f: Frame, cost: nat, word: U256): Frame
    requires f.stack != [] && cost <= f.gas
  {
    Frame(f.stack[..|f.stack| - 1] + [word], f.gas - cost, None)
  }

  /** The frame after running out of gas: the stack kept, all gas spent. */
  function Starved(f: Frame): Frame {
    Frame(f.stack, 0, Some(OutOfGas))
  }

  lemma MeteredReadEffect(s: Journal, f: Frame, k: U256)
    requires WellFormed(s) && s.db.Healthy() && f.Ready()
    ensures var (t, g) := MeteredRead(s, f, k);
      var cost := if s.IsSlotWarm(HISTORY, k) then 100 else 2100;
      && Extends(t, s)
      && (f.gas < cost ==> g == Starved(f) && NoTrace(t, s))
      && (cost <= f.gas ==>
            && g == Answered(f, cost, s.Value(HISTORY, k))
            && SlotLoaded(t, s, HISTORY, k)
            && |t.log| == |s.log| + if s.IsSlotWarm(HISTORY, k) then 0 else 1)
  {
    hide WellFormed, Extends, SlotLoaded, SameView;
    if f.gas < WARM_READ_COST {
      ExtendsReflexive(s);
      ViewOfAccounts(s, s);
    } else {
      HistorySloadEffect(s, k, f.gas - WARM_READ_COST < COLD_SLOT_COST);
    }
  }

  lemma UnmeteredReadEffect(s: Journal, f: Frame, k: U256)
    requires WellFormed(s) && s.db.Healthy() && f.Ready()
    ensures var (t, g) := UnmeteredRead(s, f, k);
      && Extends(t, s)
      && g == Answered(f, 0, s.Value(HISTORY, k))
      && (exists u :: AccountsLoaded(u, s, CodeAccounts(HISTORY, s.InfoOf(HISTORY))) && SlotLoaded(t, u, HISTORY, k))
  {
    hide WellFormed, Extends;
    var loaded := LoadAccountDelegated(s, HISTORY).journal;
    LoadAccountDelegatedEffect(s, HISTORY);
    hide LoadAccountDelegated;
    ExtendsKeepsContext(loaded, s);
    SloadEffect(loaded, HISTORY, k, false);
    assert SameSlotAt(loaded, s, HISTORY, k);
    ExtendsTransitive(s, loaded, SloadSkipColdLoad(loaded, HISTORY, k, false).journal);
  }

  lemma ExecuteByWindow(env: Env, s: Journal, f: Frame)
    requires f.stack != [] && BASE_COST <= f.gas
    ensures var paid := f.(gas := f.gas - BASE_COST);
      Execute(env, s, f)
      == if !InWindow(f.Top(), env.blockNumber) then (s, paid.WithTop(0))
         else if !env.spec.IsEnabledIn(FEYNMAN) then (s, paid.WithTop(Word(env, s, f.Top())))
         else if env.spec.IsEnabledIn(TSUKI_V2) then MeteredRead(s, paid, RingIndex(f.Top()))
         else UnmeteredRead(s, paid, RingIndex(f.Top()))
  {
  }

  /** The outcome that EIP-7709 asks for: with enough gas for the reference cost, the reference word
      at that cost and at most the one slot warm; otherwise an out-of-gas halt without a trace. */
  ghost predicate Meets(r: (Journal, Frame), env: Env, s: Journal, f: Frame)
    requires f.stack != []
  {
    var cost := Cost(env, s, Asked(f));
    && Extends(r.0, s)
    && (f.gas < cost ==> r.1 == Starved(f) && NoTrace(r.0, s))
    && (cost <= f.gas ==>
          && r.1 == Answered(f, cost, Word(env, s, Asked(f)))
          && Performed(env, r.0, s, Asked(f)))
  }

  lemma MeetsWithoutRead(env: Env, s: Journal, f: Frame, word: U256)
    requires WellFormed(s) && f.Ready() && BASE_COST <= f.gas
    requires !InWindow(f.Top(), env.blockNumber) || !env.spec.IsEnabledIn(FEYNMAN)
    requires word == Word(env, s, f.Top())
    ensures Meets((s, f.(gas := f.gas - BASE_COST).WithTop(word)), env, s, f)
  {
  }

  lemma MeetsMetered(env: Env, s: Journal, f: Frame)
    requires WellFormed(s) && s.db.Healthy() && f.Ready() && BASE_COST <= f.gas
    requires InWindow(f.Top(), env.blockNumber) && env.spec.IsEnabledIn(TSUKI_V2)
    ensures Meets(MeteredRead(s, f.(gas := f.gas - BASE_COST), RingIndex(f.Top())), env, s, f)
  {
    hide WellFormed, Extends, NoTrace, SlotLoaded, RingIndex, MeteredRead, SameView;
    MeteredReadEffect(s, f.(gas := f.gas - BASE_COST), RingIndex(f.Top()));
  }

  lemma MeetsUnmetered(env: Env, s: Journal, f: Frame)
    requires WellFormed(s) && s.db.Healthy() && f.Ready() && BASE_COST <= f.gas
    requires InWindow(f.Top(), env.blockNumber)
    requires env.spec.IsEnabledIn(FEYNMAN) && !env.spec.IsEnabledIn(TSUKI_V2)
    ensures Meets(UnmeteredRead(s, f.(gas := f.gas - BASE_COST), RingIndex(f.Top())), env, s, f)
  {
    hide WellFormed, Extends, NoTrace, SlotLoaded, AccountsLoaded, RingIndex;
    UnmeteredReadEffect(s, f.(gas := f.gas - BASE_COST), RingIndex(f.Top()));
    hide UnmeteredRead;
  }

  lemma MeetsWithoutBaseGas(env: Env, s: Journal, f: Frame)
    requires WellFormed(s) && f.Ready() && f.gas < BASE_COST
    ensures Meets(Execute(env, s, f), env, s, f)
  {
  }

  /** BLOCKHASH succeeds exactly when its gas covers the reference cost. Then it returns the
      reference word, charges exactly that cost and warms at most the one slot; otherwise it halts
      out of gas, having read no storage and left no trace. */
  lemma BlockhashMeetsReference(env: Env, s: Journal, f: Frame)
    requires WellFormed(s) && s.db.Healthy() && f.Ready()
    ensures Meets(Execute(env, s, f), env, s, f)
  {
    hide Meets, Execute, MeteredRead, UnmeteredRead, WellFormed;
    if f.gas < BASE_COST {
      MeetsWithoutBaseGas(env, s, f);
    } else {
      ExecuteByWindow(env, s, f);
      if !InWindow(f.Top(), env.blockNumber) || !env.spec.IsEnabledIn(FEYNMAN) {
        MeetsWithoutRead(env, s, f, Word(env, s, f.Top()));
      } else if env.spec.IsEnabledIn(TSUKI_V2) {
        MeetsMetered(env, s, f);
      } else {
        MeetsUnmetered(env, s, f);
      }
    }
  }

  /** From TsukiV2, no account's warmth ever changes, whatever the gas and even if the database
      fails; and no halt leaves a checkpoint open, a log entry, or a warm slot behind. */
  lemma BlockhashNeverWarmsAnAccount(env: Env, s: Journal, f: Frame)
    requires WellFormed(s) && env.spec.IsEnabledIn(TSUKI_V2) && f.halt.None?
    ensures var (t, g) := Execute(env, s, f);
      && Extends(t, s) && t.depth == s.depth && |t.log| <= |s.log| + 1
      && (forall a: Address :: t.IsAccountWarm(a) == s.IsAccountWarm(a))
      && (g.halt.Some? ==> SameView(t, s) && t.log == s.log)
      && (g.halt == Some(FatalExternalError) ==> !s.db.Healthy())
  {
    ExtendsReflexive(s);
    ViewOfAccounts(s, s);
    ExecuteCases(env, s, f);
    if Execute(env, s, f).0 != s || Execute(env, s, f).1.halt == Some(FatalExternalError) {
      MeteredReadNeverWarmsAnAccount(s, f.(gas := f.gas - BASE_COST), RingIndex(f.Top()));
    }
    hide Execute, MeteredRead;
  }

  lemma ExecuteCases(env: Env, s: Journal, f: Frame)
    requires env.spec.IsEnabledIn(TSUKI_V2) && f.halt.None?
    ensures var r := Execute(env, s, f);
      || (r.0 == s && r.1.halt != Some(FatalExternalError))
      || (&& BASE_COST <= f.gas && f.stack != []
          && r == MeteredRead(s, f.(gas := f.gas - BASE_COST), RingIndex(f.Top())))
  {
    hide MeteredRead;
  }

  lemma MeteredReadNeverWarmsAnAccount(s: Journal, f: Frame, k: U256)
    requires WellFormed(s) && f.Ready()
    ensures var (t, g) := MeteredRead(s, f, k);
      && Extends(t, s) && |t.log| <= |s.log| + 1
      && (forall a: Address :: t.IsAccountWarm(a) == s.IsAccountWarm(a))
      && (g.halt.Some? ==> SameView(t, s) && t.log == s.log)
      && (g.halt == Some(FatalExternalError) ==> !s.db.Healthy())
  {
    var skipCold := f.gas - WARM_READ_COST < COLD_SLOT_COST;
    var r := HistorySload(s, k, skipCold);
    HistorySloadEffect(s, k, skipCold);
    ExtendsReflexive(s);
    ViewOfAccounts(s, s);
    hide HistorySload;
    if r.result.Err? {
      forall a: Address ensures r.journal.IsAccountWarm(a) == s.IsAccountWarm(a) {
        assert SameAt(r.journal, s, a);
      }
    }
  }

  // Failures.

  lemma PrepareHistoryFails(s: Journal)
    requires WellFormed(s)
    ensures PrepareHistory(s).result.Err? <==> Unloadable(s, HISTORY)
  {
  }

  /** The history read fails exactly if the account cannot be loaded, or the slot cannot be read and is
      not skipped. */
  lemma HistorySloadFails(s: Journal, k: U256, skipCold: bool)
    requires WellFormed(s)
    ensures HistorySload(s, k, skipCold).result == Err(DBError)
       <==> Unloadable(s, HISTORY)
            || (Unreadable(s, HISTORY, k) && (s.IsSlotWarm(HISTORY, k) || !skipCold))
  {
    SloadEffect(s, HISTORY, k, skipCold);
    PrepareHistoryFails(s);
    PrepareHistoryEffect(s);
    var p := PrepareHistory(s).journal;
    hide PrepareHistory, Extends, SameView, SlotLoaded;
    if HISTORY !in s.accounts && HISTORY in p.accounts {
      PreparedAccounts(s);
      SloadEffect(p, HISTORY, k, skipCold);
      SameReadability(p, s, k);
    }
    hide SloadSkipColdLoad;
  }

  lemma SameReadability(p: Journal, s: Journal, k: U256)
    requires p == PrepareHistory(s).journal && WellFormed(s)
    ensures Unreadable(p, HISTORY, k) == Unreadable(s, HISTORY, k)
    ensures p.IsSlotWarm(HISTORY, k) == s.IsSlotWarm(HISTORY, k)
  {
    PrepareHistoryEffect(s);
    PreparedAccounts(s);
    assert StorageOf(p, HISTORY) == StorageOf(s, HISTORY);
    assert SameAt(p, s, HISTORY) && SameSlotAt(p, s, HISTORY, k);
    hide PrepareHistory;
  }

  /** The account, or the one it delegates to, cannot be loaded. */
  predicate CodeUnloadable(s: Journal, a: Address) {
    Unloadable(s, a) || (s.InfoOf(a).code.Delegation? && Unloadable(s, s.InfoOf(a).code.target))
  }

  /** The lookup needs the database and the database fails. */
  predicate LookupFails(env: Env, s: Journal, k: U256, gas: U64) {
    if env.spec.IsEnabledIn(TSUKI_V2) then
      && 120 <= gas
      && (Unloadable(s, HISTORY)
          || (Unreadable(s, HISTORY, k) && (s.IsSlotWarm(HISTORY, k) || 2120 <= gas)))
    else
      20 <= gas && (CodeUnloadable(s, HISTORY) || Unreadable(s, HISTORY, k))
  }

  lemma MeteredReadHalts(s: Journal, f: Frame, k: U256)
    requires f.Ready()
    ensures var g := MeteredRead(s, f, k).1;
      && (g.halt == Some(FatalExternalError)
          <==> 100 <= f.gas && HistorySload(s, k, f.gas - 100 < 2000).result == Err(DBError))
      && (g.halt == Some(FatalExternalError) ==> g == Frame(f.stack, f.gas - 100, Some(FatalExternalError)))
  {
    hide HistorySload;
  }

  lemma MeteredReadFails(env: Env, s: Journal, f: Frame, k: U256)
    requires WellFormed(s) && f.Ready() && 20 <= f.gas && env.spec.IsEnabledIn(TSUKI_V2)
    ensures var g := MeteredRead(s, f.(gas := f.gas - 20), k).1;
      && (g.halt == Some(FatalExternalError) <==> LookupFails(env, s, k, f.gas))
      && (g.halt == Some(FatalExternalError) ==> g == Frame(f.stack, f.gas - 120, Some(FatalExternalError)))
  {
    MeteredReadHalts(s, f.(gas := f.gas - 20), k);
    hide MeteredRead, HistorySload, WellFormed;
    if 120 <= f.gas {
      HistorySloadFails(s, k, f.gas - 120 < 2000);
    }
  }

  lemma UnmeteredReadFails(env: Env, s: Journal, f: Frame, k: U256)
    requires WellFormed(s) && f.Ready() && 20 <= f.gas && !env.spec.IsEnabledIn(TSUKI_V2)
    ensures var g := UnmeteredRead(s, f.(gas := f.gas - 20), k).1;
      && (g.halt == Some(FatalExternalError) <==> LookupFails(env, s, k, f.gas))
      && (g.halt == Some(FatalExternalError) ==> g == Frame(f.stack, f.gas - 20, Some(FatalExternalError)))
  {
    DelegatedFails(s, HISTORY);
    var loaded := LoadAccountDelegated(s, HISTORY);
    if loaded.result.Ok? {
      SloadEffect(loaded.journal, HISTORY, k, false);
    }
    hide LoadAccountDelegated, SloadSkipColdLoad, WellFormed, Extends, SlotLoaded, SameView;
  }

  lemma DelegatedFails(s: Journal, a: Address)
    requires WellFormed(s)
    ensures var r := LoadAccountDelegated(s, a);
      && (r.result.Err? <==> CodeUnloadable(s, a))
      && (r.result.Ok? ==> a in r.journal.accounts && WellFormed(r.journal))
      && forall k: U256 :: Unreadable(r.journal, a, k) == Unreadable(s, a, k)
  {
    hide WellFormed, Extends, SameView, AccountLoaded;
    var t := LoadAccount(s, a).journal;
    LoadAccountEffect(s, a);
    LoadKeepsReadability(s, a);
    ExtendsKeepsContext(t, s);
    if LoadAccount(s, a).result.Ok? && s.InfoOf(a).code.Delegation? {
      var target := s.InfoOf(a).code.target;
      LoadAccountEffect(t, target);
      LoadKeepsReadability(t, target);
      ExtendsKeepsContext(LoadAccount(t, target).journal, t);
    }
    hide LoadAccount, Unloadable, Unreadable;
  }

  /** Every halt that is not for want of gas: an empty stack, after the base cost; and a failing
      database, exactly when the lookup needs it, with the charges up to that point. */
  lemma BlockhashHaltsExactly(env: Env, s: Journal, f: Frame)
    requires WellFormed(s) && f.halt.None?
    ensures var g := Execute(env, s, f).1;
      && (f.stack == [] ==>
            g == if f.gas < 20 then Frame([], 0, Some(OutOfGas)) else Frame([], f.gas - 20, Some(StackUnderflow)))
      && (f.stack != [] ==>
            && (g.halt == Some(FatalExternalError)
                <==> InWindow(Asked(f), env.blockNumber) && env.spec.IsEnabledIn(FEYNMAN)
                     && LookupFails(env, s, RingIndex(Asked(f)), f.gas))
            && (g.halt == Some(FatalExternalError) ==>
                  g == Frame(f.stack, f.gas - (if env.spec.IsEnabledIn(TSUKI_V2) then 120 else 20),
                             Some(FatalExternalError))))
  {
    if f.stack != [] && BASE_COST <= f.gas {
      ExecuteByWindow(env, s, f);
      if env.spec.IsEnabledIn(TSUKI_V2) {
        MeteredReadFails(env, s, f, RingIndex(Asked(f)));
      } else {
        UnmeteredReadFails(env, s, f, RingIndex(Asked(f)));
      }
      hide Execute, MeteredRead, UnmeteredRead, LookupFails, RingIndex, Word;
    } else {
      hide MeteredRead, UnmeteredRead, LookupFails;
    }
  }
}
