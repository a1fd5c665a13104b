/** Lists of transactions and commits: conservation, and what prices each fee. */
module LedgerRuns {
  import opened Words
  import opened Specs
  import opened JournalState
  import opened JournalLaws
  import opened Commits
  import opened Supply
  import opened Transactions
  import opened GasSettlement
  import opened L1Block
  import L1FeeLaws
  import opened FeeLifecycle
  import opened FeeLaws
  import opened StorageLaws
  import opened SettlementLaws
  import opened LedgerLaws
  import OracleRead
  import OracleReadLaws
  import opened Runs
  import RunLaws
  import AccessLists

  /** A transaction with its configuration, its block and its execution. */
  datatype Job = Job(cfg: Cfg, block: Block, tx: Tx, intrinsic: Intrinsic, exec: Execution)

  /** What happens to the ledger: a transaction, or a commit of the journal to the database. */
  datatype Event = Submit(job: Job) | Finalize

  function TransactJob(s: Journal, info: L1BlockInfo, job: Job): Transacted {
    Transact(s, info, job.cfg, job.block, job.tx, job.intrinsic, job.exec)
  }

  /** The journal with which execution of `job` starts. */
  function Started(s: Journal, info: L1BlockInfo, job: Job): Journal {
    PreExecution(s, info, job.cfg, job.block, job.tx).0.journal
  }

  function Process(s: Journal, info: L1BlockInfo, event: Event): (Journal, L1BlockInfo) {
    match event
    case Finalize => (Finalized(s), info)
    case Submit(job) =>
      var r := TransactJob(s, info, job);
      (r.journal, r.info)
  }

  /** Transactions one after the other, across forks, with commits between any two of them. */
  function TransactAll(s: Journal, info: L1BlockInfo, events: seq<Event>): (Journal, L1BlockInfo)
    decreases |events|
  {
    if events == [] then (s, info)
    else
      var last := |events| - 1;
      var (t, current) := TransactAll(s, info, events[..last]);
      Process(t, current, events[last])
  }

  ghost predicate FaithfulJob(job: Job) {
    FaithfulTo(job.exec, job.cfg, job.tx, job.intrinsic)
  }

  ghost predicate FaithfulEvent(event: Event) {
    event.Submit? ==> FaithfulJob(event.job)
  }

  ghost predicate AllFaithful(events: seq<Event>) {
    forall i :: 0 <= i < |events| ==> FaithfulEvent(events[i])
  }

  // Conservation.

  predicate JobFits(s: Journal, info: L1BlockInfo, job: Job) {
    TransactionFits(s, info, job.cfg, job.block, job.tx, job.intrinsic, job.exec)
  }

  predicate EventFits(s: Journal, info: L1BlockInfo, event: Event) {
    event.Submit? ==> JobFits(s, info, event.job)
  }

  /** In every transaction of the run that is not rejected, both credits of the settlement fit. */
  predicate EveryCreditFits(s: Journal, info: L1BlockInfo, events: seq<Event>)
    decreases |events|
  {
    events == []
    || (var last := |events| - 1;
        var (t, current) := TransactAll(s, info, events[..last]);
        EveryCreditFits(s, info, events[..last]) && EventFits(t, current, events[last]))
  }

  /** A commit leaves a ledger, with every account, every slot and the total as they were. */
  lemma CommitKeepsLedger(s: Journal)
    requires Ledger(s)
    ensures Ledger(Finalized(s)) && SupplyOf(Finalized(s)) == SupplyOf(s)
    ensures SameInfos(Finalized(s), s) && SameValues(Finalized(s), s)
  {
    CommitKeepsExactly(s);
    CommitKeepsSupply(s);
    CommittedIsHealthy(s);
    FreshLedger(Committed(s));
    hide *;
  }

  lemma FreshLedger(db: Database)
    requires db.Healthy()
    ensures Ledger(Fresh(db))
  {
  }

  lemma JobConserves(s: Journal, info: L1BlockInfo, job: Job)
    requires Ledger(s) && FaithfulJob(job)
    ensures var t := TransactJob(s, info, job).journal;
      && Ledger(t) && SupplyOf(t) <= SupplyOf(s)
      && (SupplyOf(t) == SupplyOf(s) <==> JobFits(s, info, job))
  {
    TransactConserves(s, info, job.cfg, job.block, job.tx, job.intrinsic, job.exec);
    hide Transact, Ledger, FaithfulTo, TransactionFits, SupplyOf;
  }

  lemma EventConserves(s: Journal, info: L1BlockInfo, event: Event)
    requires Ledger(s) && FaithfulEvent(event)
    ensures var t := Process(s, info, event).0;
      && Ledger(t) && SupplyOf(t) <= SupplyOf(s)
      && (SupplyOf(t) == SupplyOf(s) <==> EventFits(s, info, event))
  {
    match event
    case Finalize => CommitKeepsLedger(s);
    case Submit(job) => JobConserves(s, info, job);
    hide Ledger, FaithfulJob, TransactJob, JobFits, SupplyOf, Finalized;
  }

  /** Over every list of transactions, of every class and under every fork, with commits in between, the
      total of all balances never changes exactly if no credit overflows a word, and never grows. */
  lemma {:induction false} RunConservesSupply(s: Journal, info: L1BlockInfo, events: seq<Event>)
    requires Ledger(s) && AllFaithful(events)
    ensures var t := TransactAll(s, info, events).0;
      && Ledger(t) && SupplyOf(t) <= SupplyOf(s)
      && (SupplyOf(t) == SupplyOf(s) <==> EveryCreditFits(s, info, events))
    decreases |events|
  {
    hide Process, EventFits, Ledger, FaithfulEvent, SupplyOf;
    if events == [] {
    } else {
      var last := |events| - 1;
      RunConservesSupply(s, info, events[..last]);
      var (t, current) := TransactAll(s, info, events[..last]);
      EventConserves(t, current, events[last]);
    }
  }

  /** A ledger that fits in a word as a whole never loses anything. */
  lemma {:induction false} BoundedLedgerFits(s: Journal, info: L1BlockInfo, events: seq<Event>)
    requires Ledger(s) && AllFaithful(events) && SupplyOf(s) <= U256_MAX
    ensures EveryCreditFits(s, info, events) && SupplyOf(TransactAll(s, info, events).0) == SupplyOf(s)
    decreases |events|
  {
    hide Process, Ledger, SupplyOf;
    RunConservesSupply(s, info, events);
    if events == [] {
    } else {
      var last := |events| - 1;
      BoundedLedgerFits(s, info, events[..last]);
      RunConservesSupply(s, info, events[..last]);
      assert FaithfulEvent(events[last]);
      hide JobFits, FaithfulJob;
      if events[last].Submit? {
        var (t, current) := TransactAll(s, info, events[..last]);
        BoundedJobFits(t, current, events[last].job);
      }
    }
  }

  lemma BoundedJobFits(s: Journal, info: L1BlockInfo, job: Job)
    requires Ledger(s) && FaithfulJob(job) && SupplyOf(s) <= U256_MAX
    ensures JobFits(s, info, job)
  {
    hide *;
    var r := TransactJob(s, info, job);
    var d := Started(s, info, job);
    var fee := FeeAt(s, info, job.cfg, job.tx);
    JobMeaning(s, info, job);
    TransactConserves(s, info, job.cfg, job.block, job.tx, job.intrinsic, job.exec);
    if r.result.Ok? && !job.tx.IsL1Msg() {
      ExecutedSupply(s, info, job);
      PrepaidIsPaidOut(job.block, job.tx, r.result.value.gasUsed, fee);
      BoundedSupplyFits(job.exec(d).journal, job.tx.caller, BackOf(job.block, job.tx, r.result.value.gasUsed),
                        job.block.beneficiary, EarnedOf(job.block, job.tx, r.result.value.gasUsed, fee));
    }
  }

  lemma JobMeaning(s: Journal, info: L1BlockInfo, job: Job)
    ensures Started(s, info, job) == PreExecution(s, info, job.cfg, job.block, job.tx).0.journal
    ensures FaithfulJob(job) <==> FaithfulTo(job.exec, job.cfg, job.tx, job.intrinsic)
    ensures var r, d := TransactJob(s, info, job), Started(s, info, job);
      && r == Transact(s, info, job.cfg, job.block, job.tx, job.intrinsic, job.exec)
      && (JobFits(s, info, job)
          <==> (r.result.Ok? && !job.tx.IsL1Msg() ==>
                  BothFit(job.exec(d).journal, job.tx.caller, BackOf(job.block, job.tx, r.result.value.gasUsed),
                          job.block.beneficiary,
                          EarnedOf(job.block, job.tx, r.result.value.gasUsed, FeeAt(s, info, job.cfg, job.tx)))))
  {
    hide Transact, PreExecution, FeeAt, BothFit, BackOf, EarnedOf;
  }

  lemma PrepaidIsPaidOut(block: Block, tx: Tx, used: nat, fee: nat)
    requires used <= tx.gasLimit
    ensures BackOf(block, tx, used) + EarnedOf(block, tx, used, fee) == PrepaidOf(block, tx, fee)
  {
  }

  /** Execution of an accepted transaction finds the total short of what was deducted. */
  lemma ExecutedSupply(s: Journal, info: L1BlockInfo, job: Job)
    requires Ledger(s) && FaithfulJob(job)
    requires TransactJob(s, info, job).result.Ok? && !job.tx.IsL1Msg()
    ensures var d := Started(s, info, job);
      && TransactJob(s, info, job).result.value.gasUsed <= job.tx.gasLimit
      && SupplyOf(job.exec(d).journal) == SupplyOf(s) - PrepaidOf(job.block, job.tx, FeeAt(s, info, job.cfg, job.tx))
  {
    hide *;
    var d := Started(s, info, job);
    var fee := FeeAt(s, info, job.cfg, job.tx);
    JobMeaning(s, info, job);
    TransactConserves(s, info, job.cfg, job.block, job.tx, job.intrinsic, job.exec);
    LedgerBasics(s);
    PreExecutionEffect(s, info, job.cfg, job.block, job.tx);
    ShapeOfTransaction(s, info, job.cfg, job.block, job.tx, job.intrinsic, job.exec);
    FaithfulWhenValid(job.exec, job.cfg, job.tx, job.intrinsic);
    var gas := ValidateInitialTxGas(job.cfg, job.tx, job.intrinsic).value;
    FaithfulAt(job.exec, job.tx.gasLimit - gas.initial, d);
    ChargesOf(TransactJob(s, info, job), s, d, fee, job);
    ChargedSupply(d, s, job.tx, PrepaidOf(job.block, job.tx, fee));
  }

  lemma ChargesOf(r: Transacted, s: Journal, d: Journal, fee: nat, job: Job)
    requires r.result.Ok? && !job.tx.IsL1Msg()
    requires Executes(r.journal, r.result.value, s, d, fee, job.block, job.tx, job.exec)
    ensures r.result.value.gasUsed <= job.tx.gasLimit
    ensures Charged(d, s, job.tx, PrepaidOf(job.block, job.tx, fee))
  {
  }

  // A ledger that does not fit in a word.

  /** Spends all its gas and does nothing else. */
  function Idle(): Execution {
    (s: Journal) => Outcome(s, Success, 0, 0, 0)
  }

  lemma IdleIsFaithful(budget: nat)
    ensures Faithful(Idle(), budget)
  {
  }

  const MINER: Address := 1

  /** A system transaction, in a block whose beneficiary is as rich as can be. */
  function Overpaid(): Job {
    Job(Cfg(SHANGHAI, false, false),
        Block(0, MINER),
        Tx(Legacy, SYSTEM_ADDRESS, 0, 21_000, 1, None, 0, true, [], None, None, None),
        (tx: Tx, accounts: nat, slots: nat) => InitialGas(21_000, 0),
        Idle())
  }

  function RichMiner(): Journal {
    Fresh(Database(map[SYSTEM_ADDRESS := Info(21_000, 0, NoCode), MINER := Info(U256_MAX, 0, NoCode)], map[], {}, {}))
  }

  lemma RichMinerIsALedger()
    ensures Ledger(RichMiner())
  {
  }

  lemma OverpaidIsDeducted(info: L1BlockInfo)
    ensures var s, job := RichMiner(), Overpaid();
      var r := PreExecution(s, info, job.cfg, job.block, job.tx).0;
      && r.result.Ok? && Charged(r.journal, s, job.tx, 21_000)
      && s.Balance(SYSTEM_ADDRESS) == 21_000 && s.Balance(MINER) == U256_MAX
  {
  }

  lemma OverpaidReceipt(info: L1BlockInfo, d: Journal)
    ensures var job, gas := Overpaid(), InitialGas(21_000, 0);
      && ValidateInitialTxGas(job.cfg, job.tx, job.intrinsic) == Ok(gas)
      && ReceiptOf(job.tx, job.exec(d), gas) == Receipt(Success, 21_000)
      && !job.tx.IsFeeCharged() && MaxCost(job.tx) <= U128_MAX
      && BackOf(job.block, job.tx, 21_000) == 0 && EarnedOf(job.block, job.tx, 21_000, 0) == 21_000
      && Deducted(info, job.cfg, job.block, job.tx) == 21_000 && L1FeeOf(info, job.cfg, job.tx) == 0
  {
  }

  /** A whole transaction that is executed, pays for its gas, and loses it: the beneficiary cannot take
      the reward, and nobody else gets it. */
  lemma RewardCanVanish(info: L1BlockInfo)
    ensures var r := TransactJob(RichMiner(), info, Overpaid());
      && r.result == Ok(Receipt(Success, 21_000))
      && r.journal.Balance(SYSTEM_ADDRESS) == 0 && r.journal.Balance(MINER) == U256_MAX
      && SupplyOf(r.journal) == SupplyOf(RichMiner()) - 21_000
  {
    var gas := InitialGas(21_000, 0);
    hide *;
    var s, job := RichMiner(), Overpaid();
    var (pre, current) := PreExecution(s, info, job.cfg, job.block, job.tx);
    var d := pre.journal;
    RichMinerIsALedger();
    LedgerBasics(s);
    OverpaidIsDeducted(info);
    PreExecutionEffect(s, info, job.cfg, job.block, job.tx);
    OverpaidReceipt(current, d);
    IdleIsFaithful(0);
    OverpaidIsIdle(d);
    ExecutedTransaction(s, d, current, job.cfg, job.block, job.tx, gas, job.exec);
    ShapeOfTransaction(s, info, job.cfg, job.block, job.tx, job.intrinsic, job.exec);
    JobMeaning(s, info, job);
    VanishedReward(s, d, TransactJob(s, info, job).journal);
  }

  lemma OverpaidIsIdle(d: Journal)
    ensures Overpaid().exec == Idle() && Overpaid().exec(d).journal == d
    ensures Overpaid().tx.gasLimit == 21_000 && !Overpaid().tx.IsL1Msg()
  {
  }

  lemma VanishedReward(s: Journal, d: Journal, t: Journal)
    requires s.Balance(SYSTEM_ADDRESS) == 21_000 && s.Balance(MINER) == U256_MAX
    requires Charged(d, s, Overpaid().tx, 21_000)
    requires Executes(t, Receipt(Success, 21_000), s, d, 0, Overpaid().block, Overpaid().tx, Overpaid().exec)
    ensures t.Balance(SYSTEM_ADDRESS) == 0 && t.Balance(MINER) == U256_MAX
    ensures SupplyOf(t) == SupplyOf(s) - 21_000
  {
    OverpaidReceipt(L1BlockInfo(0, 0, 0, None, None, None, None, None, None), d);
    ChargedSupply(d, s, Overpaid().tx, 21_000);
    PaidOutSupply(t, d, SYSTEM_ADDRESS, 0, MINER, 21_000);
    assert d.InfoOf(MINER) == s.InfoOf(MINER);
    hide SupplyOf, BackOf, EarnedOf;
  }

  // What prices a fee.

  /** What `event` leaves as the last executed transaction's journal, if it was `before`. */
  function LeftBy(s: Journal, info: L1BlockInfo, event: Event, before: Journal): Journal {
    if event.Submit? && TransactJob(s, info, event.job).result.Ok?
    then event.job.exec(Started(s, info, event.job)).journal
    else before
  }

  /** The journal as the last executed transaction's execution left it. */
  function LastLeft(s: Journal, info: L1BlockInfo, events: seq<Event>): Journal
    decreases |events|
  {
    if events == [] then s
    else
      var last := |events| - 1;
      var (t, current) := TransactAll(s, info, events[..last]);
      LeftBy(t, current, events[last], LastLeft(s, info, events[..last]))
  }

  lemma EventValues(s: Journal, info: L1BlockInfo, event: Event, before: Journal)
    requires Ledger(s) && FaithfulEvent(event) && SameValues(s, before)
    ensures SameValues(Process(s, info, event).0, LeftBy(s, info, event, before))
  {
    hide Ledger, FaithfulJob, TransactJob, SameValues, Started, SupplyOf, Finalized;
    match event
    case Finalize =>
      CommitKeepsLedger(s);
      SameValuesTransitive(Finalized(s), s, before);
    case Submit(job) =>
      JobValues(s, info, job);
      if TransactJob(s, info, job).result.Err? {
        SameValuesTransitive(TransactJob(s, info, job).journal, s, before);
      }
  }

  /** Only executions write storage: deductions, settlements, commits and discards in between do not. */
  lemma {:induction false} ValuesComeFromLastExecuted(s: Journal, info: L1BlockInfo, events: seq<Event>)
    requires Ledger(s) && AllFaithful(events)
    ensures SameValues(TransactAll(s, info, events).0, LastLeft(s, info, events))
    decreases |events|
  {
    hide Ledger, FaithfulEvent, Process, LeftBy, SupplyOf;
    if events == [] {
    } else {
      hide SameValues;
      var last := |events| - 1;
      ValuesComeFromLastExecuted(s, info, events[..last]);
      RunConservesSupply(s, info, events[..last]);
      var (t, current) := TransactAll(s, info, events[..last]);
      EventValues(t, current, events[last], LastLeft(s, info, events[..last]));
    }
  }

  lemma SameValuesTransitive(u: Journal, t: Journal, s: Journal)
    requires SameValues(u, t) && SameValues(t, s)
    ensures SameValues(u, s)
  {
  }

  lemma JobValues(s: Journal, info: L1BlockInfo, job: Job)
    requires Ledger(s) && FaithfulJob(job)
    ensures var r, d := TransactJob(s, info, job), Started(s, info, job);
      && (r.result.Ok? ==> SameValues(r.journal, job.exec(d).journal))
      && (r.result.Err? ==> SameValues(r.journal, s))
  {
    hide *;
    JobMeaning(s, info, job);
    TransactConserves(s, info, job.cfg, job.block, job.tx, job.intrinsic, job.exec);
    if TransactJob(s, info, job).result.Ok? {
      ValuesOf(TransactJob(s, info, job), s, Started(s, info, job),
               FeeAt(s, info, job.cfg, job.tx), job);
    }
  }

  lemma ValuesOf(r: Transacted, s: Journal, d: Journal, fee: nat, job: Job)
    requires r.result.Ok?
    requires Executes(r.journal, r.result.value, s, d, fee, job.block, job.tx, job.exec)
    ensures SameValues(r.journal, job.exec(d).journal)
  {
  }

  /** The exact fee of a transaction on given oracle contents, or why it has none. */
  function ExactFeeOf(s: Journal, cfg: Cfg, tx: Tx): Result<U256, TxError> {
    match tx.rlpBytes
    case None => Err(MissingRlpBytes)
    case Some(bytes) =>
      match L1FeeLaws.ExactFee(OracleReadLaws.OracleIn(s), bytes, cfg.spec, tx.compressionRatio, tx.compressedSize)
      case Ok(fee) => Ok(fee)
      case Err(error) => Err(L1Fee(error))
  }

  lemma FeeAtIsExact(s: Journal, left: Journal, info: L1BlockInfo, cfg: Cfg, tx: Tx)
    requires s.db.Healthy() && SameValues(s, left) && tx.IsFeeCharged()
    ensures RefreshedInfo(s, info, cfg, tx).Some?
    ensures TxL1Cost(RefreshedInfo(s, info, cfg, tx).value, tx, cfg.spec) == ExactFeeOf(left, cfg, tx)
    ensures ExactFeeOf(left, cfg, tx).Ok? ==> FeeAt(s, info, cfg, tx) == ExactFeeOf(left, cfg, tx).value
  {
    var bytes := if tx.rlpBytes.Some? then tx.rlpBytes.value else [];
    var o := OracleReadLaws.OracleIn(left);
    assert forall slot: U256 :: o(slot) == s.Value(L1_GAS_PRICE_ORACLE, slot);
    OracleReadLaws.FetchedFeeIsExact(s, o, cfg.spec, bytes, cfg.spec, tx.compressionRatio, tx.compressedSize);
    hide L1FeeLaws.ExactFee, TryCalculateTxL1Cost, OracleRead.TryFetchFromJournal, OracleReadLaws.OracleIn;
  }

  /** After every list of transactions and commits, the fee that the next one pays, and the equal amount that its
      beneficiary earns, is the exact fee on the oracle as the last executed transaction left it: writes
      not yet committed to the database count, those of rejected transactions do not, and nothing that
      its own execution writes matters. A fee-charged transaction without an exact fee is rejected. */
  lemma EveryFeeIsExact(s: Journal, info: L1BlockInfo, events: seq<Event>, job: Job)
    requires Ledger(s) && AllFaithful(events) && FaithfulJob(job)
    requires job.tx.IsFeeCharged()
    ensures var (t, current) := TransactAll(s, info, events);
      var r, d := TransactJob(t, current, job), Started(t, current, job);
      var fee := ExactFeeOf(LastLeft(s, info, events), job.cfg, job.tx);
      r.result.Ok? ==>
        fee.Ok? && Executes(r.journal, r.result.value, t, d, fee.value, job.block, job.tx, job.exec)
  {
    hide *;
    var (t, current) := TransactAll(s, info, events);
    RunConservesSupply(s, info, events);
    ValuesComeFromLastExecuted(s, info, events);
    LedgerIsHealthy(t);
    FeeAtIsExact(t, LastLeft(s, info, events), current, job.cfg, job.tx);
    JobMeaning(t, current, job);
    TransactConserves(t, current, job.cfg, job.block, job.tx, job.intrinsic, job.exec);
    if TransactJob(t, current, job).result.Ok? {
      AcceptedFeeIsValid(t, current, job);
    }
  }

  lemma LedgerIsHealthy(s: Journal)
    requires Ledger(s)
    ensures s.db.Healthy() && UntouchedMatchesDb(s)
  {
  }

  lemma AcceptedFeeIsValid(s: Journal, info: L1BlockInfo, job: Job)
    requires Ledger(s) && job.tx.IsFeeCharged() && RefreshedInfo(s, info, job.cfg, job.tx).Some?
    requires TransactJob(s, info, job).result.Ok?
    ensures TxL1Cost(RefreshedInfo(s, info, job.cfg, job.tx).value, job.tx, job.cfg.spec).Ok?
  {
    hide *;
    LedgerBasics(s);
    PreExecutionEffect(s, info, job.cfg, job.block, job.tx);
    JobMeaning(s, info, job);
    ShapeOfTransaction(s, info, job.cfg, job.block, job.tx, job.intrinsic, job.exec);
    InfoOfPreExecution(s, info, job.cfg, job.block, job.tx);
  }

  lemma InfoOfPreExecution(s: Journal, info: L1BlockInfo, cfg: Cfg, block: Block, tx: Tx)
    requires RefreshedInfo(s, info, cfg, tx).Some?
    ensures PreExecution(s, info, cfg, block, tx).1 == RefreshedInfo(s, info, cfg, tx).value
  {
  }

  /** After every list of transactions, the info that prices the next one is what the database would
      give after a commit of the touched accounts. */
  lemma PricedAtCommittedOracle(s: Journal, info: L1BlockInfo, events: seq<Event>, cfg: Cfg, tx: Tx)
    requires Ledger(s) && AllFaithful(events) && tx.IsFeeCharged()
    ensures var (t, current) := TransactAll(s, info, events);
      RefreshedInfo(t, current, cfg, tx) == OracleRead.TryFetch(Committed(t), cfg.spec)
  {
    hide TransactAll, AllFaithful, Ledger, UntouchedMatchesDb, SupplyOf;
    var t := TransactAll(s, info, events).0;
    RunConservesSupply(s, info, events);
    LedgerIsHealthy(t);
    OracleReadLaws.CommittedRead(t, cfg.spec);
    hide Committed, OracleRead.TryFetch, OracleRead.TryFetchFromJournal;
  }

  // Executions.

  /** Call frames that perform `ops`. */
  function Performing(ops: seq<Op>, status: Status, remaining: U64, refunded: I64, authRefund: I64): Execution {
    (s: Journal) => Outcome(RunFrom(s, ops).0, status, remaining, refunded, authRefund)
  }

  /** Every run of reads, writes, BLOCKHASH and transfer calls in nested frames, whatever is left open,
      committed or reverted, is an execution of the kind that the ledger's laws ask for. */
  lemma RunsAreFaithful(ops: seq<Op>, status: Status, remaining: U64, refunded: I64, authRefund: I64, budget: nat)
    requires AccessLists.LoadsNoList(ops) && remaining <= budget
    ensures Faithful(Performing(ops, status, remaining, refunded, authRefund), budget)
  {
    hide WellFormed, UntouchedMatchesDb, SupplyOf, RunFrom;
    forall s: Journal | InTransaction(s)
      ensures var t := RunFrom(s, ops).0;
        WellFormed(t) && t.db == s.db && UntouchedMatchesDb(t) && SupplyOf(t) == SupplyOf(s)
    {
      RunInTransaction(s, ops);
    }
  }

  lemma RunInTransaction(s: Journal, ops: seq<Op>)
    requires InTransaction(s) && AccessLists.LoadsNoList(ops)
    ensures var t := RunFrom(s, ops).0;
      WellFormed(t) && t.db == s.db && UntouchedMatchesDb(t) && SupplyOf(t) == SupplyOf(s)
  {
    AccessLists.ListsGrowWithoutLists(ops, [], s.accessList);
    assert ops + [] == ops;
    RunLaws.RunFromRefines(s, ops);
    RunLaws.RunKeepsUntouched(s, ops);
    RunLaws.TransfersConserveSupply(s, ops);
    hide *;
  }
}
