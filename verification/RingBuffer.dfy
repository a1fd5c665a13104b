/** The EIP-2935 ring buffer over the life of a chain, read by BLOCKHASH. */
module RingBuffer {
  import opened Words
  import opened Specs
  import opened JournalState
  import opened JournalLaws
  import Blockhash
  import BlockhashLaws
  import opened Commits
  import opened Runs
  import opened Snapshots
  import opened Refinement
  import opened RunLaws
  import AccessLists
  import opened FeeLifecycle
  import opened GasSettlement
  import opened Transactions
  import opened L1Block
  import opened LedgerLaws
  import opened LedgerRuns

  type HashOf = nat -> U256

  // The chain.

  /** What a block's transactions and their commit do to the database. */
  type BlockStep = Database -> Database

  /** A block step that leaves the history contract's slots alone. */
  ghost predicate LeavesRing(block: BlockStep) {
    forall db: Database :: db.Healthy() ==>
      && block(db).Healthy()
      && forall k: U256 :: block(db).SlotAt(Blockhash.HISTORY, k) == db.SlotAt(Blockhash.HISTORY, k)
  }

  ghost predicate AllLeaveRing(blocks: nat -> BlockStep) {
    forall i: nat :: LeavesRing(blocks(i))
  }

  /** The system call at the start of block `number`: the parent's hash goes into the ring. */
  function WriteParent(db: Database, number: nat, hash: HashOf): Database
    requires 1 <= number
  {
    db.(slots := db.slots[(Blockhash.HISTORY, (number - 1) % 8191) := hash(number - 1)])
  }

  /** The database that the transactions of block `number` find, if block `first` was the first to
      write the ring and `db` is what it started from. */
  function Chain(db: Database, blocks: nat -> BlockStep, hash: HashOf, first: nat, number: nat): Database
    requires 1 <= first
  {
    if number < first then db
    else if number == first then WriteParent(db, number, hash)
    else WriteParent(blocks(number - 1)(Chain(db, blocks, hash, first, number - 1)), number, hash)
  }

  /** Ancestors less than one ring length apart never share a slot. */
  lemma DistinctSlots(m: nat, n: nat)
    requires m < n < m + 8191
    ensures m % 8191 != n % 8191
  {
  }

  lemma WriteParentAt(db: Database, number: nat, hash: HashOf, n: nat)
    requires 1 <= number
    ensures n == number - 1 ==> WriteParent(db, number, hash).SlotAt(Blockhash.HISTORY, n % 8191) == hash(n)
    ensures n < number - 1 < n + 8191 ==>
              WriteParent(db, number, hash).SlotAt(Blockhash.HISTORY, n % 8191)
              == db.SlotAt(Blockhash.HISTORY, n % 8191)
  {
    if n < number - 1 < n + 8191 {
      DistinctSlots(n, number - 1);
    }
  }

  lemma {:induction false} ChainStaysHealthy(db: Database, blocks: nat -> BlockStep, hash: HashOf, first: nat,
                                             number: nat)
    requires 1 <= first && db.Healthy() && AllLeaveRing(blocks)
    ensures Chain(db, blocks, hash, first, number).Healthy()
    decreases number
  {
    if number <= first {
    } else {
      ChainStaysHealthy(db, blocks, hash, first, number - 1);
      assert LeavesRing(blocks(number - 1));
    }
  }

  /** In every block, whatever the transactions of earlier blocks did elsewhere, each of the last 8191
      ancestors recorded since `first` still sits in its slot, however often the ring has wrapped. */
  lemma {:induction false} RingHoldsAncestors(db: Database, blocks: nat -> BlockStep, hash: HashOf, first: nat,
                                              number: nat, n: nat)
    requires 1 <= first && db.Healthy() && AllLeaveRing(blocks)
    requires first - 1 <= n < number <= n + 8191
    ensures Chain(db, blocks, hash, first, number).SlotAt(Blockhash.HISTORY, n % 8191) == hash(n)
    decreases number
  {
    var before := if number == first then db else blocks(number - 1)(Chain(db, blocks, hash, first, number - 1));
    assert Chain(db, blocks, hash, first, number) == WriteParent(before, number, hash);
    hide WriteParent, Database.SlotAt, Database.Healthy;
    WriteParentAt(before, number, hash, n);
    if n == number - 1 {
    } else {
      ChainStaysHealthy(db, blocks, hash, first, number - 1);
      RingHoldsAncestors(db, blocks, hash, first, number - 1, n);
      assert LeavesRing(blocks(number - 1));
    }
  }

  // Blocks of transactions.

  /** The history slots of `t` show what those of `s` show. */
  ghost predicate SameHistory(t: Journal, s: Journal) {
    forall k: U256 :: t.Value(Blockhash.HISTORY, k) == s.Value(Blockhash.HISTORY, k)
  }

  /** The history contract writes its own storage only for the system caller. */
  ghost predicate KeepsHistory(exec: Execution) {
    forall s: Journal :: InTransaction(s) ==> SameHistory(exec(s).journal, s)
  }

  ghost predicate AllKeepHistory(events: seq<Event>) {
    forall i :: 0 <= i < |events| && events[i].Submit? ==> KeepsHistory(events[i].job.exec)
  }

  /** A block of transactions: executed on the database, then committed to it. */
  function BlockOf(info: L1BlockInfo, events: seq<Event>): BlockStep {
    (db: Database) => Committed(TransactAll(Fresh(db), info, events).0)
  }

  lemma JobKeepsHistory(s: Journal, info: L1BlockInfo, job: Job)
    requires Ledger(s) && FaithfulJob(job) && KeepsHistory(job.exec)
    ensures SameHistory(TransactJob(s, info, job).journal, s)
  {
    hide *;
    var r, d := TransactJob(s, info, job), Started(s, info, job);
    JobValues(s, info, job);
    JobMeaning(s, info, job);
    LedgerBasics(s);
    PreExecutionEffect(s, info, job.cfg, job.block, job.tx);
    ShapeOfTransaction(s, info, job.cfg, job.block, job.tx, job.intrinsic, job.exec);
    if r.result.Ok? {
      HistoryThroughJob(r.journal, d, s, job.exec);
    } else {
      HistoryOfValues(r.journal, s);
    }
  }

  lemma HistoryOfValues(t: Journal, s: Journal)
    requires SameValues(t, s)
    ensures SameHistory(t, s)
  {
  }

  lemma HistoryThroughJob(t: Journal, d: Journal, s: Journal, exec: Execution)
    requires InTransaction(d) && KeepsHistory(exec)
    requires SameValues(t, exec(d).journal) && SameValues(d, s)
    ensures SameHistory(t, s)
  {
    assert SameHistory(exec(d).journal, d);
    forall k: U256 ensures t.Value(Blockhash.HISTORY, k) == s.Value(Blockhash.HISTORY, k) {
      assert t.Value(Blockhash.HISTORY, k) == exec(d).journal.Value(Blockhash.HISTORY, k);
      assert d.Value(Blockhash.HISTORY, k) == s.Value(Blockhash.HISTORY, k);
    }
  }

  lemma EventKeepsHistory(s: Journal, info: L1BlockInfo, event: Event)
    requires Ledger(s) && FaithfulEvent(event) && (event.Submit? ==> KeepsHistory(event.job.exec))
    ensures SameHistory(Process(s, info, event).0, s)
  {
    hide Ledger, FaithfulJob, KeepsHistory, TransactJob, Finalized, SameHistory;
    match event
    case Finalize =>
      CommitKeepsLedger(s);
      HistoryOfValues(Finalized(s), s);
    case Submit(job) => JobKeepsHistory(s, info, job);
  }

  /** Within a block, every journal between transactions shows the history slots that the block started
      with. */
  lemma {:induction false} TransactionsKeepHistory(s: Journal, info: L1BlockInfo, events: seq<Event>)
    requires Ledger(s) && AllFaithful(events) && AllKeepHistory(events)
    ensures SameHistory(TransactAll(s, info, events).0, s)
    decreases |events|
  {
    hide Ledger, FaithfulEvent, KeepsHistory, Process;
    if events == [] {
    } else {
      var last := |events| - 1;
      TransactionsKeepHistory(s, info, events[..last]);
      RunConservesSupply(s, info, events[..last]);
      var (t, current) := TransactAll(s, info, events[..last]);
      EventKeepsHistory(t, current, events[last]);
    }
  }

  /** A block of any transactions, of every class and under every fork, is a block step as the chain
      asks for, if no execution writes the history contract. */
  lemma BlocksLeaveRing(info: L1BlockInfo, events: seq<Event>)
    requires AllFaithful(events) && AllKeepHistory(events)
    ensures LeavesRing(BlockOf(info, events))
  {
    forall db: Database | db.Healthy()
      ensures var after := BlockOf(info, events)(db);
        && after.Healthy()
        && forall k: U256 :: after.SlotAt(Blockhash.HISTORY, k) == db.SlotAt(Blockhash.HISTORY, k)
    {
      BlockLeavesRing(db, info, events);
    }
  }

  lemma BlockLeavesRing(db: Database, info: L1BlockInfo, events: seq<Event>)
    requires db.Healthy() && AllFaithful(events) && AllKeepHistory(events)
    ensures var after := Committed(TransactAll(Fresh(db), info, events).0);
      && after.Healthy()
      && forall k: U256 :: after.SlotAt(Blockhash.HISTORY, k) == db.SlotAt(Blockhash.HISTORY, k)
  {
    var s := Fresh(db);
    var t := TransactAll(s, info, events).0;
    FreshLedger(db);
    hide Ledger, AllFaithful, AllKeepHistory, TransactAll;
    TransactionsKeepHistory(s, info, events);
    RunConservesSupply(s, info, events);
    LedgerIsHealthy(t);
    CommittedIsHealthy(t);
    CommitKeepsLedger(t);
    HistoryAcrossCommit(db, t);
    hide *;
  }

  lemma HistoryAcrossCommit(db: Database, t: Journal)
    requires SameHistory(t, Fresh(db)) && SameValues(Finalized(t), t)
    ensures forall k: U256 :: Committed(t).SlotAt(Blockhash.HISTORY, k) == db.SlotAt(Blockhash.HISTORY, k)
  {
    hide Committed;
    forall k: U256 ensures Committed(t).SlotAt(Blockhash.HISTORY, k) == db.SlotAt(Blockhash.HISTORY, k) {
      assert Finalized(t).Value(Blockhash.HISTORY, k) == t.Value(Blockhash.HISTORY, k);
      assert t.Value(Blockhash.HISTORY, k) == Fresh(db).Value(Blockhash.HISTORY, k);
    }
  }

  // Runs of operations.

  predicate LeavesHistory(ops: seq<Op>) {
    forall i :: 0 <= i < |ops| && ops[i].Sstore? ==> ops[i].address != Blockhash.HISTORY
  }

  /** What a snapshot shows in a history slot. */
  function HistoryOf(p: Snapshot, db: Database, k: U256): U256 {
    if (Blockhash.HISTORY, k) in p.values then p.values[(Blockhash.HISTORY, k)] else db.SlotAt(Blockhash.HISTORY, k)
  }

  ghost predicate ShowsHistory(p: Snapshot, db: Database, history: U256 -> U256) {
    forall k: U256 :: HistoryOf(p, db, k) == history(k)
  }

  ghost predicate AllShowHistory(m: Simple, history: U256 -> U256) {
    && ShowsHistory(m.now, m.db, history)
    && forall i :: 0 <= i < |m.saved| ==> ShowsHistory(m.saved[i], m.db, history)
  }

  /** A run that leaves the history contract alone changes no history slot, now or in any open frame. */
  lemma {:induction false} RunKeepsHistory(m: Simple, ops: seq<Op>, history: U256 -> U256)
    requires LeavesHistory(ops) && AllShowHistory(m, history)
    ensures AllShowHistory(SimpleRun(m, ops).0, history)
    decreases |ops|
  {
    hide SimplePerform;
    if ops == [] {
    } else {
      PerformFrames(m, ops[0]);
      PerformWrites(m, ops[0]);
      RunKeepsHistory(SimplePerform(m, ops[0]).0, ops[1..], history);
    }
  }

  lemma SnapshotShowsHistory(s: Journal, history: U256 -> U256)
    requires forall k: U256 :: s.Value(Blockhash.HISTORY, k) == history(k)
    ensures AllShowHistory(SimpleOf(s), history)
  {
    forall k: U256 ensures HistoryOf(SnapshotOf(s), s.db, k) == history(k) {
      assert s.Value(Blockhash.HISTORY, k) == history(k);
    }
  }

  lemma HistoryAfterRun(s: Journal, ops: seq<Op>, history: U256 -> U256)
    requires WellFormed(s) && s.db.Healthy() && s.depth == 0 && ListsGrow(ops, s.accessList)
    requires forall k: U256 :: s.Value(Blockhash.HISTORY, k) == history(k)
    requires LeavesHistory(ops)
    ensures var m := SimpleRun(SimpleOf(s), ops).0;
      && Refines(Run(Machine(s, []), ops).0, m)
      && forall k: U256 :: m.Value(Blockhash.HISTORY, k) == history(k)
  {
    SnapshotShowsHistory(s, history);
    EveryJournalRefines(s);
    hide Refines;
    RunRefines(Machine(s, []), SimpleOf(s), ops);
    hide Run, ListsGrow;
    RunKeepsHistory(SimpleOf(s), ops, history);
    var m := SimpleRun(SimpleOf(s), ops).0;
    hide SimpleRun, SimpleOf;
    forall k: U256 ensures m.Value(Blockhash.HISTORY, k) == history(k) {
      assert HistoryOf(m.now, m.db, k) == history(k);
    }
  }

  /** Such a run is an execution as blocks ask for. */
  lemma RunsKeepHistory(ops: seq<Op>, status: Status, remaining: U64, refunded: I64, authRefund: I64)
    requires AccessLists.LoadsNoList(ops) && LeavesHistory(ops)
    ensures KeepsHistory(Performing(ops, status, remaining, refunded, authRefund))
  {
    hide RunFrom, LeavesHistory;
    forall s: Journal | InTransaction(s) ensures SameHistory(RunFrom(s, ops).0, s) {
      RunKeepsJournalHistory(s, ops);
    }
  }

  lemma RunKeepsJournalHistory(s: Journal, ops: seq<Op>)
    requires InTransaction(s) && AccessLists.LoadsNoList(ops) && LeavesHistory(ops)
    ensures SameHistory(RunFrom(s, ops).0, s)
  {
    var history := (k: U256) => s.Value(Blockhash.HISTORY, k);
    AccessLists.ListsGrowWithoutLists(ops, [], s.accessList);
    assert ops + [] == ops;
    HistoryAfterRun(s, ops, history);
    hide ListsGrow, LeavesHistory, SimpleRun, Run, WellFormed;
    var t, m := RunFrom(s, ops).0, SimpleRun(SimpleOf(s), ops).0;
    forall k: U256 ensures t.Value(Blockhash.HISTORY, k) == s.Value(Blockhash.HISTORY, k) {
      assert t.Value(Blockhash.HISTORY, k) == m.Value(Blockhash.HISTORY, k) == history(k);
    }
  }

  // BLOCKHASH.

  /** The block that a lookup of `n` in block `number` is answered with: the latest ancestor in the slot
      of the saturated ring index. */
  function Served(n: U256, number: nat): nat
    requires BlockhashLaws.InWindow(n, number)
  {
    ServedIsAncestor(n, number);
    number - 1 - (number - 1 - Blockhash.RingIndex(n)) % 8191
  }

  lemma ServedIsAncestor(n: U256, number: nat)
    requires BlockhashLaws.InWindow(n, number)
    ensures var m := number - 1 - (number - 1 - Blockhash.RingIndex(n)) % 8191;
      0 <= m < number <= m + 8191 && m % 8191 == Blockhash.RingIndex(n)
  {
  }

  /** The ring index saturates at 64 bits: a block of the window is answered with itself exactly if its
      number is below 2^64 or shares the slot of the largest number that is. */
  lemma ServedExactly(n: U256, number: nat)
    requires BlockhashLaws.InWindow(n, number)
    ensures Served(n, number) == n <==> n <= U64_MAX || n % 8191 == U64_MAX % 8191
  {
  }

  /** Beyond 64 bits the lookup misses: block 2^64 is answered with its parent. */
  lemma ServesParentAbove64Bits()
    ensures Served(U64_MAX + 1, U64_MAX + 2) == U64_MAX
  {
  }

  lemma ReadsServed(c: Machine, m: Simple, env: Blockhash.Env, n: U256, gas: U64, hash: HashOf)
    requires Refines(c, m) && 2120 <= gas && env.spec.IsEnabledIn(FEYNMAN)
    requires BlockhashLaws.InWindow(n, env.blockNumber) ==>
               m.Value(Blockhash.HISTORY, Blockhash.RingIndex(n)) == hash(Served(n, env.blockNumber))
    ensures var output := Perform(c, Op.Blockhash(env, n, gas)).1;
      && output.Executed? && output.frame.halt.None?
      && output.frame.stack == [if BlockhashLaws.InWindow(n, env.blockNumber) then hash(Served(n, env.blockNumber))
                                else 0]
  {
    hide Served;
    StepRefines(c, m, Op.Blockhash(env, n, gas));
    hide Refines, Perform;
  }

  /** In every block of the chain, from every journal that shows the chain's history slots and after any
      run that does not write them, a paid BLOCKHASH returns for each of the last 256 numbers the hash
      of the block it is served with, which is that block itself whenever the ring index does not
      saturate; and zero for every other number. */
  lemma BlockhashReturnsAncestors(s: Journal, db: Database, blocks: nat -> BlockStep, hash: HashOf, first: nat,
                                  env: Blockhash.Env, ops: seq<Op>, n: U256, gas: U64)
    requires 1 <= first && db.Healthy() && AllLeaveRing(blocks)
    requires WellFormed(s) && s.db.Healthy() && s.depth == 0 && ListsGrow(ops, s.accessList)
    requires forall k: U256 :: s.Value(Blockhash.HISTORY, k)
                            == Chain(db, blocks, hash, first, env.blockNumber).SlotAt(Blockhash.HISTORY, k)
    requires LeavesHistory(ops)
    requires env.spec.IsEnabledIn(FEYNMAN)
    requires BlockhashLaws.InWindow(n, env.blockNumber) ==> first - 1 <= Served(n, env.blockNumber)
    requires 2120 <= gas
    ensures var c := Run(Machine(s, []), ops).0;
      var output := Perform(c, Op.Blockhash(env, n, gas)).1;
      && output.Executed? && output.frame.halt.None?
      && (!BlockhashLaws.InWindow(n, env.blockNumber) ==> output.frame.stack == [0])
      && (BlockhashLaws.InWindow(n, env.blockNumber) ==>
            && output.frame.stack == [hash(Served(n, env.blockNumber))]
            && (n <= U64_MAX || n % 8191 == U64_MAX % 8191 ==> output.frame.stack == [hash(n)]))
  {
    hide Run, SimpleRun, Refines, SimpleOf, ListsGrow, Perform, WellFormed, Chain, LeavesHistory;
    var chain := Chain(db, blocks, hash, first, env.blockNumber);
    var c, m := Run(Machine(s, []), ops).0, SimpleRun(SimpleOf(s), ops).0;
    HistoryAfterRun(s, ops, (k: U256) => chain.SlotAt(Blockhash.HISTORY, k));
    if BlockhashLaws.InWindow(n, env.blockNumber) {
      var served := Served(n, env.blockNumber);
      ServedIsAncestor(n, env.blockNumber);
      ServedExactly(n, env.blockNumber);
      RingHoldsAncestors(db, blocks, hash, first, env.blockNumber, served);
      assert m.Value(Blockhash.HISTORY, served % 8191) == chain.SlotAt(Blockhash.HISTORY, served % 8191);
    }
    ReadsServed(c, m, env, n, gas, hash);
  }

  /** Blocks that consist of the transactions and commits `lists(i)`. */
  function BlocksOf(info: L1BlockInfo, lists: nat -> seq<Event>): nat -> BlockStep {
    (i: nat) => BlockOf(info, lists(i))
  }

  ghost predicate Proper(events: seq<Event>) {
    AllFaithful(events) && AllKeepHistory(events)
  }

  lemma BlocksOfLeaveRing(info: L1BlockInfo, lists: nat -> seq<Event>)
    requires forall i: nat :: Proper(lists(i))
    ensures AllLeaveRing(BlocksOf(info, lists))
  {
    hide LeavesRing, BlockOf, AllFaithful, AllKeepHistory;
    forall i: nat ensures LeavesRing(BlocksOf(info, lists)(i)) {
      assert Proper(lists(i));
      BlocksLeaveRing(info, lists(i));
    }
  }

  /** The journal in which a transaction of a block starts to execute shows the history slots of the
      block's database, whatever the transactions before it did. */
  lemma StartedInBlock(chain: Database, info: L1BlockInfo, events: seq<Event>, job: Job)
    requires chain.Healthy() && AllFaithful(events) && AllKeepHistory(events)
    ensures var (s, current) := TransactAll(Fresh(chain), info, events);
      var d := Started(s, current, job);
      PreExecution(s, current, job.cfg, job.block, job.tx).0.result.Ok? ==>
        && InTransaction(d)
        && forall k: U256 :: d.Value(Blockhash.HISTORY, k) == chain.SlotAt(Blockhash.HISTORY, k)
  {
    var (s, current) := TransactAll(Fresh(chain), info, events);
    FreshLedger(chain);
    hide *;
    TransactionsKeepHistory(Fresh(chain), info, events);
    RunConservesSupply(Fresh(chain), info, events);
    LedgerBasics(s);
    JobMeaning(s, current, job);
    PreExecutionEffect(s, current, job.cfg, job.block, job.tx);
    if PreExecution(s, current, job.cfg, job.block, job.tx).0.result.Ok? {
      HistoryAtStart(chain, s, Started(s, current, job));
    }
  }

  lemma HistoryAtStart(chain: Database, s: Journal, d: Journal)
    requires SameHistory(s, Fresh(chain)) && SameValues(d, s)
    ensures forall k: U256 :: d.Value(Blockhash.HISTORY, k) == chain.SlotAt(Blockhash.HISTORY, k)
  {
    forall k: U256 ensures d.Value(Blockhash.HISTORY, k) == chain.SlotAt(Blockhash.HISTORY, k) {
      assert d.Value(Blockhash.HISTORY, k) == s.Value(Blockhash.HISTORY, k);
    }
  }

  /** After `ops` from `d`, BLOCKHASH returns the ancestor's hash, or zero outside the window. */
  predicate AncestorRead(d: Journal, ops: seq<Op>, env: Blockhash.Env, n: U64, gas: U64, hash: HashOf) {
    var c := Run(Machine(d, []), ops).0;
    var output := Perform(c, Op.Blockhash(env, n, gas)).1;
    && output.Executed? && output.frame.halt.None?
    && output.frame.stack == [if BlockhashLaws.InWindow(n, env.blockNumber) then hash(n) else 0]
  }

  lemma BlockhashFromStart(d: Journal, db: Database, blocks: nat -> BlockStep, hash: HashOf, first: nat,
                           env: Blockhash.Env, ops: seq<Op>, n: U64, gas: U64)
    requires 1 <= first && db.Healthy() && AllLeaveRing(blocks) && InTransaction(d)
    requires forall k: U256 :: d.Value(Blockhash.HISTORY, k)
                            == Chain(db, blocks, hash, first, env.blockNumber).SlotAt(Blockhash.HISTORY, k)
    requires AccessLists.LoadsNoList(ops) && LeavesHistory(ops)
    requires env.spec.IsEnabledIn(FEYNMAN) && 2120 <= gas
    requires BlockhashLaws.InWindow(n, env.blockNumber) ==> first - 1 <= n
    ensures AncestorRead(d, ops, env, n, gas, hash)
  {
    if BlockhashLaws.InWindow(n, env.blockNumber) {
      ServedExactly(n, env.blockNumber);
    }
    AccessLists.ListsGrowWithoutLists(ops, [], d.accessList);
    assert ops + [] == ops;
    hide AllLeaveRing, Chain, Run, Perform, ListsGrow, WellFormed, UntouchedMatchesDb, LeavesHistory, Served;
    BlockhashReturnsAncestors(d, db, blocks, hash, first, env, ops, n, gas);
  }

  /** Over every chain of blocks of transactions: in the execution of any transaction of any block,
      after any run that leaves the history contract alone, BLOCKHASH returns the hash of each of the
      last 256 ancestors below 2^64, and zero for every other such number. */
  lemma BlockhashInEveryTransaction(db: Database, info: L1BlockInfo, lists: nat -> seq<Event>, hash: HashOf,
                                    first: nat, events: seq<Event>, job: Job, env: Blockhash.Env, ops: seq<Op>,
                                    n: U64, gas: U64)
    requires 1 <= first && db.Healthy() && (forall i: nat :: Proper(lists(i))) && Proper(events)
    requires AccessLists.LoadsNoList(ops) && LeavesHistory(ops)
    requires env.spec.IsEnabledIn(FEYNMAN) && 2120 <= gas
    requires BlockhashLaws.InWindow(n, env.blockNumber) ==> first - 1 <= n
    ensures var chain := Chain(db, BlocksOf(info, lists), hash, first, env.blockNumber);
      var (s, current) := TransactAll(Fresh(chain), info, events);
      PreExecution(s, current, job.cfg, job.block, job.tx).0.result.Ok? ==>
        AncestorRead(Started(s, current, job), ops, env, n, gas, hash)
  {
    BlocksOfLeaveRing(info, lists);
    hide *;
    var chain := Chain(db, BlocksOf(info, lists), hash, first, env.blockNumber);
    var (s, current) := TransactAll(Fresh(chain), info, events);
    ChainStaysHealthy(db, BlocksOf(info, lists), hash, first, env.blockNumber);
    ProperMeaning(events);
    StartedInBlock(chain, info, events, job);
    if PreExecution(s, current, job.cfg, job.block, job.tx).0.result.Ok? {
      BlockhashFromStart(Started(s, current, job), db, BlocksOf(info, lists), hash, first, env, ops, n, gas);
    }
  }

  lemma ProperMeaning(events: seq<Event>)
    requires Proper(events)
    ensures AllFaithful(events) && AllKeepHistory(events)
  {
  }

  /** The ring index is the number's own slot exactly for numbers below 2^64 and for those that happen
      to share the slot of the largest of them. */
  lemma RingIndexExactly(n: U256)
    ensures Blockhash.RingIndex(n) == n % 8191 <==> n <= U64_MAX || n % 8191 == U64_MAX % 8191
  {
  }
}
