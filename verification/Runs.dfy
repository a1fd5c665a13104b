/** Interleaved runs of everything that touches the journal, and their meaning on plain snapshots. */
module Runs {
  import opened Words
  import opened Specs
  import opened JournalState
  import Blockhash
  import TransferPrecompile

  datatype Op =
    | Blockhash(env: Blockhash.Env, number: U256, gas: U64)
    | Sload(address: Address, key: U256, gas: U64)
    | ReadBalance(address: Address)
    | Sstore(address: Address, key: U256, value: U256)
    | CallTransfer(call: TransferPrecompile.Call)
    | WarmList(list: AccessList)
    | OpenFrame
    | CommitFrame
    | RevertFrame
    | EndTransaction

  datatype Output =
    | Done
    | Executed(frame: Blockhash.Frame)
    | Loaded(word: U256, cost: nat)
    | Returned(result: Result<TransferPrecompile.Output, TransferPrecompile.PrecompileError>)
    | DatabaseError

  /** The journal and the marks that the open call frames hold. */
  datatype Machine = Machine(journal: Journal, marks: seq<nat>)

  /** SLOAD by a contract whose account the call has loaded. */
  function ExecuteSload(s: Journal, a: Address, f: Blockhash.Frame): (Journal, Blockhash.Frame)
    requires f.stack != []
  {
    if f.gas < Blockhash.WARM_READ_COST then (s, f.Exhausted())
    else
      var g := f.(gas := f.gas - Blockhash.WARM_READ_COST);
      var read := SloadSkipColdLoad(s, a, f.Top(), g.gas < Blockhash.COLD_SLOT_COST);
      match read.result
      case Err(ColdLoadSkipped) => (read.journal, g.Exhausted())
      case Err(DBError) => (read.journal, g.Halted(Blockhash.FatalExternalError))
      case Ok(load) =>
        if !load.isCold then (read.journal, g.WithTop(load.data))
        else if g.gas < Blockhash.COLD_SLOT_COST then (read.journal, g.Exhausted())
        else (read.journal, g.(gas := g.gas - Blockhash.COLD_SLOT_COST).WithTop(load.data))
  }

  function Perform(c: Machine, op: Op): (Machine, Output) {
    var s := c.journal;
    match op
    case Blockhash(env, number, gas) =>
      var (t, f) := Blockhash.Execute(env, s, Blockhash.Frame([number], gas, None));
      (c.(journal := t), Executed(f))
    case Sload(a, k, gas) =>
      var loaded := LoadAccount(s, a);
      if loaded.result.Err? then (c.(journal := loaded.journal), DatabaseError)
      else
        var (t, f) := ExecuteSload(loaded.journal, a, Blockhash.Frame([k], gas, None));
        (c.(journal := t), Executed(f))
    case ReadBalance(a) =>
      var loaded := LoadAccount(s, a);
      if loaded.result.Err? then (c.(journal := loaded.journal), DatabaseError)
      else
        var load := loaded.result.value;
        (c.(journal := loaded.journal), Loaded(load.data.balance, if load.isCold then 2600 else 100))
    case Sstore(a, k, value) =>
      var loaded := LoadAccount(s, a);
      if loaded.result.Err? then (c.(journal := loaded.journal), DatabaseError)
      else
        var stored := JournalState.Sstore(loaded.journal, a, k, value);
        (c.(journal := stored.journal), if stored.result.Ok? then Done else DatabaseError)
    case CallTransfer(call) =>
      var r := TransferPrecompile.Run(s, call);
      (c.(journal := r.journal), Returned(r.result))
    case WarmList(list) =>
      (c.(journal := WarmAccessList(s, list)), Done)
    case OpenFrame =>
      (Machine(OpenCheckpoint(s), c.marks + [|s.log|]), Done)
    case CommitFrame =>
      if c.marks == [] then (c, Done)
      else (Machine(CommitCheckpoint(s), c.marks[..|c.marks| - 1]), Done)
    case RevertFrame =>
      if c.marks == [] then (c, Done)
      else
        var last := |c.marks| - 1;
        (Machine(RevertCheckpoint(s, c.marks[last]), c.marks[..last]), Done)
    case EndTransaction =>
      (Machine(CommitTx(s), []), Done)
  }

  function Run(c: Machine, ops: seq<Op>): (Machine, seq<Output>)
    decreases |ops|
  {
    if ops == [] then (c, [])
    else
      var (c', output) := Perform(c, ops[0]);
      var (c'', outputs) := Run(c', ops[1..]);
      (c'', [output] + outputs)
  }

  function Fresh(db: Database): Journal {
    Journal(map[], map[], [], 0, 0, db, 0, 0)
  }

  /** A run that starts between call frames. */
  function RunFrom(s: Journal, ops: seq<Op>): (Journal, seq<Output>) {
    var (c, outputs) := Run(Machine(s, []), ops);
    (c.journal, outputs)
  }

  predicate Covers(list: AccessList, previous: AccessList) {
    forall a :: a in previous ==> a in list && previous[a] <= list[a]
  }

  /** Within a transaction, each new access list covers the one it replaces. */
  predicate ListsGrow(ops: seq<Op>, list: AccessList)
    decreases |ops|
  {
    if ops == [] then true
    else
      match ops[0]
      case WarmList(next) => Covers(next, list) && ListsGrow(ops[1..], next)
      case EndTransaction => ListsGrow(ops[1..], map[])
      case _ => ListsGrow(ops[1..], list)
  }
}

/** The reference: state is a snapshot, a checkpoint is a copy, a revert puts the copy back. */
module Snapshots {
  import opened Words
  import opened Specs
  import opened JournalState
  import Blockhash
  import BlockhashLaws
  import TransferLaws
  import TransferPrecompile
  import opened Runs

  /** Values and infos over the database, what the transaction has warmed, and the accounts whose slots
      or balance have been written. */
  datatype Snapshot = Snapshot(
    values: map<(Address, U256), U256>,
    infos: map<Address, Info>,
    warmSlots: set<(Address, U256)>,
    warmAccounts: set<Address>,
    written: set<Address>)

  datatype Simple = Simple(now: Snapshot, saved: seq<Snapshot>, list: AccessList, db: Database) {
    function Value(a: Address, k: U256): U256 {
      if (a, k) in now.values then now.values[(a, k)] else db.SlotAt(a, k)
    }

    function InfoOf(a: Address): Info {
      if a in now.infos then now.infos[a] else db.InfoAt(a)
    }

    function Balance(a: Address): U256 {
      InfoOf(a).balance
    }

    predicate SlotWarm(a: Address, k: U256) {
      (a, k) in now.warmSlots || (a in list && k in list[a])
    }

    predicate AccountWarm(a: Address) {
      a in now.warmAccounts || a in list
    }

    function WarmSlot(a: Address, k: U256): Simple {
      this.(now := now.(warmSlots := now.warmSlots + {(a, k)}))
    }

    function WarmAccount(a: Address): Simple {
      WarmEach({a})
    }

    function WarmEach(accounts: set<Address>): Simple {
      this.(now := now.(warmAccounts := now.warmAccounts + accounts))
    }

    function Write(a: Address, k: U256, value: U256): Simple {
      this.(now := now.(values := now.values[(a, k) := value], written := now.written + {a}))
    }

    function Pay(a: Address, balance: U256): Simple {
      this.(now := now.(infos := now.infos[a := InfoOf(a).(balance := balance)], written := now.written + {a}))
    }
  }

  /** An instruction that needs `cost` gas and replaces the stack's one word. */
  function Metered(argument: U256, gas: U64, cost: nat, word: U256): Output {
    if gas < cost then Executed(Blockhash.Frame([argument], 0, Some(Blockhash.OutOfGas)))
    else Executed(Blockhash.Frame([word], gas - cost, None))
  }

  function SimpleBlockhash(m: Simple, env: Blockhash.Env, number: U256, gas: U64): (Simple, Output) {
    var k := Min(number, U64_MAX) % 8191;
    var history: Address := 0x0000F90827F1C53a10cb7A02335B175320002935;
    if !BlockhashLaws.InWindow(number, env.blockNumber) then (m, Metered(number, gas, 20, 0))
    else if !env.spec.IsEnabledIn(FEYNMAN) then
      (m, Metered(number, gas, 20, env.hashOf(Min(env.chainId, U64_MAX), Min(number, U64_MAX))))
    else if env.spec.IsEnabledIn(TSUKI_V2) then
      var cost := if m.SlotWarm(history, k) then 120 else 2120;
      (if gas < cost then m else m.WarmSlot(history, k), Metered(number, gas, cost, m.Value(history, k)))
    else
      (if gas < 20 then m else m.WarmSlot(history, k).WarmEach(CodeAccounts(history, m.InfoOf(history))),
       Metered(number, gas, 20, m.Value(history, k)))
  }

  function SimpleTransfer(m: Simple, call: TransferPrecompile.Call): (Simple, Output) {
    match TransferLaws.Refusal(call)
    case Some(error) => (m, Returned(Err(error)))
    case None =>
      var order := TransferPrecompile.Decode(call.data);
      var fits := order.from == order.to || m.Balance(order.to) + order.value <= U256_MAX;
      var funded := order.value <= m.Balance(order.from);
      var warmed := if fits then m.WarmAccount(order.to).WarmAccount(order.from) else m.WarmAccount(order.to);
      if !fits || !funded then (warmed, Returned(Ok(TransferPrecompile.Output(9000, true))))
      else if order.from == order.to || order.value == 0 then
        (warmed, Returned(Ok(TransferPrecompile.Output(9000, false))))
      else
        var debited := warmed.Pay(order.from, m.Balance(order.from) - order.value);
        (debited.Pay(order.to, debited.Balance(order.to) + order.value),
         Returned(Ok(TransferPrecompile.Output(9000, false))))
  }

  function SimplePerform(m: Simple, op: Op): (Simple, Output) {
    match op
    case Blockhash(env, number, gas) => SimpleBlockhash(m, env, number, gas)
    case Sload(a, k, gas) =>
      var t := m.WarmAccount(a);
      var cost := if m.SlotWarm(a, k) then 100 else 2100;
      (if gas < cost then t else t.WarmSlot(a, k), Metered(k, gas, cost, m.Value(a, k)))
    case ReadBalance(a) =>
      (m.WarmAccount(a), Loaded(m.Balance(a), if m.AccountWarm(a) then 100 else 2600))
    case Sstore(a, k, value) =>
      (m.WarmAccount(a).WarmSlot(a, k).Write(a, k, value), Done)
    case CallTransfer(call) => SimpleTransfer(m, call)
    case WarmList(list) => (m.(list := list), Done)
    case OpenFrame => (m.(saved := m.saved + [m.now]), Done)
    case CommitFrame =>
      (if m.saved == [] then m else m.(saved := m.saved[..|m.saved| - 1]), Done)
    case RevertFrame =>
      (if m.saved == [] then m
       else m.(now := m.saved[|m.saved| - 1], saved := m.saved[..|m.saved| - 1]), Done)
    case EndTransaction =>
      (m.(now := m.now.(warmSlots := {}, warmAccounts := {}), saved := [], list := map[]), Done)
  }

  function SimpleRun(m: Simple, ops: seq<Op>): (Simple, seq<Output>)
    decreases |ops|
  {
    if ops == [] then (m, [])
    else
      var (m', output) := SimplePerform(m, ops[0]);
      var (m'', outputs) := SimpleRun(m', ops[1..]);
      (m'', [output] + outputs)
  }

  predicate IsHotAccount(s: Journal, a: Address) {
    a in s.accounts && !s.accounts[a].cold && s.accounts[a].txId == s.txId
  }

  predicate IsHotSlot(s: Journal, a: Address, k: U256) {
    s.Caches(a, k) && !s.accounts[a].storage[k].cold && s.accounts[a].storage[k].txId == s.txId
  }

  /** The snapshot that a journal's caches amount to. */
  function SnapshotOf(s: Journal): Snapshot {
    Snapshot(
      map a: Address, k: U256 | a in s.accounts && k in s.accounts[a].storage
        :: (a, k) := s.accounts[a].storage[k].present,
      map a: Address | a in s.accounts :: s.accounts[a].info,
      set a: Address, k: U256 | a in s.accounts && k in s.accounts[a].storage && IsHotSlot(s, a, k) :: (a, k),
      set a: Address | a in s.accounts && IsHotAccount(s, a),
      set a: Address | a in s.accounts && s.accounts[a].touched)
  }

  function SimpleOf(s: Journal): Simple {
    Simple(SnapshotOf(s), [], s.accessList, s.db)
  }
}
