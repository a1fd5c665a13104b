/** The journal as a value: cached accounts over a database, warm lists, and the undo log. */
module JournalState {
  import opened Words

  /** Contract code as EIP-3607 and EIP-7702 distinguish it: a delegation designator names the account
      whose code runs, and its owner still counts as an EOA. */
  datatype Code = NoCode | Delegation(target: Address) | Contract

  datatype Info = Info(balance: U256, nonce: U64, code: Code)

  const EMPTY_INFO := Info(0, 0, NoCode)

  /** A cached slot. It is warm only in the transaction `txId`, and only while not marked cold. */
  datatype Slot = Slot(present: U256, original: U256, txId: nat, cold: bool)

  datatype Account = Account(
    info: Info,
    originalInfo: Info,
    txId: nat,
    cold: bool,
    touched: bool,
    storage: map<U256, Slot>)

  /** Absent entries read as empty; broken entries fail with a database error. */
  datatype Database = Database(
    infos: map<Address, Info>,
    slots: map<(Address, U256), U256>,
    brokenInfos: set<Address>,
    brokenSlots: set<(Address, U256)>)
  {
    function Basic(a: Address): Option<Info> {
      if a in brokenInfos then None else Some(InfoAt(a))
    }

    function Storage(a: Address, k: U256): Option<U256> {
      if (a, k) in brokenSlots then None else Some(SlotAt(a, k))
    }

    function InfoAt(a: Address): Info {
      if a in infos then infos[a] else EMPTY_INFO
    }

    function SlotAt(a: Address, k: U256): U256 {
      if (a, k) in slots then slots[(a, k)] else 0
    }

    predicate Healthy() {
      brokenInfos == {} && brokenSlots == {}
    }
  }

  /** One reversible effect of the current transaction. */
  datatype Entry =
    | AccountWarmed(address: Address)
    | AccountTouched(address: Address)
    | StorageWarmed(address: Address, key: U256)
    | StorageChanged(address: Address, key: U256, had: U256)
    | BalanceMoved(from: Address, to: Address, amount: U256)
    | BalanceChanged(address: Address, hadBalance: U256)
    | NonceChanged(address: Address, hadNonce: U64)

  /** Addresses and slots that the transaction's access list makes warm. */
  type AccessList = map<Address, set<U256>>

  datatype Journal = Journal(
    accounts: map<Address, Account>,
    accessList: AccessList,
    log: seq<Entry>,
    depth: nat,
    txId: nat,
    db: Database,
    infoReads: nat,
    slotReads: nat)
  {
    predicate Lists(a: Address, k: U256) {
      a in accessList && k in accessList[a]
    }

    predicate Caches(a: Address, k: U256) {
      a in accounts && k in accounts[a].storage
    }

    // What a contract, or the next opcode, can observe.

    function InfoOf(a: Address): Info {
      if a in accounts then accounts[a].info else db.InfoAt(a)
    }

    function Balance(a: Address): U256 {
      InfoOf(a).balance
    }

    function Value(a: Address, k: U256): U256 {
      if Caches(a, k) then accounts[a].storage[k].present else db.SlotAt(a, k)
    }

    predicate IsAccountWarm(a: Address) {
      || a in accessList
      || (a in accounts && !accounts[a].cold && accounts[a].txId == txId)
    }

    predicate IsSlotWarm(a: Address, k: U256) {
      || Lists(a, k)
      || (Caches(a, k) && !accounts[a].storage[k].cold && accounts[a].storage[k].txId == txId)
    }

    predicate IsTouched(a: Address) {
      a in accounts && accounts[a].touched
    }

    function WithAccount(a: Address, account: Account): Journal {
      this.(accounts := accounts[a := account])
    }

    function WithSlot(a: Address, k: U256, slot: Slot): Journal
      requires a in accounts
    {
      WithAccount(a, accounts[a].(storage := accounts[a].storage[k := slot]))
    }

    function WithInfo(a: Address, info: Info): Journal
      requires a in accounts
    {
      WithAccount(a, accounts[a].(info := info))
    }

    function Logged(e: Entry): Journal {
      this.(log := log + [e])
    }
  }

  datatype LoadError = ColdLoadSkipped | DBError

  datatype StateLoad<T> = StateLoad(data: T, isCold: bool)

  /** A journal operation: the journal it leaves and what it returns. */
  datatype Step<T, E> = Step(journal: Journal, result: Result<T, E>)

  /** Loads and warms an account; a load that was cold is logged. */
  function LoadAccount(s: Journal, a: Address): (r: Step<StateLoad<Info>, LoadError>)
    ensures r.result.Ok? ==> a in r.journal.accounts && r.journal.accounts[a].info == r.result.value.data
  {
    if a in s.accounts then
      var account := s.accounts[a];
      if account.cold || account.txId != s.txId then
        var isCold := a !in s.accessList;
        var refreshed := account.(originalInfo := account.info, txId := s.txId, cold := false);
        var t := s.WithAccount(a, refreshed);
        Step(if isCold then t.Logged(AccountWarmed(a)) else t, Ok(StateLoad(account.info, isCold)))
      else
        Step(s, Ok(StateLoad(account.info, false)))
    else
      var read := s.(infoReads := s.infoReads + 1);
      match s.db.Basic(a)
      case None => Step(read, Err(DBError))
      case Some(info) =>
        var isCold := a !in s.accessList;
        var t := read.WithAccount(a, Account(info, info, s.txId, false, false, map[]));
        Step(if isCold then t.Logged(AccountWarmed(a)) else t, Ok(StateLoad(info, isCold)))
  }

  /** The account at `a`, and the one whose code it runs, if it delegates. */
  function CodeAccounts(a: Address, info: Info): set<Address> {
    match info.code
    case Delegation(target) => {a, target}
    case _ => {a}
  }

  /** Loads an account and the one it delegates to. */
  function LoadAccountDelegated(s: Journal, a: Address): Step<StateLoad<Info>, LoadError> {
    var loaded := LoadAccount(s, a);
    if loaded.result.Err? || !loaded.result.value.data.code.Delegation? then loaded
    else
      var delegate := LoadAccount(loaded.journal, loaded.result.value.data.code.target);
      if delegate.result.Err? then delegate else Step(delegate.journal, loaded.result)
  }

  /** Reads a slot of an account assumed loaded. A cold slot is skipped on request, before any
      database read; otherwise it becomes warm, its original value is refreshed, and the warming is
      logged. */
  function SloadSkipColdLoad(s: Journal, a: Address, k: U256, skipCold: bool)
    : Step<StateLoad<U256>, LoadError>
  {
    if a !in s.accounts then Step(s, Err(ColdLoadSkipped))
    else if k in s.accounts[a].storage then
      var slot := s.accounts[a].storage[k];
      if slot.cold || slot.txId != s.txId then
        var isCold := !s.Lists(a, k);
        if isCold && skipCold then Step(s, Err(ColdLoadSkipped))
        else
          var t := s.WithSlot(a, k, Slot(slot.present, slot.present, s.txId, false));
          Step(if isCold then t.Logged(StorageWarmed(a, k)) else t, Ok(StateLoad(slot.present, isCold)))
      else
        Step(s, Ok(StateLoad(slot.present, false)))
    else
      var isCold := !s.Lists(a, k);
      if isCold && skipCold then Step(s, Err(ColdLoadSkipped))
      else
        var read := s.(slotReads := s.slotReads + 1);
        match s.db.Storage(a, k)
        case None => Step(read, Err(DBError))
        case Some(value) =>
          var t := read.WithSlot(a, k, Slot(value, value, s.txId, false));
          Step(if isCold then t.Logged(StorageWarmed(a, k)) else t, Ok(StateLoad(value, isCold)))
  }

  function Touch(s: Journal, a: Address): Journal {
    if a in s.accounts && !s.accounts[a].touched then
      s.WithAccount(a, s.accounts[a].(touched := true)).Logged(AccountTouched(a))
    else s
  }

  /** Overwrites a cached slot, logging the value it had. */
  function StoreSlot(s: Journal, a: Address, k: U256, value: U256): Journal
    requires s.Caches(a, k)
  {
    var slot := s.accounts[a].storage[k];
    if slot.present == value then s
    else s.WithSlot(a, k, slot.(present := value)).Logged(StorageChanged(a, k, slot.present))
  }

  function Sstore(s: Journal, a: Address, k: U256, value: U256): Step<StateLoad<U256>, LoadError> {
    var loaded := SloadSkipColdLoad(Touch(s, a), a, k, false);
    match loaded.result
    case Err(error) => loaded
    case Ok(load) => Step(StoreSlot(loaded.journal, a, k, value), Ok(load))
  }

  /** Sets the balance of a loaded account. */
  function SetBalance(s: Journal, a: Address, balance: U256): Journal
    requires a in s.accounts
  {
    var t := Touch(s, a);
    var info := t.accounts[a].info;
    if info.balance == balance then t
    else t.WithInfo(a, info.(balance := balance)).Logged(BalanceChanged(a, info.balance))
  }

  /** Credits a loaded account. A sum that does not fit is dropped without an error. */
  function IncrBalance(s: Journal, a: Address, amount: U256): Journal
    requires a in s.accounts
  {
    if s.accounts[a].info.balance + amount <= U256_MAX
    then SetBalance(s, a, s.accounts[a].info.balance + amount)
    else s
  }

  /** Debits a loaded account. A debit beyond the balance is dropped without an error. */
  function DecrBalance(s: Journal, a: Address, amount: U256): Journal
    requires a in s.accounts
  {
    if amount <= s.accounts[a].info.balance
    then SetBalance(s, a, s.accounts[a].info.balance - amount)
    else s
  }

  function BumpNonce(s: Journal, a: Address): Journal
    requires a in s.accounts
  {
    var t := Touch(s, a);
    var info := t.accounts[a].info;
    if info.nonce == U64_MAX then t
    else t.WithInfo(a, info.(nonce := info.nonce + 1)).Logged(NonceChanged(a, info.nonce))
  }

  datatype TransferError = OutOfFunds | OverflowPayment

  /** Moves value between loaded accounts. The debit comes first: when the credit then overflows,
      the payer is not paid back. */
  function TransferLoaded(s: Journal, from: Address, to: Address, value: U256)
    : (r: (Journal, Option<TransferError>))
    requires from in s.accounts && to in s.accounts
  {
    if from == to then
      (s, if value > s.accounts[from].info.balance then Some(OutOfFunds) else None)
    else if value == 0 then
      (Touch(s, to), None)
    else
      var t := Touch(s, from);
      var payer := t.accounts[from].info;
      if payer.balance < value then (t, Some(OutOfFunds))
      else
        var debited := Touch(t.WithInfo(from, payer.(balance := payer.balance - value)), to);
        var payee := debited.accounts[to].info;
        if payee.balance + value > U256_MAX then (debited, Some(OverflowPayment))
        else
          (debited.WithInfo(to, payee.(balance := payee.balance + value))
                  .Logged(BalanceMoved(from, to, value)),
           None)
  }

  function Transfer(s: Journal, from: Address, to: Address, value: U256)
    : Step<Option<TransferError>, LoadError>
  {
    var payer := LoadAccount(s, from);
    match payer.result
    case Err(error) => Step(payer.journal, Err(error))
    case Ok(_) =>
      var payee := LoadAccount(payer.journal, to);
      match payee.result
      case Err(error) => Step(payee.journal, Err(error))
      case Ok(_) =>
        var (t, failure) := TransferLoaded(payee.journal, from, to, value);
        Step(t, Ok(failure))
  }

  function WrappingSub(x: U256, y: U256): U256 {
    if y <= x then x - y else x + (U256_MAX + 1 - y)
  }

  function WrappingAdd(x: U256, y: U256): U256 {
    if x + y <= U256_MAX then x + y else x + y - (U256_MAX + 1)
  }

  /** What taking back `e` does to the account at `a`. */
  function UndoneAccount(account: Account, e: Entry, a: Address): Account {
    var info := account.info;
    match e
    case AccountWarmed(x) => if x == a then account.(cold := true) else account
    case AccountTouched(x) => if x == a then account.(touched := false) else account
    case StorageWarmed(x, k) =>
      if x == a && k in account.storage
      then account.(storage := account.storage[k := account.storage[k].(cold := true)])
      else account
    case StorageChanged(x, k, had) =>
      if x == a && k in account.storage
      then account.(storage := account.storage[k := account.storage[k].(present := had)])
      else account
    case BalanceMoved(from, to, amount) =>
      if from == a then account.(info := info.(balance := WrappingAdd(info.balance, amount)))
      else if to == a then account.(info := info.(balance := WrappingSub(info.balance, amount)))
      else account
    case BalanceChanged(x, had) =>
      if x == a then account.(info := info.(balance := had)) else account
    case NonceChanged(x, had) =>
      if x == a then account.(info := info.(nonce := had)) else account
  }

  /** The effect of `e` taken back. Cached values stay cached. */
  function UndoEntry(s: Journal, e: Entry): Journal {
    s.(accounts := map a | a in s.accounts :: UndoneAccount(s.accounts[a], e, a))
  }

  /** The account that an entry is about; the payer, for a move of value. */
  function Target(e: Entry): Address {
    match e
    case AccountWarmed(a) => a
    case AccountTouched(a) => a
    case StorageWarmed(a, _) => a
    case StorageChanged(a, _, _) => a
    case BalanceMoved(from, _, _) => from
    case BalanceChanged(a, _) => a
    case NonceChanged(a, _) => a
  }

  lemma UndoneOnlyAtTargets(account: Account, e: Entry, a: Address)
    requires a != Target(e) && !(e.BalanceMoved? && a == e.to)
    ensures UndoneAccount(account, e, a) == account
  {
  }

  /** The newest entry undone and dropped. */
  function Popped(s: Journal): Journal
    requires s.log != []
  {
    var last := |s.log| - 1;
    UndoEntry(s, s.log[last]).(log := s.log[..last])
  }

  /** Undoes log entries, newest first, until `size` are left. */
  function UndoTo(s: Journal, size: nat): (r: Journal)
    ensures size <= |s.log| ==> r.log == s.log[..size]
    ensures r.depth == s.depth && r.txId == s.txId && r.accessList == s.accessList && r.db == s.db
    ensures r.infoReads == s.infoReads && r.slotReads == s.slotReads
    decreases |s.log|
  {
    if |s.log| <= size then s else UndoTo(Popped(s), size)
  }

  // A checkpoint is the log length that the caller keeps and hands back.

  function OpenCheckpoint(s: Journal): Journal {
    s.(depth := s.depth + 1)
  }

  function CommitCheckpoint(s: Journal): Journal {
    s.(depth := if s.depth == 0 then 0 else s.depth - 1)
  }

  function RevertCheckpoint(s: Journal, mark: nat): Journal {
    CommitCheckpoint(UndoTo(s, mark))
  }

  function WarmAccessList(s: Journal, list: AccessList): Journal {
    s.(accessList := list)
  }

  /** Ends a transaction that stays in the journal: everything warm goes cold by transaction id. */
  function CommitTx(s: Journal): Journal {
    s.(accessList := map[], log := [], depth := 0, txId := s.txId + 1)
  }

  /** Ends a rejected transaction: all its effects are undone. */
  function DiscardTx(s: Journal): Journal {
    CommitTx(UndoTo(s, 0))
  }
}
