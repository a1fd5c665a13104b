/** The mutable journal: every method updates the fields in place and is specified by `JournalState`. */
module JournaledStates {
  import opened Words
  import opened JournalState

  class JournaledState {
    var accounts: map<Address, Account>
    var accessList: AccessList
    var log: seq<Entry>
    var depth: nat
    var txId: nat
    var db: Database
    var infoReads: nat
    var slotReads: nat

    function State(): Journal
      reads this
    {
      Journal(accounts, accessList, log, depth, txId, db, infoReads, slotReads)
    }

    constructor (database: Database)
      ensures State() == Journal(map[], map[], [], 0, 0, database, 0, 0)
    {
      accounts, accessList, log := map[], map[], [];
      depth, txId, infoReads, slotReads := 0, 0, 0, 0;
      db := database;
    }

    method LoadAccount(a: Address) returns (r: Result<StateLoad<Info>, LoadError>)
      modifies this
      ensures Step(State(), r) == JournalState.LoadAccount(old(State()), a)
    {
      var isCold := false;
      if a in accounts {
        var account := accounts[a];
        if account.cold || account.txId != txId {
          isCold := a !in accessList;
          accounts := accounts[a := account.(originalInfo := account.info, txId := txId, cold := false)];
        }
      } else {
        infoReads := infoReads + 1;
        var basic := db.Basic(a);
        if basic.None? {
          return Err(DBError);
        }
        isCold := a !in accessList;
        accounts := accounts[a := Account(basic.value, basic.value, txId, false, false, map[])];
      }
      if isCold {
        log := log + [AccountWarmed(a)];
      }
      r := Ok(StateLoad(accounts[a].info, isCold));
    }

    method LoadAccountDelegated(a: Address) returns (r: Result<StateLoad<Info>, LoadError>)
      modifies this
      ensures Step(State(), r) == JournalState.LoadAccountDelegated(old(State()), a)
    {
      r := LoadAccount(a);
      if r.Ok? {
        match r.value.data.code
        case Delegation(target) =>
          var delegate := LoadAccount(target);
          if delegate.Err? {
            return delegate;
          }
        case _ =>
      }
    }

    method SloadSkipColdLoad(a: Address, k: U256, skipCold: bool) returns (r: Result<StateLoad<U256>, LoadError>)
      modifies this
      ensures Step(State(), r) == JournalState.SloadSkipColdLoad(old(State()), a, k, skipCold)
    {
      if a !in accounts {
        return Err(ColdLoadSkipped);
      }
      var account := accounts[a];
      var listed := a in accessList && k in accessList[a];
      var isCold := false;
      if k in account.storage {
        var slot := account.storage[k];
        if slot.cold || slot.txId != txId {
          isCold := !listed;
          if isCold && skipCold {
            return Err(ColdLoadSkipped);
          }
          var warmed := Slot(slot.present, slot.present, txId, false);
          accounts := accounts[a := account.(storage := account.storage[k := warmed])];
        }
      } else {
        isCold := !listed;
        if isCold && skipCold {
          return Err(ColdLoadSkipped);
        }
        slotReads := slotReads + 1;
        var read := db.Storage(a, k);
        if read.None? {
          return Err(DBError);
        }
        accounts := accounts[a := account.(storage := account.storage[k := Slot(read.value, read.value, txId, false)])];
      }
      if isCold {
        log := log + [StorageWarmed(a, k)];
      }
      r := Ok(StateLoad(accounts[a].storage[k].present, isCold));
    }

    method Touch(a: Address)
      modifies this
      ensures State() == JournalState.Touch(old(State()), a)
    {
      if a in accounts && !accounts[a].touched {
        accounts := accounts[a := accounts[a].(touched := true)];
        log := log + [AccountTouched(a)];
      }
    }

    method Sstore(a: Address, k: U256, value: U256) returns (r: Result<StateLoad<U256>, LoadError>)
      modifies this
      ensures Step(State(), r) == JournalState.Sstore(old(State()), a, k, value)
    {
      Touch(a);
      r := SloadSkipColdLoad(a, k, false);
      if r.Err? {
        return;
      }
      var account := accounts[a];
      var had := account.storage[k].present;
      if had != value {
        accounts := accounts[a := account.(storage := account.storage[k := account.storage[k].(present := value)])];
        log := log + [StorageChanged(a, k, had)];
      }
    }

    method SetBalance(a: Address, balance: U256)
      requires a in accounts
      modifies this
      ensures State() == JournalState.SetBalance(old(State()), a, balance)
    {
      Touch(a);
      var info := accounts[a].info;
      if info.balance != balance {
        accounts := accounts[a := accounts[a].(info := info.(balance := balance))];
        log := log + [BalanceChanged(a, info.balance)];
      }
    }

    method IncrBalance(a: Address, amount: U256) returns (ok: bool)
      requires a in accounts
      modifies this
      ensures State() == JournalState.IncrBalance(old(State()), a, amount)
      ensures ok <==> old(State()).Balance(a) + amount <= U256_MAX
    {
      var balance := accounts[a].info.balance;
      ok := balance + amount <= U256_MAX;
      if ok {
        SetBalance(a, balance + amount);
      }
    }

    method DecrBalance(a: Address, amount: U256) returns (ok: bool)
      requires a in accounts
      modifies this
      ensures State() == JournalState.DecrBalance(old(State()), a, amount)
      ensures ok <==> amount <= old(State()).Balance(a)
    {
      var balance := accounts[a].info.balance;
      ok := amount <= balance;
      if ok {
        SetBalance(a, balance - amount);
      }
    }

    method BumpNonce(a: Address)
      requires a in accounts
      modifies this
      ensures State() == JournalState.BumpNonce(old(State()), a)
    {
      Touch(a);
      var info := accounts[a].info;
      if info.nonce < U64_MAX {
        accounts := accounts[a := accounts[a].(info := info.(nonce := info.nonce + 1))];
        log := log + [NonceChanged(a, info.nonce)];
      }
    }

    method TransferLoaded(from: Address, to: Address, value: U256) returns (failure: Option<TransferError>)
      requires from in accounts && to in accounts
      modifies this
      ensures (State(), failure) == JournalState.TransferLoaded(old(State()), from, to, value)
    {
      if from == to {
        return if value > accounts[from].info.balance then Some(OutOfFunds) else None;
      }
      if value == 0 {
        Touch(to);
        return None;
      }
      Touch(from);
      var payer := accounts[from].info;
      if payer.balance < value {
        return Some(OutOfFunds);
      }
      accounts := accounts[from := accounts[from].(info := payer.(balance := payer.balance - value))];
      Touch(to);
      var payee := accounts[to].info;
      if payee.balance + value > U256_MAX {
        return Some(OverflowPayment);
      }
      accounts := accounts[to := accounts[to].(info := payee.(balance := payee.balance + value))];
      log := log + [BalanceMoved(from, to, value)];
      failure := None;
    }

    method Transfer(from: Address, to: Address, value: U256) returns (r: Result<Option<TransferError>, LoadError>)
      modifies this
      ensures Step(State(), r) == JournalState.Transfer(old(State()), from, to, value)
    {
      var payer := LoadAccount(from);
      if payer.Err? {
        return Err(payer.error);
      }
      var payee := LoadAccount(to);
      if payee.Err? {
        return Err(payee.error);
      }
      var failure := TransferLoaded(from, to, value);
      r := Ok(failure);
    }

    method Checkpoint() returns (mark: nat)
      modifies this
      ensures State() == OpenCheckpoint(old(State())) && mark == |log|
    {
      mark := |log|;
      depth := depth + 1;
    }

    method CheckpointCommit()
      modifies this
      ensures State() == CommitCheckpoint(old(State()))
    {
      if depth != 0 {
        depth := depth - 1;
      }
    }

    /** Takes back the newest log entry, in the accounts it names. */
    method Pop()
      requires log != []
      modifies this
      ensures State() == Popped(old(State()))
    {
      hide UndoneAccount;
      var e := log[|log| - 1];
      log := log[..|log| - 1];
      ghost var before := accounts;
      Replace(Target(e), e);
      if e.BalanceMoved? && e.to != e.from {
        Replace(e.to, e);
      }
      forall a | a in before ensures accounts[a] == UndoneAccount(before[a], e, a) {
        if a != Target(e) && !(e.BalanceMoved? && a == e.to) {
          UndoneOnlyAtTargets(before[a], e, a);
        }
      }
    }

    method Replace(a: Address, e: Entry)
      modifies this`accounts
      ensures accounts == if a in old(accounts) then old(accounts)[a := UndoneAccount(old(accounts)[a], e, a)]
                          else old(accounts)
    {
      if a in accounts {
        accounts := accounts[a := UndoneAccount(accounts[a], e, a)];
      }
    }

    method UndoLog(mark: nat)
      modifies this
      ensures State() == UndoTo(old(State()), mark)
    {
      while mark < |log|
        invariant UndoTo(State(), mark) == UndoTo(old(State()), mark)
        decreases |log|
      {
        Pop();
      }
    }

    method CheckpointRevert(mark: nat)
      modifies this
      ensures State() == RevertCheckpoint(old(State()), mark)
    {
      UndoLog(mark);
      CheckpointCommit();
    }

    method WarmAccessList(list: AccessList)
      modifies this
      ensures State() == JournalState.WarmAccessList(old(State()), list)
    {
      accessList := list;
    }

    method CommitTx()
      modifies this
      ensures State() == JournalState.CommitTx(old(State()))
    {
      accessList, log, depth, txId := map[], [], 0, txId + 1;
    }

    method DiscardTx()
      modifies this
      ensures State() == JournalState.DiscardTx(old(State()))
    {
      UndoLog(0);
      CommitTx();
    }

    /** Takes over the state that a run of call frames has left. */
    method Become(s: Journal)
      modifies this
      ensures State() == s
    {
      accounts, accessList, log, depth, txId := s.accounts, s.accessList, s.log, s.depth, s.txId;
      db, infoReads, slotReads := s.db, s.infoReads, s.slotReads;
    }
  }
}
