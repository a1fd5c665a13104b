/** BLOCKHASH: the window test, the ring index, and the gas-metered history read of EIP-7709. */
module Blockhash {
  import opened Words
  import opened Specs
  import opened JournalState

  const HISTORY: Address := 0x0000F90827F1C53a10cb7A02335B175320002935
  const SERVE_WINDOW: U64 := 8191
  const HASH_HISTORY: U64 := 256
  const BASE_COST: U64 := 20
  const WARM_READ_COST: U64 := 100
  const COLD_SLOT_COST: U64 := 2000

  datatype Env = Env(spec: SpecId, blockNumber: U256, chainId: U256, hashOf: (U64, U64) -> U256)

  datatype Halt = StackUnderflow | OutOfGas | FatalExternalError

  /** The interpreter's part of a call frame; the top of the stack comes last. */
  datatype Frame = Frame(stack: seq<U256>, gas: U64, halt: Option<Halt>) {
    predicate Ready() {
      halt.None? && stack != []
    }

    function Top(): U256
      requires stack != []
    {
      stack[|stack| - 1]
    }

    function WithTop(word: U256): Frame
      requires stack != []
    {
      this.(stack := stack[|stack| - 1 := word])
    }

    function Halted(reason: Halt): Frame {
      this.(halt := Some(reason))
    }

    /** An out-of-gas halt spends what is left. */
    function Exhausted(): Frame {
      this.(gas := 0, halt := Some(OutOfGas))
    }
  }

  function RingIndex(number: U256): U256 {
    AsU64Saturated(number) % SERVE_WINDOW
  }

  /** Loads the history account and rolls the load back, keeping only the cached account. */
  function PrepareHistory(s: Journal): Step<(), LoadError> {
    var loaded := LoadAccount(OpenCheckpoint(s), HISTORY);
    Step(RevertCheckpoint(loaded.journal, |s.log|),
         match loaded.result case Ok(_) => Ok(()) case Err(error) => Err(error))
  }

  /** The history read without its fast path: always prepare the account, then read the slot. */
  function SloadAfterRollback(s: Journal, k: U256, skipCold: bool): Step<StateLoad<U256>, LoadError> {
    var prepared := PrepareHistory(s);
    match prepared.result
    case Err(error) => Step(prepared.journal, Err(error))
    case Ok(_) => SloadSkipColdLoad(prepared.journal, HISTORY, k, skipCold)
  }

  /** The history read: a cached account is used as it is. */
  function HistorySload(s: Journal, k: U256, skipCold: bool): Step<StateLoad<U256>, LoadError> {
    var fast := SloadSkipColdLoad(s, HISTORY, k, skipCold);
    if fast.result == Err(ColdLoadSkipped) then SloadAfterRollback(fast.journal, k, skipCold) else fast
  }

  /** The history read from TsukiV2, metered like SLOAD. */
  function MeteredRead(s: Journal, f: Frame, k: U256): (Journal, Frame)
    requires f.stack != []
  {
    if f.gas < WARM_READ_COST then (s, f.Exhausted())
    else
      var g := f.(gas := f.gas - WARM_READ_COST);
      var read := HistorySload(s, k, g.gas < COLD_SLOT_COST);
      match read.result
      case Err(ColdLoadSkipped) => (read.journal, g.Exhausted())
      case Err(DBError) => (read.journal, g.Halted(FatalExternalError))
      case Ok(load) =>
        if !load.isCold then (read.journal, g.WithTop(load.data))
        else if g.gas < COLD_SLOT_COST then (read.journal, g.Exhausted())
        else (read.journal, g.(gas := g.gas - COLD_SLOT_COST).WithTop(load.data))
  }

  /** The history read from Feynman until TsukiV2: no charge, but the account is loaded, and its delegate. */
  function UnmeteredRead(s: Journal, f: Frame, k: U256): (Journal, Frame)
    requires f.stack != []
  {
    var loaded := LoadAccountDelegated(s, HISTORY);
    if loaded.result.Err? then (loaded.journal, f.Halted(FatalExternalError))
    else
      var read := SloadSkipColdLoad(loaded.journal, HISTORY, k, false);
      match read.result
      case Err(_) => (read.journal, f.Halted(FatalExternalError))
      case Ok(load) => (read.journal, f.WithTop(load.data))
  }

  /** The instruction after its base cost. */
  function Lookup(env: Env, s: Journal, f: Frame): (Journal, Frame) {
    if f.stack == [] then (s, f.Halted(StackUnderflow))
    else
      var number := f.Top();
      if env.blockNumber < number then (s, f.WithTop(0))
      else
        var diff := AsU64Saturated(env.blockNumber - number);
        if diff == 0 || diff > HASH_HISTORY then (s, f.WithTop(0))
        else if !env.spec.IsEnabledIn(FEYNMAN) then
          (s, f.WithTop(env.hashOf(AsU64Saturated(env.chainId), AsU64Saturated(number))))
        else if env.spec.IsEnabledIn(TSUKI_V2) then MeteredRead(s, f, RingIndex(number))
        else UnmeteredRead(s, f, RingIndex(number))
  }

  /** One BLOCKHASH, base cost included. */
  function Execute(env: Env, s: Journal, f: Frame): (Journal, Frame) {
    if f.gas < BASE_COST then (s, f.Exhausted())
    else Lookup(env, s, f.(gas := f.gas - BASE_COST))
  }
}

/** The instruction as the interpreter runs it, in place. */
module Instructions {
  import opened Words
  import opened Specs
  import opened JournalState
  import opened JournalLaws
  import opened JournaledStates
  import opened Blockhash
  import opened BlockhashLaws

  class Interpreter {
    var stack: seq<U256>
    var gas: U64
    var halt: Option<Halt>

    function State(): Frame
      reads this
    {
      Frame(stack, gas, halt)
    }

    constructor (words: seq<U256>, limit: U64)
      ensures State() == Frame(words, limit, None)
    {
      stack, gas, halt := words, limit, None;
    }

    method HaltOutOfGas()
      modifies this
      ensures State() == old(State()).Exhausted()
    {
      gas, halt := 0, Some(OutOfGas);
    }

    /** Charges `cost`, or halts and reports that the instruction must stop. */
    method Charge(cost: U64) returns (paid: bool)
      modifies this
      ensures paid <==> cost <= old(gas)
      ensures State() == if paid then old(State()).(gas := old(gas) - cost) else old(State()).Exhausted()
    {
      paid := cost <= gas;
      if paid {
        gas := gas - cost;
      } else {
        HaltOutOfGas();
      }
    }

    method SetTop(word: U256)
      requires stack != []
      modifies this
      ensures State() == old(State()).WithTop(word)
    {
      stack := stack[|stack| - 1 := word];
    }
  }

  method Eip7709HistorySload(host: JournaledState, index: U256, skipCold: bool)
    returns (r: Result<StateLoad<U256>, LoadError>)
    modifies host
    ensures Step(host.State(), r) == HistorySload(old(host.State()), index, skipCold)
  {
    r := host.SloadSkipColdLoad(HISTORY, index, skipCold);
    if r != Err(ColdLoadSkipped) {
      return;
    }
    var checkpoint := host.Checkpoint();
    var loaded := host.LoadAccount(HISTORY);
    host.CheckpointRevert(checkpoint);
    if loaded.Err? {
      return Err(loaded.error);
    }
    r := host.SloadSkipColdLoad(HISTORY, index, skipCold);
  }

  method BlockhashInstruction(env: Env, host: JournaledState, interpreter: Interpreter)
    modifies host, interpreter
    ensures (host.State(), interpreter.State()) == Lookup(env, old(host.State()), old(interpreter.State()))
  {
    hide LoadAccount, LoadAccountDelegated, SloadSkipColdLoad, HistorySload;
    if interpreter.stack == [] {
      interpreter.halt := Some(StackUnderflow);
      return;
    }
    var requested := interpreter.stack[|interpreter.stack| - 1];
    if env.blockNumber < requested {
      interpreter.SetTop(0);
      return;
    }
    var diff := AsU64Saturated(env.blockNumber - requested);
    var word: U256 := 0;
    if diff == 0 || diff > HASH_HISTORY {
      word := 0;
    } else if !env.spec.IsEnabledIn(FEYNMAN) {
      word := env.hashOf(AsU64Saturated(env.chainId), AsU64Saturated(requested));
    } else {
      var index := RingIndex(requested);
      if env.spec.IsEnabledIn(TSUKI_V2) {
        var paid := interpreter.Charge(WARM_READ_COST);
        if !paid {
          return;
        }
        var skipCold := interpreter.gas < COLD_SLOT_COST;
        var value := Eip7709HistorySload(host, index, skipCold);
        match value {
          case Ok(load) =>
            if load.isCold {
              paid := interpreter.Charge(COLD_SLOT_COST);
              if !paid {
                return;
              }
            }
            word := load.data;
          case Err(ColdLoadSkipped) =>
            interpreter.HaltOutOfGas();
            return;
          case Err(DBError) =>
            interpreter.halt := Some(FatalExternalError);
            return;
        }
      } else {
        var loaded := host.LoadAccountDelegated(HISTORY);
        if loaded.Err? {
          interpreter.halt := Some(FatalExternalError);
          return;
        }
        var value := host.SloadSkipColdLoad(HISTORY, index, false);
        if value.Err? {
          interpreter.halt := Some(FatalExternalError);
          return;
        }
        word := value.value.data;
      }
    }
    interpreter.SetTop(word);
  }

  /** One BLOCKHASH step of the interpreter loop: the base cost, then the instruction. From every
      journal over a healthy database it does what EIP-7709 asks for. */
  method StepBlockhash(env: Env, host: JournaledState, interpreter: Interpreter)
    modifies host, interpreter
    ensures (host.State(), interpreter.State()) == Execute(env, old(host.State()), old(interpreter.State()))
    ensures WellFormed(old(host.State())) && old(host.State()).db.Healthy() && old(interpreter.State()).Ready() ==>
      Meets((host.State(), interpreter.State()), env, old(host.State()), old(interpreter.State()))
  {
    if WellFormed(host.State()) && host.State().db.Healthy() && interpreter.State().Ready() {
      BlockhashMeetsReference(env, host.State(), interpreter.State());
    }
    hide Meets, WellFormed;
    var paid := interpreter.Charge(BASE_COST);
    if paid {
      BlockhashInstruction(env, host, interpreter);
    }
  }
}
