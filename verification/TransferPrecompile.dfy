/** The native transfer precompile: guards, calldata decoding, the receiver check, the transfer. */
module TransferPrecompile {
  import opened Words
  import opened JournalState
  import opened JournaledStates

  const NATIVE_DOGE_TOKEN: Address := 0x530000000000000000000000000000000000d09e
  const GAS_COST: U64 := 9000
  const CALL_DATA_LENGTH: nat := 96

  datatype Call = Call(
    data: seq<Byte>,
    gas: U64,
    caller: Address,
    target: Address,
    codeAddress: Address,
    isStatic: bool)

  datatype PrecompileError =
    | StaticCall
    | NotDirectCall
    | DisallowedCaller
    | OutOfGas
    | WrongLength
    | Fatal

  datatype Output = Output(gasUsed: U64, reverted: bool)

  /** A big-endian number. */
  function FromBytes(bytes: seq<Byte>): nat {
    if bytes == [] then 0 else 256 * FromBytes(bytes[..|bytes| - 1]) + bytes[|bytes| - 1]
  }

  function Power256(n: nat): nat {
    if n == 0 then 1 else 256 * Power256(n - 1)
  }

  lemma {:induction false} FromBytesBound(bytes: seq<Byte>)
    ensures FromBytes(bytes) < Power256(|bytes|)
  {
    if bytes == [] {
    } else {
      FromBytesBound(bytes[..|bytes| - 1]);
    }
  }

  lemma PowersOfWords()
    ensures Power256(20) == ADDRESS_COUNT && Power256(32) == U256_MAX + 1
  {
    assert Power256(20) == 0x1_0000_0000_0000_0000 * Power256(12);
  }

  function AddressFromSlice(bytes: seq<Byte>): Address
    requires |bytes| == 20
  {
    FromBytesBound(bytes);
    PowersOfWords();
    FromBytes(bytes)
  }

  function WordFromSlice(bytes: seq<Byte>): U256
    requires |bytes| == 32
  {
    FromBytesBound(bytes);
    PowersOfWords();
    FromBytes(bytes)
  }

  datatype Order = Order(from: Address, to: Address, value: U256)

  /** The three 32-byte parameters; the padding of the two addresses is not looked at. */
  function Decode(data: seq<Byte>): Order
    requires |data| == CALL_DATA_LENGTH
  {
    Order(AddressFromSlice(data[12..32]), AddressFromSlice(data[44..64]), WordFromSlice(data[64..96]))
  }

  /** The first guard that a call fails, if any. */
  function Guard(call: Call): Option<PrecompileError> {
    if call.isStatic then Some(StaticCall)
    else if call.target != call.codeAddress then Some(NotDirectCall)
    else if call.caller != NATIVE_DOGE_TOKEN then Some(DisallowedCaller)
    else if call.gas < GAS_COST then Some(OutOfGas)
    else if |call.data| != CALL_DATA_LENGTH then Some(WrongLength)
    else None
  }

  /** Checks that the receiver can take `value`, loading it unless it is the payer. */
  function CheckReceiver(s: Journal, order: Order): Step<bool, LoadError> {
    if order.from == order.to then Step(s, Ok(true))
    else
      var loaded := LoadAccount(s, order.to);
      match loaded.result
      case Err(error) => Step(loaded.journal, Err(error))
      case Ok(load) => Step(loaded.journal, Ok(load.data.balance + order.value <= U256_MAX))
  }

  function Run(s: Journal, call: Call): Step<Output, PrecompileError> {
    match Guard(call)
    case Some(error) => Step(s, Err(error))
    case None =>
      var order := Decode(call.data);
      var check := CheckReceiver(s, order);
      match check.result
      case Err(_) => Step(check.journal, Err(Fatal))
      case Ok(fits) =>
        if !fits then Step(check.journal, Ok(Output(GAS_COST, true)))
        else
          var moved := Transfer(check.journal, order.from, order.to, order.value);
          match moved.result
          case Err(_) => Step(moved.journal, Err(Fatal))
          case Ok(failure) => Step(moved.journal, Ok(Output(GAS_COST, failure.Some?)))
  }

  /** The precompile on the mutable journal, with its early returns in order. */
  method RunPrecompile(journal: JournaledState, call: Call) returns (r: Result<Output, PrecompileError>)
    modifies journal
    ensures Step(journal.State(), r) == Run(old(journal.State()), call)
  {
    if call.isStatic {
      return Err(StaticCall);
    }
    if call.target != call.codeAddress {
      return Err(NotDirectCall);
    }
    if call.caller != NATIVE_DOGE_TOKEN {
      return Err(DisallowedCaller);
    }
    if call.gas < GAS_COST {
      return Err(OutOfGas);
    }
    if |call.data| != CALL_DATA_LENGTH {
      return Err(WrongLength);
    }
    var from := AddressFromSlice(call.data[12..32]);
    var to := AddressFromSlice(call.data[44..64]);
    var value := WordFromSlice(call.data[64..96]);
    if from != to {
      var loaded := journal.LoadAccount(to);
      if loaded.Err? {
        return Err(Fatal);
      }
      if loaded.value.data.balance + value > U256_MAX {
        return Ok(Output(GAS_COST, true));
      }
    }
    var moved := journal.Transfer(from, to, value);
    if moved.Err? {
      return Err(Fatal);
    }
    r := Ok(Output(GAS_COST, moved.value.Some?));
  }
}

/** What the precompile promises: exactly `value` moves, or nothing does. */
module TransferLaws {
  import opened Words
  import opened JournalState
  import opened JournalLaws
  import opened JournalEffects
  import opened TransferEffects
  import opened TransferPrecompile

  function ToBytes(value: nat, length: nat): (bytes: seq<Byte>)
    ensures |bytes| == length
  {
    if length == 0 then [] else ToBytes(value / 256, length - 1) + [value % 256]
  }

  lemma {:induction false} BytesRoundTrip(value: nat, length: nat)
    requires value < Power256(length)
    ensures FromBytes(ToBytes(value, length)) == value
  {
    if length == 0 {
    } else {
      BytesRoundTrip(value / 256, length - 1);
      assert ToBytes(value, length)[..length - 1] == ToBytes(value / 256, length - 1);
    }
  }

  /** Decoding returns what was encoded, whatever the padding. */
  lemma DecodeRoundTrip(order: Order, padFrom: seq<Byte>, padTo: seq<Byte>)
    requires |padFrom| == 12 && |padTo| == 12
    ensures var data := padFrom + ToBytes(order.from, 20) + padTo + ToBytes(order.to, 20) + ToBytes(order.value, 32);
      |data| == CALL_DATA_LENGTH && Decode(data) == order
  {
    var data := padFrom + ToBytes(order.from, 20) + padTo + ToBytes(order.to, 20) + ToBytes(order.value, 32);
    PowersOfWords();
    assert data[12..32] == ToBytes(order.from, 20);
    assert data[44..64] == ToBytes(order.to, 20);
    assert data[64..96] == ToBytes(order.value, 32);
    BytesRoundTrip(order.from, 20);
    BytesRoundTrip(order.to, 20);
    BytesRoundTrip(order.value, 32);
  }

  /** The order can be carried out: the payer has the value, and another receiver has room for it. */
  predicate Feasible(s: Journal, order: Order) {
    && order.value <= s.Balance(order.from)
    && (order.from == order.to || s.Balance(order.to) + order.value <= U256_MAX)
  }

  /** Only a receiver without room leaves the payer unloaded. */
  predicate Loads(s: Journal, order: Order, a: Address) {
    || a == order.to
    || (a == order.from && s.Balance(order.to) + order.value <= U256_MAX)
  }

  /** What a call that passed the guards leaves: balances moved, slots as before, and the named
      accounts warm. */
  ghost predicate CarriedOut(t: Journal, s: Journal, order: Order, done: bool) {
    && SameContext(t, s)
    && (forall a: Address ::
          t.Balance(a) == Moved(s, order.from, order.to, if done then order.value else 0, a))
    && (forall a: Address :: t.InfoOf(a) == s.InfoOf(a).(balance := t.Balance(a)))
    && (forall a: Address :: s.IsTouched(a) ==> t.IsTouched(a))
    && (forall a: Address :: t.IsTouched(a) || t.InfoOf(a) == s.InfoOf(a))
    && (forall a: Address :: t.IsAccountWarm(a) <==> Loads(s, order, a) || s.IsAccountWarm(a))
    && (forall a: Address, k: U256 :: SameSlotAt(t, s, a, k))
  }

  lemma LoadKeepsInfos(s: Journal, a: Address)
    ensures var t := LoadAccount(s, a).journal;
      s.accounts.Keys <= t.accounts.Keys && forall b: Address :: t.InfoOf(b) == s.InfoOf(b)
  {
  }

  /** After the receiver check, the journal's transfer never meets an overflowing receiver: its
      debit-then-fail case is unreachable from the precompile. */
  lemma CheckedTransferIsAtomic(s: Journal, order: Order)
    requires CheckReceiver(s, order).result == Ok(true)
    ensures !Overflows(s, order.from, order.to, order.value)
    ensures Transfer(CheckReceiver(s, order).journal, order.from, order.to, order.value).result
              != Ok(Some(OverflowPayment))
  {
    var t := CheckReceiver(s, order).journal;
    LoadKeepsInfos(s, order.to);
    LoadKeepsInfos(t, order.from);
    LoadKeepsInfos(LoadAccount(t, order.from).journal, order.to);
    hide LoadAccount;
  }

  ghost predicate BothLoaded(t: Journal, s: Journal, order: Order) {
    && SameContext(t, s)
    && (forall a: Address :: t.InfoOf(a) == s.InfoOf(a))
    && (forall a: Address :: t.IsTouched(a) == s.IsTouched(a))
    && (forall a: Address :: t.IsAccountWarm(a) <==> a == order.from || a == order.to || s.IsAccountWarm(a))
    && (forall a: Address, k: U256 :: SameSlotAt(t, s, a, k))
  }

  /** The journal's transfer, loads included. */
  lemma TransferEffect(s: Journal, order: Order)
    requires WellFormed(s) && s.db.Healthy() && !Overflows(s, order.from, order.to, order.value)
    ensures var r := Transfer(s, order.from, order.to, order.value);
      var done := order.value <= s.Balance(order.from);
      && Extends(r.journal, s)
      && r.result == Ok(if done then None else Some(OutOfFunds))
      && exists u :: BothLoaded(u, s, order)
                     && ValueMoved(r.journal, u, order.from, order.to, if done then order.value else 0)
  {
    var t := LoadAccount(s, order.from).journal;
    var u := LoadAccount(t, order.to).journal;
    hide WellFormed, Extends;
    LoadAccountEffect(s, order.from);
    ExtendsKeepsContext(t, s);
    LoadAccountEffect(t, order.to);
    ExtendsTransitive(s, t, u);
    ExtendsKeepsContext(u, s);
    SlotsTransitive(u, t, s);
    assert u.InfoOf(order.from) == t.InfoOf(order.from) == s.InfoOf(order.from);
    assert u.InfoOf(order.to) == t.InfoOf(order.to) == s.InfoOf(order.to);
    assert BothLoaded(u, s, order);
    TransferLoadedEffect(u, order.from, order.to, order.value);
    hide LoadAccount, TransferLoaded;
    ExtendsTransitive(s, u, TransferLoaded(u, order.from, order.to, order.value).0);
  }

  lemma CarriedOutThrough(s: Journal, c: Journal, u: Journal, t: Journal, order: Order, done: bool)
    requires SameContext(c, s) && (forall a: Address :: c.InfoOf(a) == s.InfoOf(a))
    requires forall a: Address :: c.IsTouched(a) == s.IsTouched(a)
    requires forall a: Address ::
      c.IsAccountWarm(a) <==> (a == order.to && order.from != order.to) || s.IsAccountWarm(a)
    requires forall a: Address, k: U256 :: SameSlotAt(c, s, a, k)
    requires s.Balance(order.to) + order.value <= U256_MAX || order.from == order.to
    requires BothLoaded(u, c, order)
    requires ValueMoved(t, u, order.from, order.to, if done then order.value else 0)
    ensures CarriedOut(t, s, order, done)
  {
    SlotsTransitive(u, c, s);
    SlotsTransitive(t, u, s);
    var value := if done then order.value else 0;
    forall a: Address
      ensures t.Balance(a) == Moved(s, order.from, order.to, value, a)
      ensures t.InfoOf(a) == s.InfoOf(a).(balance := t.Balance(a))
    {
      assert u.InfoOf(a) == c.InfoOf(a) == s.InfoOf(a);
      assert t.Balance(a) == Moved(u, order.from, order.to, value, a);
    }
    forall a: Address
      ensures s.IsTouched(a) ==> t.IsTouched(a)
      ensures t.IsTouched(a) || t.InfoOf(a) == s.InfoOf(a)
    {
      assert c.IsTouched(a) == s.IsTouched(a) && u.IsTouched(a) == c.IsTouched(a);
      assert u.InfoOf(a) == c.InfoOf(a) == s.InfoOf(a);
    }
  }

  lemma CheckReceiverEffect(s: Journal, order: Order)
    requires WellFormed(s) && s.db.Healthy()
    ensures var c := CheckReceiver(s, order);
      && Extends(c.journal, s) && c.journal.db == s.db
      && c.result == Ok(order.from == order.to || s.Balance(order.to) + order.value <= U256_MAX)
      && SameContext(c.journal, s) && (forall a: Address :: c.journal.InfoOf(a) == s.InfoOf(a))
      && (forall a: Address :: c.journal.IsTouched(a) == s.IsTouched(a))
      && (forall a: Address :: c.journal.IsAccountWarm(a)
            <==> (a == order.to && order.from != order.to) || s.IsAccountWarm(a))
      && (forall a: Address, k: U256 :: SameSlotAt(c.journal, s, a, k))
  {
    if order.from == order.to {
      ExtendsReflexive(s);
    } else {
      LoadAccountEffect(s, order.to);
      hide LoadAccount;
    }
  }

  // Which calls are let in.

  /** A direct, non-static call by the native token, with the gas and the three words it needs. */
  predicate Permitted(call: Call) {
    && !call.isStatic
    && call.target == call.codeAddress
    && call.caller == 0x530000000000000000000000000000000000d09e
    && 9000 <= call.gas
    && |call.data| == 96
  }

  /** Why a call is refused, in the order in which the reasons are found. */
  function Refusal(call: Call): Option<PrecompileError> {
    if call.isStatic then Some(StaticCall)
    else if call.target != call.codeAddress then Some(NotDirectCall)
    else if call.caller != 0x530000000000000000000000000000000000d09e then Some(DisallowedCaller)
    else if call.gas < 9000 then Some(OutOfGas)
    else if |call.data| != 96 then Some(WrongLength)
    else None
  }

  lemma GuardRefuses(call: Call)
    ensures Guard(call) == Refusal(call) && (Refusal(call).None? <==> Permitted(call))
  {
  }

  /** Loading the two accounts meets a failing database: the receiver first, unless it is the payer;
      the payer only if the receiver has room. */
  predicate LoadsFail(s: Journal, order: Order) {
    || (order.from != order.to && Unloadable(s, order.to))
    || ((order.from == order.to || s.Balance(order.to) + order.value <= U256_MAX) && Unloadable(s, order.from))
  }

  lemma TransferFails(s: Journal, order: Order)
    requires WellFormed(s)
    ensures Transfer(s, order.from, order.to, order.value).result.Err?
       <==> Unloadable(s, order.from) || Unloadable(s, order.to)
  {
    var t := LoadAccount(s, order.from).journal;
    LoadAccountEffect(s, order.from);
    LoadAccountEffect(t, order.to);
    LoadKeepsReadability(s, order.from);
    hide LoadAccount, TransferLoaded, Extends, SameView;
  }

  /** From every journal, whatever its database: a call gets past the guards exactly if it is permitted,
      is refused for the first reason that holds, and fails fatally exactly if a load does. */
  lemma RunOutcomeExactly(s: Journal, call: Call)
    requires WellFormed(s)
    ensures var r := Run(s, call).result;
      && (r.Ok? ==> Permitted(call) && r.value.gasUsed == 9000)
      && (Refusal(call).Some? ==> Run(s, call) == Step(s, Err(Refusal(call).value)))
      && (r == Err(Fatal) <==> Permitted(call) && LoadsFail(s, Decode(call.data)))
      && (Permitted(call) ==> r.Ok? || r == Err(Fatal))
  {
    GuardRefuses(call);
    if Permitted(call) {
      var order := Decode(call.data);
      var c := CheckReceiver(s, order);
      LoadAccountEffect(s, order.to);
      LoadKeepsReadability(s, order.to);
      hide Decode, Guard, LoadAccount, Transfer, Extends, SameView;
      assert WellFormed(c.journal) by {
        ExtendsKeepsContext(LoadAccount(s, order.to).journal, s);
      }
      TransferFails(c.journal, order);
    }
  }

  /** Every call ends in one of three ways: a refusal with the journal untouched; success, exactly when
      the order is feasible, with exactly `value` moved; or a revert with no balance changed. Whatever
      happened can be undone by the log. */
  lemma RunMeetsReference(s: Journal, call: Call)
    requires WellFormed(s) && s.db.Healthy()
    ensures var r := Run(s, call);
      && Extends(r.journal, s)
      && (Refusal(call).Some? ==> r == Step(s, Err(Refusal(call).value)))
      && (Refusal(call).None? ==>
            && |call.data| == 96
            && var order := Decode(call.data);
            && r.result == Ok(Output(9000, !Feasible(s, order)))
            && CarriedOut(r.journal, s, order, Feasible(s, order)))
  {
    ExtendsReflexive(s);
    GuardRefuses(call);
    if Guard(call).None? {
      var order := Decode(call.data);
      var c := CheckReceiver(s, order);
      CheckReceiverEffect(s, order);
      hide Decode, Guard, Refusal, CheckReceiver, Transfer;
      if c.result.value {
        RunAfterCheck(s, c.journal, order);
      } else {
        RejectedReceiver(s, c.journal, order);
      }
      hide CarriedOut, Extends, Feasible;
    }
  }

  lemma RejectedReceiver(s: Journal, c: Journal, order: Order)
    requires WellFormed(s) && s.db.Healthy() && Step(c, Ok(false)) == CheckReceiver(s, order)
    ensures Extends(c, s) && !Feasible(s, order) && CarriedOut(c, s, order, false)
  {
    CheckReceiverEffect(s, order);
    hide CheckReceiver;
  }

  lemma RunAfterCheck(s: Journal, c: Journal, order: Order)
    requires WellFormed(s) && s.db.Healthy() && Step(c, Ok(true)) == CheckReceiver(s, order)
    ensures var r := Transfer(c, order.from, order.to, order.value);
      && Extends(r.journal, s)
      && r.result == Ok(if Feasible(s, order) then None else Some(OutOfFunds))
      && CarriedOut(r.journal, s, order, Feasible(s, order))
  {
    hide WellFormed, Extends;
    CheckReceiverEffect(s, order);
    hide CheckReceiver;
    ExtendsKeepsContext(c, s);
    assert c.InfoOf(order.from) == s.InfoOf(order.from);
    assert c.InfoOf(order.to) == s.InfoOf(order.to);
    TransferEffect(c, order);
    hide Transfer;
    var r := Transfer(c, order.from, order.to, order.value);
    var done := order.value <= c.Balance(order.from);
    var u :| BothLoaded(u, c, order)
             && ValueMoved(r.journal, u, order.from, order.to, if done then order.value else 0);
    ExtendsTransitive(s, c, r.journal);
    CarriedOutThrough(s, c, u, r.journal, order, done);
  }
}
