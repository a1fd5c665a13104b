/** Transactions, blocks and configuration, and what the fee rules derive from them. */
module Transactions {
  import opened Words
  import opened Specs
  import L1Block

  const SYSTEM_ADDRESS: Address := 0xFFFF_FFFF_FFFF_FFFF_FFFF_FFFF_FFFF_FFFF_FFFF_FFFE

  type I64 = x: int | -0x8000_0000_0000_0000 <= x < 0x8000_0000_0000_0000

  datatype TxType = Legacy | AccessListTx | DynamicFee | L1Message

  datatype Tx = Tx(
    txType: TxType,
    caller: Address,
    nonce: U64,
    gasLimit: U64,
    gasPrice: U128,
    priorityFee: Option<U128>,
    value: U256,
    isCall: bool,
    accessList: seq<(Address, seq<U256>)>,
    rlpBytes: Option<Bytes>,
    compressionRatio: Option<U256>,
    compressedSize: Option<U64>)
  {
    predicate IsL1Msg() {
      txType == L1Message
    }

    predicate IsSystemTx() {
      caller == SYSTEM_ADDRESS
    }

    predicate IsFeeCharged() {
      !IsL1Msg() && !IsSystemTx()
    }

    /** The price actually paid: the fee cap, or base fee plus tip if that is lower. */
    function EffectiveGasPrice(baseFee: U64): (price: U128)
      ensures txType == Legacy || txType == AccessListTx || priorityFee.None? ==> price == gasPrice
      ensures txType != Legacy && txType != AccessListTx && priorityFee.Some? ==>
                && price <= gasPrice && price <= baseFee + priorityFee.value
                && (price == gasPrice || price == baseFee + priorityFee.value)
    {
      if txType == Legacy || txType == AccessListTx || priorityFee.None? then gasPrice
      else Min(gasPrice, SaturatingAdd128(baseFee, priorityFee.value))
    }
  }

  datatype Block = Block(baseFee: U64, beneficiary: Address)

  datatype Cfg = Cfg(spec: SpecId, eip3607Disabled: bool, eip7623Disabled: bool)

  datatype InitialGas = InitialGas(initial: U64, floor: U64)

  datatype TxError =
    | CallGasCostMoreThanGasLimit(gasLimit: U64, initialGas: U64)
    | GasFloorMoreThanGasLimit(gasFloor: U64, limit: U64)
    | RejectCallerWithCode
    | NonceTooHigh
    | NonceTooLow
    | LackOfFundForMaxFee(fee: U256, balance: U256)
    | OverflowPaymentInTransaction
    | MissingRlpBytes
    | L1Fee(error: L1Block.L1FeeError)
    | DatabaseFailure

  /** `gasLimit * price`, which must fit in 128 bits. */
  function GasCost(tx: Tx, price: U128): Result<U128, TxError> {
    if tx.gasLimit * price <= U128_MAX then Ok(tx.gasLimit * price) else Err(OverflowPaymentInTransaction)
  }

  function MaxBalanceSpending(tx: Tx): Result<U256, TxError> {
    var gas :- GasCost(tx, tx.gasPrice);
    if gas + tx.value <= U256_MAX then Ok(gas + tx.value) else Err(OverflowPaymentInTransaction)
  }

  function TxL1Cost(info: L1Block.L1BlockInfo, tx: Tx, spec: SpecId): Result<U256, TxError> {
    match tx.rlpBytes
    case None => Err(MissingRlpBytes)
    case Some(bytes) =>
      match L1Block.TryCalculateTxL1Cost(info, bytes, spec, tx.compressionRatio, tx.compressedSize)
      case Ok(cost) => Ok(cost)
      case Err(error) => Err(L1Fee(error))
  }

  /** Listed accounts and storage slots; a legacy transaction lists none. */
  function CountListed(tx: Tx): (nat, nat) {
    if tx.txType == Legacy then (0, 0) else (|tx.accessList|, CountSlots(tx.accessList))
  }

  function CountSlots(list: seq<(Address, seq<U256>)>): nat {
    if list == [] then 0
    else
      var last := |list| - 1;
      CountSlots(list[..last]) + |list[last].1|
  }

  /** Intrinsic gas of a transaction with that many listed accounts and slots, as the configured gas
      parameters price it. */
  type Intrinsic = (Tx, nat, nat) -> InitialGas

  function ValidateInitialTxGas(cfg: Cfg, tx: Tx, intrinsic: Intrinsic): Result<InitialGas, TxError> {
    var (accounts, slots) := CountListed(tx);
    var raw := intrinsic(tx, accounts, slots);
    var gas := if cfg.eip7623Disabled || !cfg.spec.IsEnabledIn(FEYNMAN) then raw.(floor := 0) else raw;
    if gas.initial > tx.gasLimit then Err(CallGasCostMoreThanGasLimit(tx.gasLimit, gas.initial))
    else if cfg.spec.IsEnabledIn(FEYNMAN) && gas.floor > tx.gasLimit then
      Err(GasFloorMoreThanGasLimit(gas.floor, tx.gasLimit))
    else Ok(gas)
  }
}

/** Gas settlement: from the last frame's gas to what the caller pays for. */
module GasSettlement {
  import opened Words
  import opened Transactions

  datatype Status = Success | Revert | Halt

  /** A gas counter; the refund counter is a signed 64-bit number. */
  datatype Gas = Gas(limit: U64, remaining: U64, refunded: int) {
    function Spent(): U64 {
      if remaining <= limit then limit - remaining else 0
    }

    function Used(): U64 {
      var refund := AsU64(refunded);
      if refund <= Spent() then Spent() - refund else 0
    }
  }

  /** The two's complement reading of a 64-bit counter as an unsigned number. */
  function AsU64(x: int): U64 {
    x % (U64_MAX + 1)
  }

  datatype ResultGas = ResultGas(spent: nat, refunded: U64, floor: U64) {
    /** What a receipt reports. */
    function Used(): nat {
      Max(if refunded <= spent then spent - refunded else 0, floor)
    }
  }

  /** All gas is spent, except what a frame that did not halt returns; only success refunds. */
  function LastFrameGas(tx: Tx, status: Status, remaining: U64, refunded: int): Gas {
    Gas(tx.gasLimit,
        if status.Halt? then 0 else remaining,
        if !tx.IsL1Msg() && status.Success? then refunded else 0)
  }

  /** The refund is capped at a fifth of the gas spent. */
  function Refunded(tx: Tx, gas: Gas, authRefund: I64): Gas {
    if tx.IsL1Msg() then gas
    else gas.(refunded := Min(AsU64(gas.refunded + authRefund), gas.Spent() / 5))
  }

  function Floored(tx: Tx, gas: Gas, floor: U64): Gas {
    if tx.IsL1Msg() || gas.Used() >= floor then gas
    else Gas(gas.limit, if floor <= gas.limit then gas.limit - floor else 0, 0)
  }

  /** The gas object of the receipt, taken before the floor is charged. */
  function ReceiptGas(tx: Tx, gas: Gas, floor: U64): ResultGas {
    ResultGas(gas.Spent(), AsU64(gas.refunded), if tx.IsL1Msg() then 0 else floor)
  }

  function Settled(tx: Tx, status: Status, remaining: U64, refunded: I64, authRefund: I64, floor: U64): Gas {
    Floored(tx, Refunded(tx, LastFrameGas(tx, status, remaining, refunded), authRefund), floor)
  }

  function Reported(tx: Tx, status: Status, remaining: U64, refunded: I64, authRefund: I64, floor: U64): nat {
    ReceiptGas(tx, Refunded(tx, LastFrameGas(tx, status, remaining, refunded), authRefund), floor).Used()
  }

  /** The gas that was consumed before any refund: all of it when the frame halted. */
  function Consumed(tx: Tx, status: Status, remaining: U64): nat
    requires remaining <= tx.gasLimit
  {
    if status.Halt? then tx.gasLimit else tx.gasLimit - remaining
  }

  /** The refund counter: the frame's own only if it succeeded, and that of the authorizations. Where it
      is used it is read as an unsigned 64-bit number. */
  function RefundCounter(status: Status, refunded: I64, authRefund: I64): int {
    (if status.Success? then refunded else 0) + authRefund
  }

  lemma AsU64OfWord(x: U64)
    ensures AsU64(x) == x
  {
  }

  /** The counter after the last frame and the capped refund. */
  lemma RefundedGas(tx: Tx, status: Status, remaining: U64, refunded: I64, authRefund: I64)
    requires !tx.IsL1Msg() && remaining <= tx.gasLimit
    ensures var consumed := Consumed(tx, status, remaining);
      var g := Refunded(tx, LastFrameGas(tx, status, remaining, refunded), authRefund);
      g == Gas(tx.gasLimit, tx.gasLimit - consumed,
               Min(RefundCounter(status, refunded, authRefund) % 0x1_0000_0000_0000_0000, consumed / 5))
  {
  }

  /** For every validated transaction and every outcome of its frame: the gas limit splits into used,
      remaining and refunded gas; at most a fifth of the spent gas is refunded; at least the floor
      and four fifths of the intrinsic gas is used; and the receipt reports exactly what is paid. */
  lemma SettlementBounds(tx: Tx, gas: InitialGas, status: Status, remaining: U64, refunded: I64, authRefund: I64)
    requires !tx.IsL1Msg()
    requires gas.initial <= tx.gasLimit && gas.floor <= tx.gasLimit
    requires remaining <= tx.gasLimit - gas.initial
    ensures var g := Settled(tx, status, remaining, refunded, authRefund, gas.floor);
      && g.limit == tx.gasLimit && g.remaining <= tx.gasLimit
      && 0 <= g.refunded <= g.Spent() / 5
      && g.Used() + g.remaining + g.refunded == tx.gasLimit
      && gas.floor <= g.Used() <= tx.gasLimit
      && (4 * gas.initial + 4) / 5 <= g.Used()
      && (var consumed := Consumed(tx, status, remaining);
          g.Used() == Max(gas.floor,
                          consumed - Min(RefundCounter(status, refunded, authRefund) % 0x1_0000_0000_0000_0000,
                                         consumed / 5)))
      && Reported(tx, status, remaining, refunded, authRefund, gas.floor) == g.Used()
  {
    hide AsU64, RefundCounter;
    var consumed := Consumed(tx, status, remaining);
    var refund := Min(RefundCounter(status, refunded, authRefund) % 0x1_0000_0000_0000_0000, consumed / 5);
    RefundedGas(tx, status, remaining, refunded, authRefund);
    AsU64OfWord(refund);
    AsU64OfWord(0);
    hide LastFrameGas, Refunded, Min;
    assert 0 <= refund <= consumed / 5;
  }

  /** An L1 message gets no refund and owes no floor: it reports exactly the gas it spent. */
  lemma L1MessageSettlement(tx: Tx, gas: InitialGas, status: Status, remaining: U64, refunded: I64, authRefund: I64)
    requires tx.IsL1Msg() && gas.initial <= tx.gasLimit
    requires remaining <= tx.gasLimit - gas.initial
    ensures var g := Settled(tx, status, remaining, refunded, authRefund, gas.floor);
      && g.refunded == 0
      && g.Used() == tx.gasLimit - (if status.Halt? then 0 else remaining)
      && gas.initial <= g.Used()
      && Reported(tx, status, remaining, refunded, authRefund, gas.floor) == g.Used()
  {
  }
}
