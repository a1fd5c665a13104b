/** The L1 data fee: oracle values, the four fee formulas and their cap, in 256-bit words. */
module L1Block {
  import opened Words
  import opened Specs

  const ZERO_BYTE_COST: nat := 4
  const NON_ZERO_BYTE_COST: nat := 16
  const TX_L1_COMMIT_EXTRA_COST: U256 := 64
  const PRECISION: U256 := 1_000_000_000

  const L1_GAS_PRICE_ORACLE: Address := 0x5300000000000000000000000000000000000002
  const L1_BASE_FEE_SLOT: U256 := 1
  const L1_OVERHEAD_SLOT: U256 := 2
  const L1_SCALAR_SLOT: U256 := 3
  const L1_BLOB_BASE_FEE_SLOT: U256 := 5
  const L1_COMMIT_SCALAR_SLOT: U256 := 6
  const L1_BLOB_SCALAR_SLOT: U256 := 7
  const PENALTY_THRESHOLD_SLOT: U256 := 9
  const PENALTY_FACTOR_SLOT: U256 := 10

  datatype L1FeeError =
    | MissingOracleValue
    | MissingCompressionRatio
    | InvalidCompressionRatio(ratio: U256)
    | MissingCompressedSize
    | InvalidCompressedSize(compressedSize: U64, txSize: nat)

  datatype L1BlockInfo = L1BlockInfo(
    l1BaseFee: U256,
    l1FeeOverhead: U256,
    l1BaseFeeScalar: U256,
    l1BlobBaseFee: Option<U256>,
    l1CommitScalar: Option<U256>,
    l1BlobScalar: Option<U256>,
    calldataGas: Option<U256>,
    penaltyThreshold: Option<U256>,
    penaltyFactor: Option<U256>)

  /** Reads one oracle slot; `None` is a database error. */
  type SlotReader = U256 -> Option<U256>

  /** Reads the oracle slots that `spec` uses. Only the journal and database lookups behind
      `storage` can fail. */
  function TryFetchWith(storage: SlotReader, spec: SpecId): Option<L1BlockInfo> {
    var baseFee :- storage(L1_BASE_FEE_SLOT);
    var overhead :- storage(L1_OVERHEAD_SLOT);
    var scalar :- storage(L1_SCALAR_SLOT);
    if !spec.IsEnabledIn(CURIE) then
      Some(L1BlockInfo(baseFee, overhead, scalar, None, None, None, None, None, None))
    else
      var blobBaseFee :- storage(L1_BLOB_BASE_FEE_SLOT);
      var commitScalar :- storage(L1_COMMIT_SCALAR_SLOT);
      var blobScalar :- storage(L1_BLOB_SCALAR_SLOT);
      var calldataGas := SaturatingMul(commitScalar, baseFee);
      if !spec.IsEnabledIn(FEYNMAN) then
        Some(L1BlockInfo(baseFee, overhead, scalar, Some(blobBaseFee), Some(commitScalar),
                         Some(blobScalar), Some(calldataGas), None, None))
      else
        var threshold :- storage(PENALTY_THRESHOLD_SLOT);
        var factor :- storage(PENALTY_FACTOR_SLOT);
        Some(L1BlockInfo(baseFee, overhead, scalar, Some(blobBaseFee), Some(commitScalar),
                         Some(blobScalar), Some(calldataGas), Some(threshold), Some(factor)))
  }

  function Required(value: Option<U256>): Result<U256, L1FeeError> {
    match value
    case Some(v) => Ok(v)
    case None => Err(MissingOracleValue)
  }

  function CalldataCost(input: seq<Byte>): nat {
    if input == [] then 0
    else
      var last := |input| - 1;
      CalldataCost(input[..last]) + if input[last] == 0 then ZERO_BYTE_COST else NON_ZERO_BYTE_COST
  }

  function PreCurieL1Gas(info: L1BlockInfo, input: Bytes): U256 {
    SaturatingAdd(SaturatingAdd(Clamp(CalldataCost(input)), info.l1FeeOverhead), TX_L1_COMMIT_EXTRA_COST)
  }

  function CurieBlobFee(info: L1BlockInfo, input: Bytes): Result<U256, L1FeeError> {
    var blobBaseFee :- Required(info.l1BlobBaseFee);
    var blobScalar :- Required(info.l1BlobScalar);
    Ok(SaturatingMul(SaturatingMul(|input|, blobBaseFee), blobScalar))
  }

  function CostShanghai(info: L1BlockInfo, input: Bytes): U256 {
    SaturatingMul(SaturatingMul(PreCurieL1Gas(info, input), info.l1BaseFee), info.l1BaseFeeScalar) / PRECISION
  }

  function CostCurie(info: L1BlockInfo, input: Bytes): Result<U256, L1FeeError> {
    var blobFee :- CurieBlobFee(info, input);
    var calldataGas :- Required(info.calldataGas);
    Ok(SaturatingAdd(calldataGas, blobFee) / PRECISION)
  }

  function CostFeynman(info: L1BlockInfo, input: Bytes, ratio: U256): Result<U256, L1FeeError> {
    hide SaturatingMul, SaturatingAdd;
    if ratio < PRECISION then Err(InvalidCompressionRatio(ratio))
    else
      var execScalar :- Required(info.l1CommitScalar);
      var blobScalar :- Required(info.l1BlobScalar);
      var blobBaseFee :- Required(info.l1BlobBaseFee);
      var threshold :- Required(info.penaltyThreshold);
      var factor :- Required(info.penaltyFactor);
      var componentExec := SaturatingMul(execScalar, info.l1BaseFee);
      var componentBlob := SaturatingMul(blobScalar, blobBaseFee);
      var feePerByte := SaturatingAdd(componentExec, componentBlob);
      var penalty := if ratio >= threshold then PRECISION else factor;
      Ok(SaturatingMul(SaturatingMul(|input|, feePerByte), penalty) / PRECISION / PRECISION)
  }

  function CostGalileo(info: L1BlockInfo, txSize: nat, compressedSize: U64): Result<U256, L1FeeError> {
    hide SaturatingMul, SaturatingAdd;
    if compressedSize > txSize then Err(InvalidCompressedSize(compressedSize, txSize))
    else
      var execScalar :- Required(info.l1CommitScalar);
      var blobScalar :- Required(info.l1BlobScalar);
      var blobBaseFee :- Required(info.l1BlobBaseFee);
      var rawFactor :- Required(info.penaltyFactor);
      var factor := if rawFactor == 0 then 1 else rawFactor;
      var componentExec := SaturatingMul(execScalar, info.l1BaseFee);
      var componentBlob := SaturatingMul(blobScalar, blobBaseFee);
      var feePerByte := SaturatingAdd(componentExec, componentBlob);
      Ok(PenalizedFee(feePerByte, compressedSize, factor))
  }

  /** The Galileo fee of `compressedSize` bytes: a base term plus a penalty that grows with size. */
  function PenalizedFee(feePerByte: U256, compressedSize: U64, factor: U256): U256
    requires 0 < factor
  {
    hide SaturatingMul, SaturatingAdd;
    var baseTerm := SaturatingMul(feePerByte, compressedSize);
    var square := SaturatingMul(baseTerm, compressedSize);
    DivAntitone(square, 1, factor);
    var penaltyTerm: U256 := square / factor;
    SaturatingAdd(baseTerm, penaltyTerm) / PRECISION
  }

  function FeeCap(spec: SpecId): (cap: U256)
    ensures spec == TSUKI || spec == TSUKI_V2 ==> cap == 0xFFFF_FFFF_FFFF_FFFF_FFFF_FFFF
    ensures spec != TSUKI && spec != TSUKI_V2 ==> cap == 0xFFFF_FFFF_FFFF_FFFF
  {
    if spec.IsEnabledIn(TSUKI) then U96_MAX else U64_MAX
  }

  function TryCalculateTxL1Cost(info: L1BlockInfo, input: Bytes, spec: SpecId, ratio: Option<U256>,
                                compressedSize: Option<U64>): (r: Result<U256, L1FeeError>)
    ensures r.Ok? ==> r.value <= FeeCap(spec)
  {
    var cost :-
      if !spec.IsEnabledIn(CURIE) then Ok(CostShanghai(info, input))
      else if !spec.IsEnabledIn(FEYNMAN) then CostCurie(info, input)
      else if !spec.IsEnabledIn(GALILEO) then
        match ratio
        case None => Err(MissingCompressionRatio)
        case Some(value) => CostFeynman(info, input, value)
      else
        match compressedSize
        case None => Err(MissingCompressedSize)
        case Some(size) => CostGalileo(info, |input|, size);
    Ok(Min(cost, FeeCap(spec)))
  }
}

/** What the fee is for: exact formulas over unbounded integers, and the laws they obey. */
module L1FeeLaws {
  import opened Words
  import opened Specs
  import opened L1Block

  /** The contents of the oracle contract. */
  type Oracle = U256 -> U256

  function Reader(o: Oracle): SlotReader {
    k => Some(o(k))
  }

  function ZeroBytes(input: seq<Byte>): nat {
    multiset(input)[0]
  }

  // The oracle's slots: 1 base fee, 2 overhead, 3 scalar, 5 blob base fee, 6 commit scalar, 7 blob
  // scalar, 9 penalty threshold, 10 penalty factor.

  /** Four units of gas for a zero byte, sixteen for any other, the overhead and a constant. */
  function ExactL1Gas(o: Oracle, input: Bytes): int {
    4 * ZeroBytes(input) + 16 * (|input| - ZeroBytes(input)) + o(2) + 64
  }

  function ExactShanghai(o: Oracle, input: Bytes): nat {
    CalldataCostCounts(input);
    var gas: nat := ExactL1Gas(o, input);
    var priced: nat := gas * o(1);
    var scaled: nat := priced * o(3);
    scaled / 1_000_000_000
  }

  function ExactCurie(o: Oracle, input: Bytes): nat {
    var calldata: nat := o(6) * o(1);
    var perScalar: nat := |input| * o(5);
    var blob: nat := perScalar * o(7);
    (calldata + blob) / 1_000_000_000
  }

  function FeePerByte(o: Oracle): nat {
    o(6) * o(1) + o(7) * o(5)
  }

  function ExactFeynman(o: Oracle, size: nat, ratio: nat): nat {
    var penalty := if ratio >= o(9) then 1_000_000_000 else o(10);
    size * FeePerByte(o) * penalty / 1_000_000_000_000_000_000
  }

  /** `perByte * (size + size^2 / factor)`, scaled down, with zero factor read as one. */
  function Galileo(perByte: nat, size: nat, factor: nat): nat {
    (perByte * size + perByte * size * size / Max(factor, 1)) / 1_000_000_000
  }

  /** No fee exceeds 64 bits, or 96 bits from Tsuki on. */
  function ExactCap(spec: SpecId): nat {
    match spec
    case TSUKI | TSUKI_V2 => 0xFFFF_FFFF_FFFF_FFFF_FFFF_FFFF
    case _ => 0xFFFF_FFFF_FFFF_FFFF
  }

  /** The fee over unbounded integers, with the cap applied once at the end. */
  function ExactFee(o: Oracle, input: Bytes, spec: SpecId, ratio: Option<U256>,
                    compressedSize: Option<U64>): Result<U256, L1FeeError> {
    match spec
    case SHANGHAI | BERNOULLI => Ok(Min(ExactShanghai(o, input), ExactCap(spec)))
    case CURIE | DARWIN | EUCLID => Ok(Min(ExactCurie(o, input), ExactCap(spec)))
    case FEYNMAN =>
      if ratio.None? then Err(MissingCompressionRatio)
      else if ratio.value < 1_000_000_000 then Err(InvalidCompressionRatio(ratio.value))
      else Ok(Min(ExactFeynman(o, |input|, ratio.value), ExactCap(spec)))
    case GALILEO | TSUKI | TSUKI_V2 =>
      if compressedSize.None? then Err(MissingCompressedSize)
      else if compressedSize.value > |input| then Err(InvalidCompressedSize(compressedSize.value, |input|))
      else
        var fee := Galileo(FeePerByte(o), compressedSize.value, o(10));
        Ok(Min(fee, ExactCap(spec)))
  }

  lemma {:induction false} CalldataCostCounts(input: seq<Byte>)
    ensures ZeroBytes(input) <= |input|
    ensures CalldataCost(input) == 4 * ZeroBytes(input) + 16 * (|input| - ZeroBytes(input))
  {
    if input == [] {
    } else {
      var front := input[..|input| - 1];
      CalldataCostCounts(front);
      assert input == front + [input[|input| - 1]];
    }
  }

  lemma SaturatingMulClamps(x: U256, y: U256)
    ensures SaturatingMul(x, y) == Clamp(x * y)
  {
  }

  /** The cap lies below every saturated quotient, so it does not matter that the word saturated. */
  lemma CapHidesClamp(x: nat, cap: nat)
    requires cap <= U96_MAX
    ensures Min(Clamp(x) / PRECISION, cap) == Min(x / PRECISION, cap)
    ensures Min(Clamp(x) / PRECISION / PRECISION, cap) == Min(x / PRECISION / PRECISION, cap)
  {
  }

  lemma ShanghaiExact(o: Oracle, input: Bytes, info: L1BlockInfo, cap: nat)
    requires info.l1BaseFee == o(L1_BASE_FEE_SLOT) && info.l1FeeOverhead == o(L1_OVERHEAD_SLOT)
    requires info.l1BaseFeeScalar == o(L1_SCALAR_SLOT)
    requires cap <= U96_MAX
    ensures Min(CostShanghai(info, input), cap) == Min(ExactShanghai(o, input), cap)
  {
    CalldataCostCounts(input);
    var gas := CalldataCost(input) + o(L1_OVERHEAD_SLOT) + 64;
    assert PreCurieL1Gas(info, input) == Clamp(gas);
    hide SaturatingMul, Clamp;
    ClampMul(gas, info.l1BaseFee);
    ClampMul(gas * info.l1BaseFee, info.l1BaseFeeScalar);
    CapHidesClamp(gas * info.l1BaseFee * info.l1BaseFeeScalar, cap);
  }

  lemma CurieExact(o: Oracle, input: Bytes, info: L1BlockInfo, cap: nat)
    requires info.l1BlobBaseFee == Some(o(L1_BLOB_BASE_FEE_SLOT))
    requires info.l1BlobScalar == Some(o(L1_BLOB_SCALAR_SLOT))
    requires info.calldataGas == Some(SaturatingMul(o(L1_COMMIT_SCALAR_SLOT), o(L1_BASE_FEE_SLOT)))
    requires cap <= U96_MAX
    ensures CostCurie(info, input).Ok?
    ensures Min(CostCurie(info, input).value, cap) == Min(ExactCurie(o, input), cap)
  {
    hide SaturatingMul, SaturatingAdd, Clamp;
    var blob := |input| * o(L1_BLOB_BASE_FEE_SLOT);
    var calldata := o(L1_COMMIT_SCALAR_SLOT) * o(L1_BASE_FEE_SLOT);
    SaturatingMulClamps(o(L1_COMMIT_SCALAR_SLOT), o(L1_BASE_FEE_SLOT));
    SaturatingMulClamps(|input|, o(L1_BLOB_BASE_FEE_SLOT));
    ClampMul(blob, o(L1_BLOB_SCALAR_SLOT));
    ClampAdd(calldata, blob * o(L1_BLOB_SCALAR_SLOT));
    CapHidesClamp(calldata + blob * o(L1_BLOB_SCALAR_SLOT), cap);
  }

  /** The two successive divisions of the Feynman fee are one division by 10^18. */
  lemma FeynmanDivisions(x: nat)
    ensures x / PRECISION / PRECISION == x / 1_000_000_000_000_000_000
  {
  }

  lemma FeePerByteClamps(o: Oracle)
    ensures SaturatingAdd(SaturatingMul(o(L1_COMMIT_SCALAR_SLOT), o(L1_BASE_FEE_SLOT)),
                          SaturatingMul(o(L1_BLOB_SCALAR_SLOT), o(L1_BLOB_BASE_FEE_SLOT)))
         == Clamp(FeePerByte(o))
  {
  }

  lemma FeynmanProduct(size: U256, perByte: nat, penalty: U256)
    ensures SaturatingMul(SaturatingMul(size, Clamp(perByte)), penalty) == Clamp(size * perByte * penalty)
  {
    hide Clamp;
    ClampMul(perByte, size);
    ClampMul(perByte * size, penalty);
    assert perByte * size == size * perByte;
  }

  lemma FeynmanExact(o: Oracle, input: Bytes, ratio: U256, info: L1BlockInfo, cap: nat)
    requires ratio >= PRECISION && cap <= U96_MAX
    requires info.l1BaseFee == o(L1_BASE_FEE_SLOT)
    requires info.l1CommitScalar == Some(o(L1_COMMIT_SCALAR_SLOT))
    requires info.l1BlobScalar == Some(o(L1_BLOB_SCALAR_SLOT))
    requires info.l1BlobBaseFee == Some(o(L1_BLOB_BASE_FEE_SLOT))
    requires info.penaltyThreshold == Some(o(PENALTY_THRESHOLD_SLOT))
    requires info.penaltyFactor == Some(o(PENALTY_FACTOR_SLOT))
    ensures CostFeynman(info, input, ratio).Ok?
    ensures Min(CostFeynman(info, input, ratio).value, cap) == Min(ExactFeynman(o, |input|, ratio), cap)
  {
    hide SaturatingMul, SaturatingAdd, Clamp, FeePerByte;
    var penalty: U256 := if ratio >= o(PENALTY_THRESHOLD_SLOT) then PRECISION else o(PENALTY_FACTOR_SLOT);
    FeePerByteClamps(o);
    FeynmanProduct(|input|, FeePerByte(o), penalty);
    CapHidesClamp(|input| * FeePerByte(o) * penalty, cap);
    FeynmanDivisions(|input| * FeePerByte(o) * penalty);
  }

  /** A square that saturates has a base term above the cap, since a size is below 2^64. */
  lemma SaturatedSquareHasLargeBase(base: nat, size: U64)
    requires U256_MAX < base * size
    ensures (U96_MAX + 1) * PRECISION <= base
  {
    if base < (U96_MAX + 1) * PRECISION {
      MulMonotone(base, (U96_MAX + 1) * PRECISION, size);
    }
  }

  lemma QuotientFits(x: U256, d: nat)
    requires 0 < d
    ensures x / d <= x
  {
    DivAntitone(x, 1, d);
  }

  /** Galileo divides a saturated product and then adds to it; the cap hides that as well. */
  lemma GalileoSaturation(base: nat, square: nat, exact: nat, saturated: nat, cap: nat)
    requires cap <= U96_MAX
    requires square <= U256_MAX ==> saturated == exact
    requires U256_MAX < square ==> (U96_MAX + 1) * PRECISION <= base
    ensures Min(Clamp(Clamp(base) + saturated) / PRECISION, cap) == Min((base + exact) / PRECISION, cap)
  {
  }

  lemma PenalizedFeeExact(perByte: nat, size: U64, factor: U256, cap: nat)
    requires 0 < factor && cap <= U96_MAX
    ensures Min(PenalizedFee(Clamp(perByte), size, factor), cap) == Min(Galileo(perByte, size, factor), cap)
  {
    hide SaturatingMul, SaturatingAdd, Clamp;
    var base := perByte * size;
    ClampMul(perByte, size);
    ClampMul(base, size);
    var square := base * size;
    var saturated := Clamp(square) / factor;
    QuotientFits(Clamp(square), factor);
    if U256_MAX < square {
      SaturatedSquareHasLargeBase(base, size);
    } else {
      ClampBelow(square);
    }
    GalileoSaturation(base, square, square / factor, saturated, cap);
    SaturatingAddClamps(Clamp(base), saturated);
  }

  lemma GalileoExact(o: Oracle, txSize: nat, size: U64, info: L1BlockInfo, cap: nat)
    requires size <= txSize && cap <= U96_MAX
    requires info.l1BaseFee == o(L1_BASE_FEE_SLOT)
    requires info.l1CommitScalar == Some(o(L1_COMMIT_SCALAR_SLOT))
    requires info.l1BlobScalar == Some(o(L1_BLOB_SCALAR_SLOT))
    requires info.l1BlobBaseFee == Some(o(L1_BLOB_BASE_FEE_SLOT))
    requires info.penaltyFactor == Some(o(PENALTY_FACTOR_SLOT))
    ensures CostGalileo(info, txSize, size).Ok?
    ensures Min(CostGalileo(info, txSize, size).value, cap)
         == Min(Galileo(FeePerByte(o), size, o(PENALTY_FACTOR_SLOT)), cap)
  {
    hide SaturatingMul, SaturatingAdd, Clamp, FeePerByte, PenalizedFee, Galileo;
    var factor: U256 := Max(o(PENALTY_FACTOR_SLOT), 1);
    FeePerByteClamps(o);
    PenalizedFeeExact(FeePerByte(o), size, factor, cap);
    assert Galileo(FeePerByte(o), size, factor) == Galileo(FeePerByte(o), size, o(PENALTY_FACTOR_SLOT)) by {
      GalileoZeroFactor(FeePerByte(o), size, o(PENALTY_FACTOR_SLOT));
    }
  }

  lemma GalileoZeroFactor(perByte: nat, size: nat, factor: nat)
    ensures Galileo(perByte, size, Max(factor, 1)) == Galileo(perByte, size, factor)
  {
  }

  lemma ClampBelow(x: nat)
    requires x <= U256_MAX
    ensures Clamp(x) == x
  {
  }

  lemma SaturatingAddClamps(x: U256, y: U256)
    ensures SaturatingAdd(x, y) == Clamp(x + y)
  {
  }

  lemma FeynmanRejects(info: L1BlockInfo, input: Bytes, ratio: U256)
    requires ratio < PRECISION
    ensures CostFeynman(info, input, ratio) == Err(InvalidCompressionRatio(ratio))
  {
  }

  lemma GalileoRejects(info: L1BlockInfo, txSize: nat, size: U64)
    requires txSize < size
    ensures CostGalileo(info, txSize, size) == Err(InvalidCompressedSize(size, txSize))
  {
  }

  /** Saturation is invisible: with the oracle values fetched at any spec that includes `spec`, the
      returned fee is the cap applied to the exact formula, and the only errors are those of the
      transaction's own compression data. */
  lemma FeeIsExact(o: Oracle, fetched: SpecId, input: Bytes, spec: SpecId, ratio: Option<U256>,
                   compressedSize: Option<U64>)
    requires fetched.IsEnabledIn(spec)
    ensures TryFetchWith(Reader(o), fetched).Some?
    ensures TryCalculateTxL1Cost(TryFetchWith(Reader(o), fetched).value, input, spec, ratio, compressedSize)
         == ExactFee(o, input, spec, ratio, compressedSize)
  {
    hide CostShanghai, CostCurie, CostFeynman, CostGalileo, ExactShanghai, ExactCurie, ExactFeynman, Galileo,
      FeePerByte, SaturatingMul;
    var info := TryFetchWith(Reader(o), fetched).value;
    if !spec.IsEnabledIn(CURIE) {
      ShanghaiExact(o, input, info, FeeCap(spec));
    } else if !spec.IsEnabledIn(FEYNMAN) {
      CurieExact(o, input, info, FeeCap(spec));
    } else if !spec.IsEnabledIn(GALILEO) {
      if ratio.Some? && ratio.value >= PRECISION {
        FeynmanExact(o, input, ratio.value, info, FeeCap(spec));
      } else if ratio.Some? {
        FeynmanRejects(info, input, ratio.value);
      }
    } else if compressedSize.Some? && compressedSize.value <= |input| {
      GalileoExact(o, |input|, compressedSize.value, info, FeeCap(spec));
    } else if compressedSize.Some? {
      GalileoRejects(info, |input|, compressedSize.value);
    }
  }

  /** The oracle stage a spec reads: none of the blob slots, the blob slots, or the penalty too. */
  function Stage(spec: SpecId): nat {
    match spec
    case SHANGHAI | BERNOULLI => 0
    case CURIE | DARWIN | EUCLID => 1
    case FEYNMAN | GALILEO | TSUKI | TSUKI_V2 => 2
  }

  /** What a fetch reads at each stage, with the product of commit scalar and base fee taken once. */
  function InfoAt(o: Oracle, spec: SpecId): L1BlockInfo {
    var early := L1BlockInfo(o(1), o(2), o(3), None, None, None, None, None, None);
    var product: U256 := if o(6) * o(1) <= U256_MAX then o(6) * o(1) else U256_MAX;
    var blobs := early.(l1BlobBaseFee := Some(o(5)), l1CommitScalar := Some(o(6)), l1BlobScalar := Some(o(7)),
                        calldataGas := Some(product));
    match Stage(spec)
    case 0 => early
    case 1 => blobs
    case _ => blobs.(penaltyThreshold := Some(o(9)), penaltyFactor := Some(o(10)))
  }

  function OracleSlots(spec: SpecId): set<U256> {
    match Stage(spec)
    case 0 => {1, 2, 3}
    case 1 => {1, 2, 3, 5, 6, 7}
    case _ => {1, 2, 3, 5, 6, 7, 9, 10}
  }

  /** A fetch fails exactly if one of its stage's slots cannot be read, and otherwise holds their values. */
  lemma FetchIsExact(storage: SlotReader, o: Oracle, spec: SpecId)
    requires forall slot: U256 :: storage(slot) == None || storage(slot) == Some(o(slot))
    ensures TryFetchWith(storage, spec)
         == if exists slot :: slot in OracleSlots(spec) && storage(slot) == None then None else Some(InfoAt(o, spec))
  {
    assert SaturatingMul(o(6), o(1)) == if o(6) * o(1) <= U256_MAX then o(6) * o(1) else U256_MAX;
    hide SaturatingMul;
  }

  /** An oracle value is missing exactly when the info was fetched at an earlier stage than the one
      it is priced at, and the compression data got past its own checks. */
  lemma MissingExactlyAtLaterStage(o: Oracle, fetched: SpecId, input: Bytes, spec: SpecId,
                                   ratio: Option<U256>, compressedSize: Option<U64>)
    ensures TryFetchWith(Reader(o), fetched).Some?
    ensures TryCalculateTxL1Cost(TryFetchWith(Reader(o), fetched).value, input, spec, ratio, compressedSize)
              == Err(MissingOracleValue)
            <==> Stage(fetched) < Stage(spec) && ExactFee(o, input, spec, ratio, compressedSize).Ok?
  {
    hide ExactShanghai, ExactCurie, ExactFeynman, Galileo, FeePerByte, SaturatingMul, SaturatingAdd, PenalizedFee,
      CostShanghai;
  }

  lemma GalileoMonotone(perByte: nat, size: nat, factor: nat, perByte': nat, size': nat, factor': nat)
    requires perByte <= perByte' && size <= size' && factor' <= factor
    ensures Galileo(perByte, size, factor) <= Galileo(perByte', size', factor')
  {
    MulMonotone(perByte, perByte', size);
    MulMonotone(size, size', perByte');
    var base, base' := perByte * size, perByte' * size';
    assert base <= base';
    MulMonotone(base, base', size);
    MulMonotone(size, size', base');
    DivAntitone(base * size, Max(factor', 1), Max(factor, 1));
    DivMonotone(base * size, base' * size', Max(factor', 1));
  }

  /** Raising any price or scalar, or the compressed size, or lowering the penalty factor (zero
      counting as one), never lowers the uncapped Galileo fee. */
  lemma GalileoShape(o: Oracle, o': Oracle, size: nat, size': nat)
    requires o(L1_COMMIT_SCALAR_SLOT) <= o'(L1_COMMIT_SCALAR_SLOT)
    requires o(L1_BASE_FEE_SLOT) <= o'(L1_BASE_FEE_SLOT)
    requires o(L1_BLOB_SCALAR_SLOT) <= o'(L1_BLOB_SCALAR_SLOT)
    requires o(L1_BLOB_BASE_FEE_SLOT) <= o'(L1_BLOB_BASE_FEE_SLOT)
    requires Max(o'(PENALTY_FACTOR_SLOT), 1) <= Max(o(PENALTY_FACTOR_SLOT), 1)
    requires size <= size'
    ensures Galileo(FeePerByte(o), size, o(PENALTY_FACTOR_SLOT))
         <= Galileo(FeePerByte(o'), size', o'(PENALTY_FACTOR_SLOT))
  {
    MulMonotone(o(L1_COMMIT_SCALAR_SLOT), o'(L1_COMMIT_SCALAR_SLOT), o(L1_BASE_FEE_SLOT));
    MulMonotone(o(L1_BASE_FEE_SLOT), o'(L1_BASE_FEE_SLOT), o'(L1_COMMIT_SCALAR_SLOT));
    MulMonotone(o(L1_BLOB_SCALAR_SLOT), o'(L1_BLOB_SCALAR_SLOT), o(L1_BLOB_BASE_FEE_SLOT));
    MulMonotone(o(L1_BLOB_BASE_FEE_SLOT), o'(L1_BLOB_BASE_FEE_SLOT), o'(L1_BLOB_SCALAR_SLOT));
    GalileoMonotone(FeePerByte(o), size, Max(o(PENALTY_FACTOR_SLOT), 1),
                    FeePerByte(o'), size', Max(o'(PENALTY_FACTOR_SLOT), 1));
  }

  lemma SquareSuperadditive(perByte: nat, a: nat, b: nat)
    ensures perByte * a + perByte * b == perByte * (a + b)
    ensures perByte * a * a + perByte * b * b <= perByte * (a + b) * (a + b)
  {
  }

  lemma NestedFloors(u: nat, v: nat, x: nat, y: nat, z: nat, d: nat)
    requires 0 < d && x + y <= z
    ensures (u + x / d) / 1_000_000_000 + (v + y / d) / 1_000_000_000 <= (u + v + z / d) / 1_000_000_000
  {
    DivSuperadditive(x, y, d);
    DivMonotone(x + y, z, d);
    DivSuperadditive(u + x / d, v + y / d, 1_000_000_000);
    DivMonotone(u + x / d + (v + y / d), u + v + z / d, 1_000_000_000);
  }

  /** Splitting a transaction never costs more than sending it whole, despite the nested floors. */
  lemma GalileoSuperadditive(perByte: nat, a: nat, b: nat, factor: nat)
    ensures Galileo(perByte, a, factor) + Galileo(perByte, b, factor) <= Galileo(perByte, a + b, factor)
  {
    SquareSuperadditive(perByte, a, b);
    NestedFloors(perByte * a, perByte * b, perByte * a * a, perByte * b * b, perByte * (a + b) * (a + b),
                 Max(factor, 1));
  }
}
