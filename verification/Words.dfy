/** Machine words of the EVM and the checked and saturating operations on them. */
module Words {
  const U64_MAX: nat := 0xFFFF_FFFF_FFFF_FFFF
  const U96_MAX: nat := 0xFFFF_FFFF_FFFF_FFFF_FFFF_FFFF
  const U128_MAX: nat := 0xFFFF_FFFF_FFFF_FFFF_FFFF_FFFF_FFFF_FFFF
  const U256_MAX: nat :=
    0xFFFF_FFFF_FFFF_FFFF_FFFF_FFFF_FFFF_FFFF_FFFF_FFFF_FFFF_FFFF_FFFF_FFFF_FFFF_FFFF
  const ADDRESS_COUNT: nat := 0x1_0000_0000_0000_0000_0000_0000_0000_0000_0000_0000

  type Byte = x: nat | x < 256
  type U64 = x: nat | x <= U64_MAX
  type U128 = x: nat | x <= U128_MAX
  type U256 = x: nat | x <= U256_MAX
  type Address = x: nat | x < ADDRESS_COUNT

  /** A byte string that fits in the address space: its calldata gas cannot overflow 64 bits. */
  type Bytes = s: seq<Byte> | |s| < 0x1000_0000_0000_0000

  datatype Option<+T> = None | Some(value: T) {
    predicate IsFailure() {
      None?
    }

    function PropagateFailure<U>(): Option<U>
      requires None?
    {
      None
    }

    function Extract(): T
      requires Some?
    {
      value
    }
  }

  datatype Result<+T, +E> = Ok(value: T) | Err(error: E) {
    predicate IsFailure() {
      Err?
    }

    function PropagateFailure<U>(): Result<U, E>
      requires Err?
    {
      Err(error)
    }

    function Extract(): T
      requires Ok?
    {
      value
    }
  }

  function Min(x: nat, y: nat): nat {
    if x <= y then x else y
  }

  function Max(x: nat, y: nat): nat {
    if x <= y then y else x
  }

  /** The largest 256-bit word not above `x`. */
  function Clamp(x: nat): U256 {
    if x <= U256_MAX then x else U256_MAX
  }

  function SaturatingAdd(x: U256, y: U256): U256 {
    Clamp(x + y)
  }

  function SaturatingMul(x: U256, y: U256): U256 {
    Clamp(x * y)
  }

  function CheckedAdd(x: U256, y: U256): Option<U256> {
    if x + y <= U256_MAX then Some(x + y) else None
  }

  function SaturatingMul128(x: U128, y: U128): U128 {
    if x * y <= U128_MAX then x * y else U128_MAX
  }

  function SaturatingAdd128(x: U128, y: U128): U128 {
    if x + y <= U128_MAX then x + y else U128_MAX
  }

  function AsU64Saturated(x: U256): U64 {
    if x <= U64_MAX then x else U64_MAX
  }

  lemma MulMonotone(x: nat, y: nat, z: nat)
    requires x <= y
    ensures x * z <= y * z
  {
  }

  /** A saturated factor stays saturated unless it is multiplied by zero. */
  lemma ClampMul(x: nat, y: U256)
    ensures SaturatingMul(Clamp(x), y) == Clamp(x * y)
  {
  }

  lemma ClampAdd(x: nat, y: nat)
    ensures SaturatingAdd(Clamp(x), Clamp(y)) == Clamp(x + y)
  {
  }

  lemma QuotientAtLeast(x: nat, q: nat, d: nat)
    requires 0 < d && q * d <= x
    ensures q <= x / d
  {
    if x / d < q {
      MulMonotone(x / d + 1, q, d);
    }
  }

  lemma QuotientTimes(x: nat, d: nat)
    requires 0 < d
    ensures x / d * d <= x
  {
  }

  lemma Distributes(p: nat, q: nat, d: nat)
    ensures (p + q) * d == p * d + q * d
  {
  }

  lemma Commutes(p: nat, q: nat)
    ensures p * q == q * p
  {
  }

  lemma DivMonotone(x: nat, y: nat, d: nat)
    requires 0 < d && x <= y
    ensures x / d <= y / d
  {
    QuotientTimes(x, d);
    QuotientAtLeast(y, x / d, d);
  }

  lemma DivAntitone(x: nat, d: nat, e: nat)
    requires 0 < d <= e
    ensures x / e <= x / d
  {
    var q := x / e;
    QuotientTimes(x, e);
    MulMonotone(d, e, q);
    Commutes(d, q);
    Commutes(e, q);
    QuotientAtLeast(x, q, d);
  }

  /** Splitting a dividend can only lose a remainder. */
  lemma DivSuperadditive(x: nat, y: nat, d: nat)
    requires 0 < d
    ensures x / d + y / d <= (x + y) / d
  {
    QuotientTimes(x, d);
    QuotientTimes(y, d);
    Distributes(x / d, y / d, d);
    QuotientAtLeast(x + y, x / d + y / d, d);
  }
}
