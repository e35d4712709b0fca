/** Fixed-width integer conventions and numeric constants of the kernel
    (include/lna_number.h). Machine integers are unbounded `nat`s here; where the
    C code's u64 arithmetic can wrap, the model reduces modulo 2^64 explicitly. */
module LnaNumber {

  /** 2^64: every u64 value lies in [0, U64_MODULUS). */
  const U64_MODULUS: nat := 0x1_0000_0000_0000_0000

  type u64 = x: nat | x < U64_MODULUS

  /** sizeof(f32); lna_number.h statically asserts that a float is 4 bytes. */
  const F32_BYTES: nat := 4

  /** The probability floor `eps` = 1e-12f. Single-precision rounding is not
      modelled, so the floor is the real number 10^-12; only its positivity matters. */
  const EPS: real := 0.000000000001

  /** The value a u64 expression takes in C: the exact result reduced modulo 2^64. */
  function WrapU64(x: int): (r: u64)
    ensures 0 <= x < U64_MODULUS ==> r == x
    ensures (x - r) % U64_MODULUS == 0
  {
    x % U64_MODULUS
  }
}
