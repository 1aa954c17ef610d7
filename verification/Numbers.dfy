/** The program's integer widths, its checked conversions, and division rounded either way. */
module Numbers {
  import opened Outcomes

  const U16_MAX: int := 0xFFFF
  const U32_MAX: int := 0xFFFF_FFFF
  const U64_MAX: int := 0xFFFF_FFFF_FFFF_FFFF
  const U128_MAX: int := 0xFFFF_FFFF_FFFF_FFFF_FFFF_FFFF_FFFF_FFFF
  const I64_MAX: int := 0x7FFF_FFFF_FFFF_FFFF

  type u8 = x: int | 0 <= x <= 0xFF
  type u16 = x: int | 0 <= x <= 0xFFFF
  type u32 = x: int | 0 <= x <= 0xFFFF_FFFF
  type u64 = x: int | 0 <= x <= 0xFFFF_FFFF_FFFF_FFFF
  type u128 = x: int | 0 <= x <= 0xFFFF_FFFF_FFFF_FFFF_FFFF_FFFF_FFFF_FFFF
  type i64 = x: int | -0x8000_0000_0000_0000 <= x <= 0x7FFF_FFFF_FFFF_FFFF

  /** The exact result of an operation, if it fits: `checked_add`, `checked_sub`,
      `checked_mul` and `try_from` of the width. */
  function U16(x: int): Result<u16> {
    if 0 <= x <= U16_MAX then Ok(x) else Err(MathOverflow)
  }

  function U32(x: int): Result<u32> {
    if 0 <= x <= U32_MAX then Ok(x) else Err(MathOverflow)
  }

  function U64(x: int): Result<u64> {
    if 0 <= x <= U64_MAX then Ok(x) else Err(MathOverflow)
  }

  function U128(x: int): Result<u128> {
    if 0 <= x <= U128_MAX then Ok(x) else Err(MathOverflow)
  }

  function I64(x: int): Result<i64> {
    if -I64_MAX - 1 <= x <= I64_MAX then Ok(x) else Err(MathOverflow)
  }

  function Min(a: int, b: int): int {
    if a < b then a else b
  }

  function Max(a: int, b: int): int {
    if a < b then b else a
  }

  /** Division rounded up. */
  function DivCeil(n: int, d: int): int
    requires d > 0
  {
    (n + d - 1) / d
  }

  /** Division rounded toward zero, as Rust's i64 and JavaScript's bigint divide. */
  function DivTrunc(n: int, d: int): int
    requires d > 0
  {
    if n >= 0 then n / d else -(-n / d)
  }

  lemma MulMonotone(a: int, b: int, c: int)
    requires a <= b && 0 <= c
    ensures a * c <= b * c
  {
  }

  lemma MulStrict(a: int, b: int, c: int)
    requires a < b && 0 < c
    ensures a * c < b * c
  {
  }

  lemma DivBounds(n: int, d: int)
    requires d > 0
    ensures d * (n / d) <= n < d * (n / d) + d
    ensures n == d * (n / d) + n % d
  {
  }

  /** Rounding down is adjoint to multiplication: the quotient reaches `x` exactly when the
      product does not pass the dividend. */
  lemma DivAtLeast(n: int, d: int, x: int)
    requires d > 0
    ensures n / d >= x <==> n >= d * x
  {
    DivBounds(n, d);
    if n / d >= x {
      MulMonotone(x, n / d, d);
    } else {
      MulMonotone(n / d + 1, x, d);
    }
  }

  /** Rounding up is adjoint from the other side. */
  lemma DivCeilAtMost(n: int, d: int, x: int)
    requires d > 0
    ensures DivCeil(n, d) <= x <==> n <= d * x
  {
    DivAtLeast(n + d - 1, d, x + 1);
    assert d * (x + 1) == d * x + d;
  }

  lemma DivUnique(n: int, d: int, q: int)
    requires d > 0
    requires d * q <= n < d * q + d
    ensures n / d == q && n % d == n - d * q
  {
    DivAtLeast(n, d, q);
    DivAtLeast(n, d, q + 1);
    assert d * (q + 1) == d * q + d;
    DivBounds(n, d);
  }

  lemma DivCeilBounds(n: int, d: int)
    requires d > 0
    ensures d * DivCeil(n, d) - d < n <= d * DivCeil(n, d)
  {
    DivBounds(n + d - 1, d);
  }

  /** Whole multiples of the divisor pass straight through a division. */
  lemma DivShift(n: int, d: int, k: int)
    requires d > 0
    ensures (n + d * k) / d == n / d + k
    ensures (n + d * k) % d == n % d
  {
    DivBounds(n, d);
    assert d * (n / d + k) == d * (n / d) + d * k;
    DivUnique(n + d * k, d, n / d + k);
  }

  lemma DivMonotone(a: int, b: int, d: int)
    requires d > 0 && a <= b
    ensures a / d <= b / d
  {
    DivBounds(a, d);
    DivAtLeast(b, d, a / d);
  }
}
