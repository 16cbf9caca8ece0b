/**
 * Rust's integer operators where they differ from Dafny's: `/` and `%` on
 * signed integers truncate toward zero, and `as` casts to an unsigned width
 * keep the low bits (reduction modulo 2^w).
 */
module RustInt {

  const U32: nat := 0x1_0000_0000
  const U64: nat := 0x1_0000_0000_0000_0000

  function Abs(a: int): nat { if a < 0 then -a else a }

  /** Rust's `/`: the quotient rounded toward zero. */
  function TDiv(a: int, b: int): (q: int)
    requires b != 0
    ensures Abs(q) * Abs(b) <= Abs(a) < (Abs(q) + 1) * Abs(b)
    ensures q == 0 || (q > 0 <==> (a > 0) == (b > 0))
  {
    var q0 := Abs(a) / Abs(b);
    if (a >= 0) == (b > 0) then q0 else -q0
  }

  /** Rust's `%`: the remainder of `TDiv`; it has the sign of the dividend. */
  function TRem(a: int, b: int): (r: int)
    requires b != 0
    ensures a == TDiv(a, b) * b + r
    ensures Abs(r) < Abs(b)
    ensures a >= 0 ==> r >= 0
    ensures a <= 0 ==> r <= 0
  {
    TruncDivision(a, b);
    var r0 := Abs(a) % Abs(b);
    if a >= 0 then r0 else -r0
  }

  /** The truncated quotient times b falls short of a by the remainder with a's sign. */
  lemma TruncDivision(a: int, b: int)
    requires b != 0
    ensures a == TDiv(a, b) * b + (if a >= 0 then Abs(a) % Abs(b) else -(Abs(a) % Abs(b)))
  {
    var q0, r0 := Abs(a) / Abs(b), Abs(a) % Abs(b);
    var p := q0 * Abs(b);
    assert Abs(a) == p + r0;
    assert q0 * b == (if b > 0 then p else -p);
    assert TDiv(a, b) * b == (if a >= 0 then p else -p);
  }

  /** On non-negative operands Rust's and Dafny's division agree. */
  lemma TruncIsEuclideanWhenNonNegative(a: int, b: int)
    requires a >= 0 && b > 0
    ensures TDiv(a, b) == a / b && TRem(a, b) == a % b
  {
  }

  /** An exact division truncates to the exact quotient. */
  lemma TDivExact(k: int, b: int)
    requires b != 0
    ensures TDiv(k * b, b) == k && TRem(k * b, b) == 0
  {
    var r := TRem(k * b, b);
    var q := TDiv(k * b, b);
    assert (k - q) * b == r;
    if k != q {
      AbsProduct(k - q, b);
    }
  }

  lemma AbsProduct(x: int, b: int)
    requires x != 0 && b != 0
    ensures Abs(x * b) >= Abs(b)
  {
    var p := Abs(x) * Abs(b);
    assert Abs(x * b) == p by {
      if x < 0 && b < 0 { assert x * b == (-x) * (-b); }
      else if x < 0 { assert x * b == -((-x) * b); }
      else if b < 0 { assert x * b == -(x * (-b)); }
    }
    MulAtLeast(Abs(x), Abs(b));
  }

  lemma {:induction false} MulAtLeast(m: nat, n: nat)
    requires m >= 1
    ensures m * n >= n
  {
    if m > 1 {
      MulAtLeast(m - 1, n);
      assert m * n == (m - 1) * n + n;
    }
  }

  /** Dafny's `/` and `%` are the unique quotient and remainder with 0 <= r < b. */
  lemma EuclideanUnique(x: int, b: int, q: int, r: int)
    requires b > 0 && 0 <= r < b && x == q * b + r
    ensures x / b == q && x % b == r
  {
    var q', r' := x / b, x % b;
    assert (q - q') * b == r' - r;
    if q != q' {
      AbsProduct(q - q', b);
      assert false;
    }
  }

  /** A multiple of b leaves no remainder. */
  lemma MultipleMod(k: int, b: int)
    requires b > 0
    ensures (k * b) % b == 0 && (k * b) / b == k
  {
    EuclideanUnique(k * b, b, k, 0);
  }

  /** `x as u64`: the low 64 bits. */
  function WrapU64(x: int): (r: nat)
    ensures r < U64
    ensures 0 <= x < U64 ==> r == x
  {
    x % U64
  }

  /** `x as u32`, and the wrapping arithmetic of 32-bit registers: the low 32 bits. */
  function WrapU32(x: int): (r: nat)
    ensures r < U32
    ensures 0 <= x < U32 ==> r == x
  {
    x % U32
  }

  /** `i32`. */
  type I32 = x: int | -0x8000_0000 <= x < 0x8000_0000

  /** The wrapping arithmetic of `i32`: two's complement in 32 bits. */
  function WrapI32(x: int): (r: I32)
    ensures -0x8000_0000 <= x < 0x8000_0000 ==> r == x
    ensures (r - x) % U32 == 0
  {
    (x + 0x8000_0000) % U32 - 0x8000_0000
  }

  /** `i64`. */
  type I64 = x: int | -0x8000_0000_0000_0000 <= x < 0x8000_0000_0000_0000

  /** The wrapping arithmetic of `i64`: two's complement in 64 bits. */
  function WrapI64(x: int): (r: I64)
    ensures -0x8000_0000_0000_0000 <= x < 0x8000_0000_0000_0000 ==> r == x
    ensures (r - x) % U64 == 0
  {
    (x + 0x8000_0000_0000_0000) % U64 - 0x8000_0000_0000_0000
  }
}
