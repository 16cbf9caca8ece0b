/**
 * 2016 day 19 (src/bin/y2016/day19.rs): the Josephus game of the elves,
 * answered by closed forms.  In part 1 every elf takes the presents of the
 * elf to its left, in part 2 those of the elf across the circle.
 *
 * `usize` is 64 bits wide.  The source panics (an overflowing or wrapping
 * subtraction, an `unwrap` of nothing, an overflowing power of three); the
 * model answers None there.
 */
module Y2016Day19 {
  import opened Wrappers
  import opened RustInt

  function Pow2(e: nat): (p: nat)
    ensures p >= 1
  {
    if e == 0 then 1 else 2 * Pow2(e - 1)
  }

  function Pow3(e: nat): (p: nat)
    ensures p >= 1
  {
    if e == 0 then 1 else 3 * Pow3(e - 1)
  }

  /** `0usize.leading_zeros() - n.leading_zeros()`: the number of binary digits of n. */
  function BitLength(n: nat): (m: nat)
    ensures n == 0 <==> m == 0
    ensures n > 0 ==> Pow2(m - 1) <= n < Pow2(m)
  {
    if n == 0 then 0 else 1 + BitLength(n / 2)
  }

  /** `2usize.pow(m - 1)`: the highest power of two not above n. */
  function HighBit(n: nat): (p: nat)
    requires n >= 1
    ensures p <= n < 2 * p
  {
    Pow2(BitLength(n) - 1)
  }

  lemma HighBitHalf(n: nat)
    requires n >= 2
    ensures HighBit(n) == 2 * HighBit(n / 2)
  {
    assert BitLength(n) == 1 + BitLength(n / 2);
  }

  /** `part1`: 2 (n - 2^(m-1)) + 1; for n == 0 the exponent m - 1 underflows. */
  function Part1(n: nat): (r: Option<nat>)
    ensures r.Some? <==> n > 0
    ensures r.Some? ==> 1 <= r.value <= n && r.value % 2 == 1
  {
    if n == 0 then None
    else Some(2 * (n - HighBit(n)) + 1)
  }

  /**
   * The Josephus recurrence for k = 2: one elf wins, 2n elves leave the
   * winner of n relabelled 2j - 1, 2n + 1 elves relabelled 2j + 1.
   */
  function Josephus(n: nat): nat
    requires n >= 1
  {
    if n == 1 then 1
    else if n % 2 == 0 then 2 * Josephus(n / 2) - 1
    else 2 * Josephus(n / 2) + 1
  }

  /** `part1` is the Josephus winner for every circle of elves. */
  lemma {:induction false} Part1IsJosephus(n: nat)
    requires n >= 1
    ensures Part1(n) == Some(Josephus(n))
  {
    if n > 1 {
      var h := n / 2;
      Part1IsJosephus(h);
      HighBitHalf(n);
      assert Josephus(h) == 2 * (h - HighBit(h)) + 1;
    }
  }

  lemma Part1Example()
    ensures Part1(5) == Some(3)
  {
    assert BitLength(5) == 3 by {
      assert BitLength(1) == 1;
    }
  }

  /** The exponent of the largest power of three not above n. */
  function Log3(n: nat): (i: nat)
    requires n >= 1
    ensures Pow3(i) <= n < Pow3(i + 1)
  {
    if n < 3 then 0 else 1 + Log3(n / 3)
  }

  /** Log3 never decreases. */
  lemma {:induction false} Log3Monotone(a: nat, b: nat)
    requires 1 <= a <= b
    ensures Log3(a) <= Log3(b)
  {
    if a >= 3 {
      Log3Monotone(a / 3, b / 3);
    }
  }

  /** Any power of three between the bounds of Log3 is the one Log3 picks. */
  lemma Log3Unique(n: nat, i: nat)
    requires n >= 1 && Pow3(i) <= n < Pow3(i + 1)
    ensures Log3(n) == i
  {
    var j := Log3(n);
    if j < i {
      PowMonotone(j + 1, i);
    } else if i < j {
      PowMonotone(i + 1, j);
    }
  }

  lemma {:induction false} PowMonotone(d: nat, e: nat)
    requires d <= e
    ensures Pow3(d) <= Pow3(e)
    decreases e
  {
    if d < e {
      PowMonotone(d, e - 1);
    }
  }

  /** The closed form of `part2` for n with m the largest power of three not above it. */
  function Winner(n: nat, m: nat): nat
    requires 1 <= m <= n < 3 * m
  {
    if n == m then n
    else if n - m <= m then n - m
    else 2 * n - 3 * m
  }

  /**
   * `part2`: with m the largest power of three not above n, n itself when
   * n == m, n - m up to 2m, and 2n - 3m beyond.  An empty `take_while` (n ==
   * 0), a power of three that overflows `usize` and, in the last branch, a
   * `2 * n` that overflows it make the source panic (as debug builds do).
   */
  function Part2(n: nat): (r: Option<nat>)
    requires n < U64
    ensures r.Some? ==> 1 <= r.value <= n
  {
    if n == 0 then None
    else
      var i := Log3(n);
      var m := Pow3(i);
      if Pow3(i + 1) >= U64 then None
      else if n - m > m && 2 * n >= U64 then None
      else Some(Winner(n, m))
  }

  /** The winner among n + 1 elves, from the winner w among n. */
  function Next(n: nat, w: nat): nat
  {
    if w == n then 1 else if 2 * w < n then w + 1 else w + 2
  }

  /**
   * The sawtooth the source describes: after a power of three the winner
   * restarts at 1 and climbs by one, until it reaches the middle of the
   * circle and climbs by two.
   */
  function Sawtooth(n: nat): nat
    requires n >= 1
  {
    if n == 1 then 1 else Next(n - 1, Sawtooth(n - 1))
  }

  /** One step of the closed form within one power of three, and across to the next. */
  lemma WinnerStep(n: nat, m: nat)
    requires 1 <= m <= n < 3 * m
    ensures n + 1 < 3 * m ==> Winner(n + 1, m) == Next(n, Winner(n, m))
    ensures n + 1 == 3 * m ==> Winner(n + 1, 3 * m) == Next(n, Winner(n, m))
  {
  }

  /** The closed form is the sawtooth, for every circle. */
  lemma {:induction false} ClosedIsSawtooth(n: nat)
    requires n >= 1
    ensures Winner(n, Pow3(Log3(n))) == Sawtooth(n)
  {
    if n > 1 {
      ClosedIsSawtooth(n - 1);
      var j := Log3(n - 1);
      var m := Pow3(j);
      WinnerStep(n - 1, m);
      if n == 3 * m {
        Log3Unique(n, j + 1);
      } else {
        Log3Unique(n, j);
      }
    }
  }

  /** Where `part2` answers at all, it is the sawtooth. */
  lemma Part2IsSawtooth(n: nat)
    requires 1 <= n < U64 && Part2(n).Some?
    ensures Part2(n) == Some(Sawtooth(n))
  {
    ClosedIsSawtooth(n);
  }

  lemma Part2Example()
    ensures Part2(5) == Some(2)
  {
    Log3Unique(5, 1);
  }
}
