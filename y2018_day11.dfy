/**
 * 2018 day 11 (y2018/src/day11.rs): the power level of a fuel cell, and the
 * search of the 300x300 grid for the square of a given size with the most
 * power.  The arithmetic of `power` is in `u32` and wraps (a release build).
 */
module Y2018Day11 {
  import opened RustInt

  /** `power`: the hundreds digit of ((x + 10) y + serial)(x + 10), minus 5. */
  function Power(x: nat, y: nat, serial: nat): (level: int)
    ensures x <= 300 && y <= 300 && serial <= 10000 ==>
      level == ((((x + 10) * y + serial) * (x + 10)) % 1000) / 100 - 5
  {
    var rack := WrapU32(x + 10);
    var p := WrapU32(WrapU32(rack * y) + serial);
    PowerDoesNotWrap(x, y, serial);
    (WrapU32(p * rack) % 1000) / 100 - 5
  }

  /** Where the products fit, the wrapping arithmetic of `power` is the plain one. */
  lemma PowerDoesNotWrap(x: nat, y: nat, serial: nat)
    ensures x <= 300 && y <= 300 && serial <= 10000 ==>
      WrapU32(WrapU32(WrapU32(WrapU32(x + 10) * y) + serial) * WrapU32(x + 10))
        == ((x + 10) * y + serial) * (x + 10)
  {
    if x <= 300 && y <= 300 && serial <= 10000 {
      ProductsFit(x, y, serial);
      var rack := x + 10;
      assert WrapU32(rack) == rack;
      var a := rack * y;
      assert WrapU32(a) == a;
      var p := a + serial;
      assert WrapU32(p) == p;
      assert WrapU32(p * rack) == p * rack;
    }
  }

  /** On the 300x300 grid, with a serial of at most 10000, no product of `power` reaches 2^32. */
  lemma ProductsFit(x: nat, y: nat, serial: nat)
    ensures x <= 300 && y <= 300 && serial <= 10000 ==>
      (x + 10) * y + serial < U32 && ((x + 10) * y + serial) * (x + 10) < U32
  {
    if x <= 300 && y <= 300 && serial <= 10000 {
      LeProduct(x + 10, y, 310, 300);
      LeProduct((x + 10) * y + serial, x + 10, 103000, 310);
    }
  }

  lemma LeProduct(a: nat, b: nat, c: nat, d: nat)
    requires a <= c && b <= d
    ensures a * b <= c * d
  {
    assert a * b <= c * b;
  }

  /** The decimal digit of v at position k (k = 0 for the units). */
  function Digit(v: nat, k: nat): (d: nat)
    ensures d < 10
  {
    if k == 0 then v % 10 else Digit(v / 10, k - 1)
  }

  /** Taking the last three digits and dividing by 100 is reading the hundreds digit. */
  lemma HundredsDigit(v: nat)
    ensures (v % 1000) / 100 == Digit(v, 2)
  {
    var q, r := v / 1000, v % 1000;
    assert Digit(v, 2) == Digit(v / 10, 1) == Digit((v / 10) / 10, 0);
    assert (v / 10) / 10 == 10 * q + r / 100;
  }

  /** A power level is a digit minus 5, so it lies in [-5, 4]. */
  lemma PowerIsDigit(x: nat, y: nat, serial: nat)
    ensures var rack := WrapU32(x + 10);
      Power(x, y, serial) == Digit(WrapU32(WrapU32(WrapU32(rack * y) + serial) * rack), 2) - 5
    ensures -5 <= Power(x, y, serial) <= 4
  {
    var rack := WrapU32(x + 10);
    HundredsDigit(WrapU32(WrapU32(WrapU32(rack * y) + serial) * rack));
  }

  /** The `sol_test!` cases of `power`. */
  lemma PowerExample1()
    ensures Power(3, 5, 8) == 4
  {
    assert WrapU32(73 * 13) == 949;
  }

  lemma PowerExample2()
    ensures Power(122, 79, 57) == -5
  {
    assert WrapU32(132 * 79) == 10428;
    assert WrapU32(10485 * 132) == 1384020;
  }

  lemma PowerExample3()
    ensures Power(217, 196, 39) == 0
  {
    assert WrapU32(227 * 196) == 44492;
    assert WrapU32(44531 * 227) == 10108537;
  }

  lemma PowerExample4()
    ensures Power(101, 153, 71) == 4
  {
    assert WrapU32(111 * 153) == 16983;
    assert WrapU32(17054 * 111) == 1892994;
  }

  /** The power of the cells (x, y) .. (x, y + k - 1). */
  function ColumnSum(x: nat, y: nat, k: nat, serial: nat): int
  {
    if k == 0 then 0 else ColumnSum(x, y, k - 1, serial) + Power(x, y + k - 1, serial)
  }

  /** The power of the first j columns of the size x size square at (x, y). */
  function Block(x: nat, y: nat, j: nat, size: nat, serial: nat): int
  {
    if j == 0 then 0 else Block(x, y, j - 1, size, serial) + ColumnSum(x + j - 1, y, size, serial)
  }

  function SquareSum(x: nat, y: nat, size: nat, serial: nat): int
  {
    Block(x, y, size, size, serial)
  }

  /** The square with top-left (x, y) fits: both coordinates in 1 ..= 300 - size. */
  predicate InRange(x: int, y: int, size: nat)
  {
    1 <= x <= 300 - size && 1 <= y <= 300 - size
  }

  /** The search visits x outer, y inner: (x1, y1) comes before (x2, y2). */
  predicate Before(x1: int, y1: int, x2: int, y2: int)
  {
    x1 < x2 || (x1 == x2 && y1 < y2)
  }

  /** The inner loops of `power_square`: the sum of the power of one square. */
  method PowerOfSquare(x: nat, y: nat, size: nat, serial: nat) returns (sum: int)
    ensures sum == SquareSum(x, y, size, serial)
  {
    sum := 0;
    for dx := 0 to size
      invariant sum == Block(x, y, dx, size, serial)
    {
      var column := PowerOfColumn(x + dx, y, size, serial);
      sum := sum + column;
    }
  }

  /** The innermost `dy` loop: the power of one column of a square. */
  method PowerOfColumn(x: nat, y: nat, size: nat, serial: nat) returns (sum: int)
    ensures sum == ColumnSum(x, y, size, serial)
  {
    sum := 0;
    for dy := 0 to size
      invariant sum == ColumnSum(x, y, dy, serial)
    {
      sum := sum + Power(x, y + dy, serial);
    }
  }

  /**
   * `power_square`: the largest square sum, starting from 0, and the first
   * top-left corner reaching it (the update is on a strict `<`).  When no
   * square has positive power the answer is (0, (0, 0)).
   */
  method PowerSquare(size: nat, serial: nat) returns (max: int, at: (int, int))
    requires 1 <= size <= 300
    ensures max >= 0
    ensures forall x, y :: InRange(x, y, size) ==> SquareSum(x, y, size, serial) <= max
    ensures max == 0 ==> at == (0, 0)
    ensures max > 0 ==> InRange(at.0, at.1, size) && SquareSum(at.0, at.1, size, serial) == max
    ensures max > 0 ==> forall x, y :: InRange(x, y, size) && Before(x, y, at.0, at.1) ==>
                          SquareSum(x, y, size, serial) < max
  {
    max := 0;
    at := (0, 0);
    var x := 1;
    while x <= 300 - size
      invariant 1 <= x <= 301 - size
      invariant max >= 0 && (max == 0 ==> at == (0, 0))
      invariant forall x', y' :: InRange(x', y', size) && x' < x ==> SquareSum(x', y', size, serial) <= max
      invariant max > 0 ==> InRange(at.0, at.1, size) && at.0 < x && SquareSum(at.0, at.1, size, serial) == max
      invariant max > 0 ==> forall x', y' :: InRange(x', y', size) && Before(x', y', at.0, at.1) ==>
                              SquareSum(x', y', size, serial) < max
    {
      max, at := ScanColumn(size, serial, x, max, at);
      x := x + 1;
    }
  }

  /** One pass of the `y` loop of `power_square`, for the squares with top-left column x. */
  method ScanColumn(size: nat, serial: nat, x: nat, max0: int, at0: (int, int)) returns (max: int, at: (int, int))
    requires 1 <= size <= 300 && 1 <= x <= 300 - size
    requires max0 >= 0 && (max0 == 0 ==> at0 == (0, 0))
    requires forall x', y' :: InRange(x', y', size) && x' < x ==> SquareSum(x', y', size, serial) <= max0
    requires max0 > 0 ==> InRange(at0.0, at0.1, size) && at0.0 < x && SquareSum(at0.0, at0.1, size, serial) == max0
    requires max0 > 0 ==> forall x', y' :: InRange(x', y', size) && Before(x', y', at0.0, at0.1) ==>
                            SquareSum(x', y', size, serial) < max0
    ensures max >= 0 && (max == 0 ==> at == (0, 0))
    ensures forall x', y' :: InRange(x', y', size) && x' <= x ==> SquareSum(x', y', size, serial) <= max
    ensures max > 0 ==> InRange(at.0, at.1, size) && at.0 <= x && SquareSum(at.0, at.1, size, serial) == max
    ensures max > 0 ==> forall x', y' :: InRange(x', y', size) && Before(x', y', at.0, at.1) ==>
                          SquareSum(x', y', size, serial) < max
  {
    max, at := max0, at0;
    var y := 1;
    while y <= 300 - size
      invariant 1 <= y <= 301 - size
      invariant max >= 0 && (max == 0 ==> at == (0, 0))
      invariant forall x', y' :: InRange(x', y', size) && Before(x', y', x, y) ==> SquareSum(x', y', size, serial) <= max
      invariant max > 0 ==> InRange(at.0, at.1, size) && Before(at.0, at.1, x, y) && SquareSum(at.0, at.1, size, serial) == max
      invariant max > 0 ==> forall x', y' :: InRange(x', y', size) && Before(x', y', at.0, at.1) ==>
                              SquareSum(x', y', size, serial) < max
    {
      var sum := PowerOfSquare(x, y, size, serial);
      if max < sum {
        at := (x, y);
        max := sum;
      }
      y := y + 1;
    }
  }

  /** `part1`: the top-left corner of the best 3x3 square, the first one in the search on a tie. */
  method Part1(serial: nat) returns (at: (int, int))
    ensures at != (0, 0) ==> InRange(at.0, at.1, 3)
    ensures at != (0, 0) ==> forall x, y :: InRange(x, y, 3) ==> SquareSum(x, y, 3, serial) <= SquareSum(at.0, at.1, 3, serial)
    ensures at == (0, 0) ==> forall x, y :: InRange(x, y, 3) ==> SquareSum(x, y, 3, serial) <= 0
    ensures at != (0, 0) ==> forall x, y :: InRange(x, y, 3) && Before(x, y, at.0, at.1) ==>
              SquareSum(x, y, 3, serial) < SquareSum(at.0, at.1, 3, serial)
  {
    var max;
    max, at := PowerSquare(3, serial);
  }

  /**
   * `part2`: over every size 1 ..= 300, the best square of the first size
   * whose best sum beats all smaller sizes (strict `>`, from 0): its sum is
   * the largest of all, every smaller size stays below it, and no square of
   * its size before it in the search reaches it.
   */
  method Part2(serial: nat) returns (best: (int, int, int))
    ensures best != (0, 0, 0) ==> 1 <= best.2 <= 300 && InRange(best.0, best.1, best.2)
    ensures best != (0, 0, 0) ==> forall s, x, y :: 1 <= s <= 300 && InRange(x, y, s) ==>
              SquareSum(x, y, s, serial) <= SquareSum(best.0, best.1, best.2, serial)
    ensures best == (0, 0, 0) ==> forall s, x, y :: 1 <= s <= 300 && InRange(x, y, s) ==>
              SquareSum(x, y, s, serial) <= 0
    ensures best != (0, 0, 0) ==> forall s, x, y :: 1 <= s < best.2 && InRange(x, y, s) ==>
              SquareSum(x, y, s, serial) < SquareSum(best.0, best.1, best.2, serial)
    ensures best != (0, 0, 0) ==> forall x, y :: InRange(x, y, best.2) && Before(x, y, best.0, best.1) ==>
              SquareSum(x, y, best.2, serial) < SquareSum(best.0, best.1, best.2, serial)
  {
    var max := 0;
    best := (0, 0, 0);
    for square := 1 to 301
      invariant max >= 0 && (max == 0 <==> best == (0, 0, 0))
      invariant max > 0 ==> 1 <= best.2 < square && InRange(best.0, best.1, best.2) &&
                              SquareSum(best.0, best.1, best.2, serial) == max
      invariant forall s, x, y :: 1 <= s < square && InRange(x, y, s) ==> SquareSum(x, y, s, serial) <= max
      invariant max > 0 ==> forall s, x, y :: 1 <= s < best.2 && InRange(x, y, s) ==> SquareSum(x, y, s, serial) < max
      invariant max > 0 ==> forall x, y :: InRange(x, y, best.2) && Before(x, y, best.0, best.1) ==>
                              SquareSum(x, y, best.2, serial) < max
    {
      var nmax, at := PowerSquare(square, serial);
      if nmax > max {
        max := nmax;
        best := (at.0, at.1, square);
      }
    }
  }
}
