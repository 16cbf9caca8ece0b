/**
 * 2018 day 22 (y2018/src/bin/day22.rs): the cave's regions.  A region's
 * geologic index and erosion level are defined recursively in terms of the
 * regions to its left and above it; the source memoises the erosion levels
 * in a cache that it fills while answering.  Here the recursive definitions
 * are functions, and the cave is a class whose cache field the methods
 * update, kept consistent with those functions.
 */
module Y2018Day22 {
  import opened Wrappers

  datatype Position = Position(y: nat, x: nat)
  {
    /** One row up; None on the top row (the `checked_sub`). */
    function Up(): (r: Option<Position>)
      ensures r.None? <==> y == 0
      ensures r.Some? ==> r.value.x == x && r.value.y + 1 == y
    {
      if y == 0 then None else Some(Position(y - 1, x))
    }

    /** One column left; None on the leftmost column. */
    function Left(): (r: Option<Position>)
      ensures r.None? <==> x == 0
      ensures r.Some? ==> r.value.y == y && r.value.x + 1 == x
    {
      if x == 0 then None else Some(Position(y, x - 1))
    }
  }

  const Modulus: nat := 20183

  /**
   * `geologic_idx`: 0 at the mouth and at the target, x * 16807 on the top
   * row, y * 48271 on the left column, and otherwise the product of the
   * erosion levels to the left and above.
   */
  function Geologic(depth: nat, target: Position, pos: Position): (g: nat)
    ensures pos.y > 0 && pos.x > 0 ==> g < Modulus * Modulus
    decreases pos.x + pos.y, 0
  {
    if pos.x == 0 && pos.y == 0 then 0
    else if target == pos then 0
    else if pos.y == 0 then pos.x * 16807
    else if pos.x == 0 then pos.y * 48271
    else
      var left, up := Erosion(depth, target, Position(pos.y, pos.x - 1)), Erosion(depth, target, Position(pos.y - 1, pos.x));
      ProductBelow(left, up, Modulus);
      left * up
  }

  /** `erosion_level`, without the cache. */
  function Erosion(depth: nat, target: Position, pos: Position): (e: nat)
    ensures e < Modulus
    decreases pos.x + pos.y, 1
  {
    (depth + Geologic(depth, target, pos)) % Modulus
  }

  /** The geologic index's cases, in the order the source tests them. */
  lemma GeologicCases(depth: nat, target: Position, pos: Position)
    ensures pos == Position(0, 0) || pos == target ==> Geologic(depth, target, pos) == 0
    ensures pos != target && pos.y == 0 ==> Geologic(depth, target, pos) == pos.x * 16807
    ensures pos != target && pos.y > 0 && pos.x == 0 ==> Geologic(depth, target, pos) == pos.y * 48271
    ensures pos != target && pos.y > 0 && pos.x > 0 ==>
      Geologic(depth, target, pos) ==
        Erosion(depth, target, pos.Left().value) * Erosion(depth, target, pos.Up().value)
  {
  }

  lemma ProductBelow(a: nat, b: nat, n: nat)
    requires a < n && b < n
    ensures a * b < n * n
  {
    assert a * b <= a * n <= n * n - n by {
      assert a * n <= (n - 1) * n;
    }
  }

  datatype RegionType = Rocky | Wet | Narrow

  /** The `match level % 3` of `ty`. */
  function TypeOf(level: nat): (t: RegionType)
    ensures t == Rocky <==> level % 3 == 0
    ensures t == Wet <==> level % 3 == 1
    ensures t == Narrow <==> level % 3 == 2
  {
    match level % 3
    case 0 => Rocky
    case 1 => Wet
    case _ => Narrow
  }

  /** The danger a region adds in `part1`. */
  function Risk(t: RegionType): (r: nat)
    ensures r < 3 && TypeOf(r) == t
  {
    match t
    case Rocky => 0
    case Wet => 1
    case Narrow => 2
  }

  /** A region's risk is its erosion level modulo three. */
  lemma RiskIsLevelMod3(level: nat)
    ensures Risk(TypeOf(level)) == level % 3
  {
  }

  datatype Gear = Torch | Climbing | NoGear

  /** `Gear::valid`: which tools may be used in a region of each type. */
  function Allowed(g: Gear, t: RegionType): bool
  {
    match t
    case Rocky => g == Climbing || g == Torch
    case Wet => g == Climbing || g == NoGear
    case Narrow => g == Torch || g == NoGear
  }

  /** The one tool a region type forbids: nothing in rocky, the torch in wet, climbing gear in narrow. */
  function Forbidden(t: RegionType): Gear
  {
    match t
    case Rocky => NoGear
    case Wet => Torch
    case Narrow => Climbing
  }

  /** Every region type allows exactly two of the three tools, and each tool is forbidden in exactly one type. */
  lemma ExactlyTwoGears(t: RegionType, g: Gear)
    ensures Allowed(g, t) <==> g != Forbidden(t)
    ensures Forbidden(t) == g <==> t == (match g case NoGear => Rocky case Torch => Wet case Climbing => Narrow)
  {
  }

  /**
   * The cave of `Input`: depth and target, and the cache of erosion levels
   * that the methods fill in.  The cache only ever holds true levels.
   */
  class Cave {
    const depth: nat
    const target: Position
    var cache: map<Position, nat>

    ghost predicate Valid()
      reads this
    {
      forall p :: p in cache ==> cache[p] == Erosion(depth, target, p)
    }

    /** The generator's result: an empty cache. */
    constructor(depth: nat, target: Position)
      ensures this.depth == depth && this.target == target && cache == map[]
      ensures Valid()
    {
      this.depth := depth;
      this.target := target;
      cache := map[];
    }

    /** `geologic_idx`, asking `erosion_level` for the neighbours. */
    method GeologicIdx(pos: Position) returns (g: nat)
      requires Valid()
      modifies this
      ensures Valid() && old(cache).Keys <= cache.Keys
      ensures g == Geologic(depth, target, pos)
      decreases pos.x + pos.y, 0
    {
      if pos.x == 0 && pos.y == 0 {
        return 0;
      }
      if target == pos {
        return 0;
      }
      if pos.y == 0 {
        return pos.x * 16807;
      }
      if pos.x == 0 {
        return pos.y * 48271;
      }
      var a := ErosionLevel(pos.Left().value);
      var b := ErosionLevel(pos.Up().value);
      g := a * b;
    }

    /** `erosion_level`: the cached level if there is one, otherwise computed and cached. */
    method ErosionLevel(pos: Position) returns (level: nat)
      requires Valid()
      modifies this
      ensures Valid() && old(cache).Keys + {pos} <= cache.Keys
      ensures level == Erosion(depth, target, pos)
      decreases pos.x + pos.y, 1
    {
      if pos in cache {
        return cache[pos];
      }
      var g := GeologicIdx(pos);
      level := (depth + g) % Modulus;
      cache := cache[pos := level];
    }

    /** `ty`: the region type of the erosion level. */
    method Ty(pos: Position) returns (t: RegionType)
      requires Valid()
      modifies this
      ensures Valid()
      ensures t == TypeOf(Erosion(depth, target, pos))
    {
      var level := ErosionLevel(pos);
      var m := level % 3;
      if m == 0 {
        t := Rocky;
      } else if m == 1 {
        t := Wet;
      } else {
        t := Narrow;
      }
    }
  }

  /** The risk of column x over its first n rows. */
  function ColumnRisk(depth: nat, target: Position, x: nat, n: nat): nat
  {
    if n == 0 then 0 else ColumnRisk(depth, target, x, n - 1) + Risk(TypeOf(Erosion(depth, target, Position(n - 1, x))))
  }

  /** The risk of the first n columns, each down to the target's row. */
  function ColumnsRisk(depth: nat, target: Position, n: nat): nat
  {
    if n == 0 then 0 else ColumnsRisk(depth, target, n - 1) + ColumnRisk(depth, target, n - 1, target.y + 1)
  }

  /** The total risk of the rectangle from the mouth to the target, both included. */
  function Danger(depth: nat, target: Position): nat
  {
    ColumnsRisk(depth, target, target.x + 1)
  }

  lemma {:induction false} ColumnRiskBound(depth: nat, target: Position, x: nat, n: nat)
    ensures ColumnRisk(depth, target, x, n) <= 2 * n
  {
    if n > 0 {
      ColumnRiskBound(depth, target, x, n - 1);
    }
  }

  lemma {:induction false} ColumnsRiskBound(depth: nat, target: Position, n: nat)
    ensures ColumnsRisk(depth, target, n) <= 2 * n * (target.y + 1)
  {
    if n > 0 {
      var k := target.y + 1;
      var prev, col := ColumnsRisk(depth, target, n - 1), ColumnRisk(depth, target, n - 1, k);
      ColumnsRiskBound(depth, target, n - 1);
      ColumnRiskBound(depth, target, n - 1, k);
      TwiceProductStep(n, k);
      assert ColumnsRisk(depth, target, n) == prev + col;
    }
  }

  lemma TwiceProductStep(n: nat, k: nat)
    requires n > 0
    ensures 2 * n * k == 2 * (n - 1) * k + 2 * k
  {
  }

  /** Each of the (x + 1) * (y + 1) regions adds at most 2. */
  lemma DangerBound(depth: nat, target: Position)
    ensures Danger(depth, target) <= 2 * (target.x + 1) * (target.y + 1)
  {
    ColumnsRiskBound(depth, target, target.x + 1);
  }

  /** `part1`: the risk summed column by column over the rectangle to the target. */
  method Part1(cave: Cave) returns (danger: nat)
    requires cave.Valid()
    modifies cave
    ensures cave.Valid()
    ensures danger == Danger(cave.depth, cave.target)
  {
    danger := 0;
    for x := 0 to cave.target.x + 1
      invariant cave.Valid()
      invariant danger == ColumnsRisk(cave.depth, cave.target, x)
    {
      for y := 0 to cave.target.y + 1
        invariant cave.Valid()
        invariant danger == ColumnsRisk(cave.depth, cave.target, x) + ColumnRisk(cave.depth, cave.target, x, y)
      {
        var t := cave.Ty(Position(y, x));
        var d := match t case Narrow => 2 case Wet => 1 case Rocky => 0;
        danger := danger + d;
      }
    }
  }

  /** The example's cave: depth 510, target (10, 10). */
  const ExampleTarget: Position := Position(10, 10)

  /** The `ge_*` tests: the region types at (0,0), (1,0), (0,1), (1,1) and the target. */
  lemma ExampleTypes()
    ensures TypeOf(Erosion(510, ExampleTarget, Position(0, 0))) == Rocky
    ensures TypeOf(Erosion(510, ExampleTarget, Position(0, 1))) == Wet
    ensures TypeOf(Erosion(510, ExampleTarget, Position(1, 0))) == Rocky
    ensures TypeOf(Erosion(510, ExampleTarget, Position(1, 1))) == Narrow
    ensures TypeOf(Erosion(510, ExampleTarget, Position(10, 10))) == Rocky
  {
    assert Erosion(510, ExampleTarget, Position(0, 1)) == 17317;
    assert Erosion(510, ExampleTarget, Position(1, 0)) == 8415;
    assert Geologic(510, ExampleTarget, Position(1, 1)) == 8415 * 17317;
    assert Erosion(510, ExampleTarget, Position(1, 1)) == 1805;
  }
}
