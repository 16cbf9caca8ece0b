/**
 * The three `remove_groups` tests of 2017 day 14 (src/bin/y2017/day14.rs),
 * proved about the region count that `RemoveGroups` returns.  A disk is
 * written as one set of columns per row: the columns whose bit is 1 in the
 * test's binary literal, bit 0 being the rightmost digit.
 */
module Y2017Day14Examples {
  import opened Y2017Day14

  /** A row whose set columns are cols. */
  function RowOf(cols: set<int>): (row: Row)
    ensures forall c :: 0 <= c < 128 ==> (row[c] <==> c in cols)
  {
    seq(128, c => c in cols)
  }

  /** The disk whose row i has the columns rows[i] set. */
  function Disk(rows: seq<set<int>>): (g: seq<Row>)
    ensures |g| == |rows|
    ensures forall i :: 0 <= i < |rows| ==> g[i] == RowOf(rows[i])
  {
    seq(|rows|, i requires 0 <= i < |rows| => RowOf(rows[i]))
  }

  // ---------------------------------------------------------------------
  // Facts that single out the leaders of a concrete disk.

  /** A region grows by a set neighbour of one of its squares. */
  lemma ReachStep(g: seq<Row>, a: Cell, b: Cell, x: Cell)
    requires Reachable(g, a, b) && On(g, x) && Adjacent(b, x)
    ensures Reachable(g, a, x)
  {
    ReachEnds(g, a, b);
    assert Walk(g, [b, x]);
    ReachTrans(g, a, b, x);
  }

  /** A square in the region of an earlier square is not counted. */
  lemma Follower(g: seq<Row>, a: Cell, x: Cell)
    requires Before(a, x.r, x.c) && Reachable(g, a, x)
    ensures !Leader(g, x)
  {
  }

  /** The first set square of the disk is counted. */
  lemma FirstSet(g: seq<Row>, x: Cell)
    requires On(g, x) && forall y :: Before(y, x.r, x.c) ==> !On(g, y)
    ensures Leader(g, x)
  {
    forall y | Before(y, x.r, x.c)
      ensures !Reachable(g, y, x)
    {
      ReachEnds(g, y, x);
    }
  }

  /** S holds every set square next to one of its own. */
  ghost predicate Sealed(g: seq<Row>, s: set<Cell>)
  {
    forall y, z :: y in s && On(g, z) && Adjacent(y, z) ==> z in s
  }

  lemma {:induction false} WalkInside(g: seq<Row>, s: set<Cell>, path: seq<Cell>, k: nat)
    requires Walk(g, path) && path[0] in s && Sealed(g, s) && k < |path|
    ensures path[k] in s
    decreases k
  {
    if k > 0 {
      WalkInside(g, s, path, k - 1);
      assert Adjacent(path[k - 1], path[k]);
    }
  }

  /** A sealed set holds the whole region of each of its squares. */
  lemma RegionInside(g: seq<Row>, s: set<Cell>, x: Cell, y: Cell)
    requires x in s && Sealed(g, s) && Reachable(g, x, y)
    ensures y in s
  {
    var path :| Walk(g, path) && path[0] == x && path[|path| - 1] == y;
    WalkInside(g, s, path, |path| - 1);
  }

  /** A set square is counted when a sealed set around it holds nothing scanned earlier. */
  lemma LoneLeader(g: seq<Row>, s: set<Cell>, x: Cell)
    requires On(g, x) && x in s && Sealed(g, s)
    requires forall y :: y in s ==> !Before(y, x.r, x.c)
    ensures Leader(g, x)
  {
    forall y | Before(y, x.r, x.c)
      ensures !Reachable(g, y, x)
    {
      if Reachable(g, y, x) {
        ReachSym(g, y, x);
        RegionInside(g, s, x, y);
      }
    }
  }

  /** How many entries of cols lie below j. */
  function Below(cols: seq<nat>, j: int): (n: nat)
    ensures n <= |cols|
  {
    if cols == [] then 0 else (if cols[0] < j then 1 else 0) + Below(cols[1..], j)
  }

  lemma {:induction false} BelowZero(cols: seq<nat>)
    ensures Below(cols, 0) == 0
  {
    if cols != [] {
      BelowZero(cols[1..]);
    }
  }

  /** Raising the bound by one counts j once more when j is listed, the list having no repeats. */
  lemma {:induction false} BelowNext(cols: seq<nat>, j: int)
    requires forall k, l :: 0 <= k < l < |cols| ==> cols[k] != cols[l]
    ensures Below(cols, j + 1) == Below(cols, j) + if j in cols then 1 else 0
  {
    if cols != [] {
      BelowNext(cols[1..], j);
      assert j in cols <==> cols[0] == j || j in cols[1..];
      if cols[0] == j {
        assert j !in cols[1..] by {
          forall l | 0 <= l < |cols| - 1
            ensures cols[1..][l] != j
          {
            assert cols[1..][l] == cols[l + 1];
          }
        }
      }
    }
  }

  /** The first j columns of row i count the leaders the list lead names. */
  lemma {:induction false} RowCount(g: seq<Row>, i: int, j: nat, lead: seq<nat>)
    requires forall k, l :: 0 <= k < l < |lead| ==> lead[k] != lead[l]
    requires forall c :: 0 <= c < j ==> (Leader(g, Cell(i, c)) <==> c in lead)
    ensures RowLeaders(g, i, j) == Below(lead, j)
    decreases j
  {
    if j == 0 {
      BelowZero(lead);
    } else {
      RowCount(g, i, j - 1, lead);
      BelowNext(lead, j - 1);
    }
  }

  /** The disk of the first test: rows 0b01010, 0b01010, 0b01110. */
  const DiskOne: seq<Row> := Disk([{1, 3}, {1, 3}, {1, 2, 3}])

  // Walks from each leader to the rest of its region, breadth first.

  lemma OneReach0()
    ensures Reachable(DiskOne, Cell(0, 1), Cell(1, 1))
    ensures Reachable(DiskOne, Cell(0, 1), Cell(2, 1))
    ensures Reachable(DiskOne, Cell(0, 1), Cell(2, 2))
    ensures Reachable(DiskOne, Cell(0, 1), Cell(2, 3))
  {
    ReachSelf(DiskOne, Cell(0, 1));
    ReachStep(DiskOne, Cell(0, 1), Cell(0, 1), Cell(1, 1));
    ReachStep(DiskOne, Cell(0, 1), Cell(1, 1), Cell(2, 1));
    ReachStep(DiskOne, Cell(0, 1), Cell(2, 1), Cell(2, 2));
    ReachStep(DiskOne, Cell(0, 1), Cell(2, 2), Cell(2, 3));
  }

  lemma OneReach1()
    ensures Reachable(DiskOne, Cell(0, 1), Cell(1, 3))
    ensures Reachable(DiskOne, Cell(0, 1), Cell(0, 3))
  {
    OneReach0();
    ReachStep(DiskOne, Cell(0, 1), Cell(2, 3), Cell(1, 3));
    ReachStep(DiskOne, Cell(0, 1), Cell(1, 3), Cell(0, 3));
  }

  // Which set squares lead their region.

  lemma OneAt0_1()
    ensures Leader(DiskOne, Cell(0, 1))
  {
    FirstSet(DiskOne, Cell(0, 1));
  }

  lemma OneAt0_3()
    ensures !Leader(DiskOne, Cell(0, 3))
  {
    OneReach1();
    Follower(DiskOne, Cell(0, 1), Cell(0, 3));
  }

  lemma OneAt1_1()
    ensures !Leader(DiskOne, Cell(1, 1))
  {
    OneReach0();
    Follower(DiskOne, Cell(0, 1), Cell(1, 1));
  }

  lemma OneAt1_3()
    ensures !Leader(DiskOne, Cell(1, 3))
  {
    OneReach1();
    Follower(DiskOne, Cell(0, 1), Cell(1, 3));
  }

  lemma OneAt2_1()
    ensures !Leader(DiskOne, Cell(2, 1))
  {
    OneReach0();
    Follower(DiskOne, Cell(0, 1), Cell(2, 1));
  }

  lemma OneAt2_2()
    ensures !Leader(DiskOne, Cell(2, 2))
  {
    OneReach0();
    Follower(DiskOne, Cell(0, 1), Cell(2, 2));
  }

  lemma OneAt2_3()
    ensures !Leader(DiskOne, Cell(2, 3))
  {
    OneReach0();
    Follower(DiskOne, Cell(0, 1), Cell(2, 3));
  }

  /** Row 0 of a disk with these leaders counts 1. */
  lemma OneCount0(g: seq<Row>)
    requires |g| == 3 && g[0] == RowOf({1, 3})
    requires Leader(g, Cell(0, 1))
    requires !Leader(g, Cell(0, 3))
    ensures RowLeaders(g, 0, 128) == 1
  {
    RowCount(g, 0, 128, [1]);
  }

  lemma OneRow0()
    ensures RowLeaders(DiskOne, 0, 128) == 1
  {
    OneAt0_1();
    OneAt0_3();
    OneCount0(DiskOne);
  }

  /** Row 1 of a disk with these leaders counts 0. */
  lemma OneCount1(g: seq<Row>)
    requires |g| == 3 && g[1] == RowOf({1, 3})
    requires !Leader(g, Cell(1, 1))
    requires !Leader(g, Cell(1, 3))
    ensures RowLeaders(g, 1, 128) == 0
  {
    RowCount(g, 1, 128, []);
  }

  lemma OneRow1()
    ensures RowLeaders(DiskOne, 1, 128) == 0
  {
    OneAt1_1();
    OneAt1_3();
    OneCount1(DiskOne);
  }

  /** Row 2 of a disk with these leaders counts 0. */
  lemma OneCount2(g: seq<Row>)
    requires |g| == 3 && g[2] == RowOf({1, 2, 3})
    requires !Leader(g, Cell(2, 1))
    requires !Leader(g, Cell(2, 2))
    requires !Leader(g, Cell(2, 3))
    ensures RowLeaders(g, 2, 128) == 0
  {
    RowCount(g, 2, 128, []);
  }

  lemma OneRow2()
    ensures RowLeaders(DiskOne, 2, 128) == 0
  {
    OneAt2_1();
    OneAt2_2();
    OneAt2_3();
    OneCount2(DiskOne);
  }

  /** The first test (day14.rs:30-37): one region shaped like a U, so `RemoveGroups` counts 1 on it. */
  lemma RemoveGroupsOne()
    ensures Regions(DiskOne) == 1
  {
    OneRow0();
    assert Leaders(DiskOne, 1) == Leaders(DiskOne, 0) + RowLeaders(DiskOne, 0, 128);
    OneRow1();
    assert Leaders(DiskOne, 2) == Leaders(DiskOne, 1) + RowLeaders(DiskOne, 1, 128);
    OneRow2();
    assert Leaders(DiskOne, 3) == Leaders(DiskOne, 2) + RowLeaders(DiskOne, 2, 128);
  }

  /** The disk of the second test: rows 0b01001111001110111, 0b01011001001010101, 0b01110001001010101, 0b00000111111011101. */
  const DiskTwo: seq<Row> := Disk([{0, 1, 2, 4, 5, 6, 9, 10, 11, 12, 15}, {0, 2, 4, 6, 9, 12, 13, 15}, {0, 2, 4, 6, 9, 13, 14, 15}, {0, 2, 3, 4, 6, 7, 8, 9, 10, 11}])

  // Walks from each leader to the rest of its region, breadth first.

  lemma TwoReach0()
    ensures Reachable(DiskTwo, Cell(0, 0), Cell(0, 1))
    ensures Reachable(DiskTwo, Cell(0, 0), Cell(1, 0))
    ensures Reachable(DiskTwo, Cell(0, 0), Cell(0, 2))
    ensures Reachable(DiskTwo, Cell(0, 0), Cell(2, 0))
  {
    ReachSelf(DiskTwo, Cell(0, 0));
    ReachStep(DiskTwo, Cell(0, 0), Cell(0, 0), Cell(0, 1));
    ReachStep(DiskTwo, Cell(0, 0), Cell(0, 0), Cell(1, 0));
    ReachStep(DiskTwo, Cell(0, 0), Cell(0, 1), Cell(0, 2));
    ReachStep(DiskTwo, Cell(0, 0), Cell(1, 0), Cell(2, 0));
  }

  lemma TwoReach1()
    ensures Reachable(DiskTwo, Cell(0, 0), Cell(1, 2))
    ensures Reachable(DiskTwo, Cell(0, 0), Cell(3, 0))
    ensures Reachable(DiskTwo, Cell(0, 0), Cell(2, 2))
    ensures Reachable(DiskTwo, Cell(0, 0), Cell(3, 2))
  {
    TwoReach0();
    ReachStep(DiskTwo, Cell(0, 0), Cell(0, 2), Cell(1, 2));
    ReachStep(DiskTwo, Cell(0, 0), Cell(2, 0), Cell(3, 0));
    ReachStep(DiskTwo, Cell(0, 0), Cell(1, 2), Cell(2, 2));
    ReachStep(DiskTwo, Cell(0, 0), Cell(2, 2), Cell(3, 2));
  }

  lemma TwoReach2()
    ensures Reachable(DiskTwo, Cell(0, 0), Cell(3, 3))
    ensures Reachable(DiskTwo, Cell(0, 0), Cell(3, 4))
    ensures Reachable(DiskTwo, Cell(0, 0), Cell(2, 4))
    ensures Reachable(DiskTwo, Cell(0, 0), Cell(1, 4))
  {
    TwoReach1();
    ReachStep(DiskTwo, Cell(0, 0), Cell(3, 2), Cell(3, 3));
    ReachStep(DiskTwo, Cell(0, 0), Cell(3, 3), Cell(3, 4));
    ReachStep(DiskTwo, Cell(0, 0), Cell(3, 4), Cell(2, 4));
    ReachStep(DiskTwo, Cell(0, 0), Cell(2, 4), Cell(1, 4));
  }

  lemma TwoReach3()
    ensures Reachable(DiskTwo, Cell(0, 0), Cell(0, 4))
    ensures Reachable(DiskTwo, Cell(0, 0), Cell(0, 5))
    ensures Reachable(DiskTwo, Cell(0, 0), Cell(0, 6))
    ensures Reachable(DiskTwo, Cell(0, 0), Cell(1, 6))
  {
    TwoReach2();
    ReachStep(DiskTwo, Cell(0, 0), Cell(1, 4), Cell(0, 4));
    ReachStep(DiskTwo, Cell(0, 0), Cell(0, 4), Cell(0, 5));
    ReachStep(DiskTwo, Cell(0, 0), Cell(0, 5), Cell(0, 6));
    ReachStep(DiskTwo, Cell(0, 0), Cell(0, 6), Cell(1, 6));
  }

  lemma TwoReach4()
    ensures Reachable(DiskTwo, Cell(0, 0), Cell(2, 6))
    ensures Reachable(DiskTwo, Cell(0, 0), Cell(3, 6))
    ensures Reachable(DiskTwo, Cell(0, 0), Cell(3, 7))
    ensures Reachable(DiskTwo, Cell(0, 0), Cell(3, 8))
  {
    TwoReach3();
    ReachStep(DiskTwo, Cell(0, 0), Cell(1, 6), Cell(2, 6));
    ReachStep(DiskTwo, Cell(0, 0), Cell(2, 6), Cell(3, 6));
    ReachStep(DiskTwo, Cell(0, 0), Cell(3, 6), Cell(3, 7));
    ReachStep(DiskTwo, Cell(0, 0), Cell(3, 7), Cell(3, 8));
  }

  lemma TwoReach5()
    ensures Reachable(DiskTwo, Cell(0, 0), Cell(3, 9))
    ensures Reachable(DiskTwo, Cell(0, 0), Cell(3, 10))
    ensures Reachable(DiskTwo, Cell(0, 0), Cell(2, 9))
    ensures Reachable(DiskTwo, Cell(0, 0), Cell(3, 11))
  {
    TwoReach4();
    ReachStep(DiskTwo, Cell(0, 0), Cell(3, 8), Cell(3, 9));
    ReachStep(DiskTwo, Cell(0, 0), Cell(3, 9), Cell(3, 10));
    ReachStep(DiskTwo, Cell(0, 0), Cell(3, 9), Cell(2, 9));
    ReachStep(DiskTwo, Cell(0, 0), Cell(3, 10), Cell(3, 11));
  }

  lemma TwoReach6()
    ensures Reachable(DiskTwo, Cell(0, 0), Cell(1, 9))
    ensures Reachable(DiskTwo, Cell(0, 0), Cell(0, 9))
    ensures Reachable(DiskTwo, Cell(0, 0), Cell(0, 10))
    ensures Reachable(DiskTwo, Cell(0, 0), Cell(0, 11))
  {
    TwoReach5();
    ReachStep(DiskTwo, Cell(0, 0), Cell(2, 9), Cell(1, 9));
    ReachStep(DiskTwo, Cell(0, 0), Cell(1, 9), Cell(0, 9));
    ReachStep(DiskTwo, Cell(0, 0), Cell(0, 9), Cell(0, 10));
    ReachStep(DiskTwo, Cell(0, 0), Cell(0, 10), Cell(0, 11));
  }

  lemma TwoReach7()
    ensures Reachable(DiskTwo, Cell(0, 0), Cell(0, 12))
    ensures Reachable(DiskTwo, Cell(0, 0), Cell(1, 12))
    ensures Reachable(DiskTwo, Cell(0, 0), Cell(1, 13))
    ensures Reachable(DiskTwo, Cell(0, 0), Cell(2, 13))
  {
    TwoReach6();
    ReachStep(DiskTwo, Cell(0, 0), Cell(0, 11), Cell(0, 12));
    ReachStep(DiskTwo, Cell(0, 0), Cell(0, 12), Cell(1, 12));
    ReachStep(DiskTwo, Cell(0, 0), Cell(1, 12), Cell(1, 13));
    ReachStep(DiskTwo, Cell(0, 0), Cell(1, 13), Cell(2, 13));
  }

  lemma TwoReach8()
    ensures Reachable(DiskTwo, Cell(0, 0), Cell(2, 14))
    ensures Reachable(DiskTwo, Cell(0, 0), Cell(2, 15))
    ensures Reachable(DiskTwo, Cell(0, 0), Cell(1, 15))
    ensures Reachable(DiskTwo, Cell(0, 0), Cell(0, 15))
  {
    TwoReach7();
    ReachStep(DiskTwo, Cell(0, 0), Cell(2, 13), Cell(2, 14));
    ReachStep(DiskTwo, Cell(0, 0), Cell(2, 14), Cell(2, 15));
    ReachStep(DiskTwo, Cell(0, 0), Cell(2, 15), Cell(1, 15));
    ReachStep(DiskTwo, Cell(0, 0), Cell(1, 15), Cell(0, 15));
  }

  // Which set squares lead their region.

  lemma TwoAt0_0()
    ensures Leader(DiskTwo, Cell(0, 0))
  {
    FirstSet(DiskTwo, Cell(0, 0));
  }

  lemma TwoAt0_1()
    ensures !Leader(DiskTwo, Cell(0, 1))
  {
    TwoReach0();
    Follower(DiskTwo, Cell(0, 0), Cell(0, 1));
  }

  lemma TwoAt0_2()
    ensures !Leader(DiskTwo, Cell(0, 2))
  {
    TwoReach0();
    Follower(DiskTwo, Cell(0, 0), Cell(0, 2));
  }

  lemma TwoAt0_4()
    ensures !Leader(DiskTwo, Cell(0, 4))
  {
    TwoReach3();
    Follower(DiskTwo, Cell(0, 0), Cell(0, 4));
  }

  lemma TwoAt0_5()
    ensures !Leader(DiskTwo, Cell(0, 5))
  {
    TwoReach3();
    Follower(DiskTwo, Cell(0, 0), Cell(0, 5));
  }

  lemma TwoAt0_6()
    ensures !Leader(DiskTwo, Cell(0, 6))
  {
    TwoReach3();
    Follower(DiskTwo, Cell(0, 0), Cell(0, 6));
  }

  lemma TwoAt0_9()
    ensures !Leader(DiskTwo, Cell(0, 9))
  {
    TwoReach6();
    Follower(DiskTwo, Cell(0, 0), Cell(0, 9));
  }

  lemma TwoAt0_10()
    ensures !Leader(DiskTwo, Cell(0, 10))
  {
    TwoReach6();
    Follower(DiskTwo, Cell(0, 0), Cell(0, 10));
  }

  lemma TwoAt0_11()
    ensures !Leader(DiskTwo, Cell(0, 11))
  {
    TwoReach6();
    Follower(DiskTwo, Cell(0, 0), Cell(0, 11));
  }

  lemma TwoAt0_12()
    ensures !Leader(DiskTwo, Cell(0, 12))
  {
    TwoReach7();
    Follower(DiskTwo, Cell(0, 0), Cell(0, 12));
  }

  lemma TwoAt0_15()
    ensures !Leader(DiskTwo, Cell(0, 15))
  {
    TwoReach8();
    Follower(DiskTwo, Cell(0, 0), Cell(0, 15));
  }

  lemma TwoAt1_0()
    ensures !Leader(DiskTwo, Cell(1, 0))
  {
    TwoReach0();
    Follower(DiskTwo, Cell(0, 0), Cell(1, 0));
  }

  lemma TwoAt1_2()
    ensures !Leader(DiskTwo, Cell(1, 2))
  {
    TwoReach1();
    Follower(DiskTwo, Cell(0, 0), Cell(1, 2));
  }

  lemma TwoAt1_4()
    ensures !Leader(DiskTwo, Cell(1, 4))
  {
    TwoReach2();
    Follower(DiskTwo, Cell(0, 0), Cell(1, 4));
  }

  lemma TwoAt1_6()
    ensures !Leader(DiskTwo, Cell(1, 6))
  {
    TwoReach3();
    Follower(DiskTwo, Cell(0, 0), Cell(1, 6));
  }

  lemma TwoAt1_9()
    ensures !Leader(DiskTwo, Cell(1, 9))
  {
    TwoReach6();
    Follower(DiskTwo, Cell(0, 0), Cell(1, 9));
  }

  lemma TwoAt1_12()
    ensures !Leader(DiskTwo, Cell(1, 12))
  {
    TwoReach7();
    Follower(DiskTwo, Cell(0, 0), Cell(1, 12));
  }

  lemma TwoAt1_13()
    ensures !Leader(DiskTwo, Cell(1, 13))
  {
    TwoReach7();
    Follower(DiskTwo, Cell(0, 0), Cell(1, 13));
  }

  lemma TwoAt1_15()
    ensures !Leader(DiskTwo, Cell(1, 15))
  {
    TwoReach8();
    Follower(DiskTwo, Cell(0, 0), Cell(1, 15));
  }

  lemma TwoAt2_0()
    ensures !Leader(DiskTwo, Cell(2, 0))
  {
    TwoReach0();
    Follower(DiskTwo, Cell(0, 0), Cell(2, 0));
  }

  lemma TwoAt2_2()
    ensures !Leader(DiskTwo, Cell(2, 2))
  {
    TwoReach1();
    Follower(DiskTwo, Cell(0, 0), Cell(2, 2));
  }

  lemma TwoAt2_4()
    ensures !Leader(DiskTwo, Cell(2, 4))
  {
    TwoReach2();
    Follower(DiskTwo, Cell(0, 0), Cell(2, 4));
  }

  lemma TwoAt2_6()
    ensures !Leader(DiskTwo, Cell(2, 6))
  {
    TwoReach4();
    Follower(DiskTwo, Cell(0, 0), Cell(2, 6));
  }

  lemma TwoAt2_9()
    ensures !Leader(DiskTwo, Cell(2, 9))
  {
    TwoReach5();
    Follower(DiskTwo, Cell(0, 0), Cell(2, 9));
  }

  lemma TwoAt2_13()
    ensures !Leader(DiskTwo, Cell(2, 13))
  {
    TwoReach7();
    Follower(DiskTwo, Cell(0, 0), Cell(2, 13));
  }

  lemma TwoAt2_14()
    ensures !Leader(DiskTwo, Cell(2, 14))
  {
    TwoReach8();
    Follower(DiskTwo, Cell(0, 0), Cell(2, 14));
  }

  lemma TwoAt2_15()
    ensures !Leader(DiskTwo, Cell(2, 15))
  {
    TwoReach8();
    Follower(DiskTwo, Cell(0, 0), Cell(2, 15));
  }

  lemma TwoAt3_0()
    ensures !Leader(DiskTwo, Cell(3, 0))
  {
    TwoReach1();
    Follower(DiskTwo, Cell(0, 0), Cell(3, 0));
  }

  lemma TwoAt3_2()
    ensures !Leader(DiskTwo, Cell(3, 2))
  {
    TwoReach1();
    Follower(DiskTwo, Cell(0, 0), Cell(3, 2));
  }

  lemma TwoAt3_3()
    ensures !Leader(DiskTwo, Cell(3, 3))
  {
    TwoReach2();
    Follower(DiskTwo, Cell(0, 0), Cell(3, 3));
  }

  lemma TwoAt3_4()
    ensures !Leader(DiskTwo, Cell(3, 4))
  {
    TwoReach2();
    Follower(DiskTwo, Cell(0, 0), Cell(3, 4));
  }

  lemma TwoAt3_6()
    ensures !Leader(DiskTwo, Cell(3, 6))
  {
    TwoReach4();
    Follower(DiskTwo, Cell(0, 0), Cell(3, 6));
  }

  lemma TwoAt3_7()
    ensures !Leader(DiskTwo, Cell(3, 7))
  {
    TwoReach4();
    Follower(DiskTwo, Cell(0, 0), Cell(3, 7));
  }

  lemma TwoAt3_8()
    ensures !Leader(DiskTwo, Cell(3, 8))
  {
    TwoReach4();
    Follower(DiskTwo, Cell(0, 0), Cell(3, 8));
  }

  lemma TwoAt3_9()
    ensures !Leader(DiskTwo, Cell(3, 9))
  {
    TwoReach5();
    Follower(DiskTwo, Cell(0, 0), Cell(3, 9));
  }

  lemma TwoAt3_10()
    ensures !Leader(DiskTwo, Cell(3, 10))
  {
    TwoReach5();
    Follower(DiskTwo, Cell(0, 0), Cell(3, 10));
  }

  lemma TwoAt3_11()
    ensures !Leader(DiskTwo, Cell(3, 11))
  {
    TwoReach5();
    Follower(DiskTwo, Cell(0, 0), Cell(3, 11));
  }

  /** Row 0 of a disk with these leaders counts 1. */
  lemma TwoCount0(g: seq<Row>)
    requires |g| == 4 && g[0] == RowOf({0, 1, 2, 4, 5, 6, 9, 10, 11, 12, 15})
    requires Leader(g, Cell(0, 0))
    requires !Leader(g, Cell(0, 1))
    requires !Leader(g, Cell(0, 2))
    requires !Leader(g, Cell(0, 4))
    requires !Leader(g, Cell(0, 5))
    requires !Leader(g, Cell(0, 6))
    requires !Leader(g, Cell(0, 9))
    requires !Leader(g, Cell(0, 10))
    requires !Leader(g, Cell(0, 11))
    requires !Leader(g, Cell(0, 12))
    requires !Leader(g, Cell(0, 15))
    ensures RowLeaders(g, 0, 128) == 1
  {
    RowCount(g, 0, 128, [0]);
  }

  lemma TwoRow0()
    ensures RowLeaders(DiskTwo, 0, 128) == 1
  {
    TwoAt0_0();
    TwoAt0_1();
    TwoAt0_2();
    TwoAt0_4();
    TwoAt0_5();
    TwoAt0_6();
    TwoAt0_9();
    TwoAt0_10();
    TwoAt0_11();
    TwoAt0_12();
    TwoAt0_15();
    TwoCount0(DiskTwo);
  }

  /** Row 1 of a disk with these leaders counts 0. */
  lemma TwoCount1(g: seq<Row>)
    requires |g| == 4 && g[1] == RowOf({0, 2, 4, 6, 9, 12, 13, 15})
    requires !Leader(g, Cell(1, 0))
    requires !Leader(g, Cell(1, 2))
    requires !Leader(g, Cell(1, 4))
    requires !Leader(g, Cell(1, 6))
    requires !Leader(g, Cell(1, 9))
    requires !Leader(g, Cell(1, 12))
    requires !Leader(g, Cell(1, 13))
    requires !Leader(g, Cell(1, 15))
    ensures RowLeaders(g, 1, 128) == 0
  {
    RowCount(g, 1, 128, []);
  }

  lemma TwoRow1()
    ensures RowLeaders(DiskTwo, 1, 128) == 0
  {
    TwoAt1_0();
    TwoAt1_2();
    TwoAt1_4();
    TwoAt1_6();
    TwoAt1_9();
    TwoAt1_12();
    TwoAt1_13();
    TwoAt1_15();
    TwoCount1(DiskTwo);
  }

  /** Row 2 of a disk with these leaders counts 0. */
  lemma TwoCount2(g: seq<Row>)
    requires |g| == 4 && g[2] == RowOf({0, 2, 4, 6, 9, 13, 14, 15})
    requires !Leader(g, Cell(2, 0))
    requires !Leader(g, Cell(2, 2))
    requires !Leader(g, Cell(2, 4))
    requires !Leader(g, Cell(2, 6))
    requires !Leader(g, Cell(2, 9))
    requires !Leader(g, Cell(2, 13))
    requires !Leader(g, Cell(2, 14))
    requires !Leader(g, Cell(2, 15))
    ensures RowLeaders(g, 2, 128) == 0
  {
    RowCount(g, 2, 128, []);
  }

  lemma TwoRow2()
    ensures RowLeaders(DiskTwo, 2, 128) == 0
  {
    TwoAt2_0();
    TwoAt2_2();
    TwoAt2_4();
    TwoAt2_6();
    TwoAt2_9();
    TwoAt2_13();
    TwoAt2_14();
    TwoAt2_15();
    TwoCount2(DiskTwo);
  }

  /** Row 3 of a disk with these leaders counts 0. */
  lemma TwoCount3(g: seq<Row>)
    requires |g| == 4 && g[3] == RowOf({0, 2, 3, 4, 6, 7, 8, 9, 10, 11})
    requires !Leader(g, Cell(3, 0))
    requires !Leader(g, Cell(3, 2))
    requires !Leader(g, Cell(3, 3))
    requires !Leader(g, Cell(3, 4))
    requires !Leader(g, Cell(3, 6))
    requires !Leader(g, Cell(3, 7))
    requires !Leader(g, Cell(3, 8))
    requires !Leader(g, Cell(3, 9))
    requires !Leader(g, Cell(3, 10))
    requires !Leader(g, Cell(3, 11))
    ensures RowLeaders(g, 3, 128) == 0
  {
    RowCount(g, 3, 128, []);
  }

  lemma TwoRow3()
    ensures RowLeaders(DiskTwo, 3, 128) == 0
  {
    TwoAt3_0();
    TwoAt3_2();
    TwoAt3_3();
    TwoAt3_4();
    TwoAt3_6();
    TwoAt3_7();
    TwoAt3_8();
    TwoAt3_9();
    TwoAt3_10();
    TwoAt3_11();
    TwoCount3(DiskTwo);
  }

  /** The second test (day14.rs:39-47): one winding region, so `RemoveGroups` counts 1 on it. */
  lemma RemoveGroupsTwo()
    ensures Regions(DiskTwo) == 1
  {
    TwoRow0();
    assert Leaders(DiskTwo, 1) == Leaders(DiskTwo, 0) + RowLeaders(DiskTwo, 0, 128);
    TwoRow1();
    assert Leaders(DiskTwo, 2) == Leaders(DiskTwo, 1) + RowLeaders(DiskTwo, 1, 128);
    TwoRow2();
    assert Leaders(DiskTwo, 3) == Leaders(DiskTwo, 2) + RowLeaders(DiskTwo, 2, 128);
    TwoRow3();
    assert Leaders(DiskTwo, 4) == Leaders(DiskTwo, 3) + RowLeaders(DiskTwo, 3, 128);
  }

  /** The disk of the third test: rows 0b10100000000000000, 0b01100000000000000, 0, 0. */
  const DiskThree: seq<Row> := Disk([{14, 16}, {14, 15}, {}, {}])

  // Walks from each leader to the rest of its region, breadth first.

  lemma ThreeReach0()
    ensures Reachable(DiskThree, Cell(0, 14), Cell(1, 14))
    ensures Reachable(DiskThree, Cell(0, 14), Cell(1, 15))
  {
    ReachSelf(DiskThree, Cell(0, 14));
    ReachStep(DiskThree, Cell(0, 14), Cell(0, 14), Cell(1, 14));
    ReachStep(DiskThree, Cell(0, 14), Cell(1, 14), Cell(1, 15));
  }

  // Which set squares lead their region.

  lemma ThreeAt0_14()
    ensures Leader(DiskThree, Cell(0, 14))
  {
    FirstSet(DiskThree, Cell(0, 14));
  }

  lemma ThreeAt0_16()
    ensures Leader(DiskThree, Cell(0, 16))
  {
    LoneLeader(DiskThree, {Cell(0, 16)}, Cell(0, 16));
  }

  lemma ThreeAt1_14()
    ensures !Leader(DiskThree, Cell(1, 14))
  {
    ThreeReach0();
    Follower(DiskThree, Cell(0, 14), Cell(1, 14));
  }

  lemma ThreeAt1_15()
    ensures !Leader(DiskThree, Cell(1, 15))
  {
    ThreeReach0();
    Follower(DiskThree, Cell(0, 14), Cell(1, 15));
  }

  /** Row 0 of a disk with these leaders counts 2. */
  lemma ThreeCount0(g: seq<Row>)
    requires |g| == 4 && g[0] == RowOf({14, 16})
    requires Leader(g, Cell(0, 14))
    requires Leader(g, Cell(0, 16))
    ensures RowLeaders(g, 0, 128) == 2
  {
    RowCount(g, 0, 128, [14, 16]);
  }

  lemma ThreeRow0()
    ensures RowLeaders(DiskThree, 0, 128) == 2
  {
    ThreeAt0_14();
    ThreeAt0_16();
    ThreeCount0(DiskThree);
  }

  /** Row 1 of a disk with these leaders counts 0. */
  lemma ThreeCount1(g: seq<Row>)
    requires |g| == 4 && g[1] == RowOf({14, 15})
    requires !Leader(g, Cell(1, 14))
    requires !Leader(g, Cell(1, 15))
    ensures RowLeaders(g, 1, 128) == 0
  {
    RowCount(g, 1, 128, []);
  }

  lemma ThreeRow1()
    ensures RowLeaders(DiskThree, 1, 128) == 0
  {
    ThreeAt1_14();
    ThreeAt1_15();
    ThreeCount1(DiskThree);
  }

  /** Row 2 of a disk with these leaders counts 0. */
  lemma ThreeCount2(g: seq<Row>)
    requires |g| == 4 && g[2] == RowOf({})
    ensures RowLeaders(g, 2, 128) == 0
  {
    RowCount(g, 2, 128, []);
  }

  lemma ThreeRow2()
    ensures RowLeaders(DiskThree, 2, 128) == 0
  {
    ThreeCount2(DiskThree);
  }

  /** Row 3 of a disk with these leaders counts 0. */
  lemma ThreeCount3(g: seq<Row>)
    requires |g| == 4 && g[3] == RowOf({})
    ensures RowLeaders(g, 3, 128) == 0
  {
    RowCount(g, 3, 128, []);
  }

  lemma ThreeRow3()
    ensures RowLeaders(DiskThree, 3, 128) == 0
  {
    ThreeCount3(DiskThree);
  }

  /** The third test (day14.rs:49-57): two regions in the top rows, so `RemoveGroups` counts 2 on it. */
  lemma RemoveGroupsThree()
    ensures Regions(DiskThree) == 2
  {
    ThreeRow0();
    assert Leaders(DiskThree, 1) == Leaders(DiskThree, 0) + RowLeaders(DiskThree, 0, 128);
    ThreeRow1();
    assert Leaders(DiskThree, 2) == Leaders(DiskThree, 1) + RowLeaders(DiskThree, 1, 128);
    ThreeRow2();
    assert Leaders(DiskThree, 3) == Leaders(DiskThree, 2) + RowLeaders(DiskThree, 2, 128);
    ThreeRow3();
    assert Leaders(DiskThree, 4) == Leaders(DiskThree, 3) + RowLeaders(DiskThree, 3, 128);
  }
}
