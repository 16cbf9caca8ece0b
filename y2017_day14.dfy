/**
 * 2017 day 14 (src/bin/y2017/day14.rs): regions of a 128-column disk.
 * The disk is a slice of `u128` rows; bit c of a row is the square in
 * column c.  Here a row is a sequence of 128 booleans, entry c being bit c,
 * and the slice is an array of such rows.  `wipe_region` clears the
 * 4-connected region of set squares around one square; `remove_groups`
 * scans every square and counts the regions it wipes.
 */
module Y2017Day14 {

  /** One row of the disk: entry c is bit c of the source's `u128`. */
  type Row = s: seq<bool> | |s| == 128 witness seq(128, _ => false)

  /** A square of the disk: row r, column c. */
  datatype Cell = Cell(r: int, c: int)

  /** The square is on the disk and set. */
  predicate On(g: seq<Row>, x: Cell)
  {
    0 <= x.r < |g| && 0 <= x.c < 128 && g[x.r][x.c]
  }

  /** The two squares share a side. */
  predicate Adjacent(x: Cell, y: Cell)
  {
    (x.r == y.r && (x.c == y.c + 1 || y.c == x.c + 1)) ||
    (x.c == y.c && (x.r == y.r + 1 || y.r == x.r + 1))
  }

  /** A walk through set squares, each step to a square sharing a side. */
  ghost predicate Walk(g: seq<Row>, path: seq<Cell>)
  {
    |path| > 0 &&
    (forall i :: 0 <= i < |path| ==> On(g, path[i])) &&
    (forall i, j :: 0 <= i && j == i + 1 && j < |path| ==> Adjacent(path[i], path[j]))
  }

  /** x lies in the region of p: some walk through set squares leads from p to x. */
  ghost predicate Reachable(g: seq<Row>, p: Cell, x: Cell)
  {
    exists path :: Walk(g, path) && path[0] == p && path[|path| - 1] == x
  }

  /** `usize::saturating_sub(1)` and `u8::saturating_sub(1)` on the non-negative n. */
  function SatSub(n: int): int
  {
    if n <= 0 then 0 else n - 1
  }

  /** The four squares `wipe_region` visits after (r, c), in its order: left, right, below, above. */
  function Nb(p: Cell, t: int): Cell
  {
    if t == 0 then Cell(p.r, SatSub(p.c))
    else if t == 1 then Cell(p.r, p.c + 1)
    else if t == 2 then Cell(p.r + 1, p.c)
    else Cell(SatSub(p.r), p.c)
  }

  // ---------------------------------------------------------------------
  // Walks.

  lemma ReachSelf(g: seq<Row>, x: Cell)
    requires On(g, x)
    ensures Reachable(g, x, x)
  {
    assert Walk(g, [x]);
  }

  lemma ReachEnds(g: seq<Row>, p: Cell, x: Cell)
    ensures Reachable(g, p, x) ==> On(g, p) && On(g, x)
  {
    if Reachable(g, p, x) {
      var path :| Walk(g, path) && path[0] == p && path[|path| - 1] == x;
      assert On(g, path[0]) && On(g, path[|path| - 1]);
    }
  }

  /** A walk through the squares set in h is one through those set in g when h only clears. */
  lemma {:induction false} ReachMono(g: seq<Row>, h: seq<Row>, p: Cell, x: Cell)
    requires forall y :: On(h, y) ==> On(g, y)
    requires Reachable(h, p, x)
    ensures Reachable(g, p, x)
  {
    var path :| Walk(h, path) && path[0] == p && path[|path| - 1] == x;
    assert Walk(g, path);
  }

  /** One step from p to a square q sharing its side, then on from q. */
  lemma {:induction false} ReachFrom(g: seq<Row>, h: seq<Row>, p: Cell, q: Cell, x: Cell)
    requires forall y :: On(h, y) ==> On(g, y)
    requires On(g, p) && Adjacent(p, q) && Reachable(h, q, x)
    ensures Reachable(g, p, x)
  {
    var path :| Walk(h, path) && path[0] == q && path[|path| - 1] == x;
    var w := [p] + path;
    forall i | 0 <= i < |w|
      ensures On(g, w[i])
    {
      if i > 0 {
        assert w[i] == path[i - 1];
      }
    }
    forall i, j | 0 <= i && j == i + 1 && j < |w|
      ensures Adjacent(w[i], w[j])
    {
      if i > 0 {
        assert w[i] == path[i - 1] && w[j] == path[j - 1];
      }
    }
    assert Walk(g, w) && w[0] == p && w[|w| - 1] == x;
  }

  lemma {:induction false} ReachTrans(g: seq<Row>, a: Cell, b: Cell, x: Cell)
    requires Reachable(g, a, b) && Reachable(g, b, x)
    ensures Reachable(g, a, x)
  {
    var p1 :| Walk(g, p1) && p1[0] == a && p1[|p1| - 1] == b;
    var p2 :| Walk(g, p2) && p2[0] == b && p2[|p2| - 1] == x;
    var w := p1 + p2[1..];
    forall i | 0 <= i < |w|
      ensures On(g, w[i])
    {
      if i >= |p1| {
        assert w[i] == p2[i - |p1| + 1];
      }
    }
    forall i, j | 0 <= i && j == i + 1 && j < |w|
      ensures Adjacent(w[i], w[j])
    {
      if j < |p1| {
        assert w[i] == p1[i] && w[j] == p1[j];
      } else if i == |p1| - 1 {
        assert w[i] == p2[0] && w[j] == p2[1];
      } else {
        assert w[i] == p2[i - |p1| + 1] && w[j] == p2[j - |p1| + 1];
      }
    }
    assert w[|w| - 1] == x;
    assert Walk(g, w) && w[0] == a;
  }

  lemma ReachThrough(g: seq<Row>, a: Cell, b: Cell, x: Cell)
    requires Reachable(g, b, x)
    ensures Reachable(g, a, b) ==> Reachable(g, a, x)
  {
    if Reachable(g, a, b) {
      ReachTrans(g, a, b, x);
    }
  }

  /** Regions are symmetric: a walk read backwards is a walk. */
  lemma {:induction false} ReachSym(g: seq<Row>, a: Cell, b: Cell)
    requires Reachable(g, a, b)
    ensures Reachable(g, b, a)
  {
    var path :| Walk(g, path) && path[0] == a && path[|path| - 1] == b;
    var n := |path|;
    var w := seq(n, k requires 0 <= k < n => path[n - 1 - k]);
    forall i, j | 0 <= i && j == i + 1 && j < n
      ensures Adjacent(w[i], w[j])
    {
      assert w[i] == path[n - 1 - i] && w[j] == path[n - 1 - j];
      assert Adjacent(path[n - 1 - j], path[n - 1 - i]);
    }
    assert Walk(g, w) && w[0] == b && w[n - 1] == a;
  }

  lemma {:induction false} ReachSuffix(g: seq<Row>, path: seq<Cell>, k: nat)
    requires Walk(g, path) && k < |path|
    ensures Reachable(g, path[k], path[|path| - 1])
  {
    var w := path[k..];
    forall i, j | 0 <= i && j == i + 1 && j < |w|
      ensures Adjacent(w[i], w[j])
    {
      assert w[i] == path[k + i] && w[j] == path[k + j];
    }
    assert Walk(g, w) && w[0] == path[k] && w[|w| - 1] == path[|path| - 1];
  }

  // ---------------------------------------------------------------------
  // wipe_region

  /** The set squares of the disk; it shrinks with every square wiped. */
  ghost function OnSet(g: seq<Row>): set<Cell>
  {
    set r: int, c: int | 0 <= r < |g| && 0 <= c < 128 && g[r][c] :: Cell(r, c)
  }

  /** h comes from g by clearing squares only. */
  ghost predicate Clears(g: seq<Row>, h: seq<Row>)
  {
    |h| == |g| && forall x :: On(h, x) ==> On(g, x)
  }

  predicate Wiped(g: seq<Row>, h: seq<Row>, x: Cell)
  {
    On(g, x) && !On(h, x)
  }

  /** No wiped square has a set neighbour left standing. */
  ghost predicate Closed(g: seq<Row>, h: seq<Row>)
  {
    forall x, y :: Wiped(g, h, x) && Adjacent(x, y) && On(g, y) ==> Wiped(g, h, y)
  }

  /** h is g with exactly the region of p cleared. */
  ghost predicate Wipes(g: seq<Row>, h: seq<Row>, p: Cell)
  {
    Clears(g, h) && Closed(g, h) && forall x :: Wiped(g, h, x) <==> Reachable(g, p, x)
  }

  /** The state of a `wipe_region` call at a set p after p and some neighbours are done. */
  ghost predicate Partial(g: seq<Row>, h: seq<Row>, p: Cell)
  {
    On(g, p) && Clears(g, h) && !On(h, p) &&
    (forall x :: Wiped(g, h, x) ==> Reachable(g, p, x)) &&
    (forall x, y :: Wiped(g, h, x) && x != p && Adjacent(x, y) && On(g, y) ==> Wiped(g, h, y))
  }

  ghost predicate Done(g: seq<Row>, h: seq<Row>, p: Cell, k: int)
  {
    Partial(g, h, p) && forall t :: 0 <= t < k ==> On(g, Nb(p, t)) ==> Wiped(g, h, Nb(p, t))
  }

  lemma Fewer(g: seq<Row>, h: seq<Row>, p: Cell, k: int)
    requires Done(g, h, p, k)
    ensures OnSet(h) < OnSet(g)
  {
    forall x | x in OnSet(h)
      ensures x in OnSet(g)
    {
      assert On(h, x);
    }
    assert p in OnSet(g);
  }

  /** An unset square starts no walk, so an untouched disk is its wiped region. */
  lemma WipesNothing(g: seq<Row>, p: Cell)
    requires !On(g, p)
    ensures Wipes(g, g, p)
  {
    forall x
      ensures !Reachable(g, p, x)
    {
      ReachEnds(g, p, x);
    }
  }

  lemma Cleared(g: seq<Row>, h: seq<Row>, p: Cell)
    requires On(g, p) && h == g[p.r := g[p.r][p.c := false]]
    ensures Done(g, h, p, 0)
  {
    ReachSelf(g, p);
    forall x | On(h, x)
      ensures On(g, x) && x != p
    {
    }
  }

  /** The step after the recursive call at the k-th square visited after p. */
  lemma ChildStep(g0: seq<Row>, g: seq<Row>, h: seq<Row>, p: Cell, k: int)
    requires 0 <= k < 4 && Done(g0, g, p, k) && Wipes(g, h, Nb(p, k))
    ensures Done(g0, h, p, k + 1)
  {
    var q := Nb(p, k);
    assert q == p || Adjacent(p, q);
    forall x | Wiped(g0, h, x)
      ensures Reachable(g0, p, x)
    {
      if On(g, x) {
        assert Wiped(g, h, x);
        ReachEnds(g, q, x);
        ReachFrom(g0, g, p, q, x);
      }
    }
    forall x, y | Wiped(g0, h, x) && x != p && Adjacent(x, y) && On(g0, y)
      ensures Wiped(g0, h, y)
    {
      if On(g, x) {
        assert Wiped(g, h, x);
      }
    }
    if On(g, q) {
      ReachSelf(g, q);
    }
    forall t | 0 <= t < k + 1 && On(g0, Nb(p, t))
      ensures Wiped(g0, h, Nb(p, t))
    {
      if t < k {
        assert Wiped(g0, g, Nb(p, t));
      }
    }
  }

  lemma NeighbourCases(p: Cell, y: Cell)
    requires 0 <= p.r && 0 <= p.c && 0 <= y.r && 0 <= y.c && Adjacent(p, y)
    ensures y == Nb(p, 0) || y == Nb(p, 1) || y == Nb(p, 2) || y == Nb(p, 3)
  {
  }

  lemma {:induction false} WipedAlong(g: seq<Row>, h: seq<Row>, path: seq<Cell>, k: nat)
    requires Closed(g, h) && Walk(g, path) && Wiped(g, h, path[0]) && k < |path|
    ensures Wiped(g, h, path[k])
  {
    if k > 0 {
      WipedAlong(g, h, path, k - 1);
      assert Adjacent(path[k - 1], path[k]);
    }
  }

  /** Once every set neighbour of p is wiped, the region of p is exactly what is wiped. */
  lemma Finish(g: seq<Row>, h: seq<Row>, p: Cell)
    requires Done(g, h, p, 4)
    ensures Wipes(g, h, p)
  {
    forall x, y | Wiped(g, h, x) && Adjacent(x, y) && On(g, y)
      ensures Wiped(g, h, y)
    {
      if x == p {
        NeighbourCases(p, y);
        assert On(g, Nb(p, 0)) ==> Wiped(g, h, Nb(p, 0));
        assert On(g, Nb(p, 1)) ==> Wiped(g, h, Nb(p, 1));
        assert On(g, Nb(p, 2)) ==> Wiped(g, h, Nb(p, 2));
        assert On(g, Nb(p, 3)) ==> Wiped(g, h, Nb(p, 3));
      }
    }
    forall x | Reachable(g, p, x)
      ensures Wiped(g, h, x)
    {
      var path :| Walk(g, path) && path[0] == p && path[|path| - 1] == x;
      WipedAlong(g, h, path, |path| - 1);
    }
  }

  /**
   * `wipe_region`: nothing happens and 0 is returned when (row, col) is off
   * the disk or unset; otherwise the whole region of the square is cleared
   * and 1 is returned.  The row may be one past the last (the source checks
   * `row == rows.len()`; a larger one would index out of bounds).
   */
  method WipeRegion(rows: array<Row>, row: nat, col: nat) returns (n: nat)
    requires row <= rows.Length && col < 256
    modifies rows
    decreases OnSet(rows[..])
    ensures n == if On(old(rows[..]), Cell(row, col)) then 1 else 0
    ensures Wipes(old(rows[..]), rows[..], Cell(row, col))
    ensures !On(old(rows[..]), Cell(row, col)) ==> rows[..] == old(rows[..])
  {
    if row == rows.Length || col > 127 || !rows[row][col] {
      WipesNothing(rows[..], Cell(row, col));
      return 0;
    }
    ghost var g0 := rows[..];
    ghost var p := Cell(row, col);
    rows[row] := rows[row][col := false];
    assert rows[..] == g0[row := g0[row][col := false]];
    Cleared(g0, rows[..], p);

    ghost var g := rows[..];
    Fewer(g0, g, p, 0);
    var left := WipeRegion(rows, row, SatSub(col));
    ChildStep(g0, g, rows[..], p, 0);

    g := rows[..];
    Fewer(g0, g, p, 1);
    var right := WipeRegion(rows, row, col + 1);
    ChildStep(g0, g, rows[..], p, 1);

    g := rows[..];
    Fewer(g0, g, p, 2);
    var below := WipeRegion(rows, row + 1, col);
    ChildStep(g0, g, rows[..], p, 2);

    g := rows[..];
    Fewer(g0, g, p, 3);
    var above := WipeRegion(rows, SatSub(row), col);
    ChildStep(g0, g, rows[..], p, 3);

    Finish(g0, rows[..], p);
    return 1;
  }

  // ---------------------------------------------------------------------
  // remove_groups

  /** y comes before square (i, j) in the row-major scan. */
  predicate Before(y: Cell, i: int, j: int)
  {
    0 <= y.r && 0 <= y.c < 128 && (y.r < i || (y.r == i && y.c < j))
  }

  /** x is set and no square scanned before (i, j) lies in its region. */
  ghost predicate Pending(g: seq<Row>, i: int, j: int, x: Cell)
  {
    On(g, x) && forall y :: Before(y, i, j) ==> !Reachable(g, y, x)
  }

  /** The first square of its region in scan order, where the scan counts the region. */
  ghost predicate Leader(g: seq<Row>, x: Cell)
  {
    Pending(g, x.r, x.c, x)
  }

  /** Leaders among the first j squares of row i. */
  ghost function RowLeaders(g: seq<Row>, i: int, j: nat): nat
  {
    if j == 0 then 0 else RowLeaders(g, i, j - 1) + if Leader(g, Cell(i, j - 1)) then 1 else 0
  }

  /** Leaders in the first i rows. */
  ghost function Leaders(g: seq<Row>, i: nat): nat
  {
    if i == 0 then 0 else Leaders(g, i - 1) + RowLeaders(g, i - 1, 128)
  }

  /** The number of regions of the disk: one leader each (LeaderExists, LeaderUnique). */
  ghost function Regions(g: seq<Row>): nat
  {
    Leaders(g, |g|)
  }

  /** Every set square lies in the region of some leader. */
  lemma {:induction false} LeaderExists(g: seq<Row>, x: Cell)
    requires On(g, x)
    ensures exists a :: Leader(g, a) && Reachable(g, a, x)
    decreases x.r, x.c
  {
    ReachSelf(g, x);
    if !Leader(g, x) {
      var y :| Before(y, x.r, x.c) && Reachable(g, y, x);
      ReachEnds(g, y, x);
      LeaderExists(g, y);
      var a :| Leader(g, a) && Reachable(g, a, y);
      ReachTrans(g, a, y, x);
    }
  }

  /** Two leaders whose regions share a square are the same square. */
  lemma LeaderUnique(g: seq<Row>, a: Cell, b: Cell, x: Cell)
    requires Leader(g, a) && Leader(g, b) && Reachable(g, a, x) && Reachable(g, b, x)
    ensures a == b
  {
    ReachSym(g, b, x);
    ReachTrans(g, a, x, b);
    ReachSym(g, a, x);
    ReachTrans(g, b, x, a);
    assert !Before(a, b.r, b.c) && !Before(b, a.r, a.c);
  }

  /** h is the disk g after scanning every square before (i, j). */
  ghost predicate Scanned(g: seq<Row>, h: seq<Row>, i: int, j: int)
  {
    |h| == |g| && forall x :: On(h, x) <==> Pending(g, i, j, x)
  }

  lemma PendingNext(g: seq<Row>, i: int, j: int, x: Cell)
    requires 0 <= i && 0 <= j < 128
    ensures Pending(g, i, j + 1, x) <==> Pending(g, i, j, x) && !Reachable(g, Cell(i, j), x)
  {
    forall y | Before(y, i, j + 1)
      ensures Before(y, i, j) || y == Cell(i, j)
    {
    }
  }

  /** A walk into a pending square stays on pending squares, which the scan has left set. */
  lemma PendingReach(g: seq<Row>, h: seq<Row>, i: int, j: int, z: Cell, x: Cell)
    requires Scanned(g, h, i, j) && Pending(g, i, j, x) && Reachable(g, z, x)
    ensures Reachable(h, z, x)
  {
    var path :| Walk(g, path) && path[0] == z && path[|path| - 1] == x;
    forall k | 0 <= k < |path|
      ensures On(h, path[k])
    {
      ReachSuffix(g, path, k);
      forall y | Before(y, i, j)
        ensures !Reachable(g, y, path[k])
      {
        ReachThrough(g, y, path[k], x);
      }
    }
    assert Walk(h, path);
  }

  lemma ScanStep(g: seq<Row>, h: seq<Row>, h': seq<Row>, i: nat, j: nat)
    requires j < 128 && Scanned(g, h, i, j) && Wipes(h, h', Cell(i, j))
    ensures Scanned(g, h', i, j + 1)
    ensures On(h, Cell(i, j)) <==> Leader(g, Cell(i, j))
  {
    var z := Cell(i, j);
    forall x
      ensures On(h', x) <==> Pending(g, i, j + 1, x)
    {
      PendingNext(g, i, j, x);
      if On(h, x) {
        if Reachable(h, z, x) {
          ReachMono(g, h, z, x);
        }
        if Reachable(g, z, x) {
          PendingReach(g, h, i, j, z, x);
        }
      }
    }
  }

  lemma RowDone(g: seq<Row>, h: seq<Row>, i: int)
    requires Scanned(g, h, i, 128)
    ensures Scanned(g, h, i + 1, 0)
  {
    forall x
      ensures Pending(g, i, 128, x) <==> Pending(g, i + 1, 0, x)
    {
      forall y
        ensures Before(y, i, 128) <==> Before(y, i + 1, 0)
      {
      }
    }
  }

  lemma ScanEnd(g: seq<Row>, h: seq<Row>)
    requires Scanned(g, h, |g|, 0)
    ensures forall x :: !On(h, x)
  {
    forall x | On(g, x)
      ensures !On(h, x)
    {
      ReachSelf(g, x);
    }
  }

  /**
   * `remove_groups`: scans the squares row by row and wipes the region of
   * each one; the number of regions wiped is the number of regions of the
   * disk, and every row ends up zero.
   */
  method RemoveGroups(rows: array<Row>) returns (groups: nat)
    modifies rows
    ensures groups == Regions(old(rows[..]))
    ensures forall i, c :: 0 <= i < rows.Length && 0 <= c < 128 ==> !rows[i][c]
  {
    ghost var g := rows[..];
    groups := 0;
    for i := 0 to rows.Length
      invariant Scanned(g, rows[..], i, 0) && groups == Leaders(g, i)
    {
      for j := 0 to 128
        invariant Scanned(g, rows[..], i, j) && groups == Leaders(g, i) + RowLeaders(g, i, j)
      {
        ghost var h := rows[..];
        var n := WipeRegion(rows, i, j);
        ScanStep(g, h, rows[..], i, j);
        groups := groups + n;
      }
      RowDone(g, rows[..], i);
    }
    ScanEnd(g, rows[..]);
    forall i, c | 0 <= i < rows.Length && 0 <= c < 128
      ensures !rows[i][c]
    {
      assert !On(rows[..], Cell(i, c));
    }
  }
}
