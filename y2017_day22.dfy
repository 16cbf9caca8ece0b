/**
 * 2017 day 22 (src/bin/y2017/day22.rs): the virus carrier walking an
 * unbounded grid of nodes.  The grid is the growing `Grid` of matrix.dfy;
 * what a run of bursts does is stated on a board, a function from
 * coordinates to node states, and the methods are proved to follow it.
 */
module Y2017Day22 {
  import opened Matrices

  datatype Direction = Left | Right | Up | Down

  function TurnRight(d: Direction): Direction
  {
    match d
    case Up => Right
    case Right => Down
    case Down => Left
    case Left => Up
  }

  function TurnLeft(d: Direction): Direction
  {
    match d
    case Up => Left
    case Left => Down
    case Down => Right
    case Right => Up
  }

  function Reverse(d: Direction): Direction
  {
    match d
    case Up => Down
    case Down => Up
    case Left => Right
    case Right => Left
  }

  /** Four right turns face the same way, a left turn undoes a right one, and reversing is two turns. */
  lemma TurnLaws(d: Direction)
    ensures TurnRight(TurnRight(TurnRight(TurnRight(d)))) == d
    ensures TurnLeft(TurnRight(d)) == d && TurnRight(TurnLeft(d)) == d
    ensures Reverse(d) == TurnRight(TurnRight(d)) == TurnLeft(TurnLeft(d))
    ensures Reverse(Reverse(d)) == d
  {
  }

  /** `apply`: one cell on, Up decreasing y and Right increasing x. */
  function Apply(d: Direction, pos: (int, int)): (q: (int, int))
    ensures (q.0 == pos.0) != (q.1 == pos.1)
    ensures q.0 - pos.0 + q.1 - pos.1 == 1 || q.0 - pos.0 + q.1 - pos.1 == -1
  {
    match d
    case Up => (pos.0, pos.1 - 1)
    case Down => (pos.0, pos.1 + 1)
    case Left => (pos.0 - 1, pos.1)
    case Right => (pos.0 + 1, pos.1)
  }

  /** Moving and then moving back the opposite way returns to the start. */
  lemma ApplyReverse(d: Direction, pos: (int, int))
    ensures Apply(Reverse(d), Apply(d, pos)) == pos
  {
  }

  /**
   * `load`: the interpreted matrix placed with its top-left cell at
   * (-(cols / 2), -(rows / 2)), so that its middle is at the origin.
   */
  method Load<T>(m: Matrix<T>) returns (g: Grid<T>)
    requires m.Valid()
    ensures g.Valid() && g.matrix == m && fresh(g)
    ensures g.leftBound == -(m.cols / 2) && g.topBound == -(m.rows / 2)
    ensures forall r: nat, c: nat :: r < m.rows && c < m.cols ==>
              g.Value(c - m.cols / 2, r - m.rows / 2) == m.At(r, c)
  {
    g := new Grid.FromMatrix(m, -(m.cols / 2), -(m.rows / 2));
  }

  /** The carrier: where it stands, where it faces, and how many nodes it infected. */
  datatype Carrier = Carrier(pos: (int, int), dir: Direction, infections: nat)

  const Start: Carrier := Carrier((0, 0), Up, 0)

  /** The board after writing v at p. */
  function Written<T>(board: (int, int) -> T, p: (int, int), v: T): (int, int) -> T
  {
    (a: int, b: int) => if (a, b) == p then v else board(a, b)
  }

  // ---------------------------------------------------------------------
  // Part 1: nodes are clean or infected.

  /**
   * One burst of `part1`: toggle the current node, turn right on an
   * infected node and left on a clean one (counting the infection), step on.
   */
  function Burst(board: (int, int) -> bool, c: Carrier): ((int, int) -> bool, Carrier)
  {
    var value := board(c.pos.0, c.pos.1);
    var dir := if value then TurnRight(c.dir) else TurnLeft(c.dir);
    (Written(board, c.pos, !value), Carrier(Apply(dir, c.pos), dir, if value then c.infections else c.infections + 1))
  }

  function Bursts(board: (int, int) -> bool, c: Carrier, n: nat): ((int, int) -> bool, Carrier)
  {
    if n == 0 then (board, c) else var s := Bursts(board, c, n - 1); Burst(s.0, s.1)
  }

  /** A burst flips exactly the current node, and counts an infection exactly when that node was clean. */
  lemma BurstFlips(board: (int, int) -> bool, c: Carrier, a: int, b: int)
    ensures var s := Burst(board, c);
      s.0(a, b) == (if (a, b) == c.pos then !board(a, b) else board(a, b)) &&
      (s.1.infections == c.infections + 1 <==> !board(c.pos.0, c.pos.1)) &&
      (s.1.infections == c.infections <==> board(c.pos.0, c.pos.1))
  {
  }

  /** Every burst infects at most one node. */
  lemma {:induction false} BurstsInfectAtMost(board: (int, int) -> bool, c: Carrier, n: nat)
    ensures c.infections <= Bursts(board, c, n).1.infections <= c.infections + n
  {
    if n > 0 {
      BurstsInfectAtMost(board, c, n - 1);
    }
  }

  /**
   * `part1` with `bursts` bursts (the source runs 10 000): the grid ends as
   * the board of the bursts, and the count is the infections they made.
   */
  method Part1(grid: Grid<bool>, bursts: nat, ghost board: (int, int) -> bool) returns (infections: nat)
    modifies grid, grid.matrix
    requires grid.Valid()
    requires forall a, b :: grid.Value(a, b) == board(a, b)
    ensures grid.Valid()
    ensures infections == Bursts(board, Start, bursts).1.infections
    ensures forall a, b :: grid.Value(a, b) == Bursts(board, Start, bursts).0(a, b)
  {
    var c := Start;
    for k := 0 to bursts
      invariant grid.Valid()
      invariant c == Bursts(board, Start, k).1
      invariant forall a, b :: grid.Value(a, b) == Bursts(board, Start, k).0(a, b)
    {
      c := BurstOn(grid, c, Bursts(board, Start, k).0);
    }
    infections := c.infections;
  }

  /** The body of `part1`'s loop: one burst on the grid. */
  method BurstOn(grid: Grid<bool>, c: Carrier, ghost board: (int, int) -> bool) returns (next: Carrier)
    modifies grid, grid.matrix
    requires grid.Valid()
    requires forall a, b :: grid.Value(a, b) == board(a, b)
    ensures grid.Valid()
    ensures next == Burst(board, c).1
    ensures forall a, b :: grid.Value(a, b) == Burst(board, c).0(a, b)
  {
    var value := grid.Get(c.pos.0, c.pos.1);
    grid.Set(c.pos.0, c.pos.1, !value);
    var dir, infections := c.dir, c.infections;
    if value {
      dir := TurnRight(dir);
    } else {
      infections := infections + 1;
      dir := TurnLeft(dir);
    }
    next := Carrier(Apply(dir, c.pos), dir, infections);
  }

  // ---------------------------------------------------------------------
  // Part 2: nodes go Clean, Weak, Infected, Flagged, and back to Clean.

  datatype NodeState = Clean | Weak | Infected | Flagged

  /** The state a node takes when the carrier leaves it. */
  function Evolve(s: NodeState): NodeState
  {
    match s
    case Clean => Weak
    case Weak => Infected
    case Infected => Flagged
    case Flagged => Clean
  }

  /** Where the carrier turns on a node: left on clean, straight on weak, right on infected, back on flagged. */
  function Steer(s: NodeState, d: Direction): Direction
  {
    match s
    case Clean => TurnLeft(d)
    case Weak => d
    case Infected => TurnRight(d)
    case Flagged => Reverse(d)
  }

  /** The four states form one cycle: four visits leave a node as it was, fewer do not. */
  lemma EvolveCycle(s: NodeState)
    ensures Evolve(Evolve(Evolve(Evolve(s)))) == s
    ensures Evolve(s) != s && Evolve(Evolve(s)) != s && Evolve(Evolve(Evolve(s))) != s
  {
  }

  /** One burst of `part2`: only a weak node becoming infected counts. */
  function Burst2(board: (int, int) -> NodeState, c: Carrier): ((int, int) -> NodeState, Carrier)
  {
    var s := board(c.pos.0, c.pos.1);
    var dir := Steer(s, c.dir);
    (Written(board, c.pos, Evolve(s)),
     Carrier(Apply(dir, c.pos), dir, if s == Weak then c.infections + 1 else c.infections))
  }

  function Bursts2(board: (int, int) -> NodeState, c: Carrier, n: nat): ((int, int) -> NodeState, Carrier)
  {
    if n == 0 then (board, c) else var s := Bursts2(board, c, n - 1); Burst2(s.0, s.1)
  }

  /** A burst counts exactly when the node it leaves is infected now. */
  lemma Burst2Counts(board: (int, int) -> NodeState, c: Carrier)
    ensures var s := Burst2(board, c);
      (s.1.infections == c.infections + 1 <==> s.0(c.pos.0, c.pos.1) == Infected) &&
      (s.1.infections == c.infections <==> s.0(c.pos.0, c.pos.1) != Infected)
  {
  }

  /**
   * `part2` with `bursts` bursts (the source runs 10 000 000): the grid ends
   * as the board of the bursts, and the count is the nodes they infected.
   */
  method Part2(grid: Grid<NodeState>, bursts: nat, ghost board: (int, int) -> NodeState) returns (infections: nat)
    modifies grid, grid.matrix
    requires grid.Valid()
    requires forall a, b :: grid.Value(a, b) == board(a, b)
    ensures grid.Valid()
    ensures infections == Bursts2(board, Start, bursts).1.infections
    ensures forall a, b :: grid.Value(a, b) == Bursts2(board, Start, bursts).0(a, b)
  {
    var c := Start;
    for k := 0 to bursts
      invariant grid.Valid()
      invariant c == Bursts2(board, Start, k).1
      invariant forall a, b :: grid.Value(a, b) == Bursts2(board, Start, k).0(a, b)
    {
      c := BurstOn2(grid, c, Bursts2(board, Start, k).0);
    }
    infections := c.infections;
  }

  /** The body of `part2`'s loop: one burst on the grid. */
  method BurstOn2(grid: Grid<NodeState>, c: Carrier, ghost board: (int, int) -> NodeState) returns (next: Carrier)
    modifies grid, grid.matrix
    requires grid.Valid()
    requires forall a, b :: grid.Value(a, b) == board(a, b)
    ensures grid.Valid()
    ensures next == Burst2(board, c).1
    ensures forall a, b :: grid.Value(a, b) == Burst2(board, c).0(a, b)
  {
    var node := grid.Get(c.pos.0, c.pos.1);
    var dir, infections := c.dir, c.infections;
    var state;
    match node {
    case Clean =>
      dir := TurnLeft(dir);
      state := Weak;
    case Weak =>
      infections := infections + 1;
      state := Infected;
    case Infected =>
      dir := TurnRight(dir);
      state := Flagged;
    case Flagged =>
      dir := Reverse(dir);
      state := Clean;
    }
    grid.Set(c.pos.0, c.pos.1, state);
    next := Carrier(Apply(dir, c.pos), dir, infections);
  }
}
