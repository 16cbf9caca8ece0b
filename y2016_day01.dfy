/**
 * 2016 day 1 (src/bin/y2016/day01.rs): walking a city grid by turns and
 * blocks.  The input has already been split at ", " into one token per
 * instruction; the splitting itself is not modelled.
 */
module Y2016Day01 {
  import opened Wrappers
  import Lib

  datatype Direction = North | South | West | East

  function TurnLeft(d: Direction): Direction
  {
    match d
    case West => South
    case South => East
    case East => North
    case North => West
  }

  function TurnRight(d: Direction): Direction
  {
    match d
    case West => North
    case North => East
    case East => South
    case South => West
  }

  /** The two turns undo each other, and four of either face the same way again. */
  lemma TurnsInverse(d: Direction)
    ensures TurnLeft(TurnRight(d)) == d && TurnRight(TurnLeft(d)) == d
    ensures TurnRight(TurnRight(TurnRight(TurnRight(d)))) == d
    ensures TurnLeft(TurnLeft(TurnLeft(TurnLeft(d)))) == d
    ensures TurnRight(d) != d && TurnLeft(d) != TurnRight(d)
  {
  }

  /** One instruction: turn (right or left), then walk n blocks. */
  datatype Step = Step(right: bool, n: nat)

  /**
   * One token: 'R' turns right and any other first byte left; the number is
   * `consume_number` on the rest.  An empty token (a failed index) and a
   * token without digits (`expect`) are panics, None here.
   */
  function ParseStep(tok: seq<bv8>): (r: Option<Step>)
    ensures r.Some? ==> |tok| >= 1 && r.value.right == (tok[0] == 0x52)
    ensures r.Some? ==> Lib.LeadingNumber(tok[1..]) == Some(r.value.n)
  {
    if |tok| == 0 then None
    else match Lib.LeadingNumber(tok[1..])
      case None => None
      case Some(n) => Some(Step(tok[0] == 0x52, n))
  }

  function ParseSteps(toks: seq<seq<bv8>>): (r: Option<seq<Step>>)
    ensures r.Some? <==> forall i :: 0 <= i < |toks| ==> ParseStep(toks[i]).Some?
    ensures r.Some? ==> |r.value| == |toks| && forall i :: 0 <= i < |toks| ==> ParseStep(toks[i]) == Some(r.value[i])
  {
    if toks == [] then Some([])
    else
      var h := ParseStep(toks[0]);
      var t := ParseSteps(toks[1..]);
      assert forall i :: 1 <= i < |toks| ==> toks[1..][i - 1] == toks[i];
      if h.Some? && t.Some? then Some([h.value] + t.value)
      else None
  }

  /** "R2" reads as a right turn and two blocks. */
  lemma ParseStepExample()
    ensures ParseStep([0x52, 0x32]) == Some(Step(true, 2))
  {
    assert [0x52, 0x32][1..] == Lib.Numeral(2) + [];
    Lib.LeadingNumberOfNumeral(2, []);
  }

  datatype Pos = Pos(x: int, y: int)

  /** n blocks from p heading d: North adds to y, East to x. */
  function Moved(p: Pos, n: nat, d: Direction): Pos
  {
    match d
    case North => Pos(p.x, p.y + n)
    case South => Pos(p.x, p.y - n)
    case East => Pos(p.x + n, p.y)
    case West => Pos(p.x - n, p.y)
  }

  function Abs(a: int): nat { if a < 0 then -a else a }

  /** `x.abs() + y.abs()`: how far p is from the start. */
  function Distance(p: Pos): nat { Abs(p.x) + Abs(p.y) }

  /** `Position`: the walker's place, which `go` moves. */
  class Position {
    var x: int
    var y: int

    constructor ()
      ensures x == 0 && y == 0
    {
      x, y := 0, 0;
    }

    function At(): Pos
      reads this
    {
      Pos(x, y)
    }

    /** `go`: exactly one coordinate changes, by n. */
    method Go(n: nat, dir: Direction)
      modifies this
      ensures At() == Moved(old(At()), n, dir)
    {
      match dir
      case North => y := y + n;
      case South => y := y - n;
      case East => x := x + n;
      case West => x := x - n;
    }
  }

  /** Moving changes one coordinate by n and the distance by at most n. */
  lemma MovedOneAxis(p: Pos, n: nat, d: Direction)
    ensures var q := Moved(p, n, d);
      (q.x == p.x && Abs(q.y - p.y) == n) || (q.y == p.y && Abs(q.x - p.x) == n)
    ensures Distance(Moved(p, n, d)) <= Distance(p) + n
  {
  }

  function Turned(d: Direction, right: bool): Direction
  {
    if right then TurnRight(d) else TurnLeft(d)
  }

  datatype Walker = Walker(dir: Direction, pos: Pos)

  /** One instruction: turn, then walk. */
  function Advance(w: Walker, st: Step): Walker
  {
    var d := Turned(w.dir, st.right);
    Walker(d, Moved(w.pos, st.n, d))
  }

  /** Where the instructions leave the walker, starting north at the origin. */
  function Run(steps: seq<Step>): Walker
  {
    if steps == [] then Walker(North, Pos(0, 0))
    else Advance(Run(steps[..|steps| - 1]), steps[|steps| - 1])
  }

  lemma RunSnoc(steps: seq<Step>, st: Step)
    ensures Run(steps + [st]) == Advance(Run(steps), st)
  {
    assert (steps + [st])[..|steps|] == steps;
  }

  function Blocks(steps: seq<Step>): nat
  {
    if steps == [] then 0 else Blocks(steps[..|steps| - 1]) + steps[|steps| - 1].n
  }

  /** The walker ends no further from the start than the blocks it walked. */
  lemma {:induction false} RunWithinBlocks(steps: seq<Step>)
    ensures Distance(Run(steps).pos) <= Blocks(steps)
  {
    if steps != [] {
      var w := Run(steps[..|steps| - 1]);
      var st := steps[|steps| - 1];
      RunWithinBlocks(steps[..|steps| - 1]);
      MovedOneAxis(w.pos, st.n, Turned(w.dir, st.right));
    }
  }

  /** `part1`: the distance of the place the instructions lead to. */
  method Part1(steps: seq<Step>) returns (d: nat)
    ensures d == Distance(Run(steps).pos)
  {
    var dir := North;
    var pos := new Position();
    for k := 0 to |steps|
      invariant Walker(dir, pos.At()) == Run(steps[..k])
    {
      assert steps[..k + 1][..k] == steps[..k];
      dir := Turned(dir, steps[k].right);
      pos.Go(steps[k].n, dir);
    }
    assert steps[..|steps|] == steps;
    d := Abs(pos.x) + Abs(pos.y);
  }

  lemma Part1Example1()
    ensures Distance(Run([Step(true, 2), Step(false, 3)]).pos) == 5
  {
    RunSnoc([], Step(true, 2));
    RunSnoc([Step(true, 2)], Step(false, 3));
  }

  lemma Part1Example2()
    ensures Distance(Run([Step(true, 2), Step(true, 2), Step(true, 2)]).pos) == 2
  {
    var a := Step(true, 2);
    RunSnoc([], a);
    RunSnoc([a], a);
    RunSnoc([a, a], a);
    assert [a] + [a] == [a, a] && [a, a] + [a] == [a, a, a];
  }

  lemma Part1Example3()
    ensures Distance(Run([Step(true, 5), Step(false, 5), Step(true, 5), Step(true, 3)]).pos) == 12
  {
    var a, b, c := Step(true, 5), Step(false, 5), Step(true, 3);
    var s1, s2, s3 := [a], [a, b], [a, b, a];
    RunSnoc([], a);
    assert Run(s1) == Walker(East, Pos(5, 0));
    RunSnoc(s1, b);
    assert s1 + [b] == s2;
    assert Run(s2) == Walker(North, Pos(5, 5));
    RunSnoc(s2, a);
    assert s2 + [a] == s3;
    assert Run(s3) == Walker(East, Pos(10, 5));
    RunSnoc(s3, c);
    assert s3 + [c] == [a, b, a, c];
  }

  // ---------------------------------------------------------------------
  // Part 2: the first block visited twice.

  /** The blocks passed on a walk of n from p heading d, one by one. */
  function Segment(p: Pos, d: Direction, n: nat): (t: seq<Pos>)
    ensures |t| == n
  {
    seq(n, i requires 0 <= i < n => Moved(p, i + 1, d))
  }

  /** Every block the walk passes, the start first. */
  function Trail(steps: seq<Step>): (t: seq<Pos>)
    ensures |t| >= 1 && t[|t| - 1] == Run(steps).pos
  {
    if steps == [] then [Pos(0, 0)]
    else
      var w := Run(steps[..|steps| - 1]);
      var st := steps[|steps| - 1];
      var d := Turned(w.dir, st.right);
      var t := Trail(steps[..|steps| - 1]) + Segment(w.pos, d, st.n);
      assert st.n > 0 ==> t[|t| - 1] == Moved(w.pos, st.n, d);
      t
  }

  /** The trail of fewer instructions is the start of the trail of more. */
  lemma {:induction false} TrailPrefix(steps: seq<Step>, k: nat)
    requires k <= |steps|
    ensures Trail(steps[..k]) <= Trail(steps)
    decreases |steps| - k
  {
    if k < |steps| {
      TrailPrefix(steps, k + 1);
      assert steps[..k + 1][..k] == steps[..k];
    } else {
      assert steps[..k] == steps;
    }
  }

  /** One more instruction extends the walker and the trail by its segment. */
  lemma TrailStep(steps: seq<Step>, k: nat)
    requires k < |steps|
    ensures var w := Run(steps[..k]);
      var d := Turned(w.dir, steps[k].right);
      Run(steps[..k + 1]) == Walker(d, Moved(w.pos, steps[k].n, d)) &&
      Trail(steps[..k + 1]) == Trail(steps[..k]) + Segment(w.pos, d, steps[k].n)
  {
    assert steps[..k + 1][..k] == steps[..k];
  }

  /** The first index of t whose block was already visited, searching from k on. */
  function FirstRepeatFrom(t: seq<Pos>, k: nat): (r: Option<nat>)
    ensures r.Some? ==> k <= r.value < |t|
    decreases |t| - k
  {
    if k >= |t| then None
    else if t[k] in t[..k] then Some(k)
    else FirstRepeatFrom(t, k + 1)
  }

  function FirstRepeat(t: seq<Pos>): Option<nat>
  {
    FirstRepeatFrom(t, 1)
  }

  predicate Distinct(t: seq<Pos>)
  {
    forall i, j :: 0 <= i < j < |t| ==> t[i] != t[j]
  }

  /** No block repeats among the first k of t. */
  predicate DistinctUpTo(t: seq<Pos>, k: nat)
    requires k <= |t|
  {
    forall i, j :: 0 <= i < j < k ==> t[i] != t[j]
  }

  lemma NotInPrefix(t: seq<Pos>, k: nat)
    requires k < |t| && t[k] !in t[..k]
    ensures forall i :: 0 <= i < k ==> t[i] != t[k]
  {
    forall i | 0 <= i < k
      ensures t[i] != t[k]
    {
      assert t[..k][i] == t[i];
    }
  }

  /** FirstRepeat finds a block seen before, with every block before it new. */
  lemma {:induction false} FirstRepeatMeaning(t: seq<Pos>, k: nat)
    requires 1 <= k <= |t| && DistinctUpTo(t, k)
    ensures FirstRepeatFrom(t, k).Some? ==> var i := FirstRepeatFrom(t, k).value;
      t[i] in t[..i] && DistinctUpTo(t, i)
    ensures FirstRepeatFrom(t, k).None? ==> DistinctUpTo(t, |t|)
    decreases |t| - k
  {
    if k < |t| && t[k] !in t[..k] {
      NotInPrefix(t, k);
      FirstRepeatMeaning(t, k + 1);
    }
  }

  /** Past a distinct prefix, the search from 1 and the search from k agree. */
  lemma {:induction false} FirstRepeatSkips(t: seq<Pos>, k: nat)
    requires 1 <= k <= |t| && DistinctUpTo(t, k)
    ensures FirstRepeat(t) == FirstRepeatFrom(t, k)
    decreases k
  {
    if k > 1 {
      assert t[k - 1] !in t[..k - 1] by {
        var u := t[..k - 1];
        forall i | 0 <= i < k - 1
          ensures u[i] != t[k - 1]
        {
          assert u[i] == t[i];
        }
      }
      FirstRepeatSkips(t, k - 1);
    }
  }

  /** A distinct prefix of t: the first k blocks of t are all different. */
  lemma DistinctPrefix(s: seq<Pos>, t: seq<Pos>)
    requires s <= t && Distinct(s)
    ensures DistinctUpTo(t, |s|)
  {
    assert forall i :: 0 <= i < |s| ==> s[i] == t[i];
  }

  /** `part2`'s answer on a trail: the distance of its first repeated block, if any. */
  function RepeatDistance(t: seq<Pos>): Option<nat>
  {
    match FirstRepeat(t)
    case None => None
    case Some(i) => Some(Distance(t[i]))
  }

  /**
   * `part2`: walk block by block, remembering every block visited, and
   * stop at the first one seen before.  None is the source's panic when no
   * block is visited twice.
   */
  method Part2(steps: seq<Step>) returns (r: Option<nat>)
    ensures r == RepeatDistance(Trail(steps))
  {
    ghost var t := Trail(steps);
    var dir := North;
    var pos := new Position();
    var visited: set<Pos> := {pos.At()};
    ghost var sofar := [pos.At()];
    for k := 0 to |steps|
      invariant Walker(dir, pos.At()) == Run(steps[..k])
      invariant sofar == Trail(steps[..k])
      invariant visited == (set p | p in sofar) && Distinct(sofar)
    {
      TrailPrefix(steps, k + 1);
      TrailStep(steps, k);
      dir := Turned(dir, steps[k].right);
      var found;
      found, visited, sofar := Walk(pos, dir, steps[k].n, visited, sofar, t);
      if found {
        var d := Abs(pos.x) + Abs(pos.y);
        assert d == Distance(pos.At());
        return Some(d);
      }
    }
    assert steps[..|steps|] == steps;
    NoRepeat(t);
    r := None;
  }

  /**
   * The inner loop of `part2`: n single blocks from the walker's place,
   * stopping on a block already visited.
   */
  method Walk(pos: Position, dir: Direction, n: nat, visited: set<Pos>, ghost sofar: seq<Pos>, ghost t: seq<Pos>)
    returns (found: bool, vis: set<Pos>, ghost out: seq<Pos>)
    modifies pos
    requires visited == (set p | p in sofar) && Distinct(sofar) && |sofar| >= 1
    requires sofar + Segment(pos.At(), dir, n) <= t
    ensures found ==> RepeatDistance(t) == Some(Distance(pos.At()))
    ensures !found ==> pos.At() == Moved(old(pos.At()), n, dir) && out == sofar + Segment(old(pos.At()), dir, n)
    ensures !found ==> vis == (set p | p in out) && Distinct(out)
  {
    ghost var from := pos.At();
    ghost var seg := Segment(from, dir, n);
    vis, out := visited, sofar;
    for i := 0 to n
      invariant pos.At() == Moved(from, i, dir)
      invariant out == sofar + seg[..i]
      invariant vis == (set p | p in out) && Distinct(out)
    {
      pos.Go(1, dir);
      assert pos.At() == seg[i];
      assert out + [seg[i]] == sofar + seg[..i + 1];
      if pos.At() in vis {
        assert (sofar + seg[..i + 1]) <= sofar + seg;
        FoundRepeat(t, out, pos.At());
        return true, vis, out;
      }
      vis := vis + {pos.At()};
      out := out + [seg[i]];
    }
    assert seg[..n] == seg;
    found := false;
  }

  /** The walk stops at the first repeat: the block after a distinct prefix that is already in it. */
  lemma FoundRepeat(t: seq<Pos>, sofar: seq<Pos>, p: Pos)
    requires |sofar| >= 1 && Distinct(sofar) && sofar + [p] <= t && p in sofar
    ensures RepeatDistance(t) == Some(Distance(p))
  {
    var k := |sofar|;
    assert sofar <= t;
    assert t[..k] == sofar;
    DistinctPrefix(sofar, t);
    FirstRepeatSkips(t, k);
    assert t[k] == p;
  }

  lemma NoRepeat(t: seq<Pos>)
    requires Distinct(t) && |t| >= 1
    ensures RepeatDistance(t) == None
  {
    DistinctPrefix(t, t);
    FirstRepeatSkips(t, |t|);
  }

  /** The blocks the walk of the `part2` test passes, side by side of its square. */
  function ExampleBlock(i: nat): Pos
  {
    if i <= 8 then Pos(i, 0)
    else if i <= 12 then Pos(8, 8 - i)
    else if i <= 16 then Pos(20 - i, -4)
    else Pos(4, i - 20)
  }

  function ExampleTrail(): (t: seq<Pos>)
    ensures |t| == 25 && forall i :: 0 <= i < 25 ==> t[i] == ExampleBlock(i)
  {
    seq(25, i requires 0 <= i => ExampleBlock(i))
  }

  lemma ExampleTrailIs(s: seq<Step>)
    requires s == [Step(true, 8), Step(true, 4), Step(true, 4), Step(true, 8)]
    ensures Trail(s) == ExampleTrail()
  {
    assert s[..4] == s;
    assert s[..0] == [];
    TrailStep(s, 0);
    var t1 := [Pos(0, 0)] + Segment(Pos(0, 0), East, 8);
    assert Run(s[..1]) == Walker(East, Pos(8, 0)) && Trail(s[..1]) == t1;
    TrailStep(s, 1);
    var t2 := t1 + Segment(Pos(8, 0), South, 4);
    assert Run(s[..2]) == Walker(South, Pos(8, -4)) && Trail(s[..2]) == t2;
    TrailStep(s, 2);
    var t3 := t2 + Segment(Pos(8, -4), West, 4);
    assert Run(s[..3]) == Walker(West, Pos(4, -4)) && Trail(s[..3]) == t3;
    TrailStep(s, 3);
    assert Trail(s[..4]) == t3 + Segment(Pos(4, -4), North, 8);
    ExampleSegments();
  }

  /** The four segments of the walk, one block after another. */
  lemma ExampleSegments()
    ensures [Pos(0, 0)] + Segment(Pos(0, 0), East, 8) + Segment(Pos(8, 0), South, 4)
      + Segment(Pos(8, -4), West, 4) + Segment(Pos(4, -4), North, 8) == ExampleTrail()
  {
    var t := [Pos(0, 0)] + Segment(Pos(0, 0), East, 8) + Segment(Pos(8, 0), South, 4)
      + Segment(Pos(8, -4), West, 4) + Segment(Pos(4, -4), North, 8);
    var u := ExampleTrail();
    forall k | 0 <= k < 25
      ensures t[k] == u[k]
    {
    }
  }

  /** The test of `part2` (day01.rs:113-116): "R8, R4, R4, R8" first revisits a block 4 away. */
  lemma Part2Example(s: seq<Step>)
    requires s == [Step(true, 8), Step(true, 4), Step(true, 4), Step(true, 8)]
    ensures RepeatDistance(Trail(s)) == Some(4)
  {
    ExampleTrailIs(s);
    var u := ExampleTrail();
    assert DistinctUpTo(u, 20);
    assert u[20] == u[..20][4];
    FirstRepeatSkips(u, 20);
  }
}
