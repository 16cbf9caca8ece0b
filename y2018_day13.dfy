/**
 * 2018 day 13 (y2018/src/bin/day13.rs): carts on a track of corners and
 * intersections, moved tick by tick in reading order until two of them
 * collide.  The `BTreeMap` of carts keyed by position is a sequence of carts
 * kept strictly sorted by position (row first, then column); the `HashSet`
 * of positions is a `set`.
 */
module Y2018Day13 {
  import opened Wrappers

  datatype Direction = Right | Left | Up | Down

  function TurnLeft(d: Direction): Direction
  {
    match d
    case Right => Up
    case Up => Left
    case Left => Down
    case Down => Right
  }

  function TurnRight(d: Direction): Direction
  {
    match d
    case Right => Down
    case Up => Right
    case Left => Up
    case Down => Left
  }

  /** The two turns undo each other, and four of either face the same way again. */
  lemma TurnsInverse(d: Direction)
    ensures TurnLeft(TurnRight(d)) == d && TurnRight(TurnLeft(d)) == d
    ensures TurnLeft(TurnLeft(TurnLeft(TurnLeft(d)))) == d
    ensures TurnRight(TurnRight(TurnRight(TurnRight(d)))) == d
    ensures TurnLeft(d) != d && TurnRight(d) != d && TurnLeft(d) != TurnRight(d)
  {
  }

  /** `Corner`: the outgoing direction for each incoming one. */
  datatype Corner = Corner(up: Direction, down: Direction, left: Direction, right: Direction)

  function Index(c: Corner, d: Direction): Direction
  {
    match d
    case Left => c.left
    case Down => c.down
    case Right => c.right
    case Up => c.up
  }

  /** The corner a '\\' makes. */
  const Backslash: Corner := Corner(Left, Right, Up, Down)

  /** The corner a '/' makes. */
  const Slash: Corner := Corner(Right, Left, Down, Up)

  /**
   * Both corners turn every incoming direction a quarter turn: '\\' turns
   * left when moving up or down and right when moving left or right, '/'
   * the other way round.  Passing the same corner twice is going back the
   * way one came.
   */
  lemma CornerTables(d: Direction)
    ensures Index(Backslash, d) == if d == Up || d == Down then TurnLeft(d) else TurnRight(d)
    ensures Index(Slash, d) == if d == Up || d == Down then TurnRight(d) else TurnLeft(d)
    ensures Index(Backslash, Index(Backslash, d)) == d && Index(Slash, Index(Slash, d)) == d
  {
  }

  /** `CartPosition`, compared row first (the source puts `y` before `x` for that). */
  datatype Pos = Pos(y: nat, x: nat)

  predicate Less(p: Pos, q: Pos)
  {
    p.y < q.y || (p.y == q.y && p.x < q.x)
  }

  /** The `State` apart from its carts: the corners and the intersections. */
  datatype Track = Track(corners: map<Pos, Corner>, intersections: set<Pos>)

  /** A cart as a value: where it is, where it faces, and its intersection counter. */
  datatype CartValue = CartValue(position: Pos, facing: Direction, turn: nat)

  /**
   * The intersection rule: a counter of 3 is reset to 0, then 0 turns left,
   * 1 goes straight and 2 turns right, and the counter goes up by one.  A
   * counter above 3 is the source's panic, None here.
   */
  function AtIntersection(facing: Direction, turn: nat): Option<(Direction, nat)>
  {
    var t := if turn == 3 then 0 else turn;
    if t == 0 then Some((TurnLeft(facing), 1))
    else if t == 1 then Some((facing, 2))
    else if t == 2 then Some((TurnRight(facing), 3))
    else None
  }

  /** The cell one step on; None when `usize` would go below zero (a panic). */
  function Forward(p: Pos, d: Direction): Option<Pos>
  {
    match d
    case Down => Some(Pos(p.y + 1, p.x))
    case Up => if p.y == 0 then None else Some(Pos(p.y - 1, p.x))
    case Left => if p.x == 0 then None else Some(Pos(p.y, p.x - 1))
    case Right => Some(Pos(p.y, p.x + 1))
  }

  /** `Cart::next` on values: take the corner, then the intersection, then one step. */
  function StepCart(track: Track, c: CartValue): Option<CartValue>
  {
    var facing := if c.position in track.corners then Index(track.corners[c.position], c.facing) else c.facing;
    var turned := if c.position in track.intersections then AtIntersection(facing, c.turn) else Some((facing, c.turn));
    if turned.None? then None
    else
      var next := Forward(c.position, turned.value.0);
      if next.None? then None else Some(CartValue(next.value, turned.value.0, turned.value.1))
  }

  /** The counter after an intersection. */
  function NextCounter(turn: nat): nat
  {
    (if turn == 3 then 0 else turn) + 1
  }

  /** The counter of a cart that has passed k intersections. */
  function CounterAfter(k: nat): nat
  {
    if k == 0 then 0 else NextCounter(CounterAfter(k - 1))
  }

  /**
   * At intersections a cart turns left, goes straight, turns right, and then
   * starts over: the k-th intersection (counting from 0) turns it by the
   * rule k % 3, and the counter never leaves 0 ..= 3.
   */
  lemma {:induction false} IntersectionCycle(k: nat, d: Direction)
    ensures CounterAfter(k) <= 3 && (k > 0 ==> CounterAfter(k) == (k - 1) % 3 + 1)
    ensures AtIntersection(d, CounterAfter(k)).Some? && AtIntersection(d, CounterAfter(k)).value.1 == CounterAfter(k + 1)
    ensures AtIntersection(d, CounterAfter(k)).value.0 ==
      if k % 3 == 0 then TurnLeft(d) else if k % 3 == 1 then d else TurnRight(d)
  {
    if k > 0 {
      IntersectionCycle(k - 1, d);
    }
  }

  /** Neighbouring cells: one coordinate the same, the other one apart. */
  predicate Adjacent(p: Pos, q: Pos)
  {
    (p.x == q.x && (p.y == q.y + 1 || q.y == p.y + 1)) || (p.y == q.y && (p.x == q.x + 1 || q.x == p.x + 1))
  }

  /**
   * `Cart::next` moves exactly one cell, in the direction the cart faces
   * afterwards, and keeps its counter within 0 ..= 3.
   */
  lemma StepMovesOneCell(track: Track, c: CartValue)
    requires c.turn <= 3
    ensures StepCart(track, c).Some? ==> var n := StepCart(track, c).value;
      Adjacent(c.position, n.position) && Forward(c.position, n.facing) == Some(n.position) && n.turn <= 3
    ensures StepCart(track, c).None? ==> c.position.y == 0 || c.position.x == 0
  {
  }

  /** `Cart`: the cart the tick loops take out of the map and move. */
  class Cart {
    var position: Pos
    var facing: Direction
    var turn: nat

    function Value(): CartValue
      reads this
    {
      CartValue(position, facing, turn)
    }

    constructor (v: CartValue)
      ensures Value() == v
    {
      position, facing, turn := v.position, v.facing, v.turn;
    }

    /** `next`: false where the source panics. */
    method Next(track: Track) returns (ok: bool)
      modifies this
      ensures ok == StepCart(track, old(Value())).Some?
      ensures ok ==> Value() == StepCart(track, old(Value())).value
    {
      if position in track.corners {
        facing := Index(track.corners[position], facing);
      }
      if position in track.intersections {
        var t := if turn == 3 then 0 else turn;
        if t == 0 {
          facing := TurnLeft(facing);
        } else if t == 2 {
          facing := TurnRight(facing);
        } else if t != 1 {
          return false;
        }
        turn := t + 1;
      }
      match facing {
        case Down =>
          position := Pos(position.y + 1, position.x);
        case Up =>
          if position.y == 0 {
              return false;
          }
          position := Pos(position.y - 1, position.x);
        case Left =>
          if position.x == 0 {
              return false;
          }
          position := Pos(position.y, position.x - 1);
        case Right =>
          position := Pos(position.y, position.x + 1);
      }
      ok := true;
    }
  }

  // ---------------------------------------------------------------------
  // The map of carts: a sequence sorted by position.

  function Keys(s: seq<CartValue>): set<Pos>
  {
    if s == [] then {} else {s[0].position} + Keys(s[1..])
  }

  predicate Sorted(s: seq<CartValue>)
  {
    forall i, j :: 0 <= i < j < |s| ==> Less(s[i].position, s[j].position)
  }

  lemma KeysOf(s: seq<CartValue>, p: Pos)
    ensures p in Keys(s) <==> exists i :: 0 <= i < |s| && s[i].position == p
  {
    if s != [] {
      KeysOf(s[1..], p);
      if p in Keys(s[1..]) {
        var i :| 0 <= i < |s[1..]| && s[1..][i].position == p;
        assert s[i + 1].position == p;
      }
      if exists i :: 0 <= i < |s| && s[i].position == p {
        var i :| 0 <= i < |s| && s[i].position == p;
        if i > 0 {
          assert s[1..][i - 1].position == p;
        }
      }
    }
  }

  /** Sorted positions are distinct, so there are as many keys as carts. */
  lemma {:induction false} SortedKeys(s: seq<CartValue>)
    requires Sorted(s)
    ensures |Keys(s)| == |s|
  {
    if s != [] {
      SortedKeys(s[1..]);
      KeysOf(s[1..], s[0].position);
    }
  }

  /** `BTreeMap::insert`: the cart goes to its place, replacing one at the same position. */
  function Insert(s: seq<CartValue>, c: CartValue): seq<CartValue>
  {
    if s == [] then [c]
    else if Less(c.position, s[0].position) then [c] + s
    else if c.position == s[0].position then [c] + s[1..]
    else [s[0]] + Insert(s[1..], c)
  }

  /** `BTreeMap::remove`. */
  function Remove(s: seq<CartValue>, p: Pos): seq<CartValue>
  {
    if s == [] then []
    else if s[0].position == p then Remove(s[1..], p)
    else [s[0]] + Remove(s[1..], p)
  }

  /** Inserting adds the key, puts the cart in, and brings in nothing else. */
  lemma {:induction false} InsertKeys(s: seq<CartValue>, c: CartValue)
    ensures Keys(Insert(s, c)) == Keys(s) + {c.position}
    ensures c in Insert(s, c) && forall d :: d in Insert(s, c) ==> d in s || d == c
  {
    if s != [] {
      var r := Insert(s, c);
      assert r[1..] == if Less(c.position, s[0].position) then s else if c.position == s[0].position then s[1..] else Insert(s[1..], c);
      if !Less(c.position, s[0].position) && c.position != s[0].position {
        InsertKeys(s[1..], c);
      }
    }
  }

  /** Inserting keeps the map sorted and grows it by one exactly when the key is new. */
  lemma {:induction false} InsertSorted(s: seq<CartValue>, c: CartValue)
    requires Sorted(s)
    ensures Sorted(Insert(s, c))
    ensures |Insert(s, c)| == if c.position in Keys(s) then |s| else |s| + 1
  {
    if s != [] {
      KeysOf(s[1..], c.position);
      if Less(c.position, s[0].position) {
        KeysOf(s, c.position);
        ConsSorted(c, s);
      } else if c.position != s[0].position {
        InsertSorted(s[1..], c);
        InsertKeys(s[1..], c);
        var t := Insert(s[1..], c);
        assert forall j :: 0 <= j < |t| ==> Less(s[0].position, t[j].position) by {
          forall j | 0 <= j < |t|
            ensures Less(s[0].position, t[j].position)
          {
            KeysOf(t, t[j].position);
            KeysOf(s[1..], t[j].position);
          }
        }
        ConsSorted(s[0], t);
      }
    }
  }

  /** A cart before every cart of a sorted map can go in front of it. */
  lemma ConsSorted(c: CartValue, t: seq<CartValue>)
    requires Sorted(t) && (|t| > 0 ==> Less(c.position, t[0].position))
    ensures Sorted([c] + t)
  {
    var r := [c] + t;
    forall i, j | 0 <= i < j < |r|
      ensures Less(r[i].position, r[j].position)
    {
      if i == 0 && j > 1 {
        assert Less(t[0].position, t[j - 1].position);
      }
    }
  }

  lemma InsertSpec(s: seq<CartValue>, c: CartValue)
    requires Sorted(s)
    ensures Sorted(Insert(s, c)) && Keys(Insert(s, c)) == Keys(s) + {c.position}
    ensures |Insert(s, c)| == if c.position in Keys(s) then |s| else |s| + 1
    ensures c in Insert(s, c) && forall d :: d in Insert(s, c) ==> d in s || d == c
  {
    InsertKeys(s, c);
    InsertSorted(s, c);
  }

  /** Removing drops the key and brings in nothing. */
  lemma {:induction false} RemoveKeys(s: seq<CartValue>, p: Pos)
    ensures Keys(Remove(s, p)) == Keys(s) - {p}
    ensures forall d :: d in Remove(s, p) ==> d in s
  {
    if s != [] {
      RemoveKeys(s[1..], p);
      if s[0].position != p {
        assert Remove(s, p)[1..] == Remove(s[1..], p);
      }
    }
  }

  /** Removing keeps the map sorted and shrinks it by one exactly when the key was there. */
  lemma {:induction false} RemoveSorted(s: seq<CartValue>, p: Pos)
    requires Sorted(s)
    ensures Sorted(Remove(s, p))
    ensures |Remove(s, p)| == if p in Keys(s) then |s| - 1 else |s|
  {
    if s != [] {
      RemoveSorted(s[1..], p);
      var t := Remove(s[1..], p);
      if s[0].position != p {
        RemoveKeys(s[1..], p);
        if |t| > 0 {
          KeysOf(t, t[0].position);
          KeysOf(s[1..], t[0].position);
        }
        ConsSorted(s[0], t);
      } else {
        KeysOf(s[1..], p);
      }
    }
  }

  lemma RemoveSpec(s: seq<CartValue>, p: Pos)
    requires Sorted(s)
    ensures Sorted(Remove(s, p)) && Keys(Remove(s, p)) == Keys(s) - {p}
    ensures |Remove(s, p)| == if p in Keys(s) then |s| - 1 else |s|
    ensures forall d :: d in Remove(s, p) ==> d in s
  {
    RemoveKeys(s, p);
    RemoveSorted(s, p);
  }

  // ---------------------------------------------------------------------
  // One tick.

  /** What a tick ends in: a collision, the carts after it, or a panic (`next` failing). */
  datatype TickResult = Collided(at: Pos) | Ticked(carts: seq<CartValue>) | Panicked

  /**
   * The `for` loop of `part1` from cart i on: `previous` holds the
   * positions of the carts not yet moved, `next` the carts already moved.
   * A cart moving onto either is the collision.
   */
  function Tick1From(track: Track, carts: seq<CartValue>, i: nat, previous: set<Pos>, next: seq<CartValue>): (r: TickResult)
    ensures r.Panicked? ==> exists j :: i <= j < |carts| && StepCart(track, carts[j]).None?
    decreases |carts| - i
  {
    if i >= |carts| then Ticked(next)
    else
      var start := carts[i].position;
      var moved := StepCart(track, carts[i]);
      if moved.None? then Panicked
      else if moved.value.position in previous || moved.value.position in Keys(next) then Collided(moved.value.position)
      else Tick1From(track, carts, i + 1, previous - {start}, Insert(next, moved.value))
  }

  /** One tick of `part1`; it panics only when some cart runs off the track. */
  function Tick1(track: Track, carts: seq<CartValue>): (r: TickResult)
    ensures r.Panicked? ==> exists j :: 0 <= j < |carts| && StepCart(track, carts[j]).None?
  {
    Tick1From(track, carts, 0, Keys(carts), [])
  }

  /** Every intersection counter is within 0 ..= 3, as the source's counters always are. */
  predicate Counters(s: seq<CartValue>)
  {
    forall c :: c in s ==> c.turn <= 3
  }

  /** Every position in `previous` is the start of a cart from i on. */
  predicate Waiting(carts: seq<CartValue>, i: nat, previous: set<Pos>)
  {
    forall p :: p in previous ==> exists j :: i <= j < |carts| && carts[j].position == p
  }

  lemma WaitingFirst(carts: seq<CartValue>)
    ensures Waiting(carts, 0, Keys(carts))
  {
    forall p | p in Keys(carts)
      ensures exists j :: 0 <= j < |carts| && carts[j].position == p
    {
      KeysOf(carts, p);
    }
  }

  /** Past cart i, what is left of `previous` without cart i's start still waits. */
  lemma WaitingNext(carts: seq<CartValue>, i: nat, previous: set<Pos>, rest: set<Pos>)
    requires i < |carts| && Waiting(carts, i, previous) && rest <= previous - {carts[i].position}
    ensures Waiting(carts, i + 1, rest)
  {
    forall q | q in rest
      ensures exists j :: i + 1 <= j < |carts| && carts[j].position == q
    {
      var j :| i <= j < |carts| && carts[j].position == q;
      assert j != i;
    }
  }

  lemma WaitingLast(carts: seq<CartValue>, previous: set<Pos>)
    requires Waiting(carts, |carts|, previous)
    ensures previous == {}
  {
  }

  /** Cart c moves onto p. */
  predicate StepsTo(track: Track, c: CartValue, p: Pos)
  {
    StepCart(track, c).Some? && StepCart(track, c).value.position == p
  }

  /** Every position in `next` is where one of the first i carts moved to. */
  predicate MovedBefore(track: Track, carts: seq<CartValue>, i: nat, next: seq<CartValue>)
  {
    forall p :: p in Keys(next) ==> exists j :: 0 <= j < i && j < |carts| && StepsTo(track, carts[j], p)
  }

  /**
   * Carts i and j meet at p: cart i moves onto p, where cart j either still
   * stands (j comes later in the tick) or has already moved to (j came earlier).
   */
  predicate MeetAt(track: Track, carts: seq<CartValue>, i: nat, j: nat, p: Pos)
  {
    i < |carts| && j < |carts| && i != j && StepsTo(track, carts[i], p) &&
    ((i < j && carts[j].position == p) || (j < i && StepsTo(track, carts[j], p)))
  }

  lemma MovedNext(track: Track, carts: seq<CartValue>, i: nat, next: seq<CartValue>, c: CartValue)
    requires i < |carts| && MovedBefore(track, carts, i, next) && StepCart(track, carts[i]) == Some(c)
    requires Keys(Insert(next, c)) == Keys(next) + {c.position}
    ensures MovedBefore(track, carts, i + 1, Insert(next, c))
  {
    forall q | q in Keys(Insert(next, c))
      ensures exists j :: 0 <= j < i + 1 && j < |carts| && StepsTo(track, carts[j], q)
    {
      if q == c.position {
        assert StepsTo(track, carts[i], q);
      } else {
        var j :| 0 <= j < i && j < |carts| && StepsTo(track, carts[j], q);
      }
    }
  }

  lemma {:induction false} Tick1FromSpec(track: Track, carts: seq<CartValue>, i: nat, previous: set<Pos>, next: seq<CartValue>)
    requires i <= |carts| && Sorted(next) && |next| == i && Counters(carts)
    requires Waiting(carts, i, previous) && MovedBefore(track, carts, i, next)
    ensures var r := Tick1From(track, carts, i, previous, next);
      (r.Ticked? ==> Sorted(r.carts) && |r.carts| == |carts|) &&
      (r.Collided? ==> exists a, b :: MeetAt(track, carts, a, b, r.at))
    decreases |carts| - i
  {
    if i < |carts| {
      var start := carts[i].position;
      var moved := StepCart(track, carts[i]);
      if moved.Some? {
        var p := moved.value.position;
        assert carts[i] in carts;
        StepMovesOneCell(track, carts[i]);
        if p in previous {
          var j :| i <= j < |carts| && carts[j].position == p;
          assert MeetAt(track, carts, i, j, p);
        } else if p in Keys(next) {
          var j :| 0 <= j < i && j < |carts| && StepsTo(track, carts[j], p);
          assert MeetAt(track, carts, i, j, p);
        } else {
          InsertSpec(next, moved.value);
          WaitingNext(carts, i, previous, previous - {start});
          MovedNext(track, carts, i, next, moved.value);
          Tick1FromSpec(track, carts, i + 1, previous - {start}, Insert(next, moved.value));
        }
      }
    }
  }

  /**
   * A tick of `part1` loses no cart unless two meet: without a collision
   * every cart is still there, sorted, and a collision is two carts meeting.
   */
  lemma Tick1Spec(track: Track, carts: seq<CartValue>)
    requires Counters(carts)
    ensures Tick1(track, carts).Ticked? ==> Sorted(Tick1(track, carts).carts) && |Tick1(track, carts).carts| == |carts|
    ensures Tick1(track, carts).Collided? ==> exists a, b :: MeetAt(track, carts, a, b, Tick1(track, carts).at)
  {
    WaitingFirst(carts);
    Tick1FromSpec(track, carts, 0, Keys(carts), []);
  }

  /** One tick of `part1`: the carts in order, each taken out of the map and moved. */
  method RunTick1(track: Track, carts: seq<CartValue>) returns (r: TickResult)
    ensures r == Tick1(track, carts)
  {
    var previous := Keys(carts);
    var next: seq<CartValue> := [];
    for i := 0 to |carts|
      invariant Tick1From(track, carts, i, previous, next) == Tick1(track, carts)
    {
      var start := carts[i].position;
      var cart := new Cart(carts[i]);
      var ok := cart.Next(track);
      if !ok {
        return Panicked;
      }
      var pos := cart.position;
      if pos in previous || pos in Keys(next) {
        return Collided(pos);
      }
      previous := previous - {start};
      next := Insert(next, cart.Value());
    }
    r := Ticked(next);
  }

  /** What a run of ticks ends in; Unfinished when the ticks ran out. */
  datatype Outcome = Found(at: Pos) | Panic | Unfinished

  /** `part1` with at most `ticks` ticks: the first collision. */
  function Part1Spec(track: Track, carts: seq<CartValue>, ticks: nat): Outcome
    decreases ticks
  {
    if ticks == 0 then Unfinished
    else match Tick1(track, carts)
      case Collided(p) => Found(p)
      case Panicked => Panic
      case Ticked(next) => Part1Spec(track, next, ticks - 1)
  }

  /**
   * `part1`, which loops until a collision, here for at most `ticks` ticks
   * (the source's loop has no bound).
   */
  method Part1(track: Track, carts: seq<CartValue>, ticks: nat) returns (o: Outcome)
    ensures o == Part1Spec(track, carts, ticks)
  {
    var current := carts;
    for t := 0 to ticks
      invariant Part1Spec(track, current, ticks - t) == Part1Spec(track, carts, ticks)
    {
      var r := RunTick1(track, current);
      match r {
        case Collided(p) => return Found(p);
        case Panicked => return Panic;
        case Ticked(next) => current := next;
      }
    }
    o := Unfinished;
  }

  // ---------------------------------------------------------------------
  // Part 2: colliding carts are removed.

  /**
   * One cart of the `for` loop of `part2`: the new `previous` and `next`,
   * None on a panic.  A cart whose start is no longer in `previous` was
   * removed and is skipped; on a collision both carts go (from `previous`
   * or from `next`).  As written, the crashing cart's own start stays in
   * `previous`; `vacate` says whether it is taken out too.
   */
  function Tick2Step(track: Track, carts: seq<CartValue>, i: nat, previous: set<Pos>, next: seq<CartValue>, vacate: bool)
    : Option<(set<Pos>, seq<CartValue>)>
    requires i < |carts|
  {
    var start := carts[i].position;
    if start !in previous then Some((previous, next))
    else
      var moved := StepCart(track, carts[i]);
      if moved.None? then None
      else
        var p := moved.value.position;
        if p in previous || p in Keys(next) then
          Some((if vacate then previous - {p, start} else previous - {p}, Remove(next, p)))
        else Some((previous - {start}, Insert(next, moved.value)))
  }

  /** The loop of `part2` from cart i on. */
  function Tick2From(track: Track, carts: seq<CartValue>, i: nat, previous: set<Pos>, next: seq<CartValue>, vacate: bool)
    : (r: TickResult)
    ensures r.Panicked? ==> exists j :: i <= j < |carts| && StepCart(track, carts[j]).None?
    decreases |carts| - i
  {
    if i >= |carts| then Ticked(next)
    else
      var s := Tick2Step(track, carts, i, previous, next, vacate);
      if s.None? then Panicked else Tick2From(track, carts, i + 1, s.value.0, s.value.1, vacate)
  }

  /** One tick of `part2` as written; it panics only when some cart runs off the track. */
  function Tick2AsWritten(track: Track, carts: seq<CartValue>): (r: TickResult)
    ensures r.Panicked? ==> exists j :: 0 <= j < |carts| && StepCart(track, carts[j]).None?
  {
    Tick2From(track, carts, 0, Keys(carts), [], false)
  }

  /**
   * One tick of `part2` as evidently intended: a crashing cart also leaves
   * its start, so `previous` always holds exactly the carts still waiting
   * to move.
   */
  function Tick2(track: Track, carts: seq<CartValue>): (r: TickResult)
    ensures r.Panicked? ==> exists j :: 0 <= j < |carts| && StepCart(track, carts[j]).None?
  {
    Tick2From(track, carts, 0, Keys(carts), [], true)
  }

  /** The carts of the counterexample: A on an intersection at (0, 0), B beside it, C below it. */
  const CartA: CartValue := CartValue(Pos(0, 0), Left, 0)
  const CartB: CartValue := CartValue(Pos(0, 1), Left, 0)
  const CartC: CartValue := CartValue(Pos(1, 0), Up, 0)
  const Crossing: Track := Track(map[], {Pos(0, 0)})

  lemma CounterexampleMoves()
    ensures Sorted([CartA, CartB, CartC]) && Keys([CartA, CartB, CartC]) == {Pos(0, 0), Pos(0, 1), Pos(1, 0)}
    ensures StepCart(Crossing, CartA) == Some(CartValue(Pos(1, 0), Down, 1))
    ensures StepCart(Crossing, CartB) == Some(CartValue(Pos(0, 0), Left, 0))
  {
    var s := [CartA, CartB, CartC];
    assert s[1..] == [CartB, CartC] && s[1..][1..] == [CartC] && s[1..][1..][1..] == [];
    assert Keys([CartC]) == {Pos(1, 0)};
    assert Keys([CartB, CartC]) == {Pos(0, 1), Pos(1, 0)};
  }

  /**
   * A leaves (0, 0) by turning left at the intersection and crashes into
   * C below it; B then moves left into the square A left, finds A's start
   * still in `previous`, and is removed too: three carts go in one tick and
   * the map ends empty, so `part2`'s loop never finds a last cart.
   */
  lemma PhantomCollision()
    ensures Tick2AsWritten(Crossing, [CartA, CartB, CartC]) == Ticked([])
  {
    var carts := [CartA, CartB, CartC];
    CounterexampleMoves();
    var all := {Pos(0, 0), Pos(0, 1), Pos(1, 0)};
    assert Remove([], Pos(1, 0)) == [] && Remove([], Pos(0, 0)) == [];
    assert Tick2From(Crossing, carts, 2, {Pos(0, 1)}, [], false) == Ticked([]);
    assert {Pos(0, 0), Pos(0, 1)} - {Pos(0, 0)} == {Pos(0, 1)};
    assert Tick2From(Crossing, carts, 1, {Pos(0, 0), Pos(0, 1)}, [], false) == Ticked([]);
    assert all - {Pos(1, 0)} == {Pos(0, 0), Pos(0, 1)};
    assert Tick2From(Crossing, carts, 0, all, [], false) == Ticked([]);
  }

  /** Moving cart i with the corrected rule keeps |previous| + |next| of the same parity. */
  lemma CrashCounts(previous: set<Pos>, next: seq<CartValue>, start: Pos, p: Pos)
    requires Sorted(next) && previous !! Keys(next) && start in previous && p != start
    requires p in previous || p in Keys(next)
    ensures |previous - {p, start}| + |Remove(next, p)| + 2 == |previous| + |next|
  {
    RemoveSpec(next, p);
    if p in previous {
      RemoveTwo(previous, start, p);
    } else {
      assert previous - {p, start} == previous - {start};
    }
  }

  lemma RemoveTwo(s: set<Pos>, a: Pos, b: Pos)
    requires a in s && b in s && a != b
    ensures |s - {a, b}| == |s| - 2
  {
    var t := s - {a};
    assert |t| == |s| - 1;
    assert s - {a, b} == t - {b};
  }

  /**
   * One cart of the corrected loop keeps `next` sorted and disjoint from
   * `previous`, keeps `previous` to the carts still waiting, and takes
   * either nothing or exactly two from |previous| + |next|.
   */
  lemma Tick2StepKeeps(track: Track, carts: seq<CartValue>, i: nat, previous: set<Pos>, next: seq<CartValue>)
    requires i < |carts| && Sorted(next) && Counters(carts) && Counters(next)
    requires Waiting(carts, i, previous) && previous !! Keys(next)
    ensures var s := Tick2Step(track, carts, i, previous, next, true);
      s.Some? ==> (Sorted(s.value.1) && Counters(s.value.1) && Waiting(carts, i + 1, s.value.0) && s.value.0 !! Keys(s.value.1) &&
                   (|s.value.0| + |s.value.1| == |previous| + |next| || |s.value.0| + |s.value.1| + 2 == |previous| + |next|))
  {
    var start := carts[i].position;
    var moved := StepCart(track, carts[i]);
    if start !in previous {
      WaitingNext(carts, i, previous, previous);
    } else if moved.Some? {
      var p := moved.value.position;
      assert carts[i] in carts;
      StepMovesOneCell(track, carts[i]);
      if p in previous || p in Keys(next) {
        CrashCounts(previous, next, start, p);
        RemoveSpec(next, p);
        WaitingNext(carts, i, previous, previous - {p, start});
      } else {
        InsertSpec(next, moved.value);
        WaitingNext(carts, i, previous, previous - {start});
      }
    }
  }

  lemma {:induction false} Tick2FromPairs(track: Track, carts: seq<CartValue>, i: nat, previous: set<Pos>, next: seq<CartValue>)
    requires i <= |carts| && Sorted(next) && Counters(carts) && Counters(next)
    requires Waiting(carts, i, previous) && previous !! Keys(next)
    ensures var r := Tick2From(track, carts, i, previous, next, true);
      r.Ticked? ==> (Sorted(r.carts) && Counters(r.carts) && |r.carts| <= |previous| + |next| &&
                     IsEven(|previous| + |next| - |r.carts|))
    decreases |carts| - i
  {
    if i == |carts| {
      WaitingLast(carts, previous);
    } else {
      var s := Tick2Step(track, carts, i, previous, next, true);
      if s.Some? {
        Tick2StepKeeps(track, carts, i, previous, next);
        Tick2FromPairs(track, carts, i + 1, s.value.0, s.value.1);
      }
    }
  }

  function IsEven(n: nat): bool
  {
    if n == 0 then true else if n == 1 then false else IsEven(n - 2)
  }

  lemma {:induction false} IsEvenMod(n: nat)
    ensures IsEven(n) <==> n % 2 == 0
  {
    if n >= 2 {
      IsEvenMod(n - 2);
    }
  }

  /**
   * With the correction, colliding carts leave in pairs: a tick keeps the
   * map sorted, never adds carts, and removes an even number of them.
   */
  lemma Tick2RemovesPairs(track: Track, carts: seq<CartValue>)
    requires Sorted(carts) && Counters(carts)
    ensures Tick2(track, carts).Ticked? ==> var n := Tick2(track, carts).carts;
      Sorted(n) && |n| <= |carts| && (|carts| - |n|) % 2 == 0 && Counters(n)
  {
    WaitingFirst(carts);
    SortedKeys(carts);
    Tick2FromPairs(track, carts, 0, Keys(carts), []);
    if Tick2(track, carts).Ticked? {
      IsEvenMod(|carts| - |Tick2(track, carts).carts|);
    }
  }

  /** On the carts of the counterexample, the corrected tick leaves B alone, moved to (0, 0). */
  lemma Tick2LeavesLastCart()
    ensures Tick2(Crossing, [CartA, CartB, CartC]) == Ticked([CartValue(Pos(0, 0), Left, 0)])
  {
    var carts := [CartA, CartB, CartC];
    CounterexampleMoves();
    var all := {Pos(0, 0), Pos(0, 1), Pos(1, 0)};
    var b := CartValue(Pos(0, 0), Left, 0);
    assert Keys([b]) == {Pos(0, 0)} && Insert([], b) == [b] && Remove([], Pos(1, 0)) == [];
    assert Tick2From(Crossing, carts, 2, {}, [b], true) == Ticked([b]);
    assert {Pos(0, 1)} - {Pos(0, 1)} == {};
    assert Tick2From(Crossing, carts, 1, {Pos(0, 1)}, [], true) == Ticked([b]);
    assert all - {Pos(1, 0), Pos(0, 0)} == {Pos(0, 1)};
    assert Tick2From(Crossing, carts, 0, all, [], true) == Ticked([b]);
  }

  /** One tick of `part2`, with the correction. */
  method RunTick2(track: Track, carts: seq<CartValue>) returns (r: TickResult)
    ensures r == Tick2(track, carts)
  {
    var previous := Keys(carts);
    var next: seq<CartValue> := [];
    for i := 0 to |carts|
      invariant Tick2From(track, carts, i, previous, next, true) == Tick2(track, carts)
    {
      var start := carts[i].position;
      if start !in previous {
        continue;
      }
      var cart := new Cart(carts[i]);
      var ok := cart.Next(track);
      if !ok {
        return Panicked;
      }
      var pos := cart.position;
      if pos in previous || pos in Keys(next) {
        previous := previous - {pos, start};
        next := Remove(next, pos);
        continue;
      }
      previous := previous - {start};
      next := Insert(next, cart.Value());
    }
    r := Ticked(next);
  }

  /** `part2` with at most `ticks` ticks: the position of the last cart once only one is left. */
  function Part2Spec(track: Track, carts: seq<CartValue>, ticks: nat): Outcome
    decreases ticks
  {
    if ticks == 0 then Unfinished
    else match Tick2(track, carts)
      case Collided(p) => Panic
      case Panicked => Panic
      case Ticked(next) => if |next| == 1 then Found(next[0].position) else Part2Spec(track, next, ticks - 1)
  }

  /** The state after t corrected ticks, stopping at the first tick that does not end in `Ticked`. */
  function Ticks2(track: Track, carts: seq<CartValue>, t: nat): TickResult
  {
    if t == 0 then Ticked(carts)
    else match Ticks2(track, carts, t - 1)
      case Ticked(n) => Tick2(track, n)
      case Collided(p) => Collided(p)
      case Panicked => Panicked
  }

  /**
   * With the corrected tick an odd number of carts stays odd, so the map
   * never runs empty and `part2` can only end at a single cart.
   */
  lemma {:induction false} Ticks2StayOdd(track: Track, carts: seq<CartValue>, t: nat)
    requires Sorted(carts) && |carts| % 2 == 1 && Counters(carts)
    ensures Ticks2(track, carts, t).Ticked? ==> var n := Ticks2(track, carts, t).carts;
      Sorted(n) && |n| % 2 == 1 && |n| <= |carts| && Counters(n)
  {
    if t > 0 {
      Ticks2StayOdd(track, carts, t - 1);
      var r := Ticks2(track, carts, t - 1);
      if r.Ticked? {
        Tick2RemovesPairs(track, r.carts);
      }
    }
  }

  /**
   * `part2`, which loops until one cart is left, here for at most `ticks`
   * ticks, with the corrected tick.
   */
  method Part2(track: Track, carts: seq<CartValue>, ticks: nat) returns (o: Outcome)
    ensures o == Part2Spec(track, carts, ticks)
  {
    var current := carts;
    for t := 0 to ticks
      invariant Part2Spec(track, current, ticks - t) == Part2Spec(track, carts, ticks)
    {
      var r := RunTick2(track, current);
      match r {
        case Collided(p) => return Panic;
        case Panicked => return Panic;
        case Ticked(next) =>
          if |next| == 1 {
            return Found(next[0].position);
          }
          current := next;
      }
    }
    o := Unfinished;
  }
}
