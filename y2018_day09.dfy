/**
 * The marble game of 2018 day 9 (y2018/src/bin/day09.rs).  Marbles sit in
 * a circle kept as a doubly linked list inside an arena; each turn either
 * places the next marble two ahead of the current one or, for multiples of
 * 23, scores it together with the marble seven places back, which is
 * taken out of the circle.
 */
module Y2018Day09 {
  import opened RustInt

  /** `u32`. */
  type Value = x: nat | x < 0x1_0000_0000

  // ---------------------------------------------------------------------
  // The circle as a sequence read clockwise from the current marble.

  /** The circle read clockwise from k places further on (`RotateAt` says where each place comes from). */
  function Rotate<T>(s: seq<T>, k: int): (r: seq<T>)
    requires s != []
    ensures |r| == |s|
  {
    var j := k % |s|;
    s[j..] + s[..j]
  }

  /** Place i of the circle turned by k holds the marble k places on from place i. */
  lemma RotateAt<T>(s: seq<T>, k: int, i: int)
    requires s != [] && 0 <= i < |s|
    ensures Rotate(s, k)[i] == s[(i + k) % |s|]
  {
    RotateIndex(|s|, k, i);
  }

  /** Where index i of a rotation by k comes from. */
  lemma RotateIndex(n: int, k: int, i: int)
    requires n > 0 && 0 <= i < n
    ensures (i + k) % n == if i < n - k % n then i + k % n else i + k % n - n
  {
    var j := k % n;
    assert k == (k / n) * n + j;
    if i < n - j {
      ModShift(i + k, k / n, n);
    } else {
      ModShift(i + k, k / n + 1, n);
    }
  }

  /** Taking away a multiple of n leaves the remainder alone. */
  lemma ModShift(x: int, q: int, n: int)
    requires n > 0 && 0 <= x - q * n < n
    ensures x % n == x - q * n
  {
    EuclideanUnique(x, n, q, x - q * n);
  }

  /** Two rotations are one rotation by the sum. */
  lemma {:induction false} RotateAdd<T>(s: seq<T>, a: int, b: int)
    requires s != []
    ensures Rotate(Rotate(s, a), b) == Rotate(s, a + b)
  {
    var n := |s|;
    forall i | 0 <= i < n
      ensures Rotate(Rotate(s, a), b)[i] == Rotate(s, a + b)[i]
    {
      var j := (i + b) % n;
      RotateAt(Rotate(s, a), b, i);
      RotateAt(s, a, j);
      RotateAt(s, a + b, i);
      ModSumAt(i, a, b, n);
    }
  }

  /** ((i + b) mod n + a) mod n == (i + (a + b)) mod n. */
  lemma ModSumAt(i: int, a: int, b: int, n: int)
    requires n > 0
    ensures ((i + b) % n + a) % n == (i + (a + b)) % n
  {
    ModSum(i + b, a, n);
    assert i + b + a == i + (a + b);
  }

  /** (x mod n + a) mod n == (x + a) mod n. */
  lemma ModSum(x: int, a: int, n: int)
    requires n > 0
    ensures (x % n + a) % n == (x + a) % n
  {
    var q := x / n;
    assert x == q * n + x % n;
    ModShift2(x % n + a, x + a, q, n);
  }

  lemma ModShift2(y: int, z: int, q: int, n: int)
    requires n > 0 && z == y + q * n
    ensures y % n == z % n
  {
    var p := y / n;
    assert y == p * n + y % n;
    assert z == (p + q) * n + y % n;
    EuclideanUnique(z, n, p + q, y % n);
  }

  /** Rotating by a multiple of the length changes nothing. */
  lemma {:induction false} RotateWhole<T>(s: seq<T>, k: int)
    requires s != [] && k % |s| == 0
    ensures Rotate(s, k) == s
  {
    forall i | 0 <= i < |s|
      ensures Rotate(s, k)[i] == s[i]
    {
      assert k == (k / |s|) * |s|;
      ModShift(i + k, k / |s|, |s|);
      RotateAt(s, k, i);
    }
  }

  // ---------------------------------------------------------------------
  // The game on sequences: the specification of `part1`.

  /** The circle, clockwise from the current marble, and every elf's score. */
  datatype Game = Game(circle: seq<Value>, scores: seq<Value>)

  /**
   * Marble m, played by elf (m - 1) mod players.  A multiple of 23 is
   * scored together with the marble 7 places counter-clockwise, which
   * leaves the circle; the marble after it becomes current.  Any other
   * marble goes between the marbles 1 and 2 places clockwise and becomes
   * current.  Scores are `u32` and wrap.
   */
  function Turn(g: Game, players: nat, m: Value): (h: Game)
    requires players >= 1 && m >= 1 && |g.scores| == players && g.circle != []
    requires m % 23 == 0 ==> |g.circle| >= 2
    ensures |h.scores| == players
    ensures |h.circle| == if m % 23 == 0 then |g.circle| - 1 else |g.circle| + 1
  {
    var elf := (m - 1) % players;
    if m % 23 == 0 then
      var back := Rotate(g.circle, -7);
      Game(back[1..], g.scores[elf := WrapU32(WrapU32(g.scores[elf] + m) + back[0])])
    else
      Game([m] + Rotate(g.circle, 2), g.scores)
  }

  /** The two cases of `Turn`, spelled out for the loop of `Part1`. */
  /**
   * A marble that does not score becomes current between the marbles that
   * were 1 and 2 places clockwise of the old current one; nothing else
   * moves and no score changes.
   */
  lemma PlacedTwoAhead(g: Game, players: nat, m: Value)
    requires players >= 1 && m >= 1 && |g.scores| == players && g.circle != [] && m % 23 != 0
    ensures var h, n := Turn(g, players, m), |g.circle|;
      && h.circle[0] == m && h.circle[1] == g.circle[2 % n] && h.circle[n] == g.circle[1 % n]
      && multiset(h.circle) == multiset(g.circle) + multiset{m}
      && h.scores == g.scores
  {
    var n := |g.circle|;
    var r := Rotate(g.circle, 2);
    RotateAt(g.circle, 2, 0);
    RotateAt(g.circle, 2, n - 1);
    assert (n + 1) % n == 1 % n by {
      ModShift2(1, n + 1, 1, n);
    }
    RotateMultiset(g.circle, 2);
  }

  /**
   * A marble that scores adds itself and the marble 7 places
   * counter-clockwise to its elf's score (wrapping as `u32`); that marble
   * leaves the circle and the one after it becomes current.
   */
  lemma ScoresSevenBack(g: Game, players: nat, m: Value)
    requires players >= 1 && m >= 1 && |g.scores| == players && |g.circle| >= 2 && m % 23 == 0
    ensures var h, n, elf := Turn(g, players, m), |g.circle|, (m - 1) % players;
      && h.scores[elf] == (g.scores[elf] + m + g.circle[-7 % n]) % U32
      && (forall e :: 0 <= e < players && e != elf ==> h.scores[e] == g.scores[e])
      && h.circle[0] == g.circle[-6 % n]
      && multiset(h.circle) + multiset{g.circle[-7 % n]} == multiset(g.circle)
  {
    var n, elf := |g.circle|, (m - 1) % players;
    var back := Rotate(g.circle, -7);
    RotateAt(g.circle, -7, 0);
    RotateAt(g.circle, -7, 1);
    RotateMultiset(g.circle, -7);
    assert back == [back[0]] + back[1..];
    ModSum(g.scores[elf] + m, back[0], U32);
  }

  /** A rotation keeps the marbles. */
  lemma RotateMultiset<T>(s: seq<T>, k: int)
    requires s != []
    ensures multiset(Rotate(s, k)) == multiset(s)
  {
    var j := k % |s|;
    assert Rotate(s, k) == s[j..] + s[..j];
    assert s == s[..j] + s[j..];
  }

  /** The number of marbles in the circle after marbles 1..m. */
  function Size(m: nat): nat
  {
    1 + m - 2 * (m / 23)
  }

  /** The game after marbles 1 to m; panics excluded by `Size`. */
  function Play(players: nat, m: Value): (g: Game)
    requires players >= 1
    ensures |g.circle| == Size(m) && |g.scores| == players
    decreases m
  {
    if m == 0 then Game([0], seq(players, _ => 0))
    else
      var g := Play(players, m - 1);
      SizeGrows(m);
      Turn(g, players, m)
  }

  /** Each turn adds a marble, except every 23rd, which removes one; so a scoring turn finds at least two. */
  lemma SizeGrows(m: nat)
    requires m >= 1
    ensures m % 23 == 0 ==> Size(m - 1) >= 2 && Size(m) == Size(m - 1) - 1
    ensures m % 23 != 0 ==> Size(m) == Size(m - 1) + 1
  {
    var q := (m - 1) / 23;
    assert m - 1 == 23 * q + (m - 1) % 23;
    if (m - 1) % 23 == 22 {
      assert m == 23 * (q + 1);
      assert m / 23 == q + 1 && m % 23 == 0;
    } else {
      assert m == 23 * q + ((m - 1) % 23 + 1);
      assert m / 23 == q && m % 23 != 0;
    }
  }

  /** The largest score, as `max().unwrap()` on a non-empty list. */
  function MaxOf(s: seq<Value>): (r: Value)
    requires s != []
    ensures r in s && forall i :: 0 <= i < |s| ==> s[i] <= r
  {
    if |s| == 1 then s[0]
    else
      var rest := MaxOf(s[1..]);
      assert forall i :: 1 <= i < |s| ==> s[i] == s[1..][i - 1];
      if s[0] >= rest then s[0] else rest
  }

  /**
   * `part1`: the best score once the last marble is played.  The loop
   * always plays marble 1 before it tests the bound, so 0 marbles play 1.
   */
  function Winner(players: nat, marbles: Value): Value
    requires players >= 1
  {
    MaxOf(Play(players, if marbles == 0 then 1 else marbles).scores)
  }

  // ---------------------------------------------------------------------
  // The arena circle.

  /** An arena slot: a marble and the slots of its two neighbours. */
  datatype Node = Node(value: Value, prev: nat, next: nat)

  /**
   * The slots along `ring` are distinct arena entries, each linked to the
   * next one by `next` and back by `prev`, and the last closes the circle.
   */
  ghost predicate Linked(arena: map<nat, Node>, ring: seq<nat>)
  {
    && ring != []
    && (forall k :: 0 <= k < |ring| ==> ring[k] in arena)
    && Distinct(ring)
    && (forall k, l :: 0 <= k < l < |ring| && l == k + 1 ==> Link(arena, ring[k], ring[l]))
    && Link(arena, ring[|ring| - 1], ring[0])
  }

  /** Slot y follows slot x, and x precedes y. */
  ghost predicate Link(arena: map<nat, Node>, x: nat, y: nat)
  {
    x in arena && y in arena && arena[x].next == y && arena[y].prev == x
  }

  ghost predicate Distinct(ring: seq<nat>)
  {
    forall k, l :: 0 <= k < l < |ring| ==> ring[k] != ring[l]
  }

  /** The marbles in the slots along a ring. */
  function ValuesOf(arena: map<nat, Node>, ring: seq<nat>): (s: seq<Value>)
    requires forall k :: 0 <= k < |ring| ==> ring[k] in arena
    ensures |s| == |ring| && forall k :: 0 <= k < |ring| ==> s[k] == arena[ring[k]].value
  {
    seq(|ring|, k requires 0 <= k < |ring| => arena[ring[k]].value)
  }

  /** `Circle`: the arena of nodes and the cursor; `zero` is only read by `Debug`. */
  class Circle {
    var arena: map<nat, Node>
    var cursor: nat
    /** The next slot the arena hands out. */
    var unused: nat
    /** The live slots clockwise from the cursor. */
    ghost var ring: seq<nat>

    ghost predicate Valid()
      reads this
    {
      Linked(arena, ring) && ring[0] == cursor && forall i :: i in arena ==> i < unused
    }

    /** The marbles clockwise from the current one. */
    ghost function Marbles(): seq<Value>
      reads this
      requires Valid()
    {
      ValuesOf(arena, ring)
    }

    /** `with_capacity`: the single marble 0, its own neighbour both ways. */
    constructor WithCapacity(cap: nat)
      ensures Valid() && Marbles() == [0]
    {
      arena := map[0 := Node(0, 0, 0)];
      cursor := 0;
      unused := 1;
      ring := [0];
    }

    /** `forward(n)`: n steps along `next`. */
    method Forward(n: nat)
      requires Valid()
      modifies this
      ensures Valid() && Marbles() == Rotate(old(Marbles()), n)
      ensures arena == old(arena) && unused == old(unused)
    {
      ghost var vs := Marbles();
      RotateWhole(vs, 0);
      var c;
      ghost var r;
      c, r := WalkAhead(arena, vs, ring, cursor, n);
      cursor, ring := c, r;
    }

    /** `backward(n)`: n steps along `prev`. */
    method Backward(n: nat)
      requires Valid()
      modifies this
      ensures Valid() && Marbles() == Rotate(old(Marbles()), -(n as int))
      ensures arena == old(arena) && unused == old(unused)
    {
      ghost var vs := Marbles();
      RotateWhole(vs, 0);
      var c;
      ghost var r;
      c, r := WalkBack(arena, vs, ring, cursor, n);
      cursor, ring := c, r;
    }

    /**
     * `remove`: unlinks the current marble and returns it; the next one
     * becomes current.  With a single marble the source indexes the slot
     * it has just freed and panics, hence the precondition.
     */
    method Remove() returns (v: Value)
      requires Valid() && |Marbles()| >= 2
      modifies this
      ensures Valid() && v == old(Marbles())[0] && Marbles() == old(Marbles())[1..]
    {
      LinkedRemove(arena, ring);
      ghost var a := Unlinked(arena, ring);
      var node := arena[cursor];
      arena := arena - {cursor};
      arena := arena[node.prev := arena[node.prev].(next := node.next)];
      arena := arena[node.next := arena[node.next].(prev := node.prev)];
      assert arena == a;
      cursor := node.next;
      ring := ring[1..];
      v := node.value;
    }

    /** `insert(v)`: links v between the current marble's predecessor and it; v becomes current. */
    method Insert(v: Value)
      requires Valid()
      modifies this
      ensures Valid() && Marbles() == [v] + old(Marbles())
    {
      var prev := arena[cursor].prev;
      var next := cursor;
      var node := unused;
      LinkedInsert(arena, ring, node, v);
      ghost var a := Spliced(arena, ring, node, v);
      arena := arena[node := Node(v, prev, next)];
      arena := arena[prev := arena[prev].(next := node)];
      arena := arena[next := arena[next].(prev := node)];
      assert arena == a;
      unused := unused + 1;
      cursor := node;
      ring := [node] + ring;
    }
  }

  /** Turning by one either way moves one end of the sequence to the other. */
  lemma RotateOne<T>(s: seq<T>)
    requires s != []
    ensures Rotate(s, 1) == s[1..] + [s[0]]
    ensures Rotate(s, -1) == [s[|s| - 1]] + s[..|s| - 1]
  {
    var n := |s|;
    if n == 1 {
      assert 1 % n == 0;
      ModShift(-1, -1, n);
    } else {
      ModShift(1, 0, n);
      ModShift(-1, -1, n);
      assert s[..1] == [s[0]];
      assert s[n - 1..] == [s[n - 1]];
    }
  }

  /** Reading the marbles off a turned ring turns the marbles. */
  lemma RingValues(arena: map<nat, Node>, ring: seq<nat>, k: int)
    requires ring != [] && forall i :: 0 <= i < |ring| ==> ring[i] in arena
    ensures ValuesOf(arena, Rotate(ring, k)) == Rotate(ValuesOf(arena, ring), k)
  {
    var r, vs := Rotate(ring, k), ValuesOf(arena, ring);
    forall i | 0 <= i < |ring|
      ensures ValuesOf(arena, r)[i] == Rotate(vs, k)[i]
    {
      RotateAt(ring, k, i);
      RotateAt(vs, k, i);
    }
  }

  /** After k steps, `ring` is linked, starts at slot d, and holds the marbles vs turned k places. */
  ghost predicate Walked(arena: map<nat, Node>, vs: seq<Value>, ring: seq<nat>, d: nat, k: int)
  {
    Linked(arena, ring) && ring[0] == d && vs != [] && ValuesOf(arena, ring) == Rotate(vs, k)
  }

  /** The loop of `forward(n)`: from slot d, n steps along `next`. */
  method WalkAhead(arena: map<nat, Node>, ghost vs: seq<Value>, ghost ring: seq<nat>, d: nat, n: nat)
    returns (c: nat, ghost r: seq<nat>)
    requires Walked(arena, vs, ring, d, 0)
    ensures Walked(arena, vs, r, c, n)
  {
    c, r := d, ring;
    for i := 0 to n
      invariant Walked(arena, vs, r, c, i)
    {
      StepAhead(arena, vs, r, c, i);
      c := arena[c].next;
      r := r[1..] + [r[0]];
    }
  }

  /** The loop of `backward(n)`: from slot d, n steps along `prev`. */
  method WalkBack(arena: map<nat, Node>, ghost vs: seq<Value>, ghost ring: seq<nat>, d: nat, n: nat)
    returns (c: nat, ghost r: seq<nat>)
    requires Walked(arena, vs, ring, d, 0)
    ensures Walked(arena, vs, r, c, -(n as int))
  {
    c, r := d, ring;
    for i := 0 to n
      invariant Walked(arena, vs, r, c, -(i as int))
    {
      StepBack(arena, vs, r, c, -(i as int));
      c := arena[c].prev;
      r := [r[|r| - 1]] + r[..|r| - 1];
    }
  }

  /** A step along `next` turns the ring and its marbles one place ahead. */
  lemma StepAhead(arena: map<nat, Node>, vs: seq<Value>, ring: seq<nat>, d: nat, k: int)
    requires Walked(arena, vs, ring, d, k)
    ensures d in arena && Walked(arena, vs, ring[1..] + [ring[0]], arena[d].next, k + 1)
  {
    RotateOne(ring);
    RingValues(arena, ring, 1);
    RotateAdd(vs, k, 1);
    LinkedForward(arena, ring);
  }

  /** A step along `prev` turns the ring and its marbles one place back. */
  lemma StepBack(arena: map<nat, Node>, vs: seq<Value>, ring: seq<nat>, d: nat, k: int)
    requires Walked(arena, vs, ring, d, k)
    ensures d in arena && Walked(arena, vs, [ring[|ring| - 1]] + ring[..|ring| - 1], arena[d].prev, k - 1)
  {
    RotateOne(ring);
    RingValues(arena, ring, -1);
    RotateAdd(vs, k, -1);
    LinkedBackward(arena, ring);
  }

  /** A step along `next` keeps the turned ring linked. */
  lemma LinkedForward(arena: map<nat, Node>, ring: seq<nat>)
    requires Linked(arena, ring)
    ensures var r := ring[1..] + [ring[0]];
      Linked(arena, r) && r[0] == arena[ring[0]].next
  {
    var r := ring[1..] + [ring[0]];
    var n := |ring|;
    assert forall k :: 0 <= k < n - 1 ==> r[k] == ring[k + 1];
    assert r[n - 1] == ring[0];
  }

  /** A step along `prev` keeps the turned ring linked. */
  lemma LinkedBackward(arena: map<nat, Node>, ring: seq<nat>)
    requires Linked(arena, ring)
    ensures var r := [ring[|ring| - 1]] + ring[..|ring| - 1];
      Linked(arena, r) && r[0] == arena[ring[0]].prev
  {
    var n := |ring|;
    var r := [ring[n - 1]] + ring[..n - 1];
    assert forall k :: 1 <= k < n ==> r[k] == ring[k - 1];
  }

  /** The arena after `remove` on a ring of two or more: its first slot unlinked and freed. */
  ghost function Unlinked(arena: map<nat, Node>, ring: seq<nat>): map<nat, Node>
    requires Linked(arena, ring) && |ring| >= 2
  {
    var node := arena[ring[0]];
    var a1 := arena - {ring[0]};
    assert node.prev == ring[|ring| - 1] && node.next == ring[1];
    var a2 := a1[node.prev := a1[node.prev].(next := node.next)];
    a2[node.next := a2[node.next].(prev := node.prev)]
  }

  /** Unlinking the first slot leaves the rest of the ring linked, holding the same marbles. */
  lemma LinkedRemove(arena: map<nat, Node>, ring: seq<nat>)
    requires Linked(arena, ring) && |ring| >= 2
    ensures var a := Unlinked(arena, ring);
      Linked(a, ring[1..]) && ValuesOf(a, ring[1..]) == ValuesOf(arena, ring)[1..]
      && a.Keys == arena.Keys - {ring[0]}
  {
    var n, a := |ring|, Unlinked(arena, ring);
    var r := ring[1..];
    forall k | 0 <= k < n - 1
      ensures r[k] == ring[k + 1] && r[k] in a && a[r[k]].value == arena[r[k]].value
    {
      assert ring[k + 1] != ring[0];
    }
    forall k, l | 0 <= k < l < n - 1 && l == k + 1
      ensures Link(a, r[k], r[l])
    {
      assert Link(arena, ring[k + 1], ring[l + 1]);
      assert ring[k + 1] != ring[n - 1] && ring[l + 1] != ring[1];
    }
    assert Link(arena, ring[n - 1], ring[0]) && Link(arena, ring[0], ring[1]);
  }

  /** The arena after `insert`: a fresh slot holding v linked in before the first slot of `ring`. */
  ghost function Spliced(arena: map<nat, Node>, ring: seq<nat>, node: nat, v: Value): map<nat, Node>
    requires Linked(arena, ring)
  {
    var prev, next := arena[ring[0]].prev, ring[0];
    var a1 := arena[node := Node(v, prev, next)];
    var a2 := a1[prev := a1[prev].(next := node)];
    a2[next := a2[next].(prev := node)]
  }

  /** What `insert` leaves in each old slot: only the two neighbours' links change. */
  lemma SplicedSlot(arena: map<nat, Node>, ring: seq<nat>, node: nat, v: Value, x: nat)
    requires Linked(arena, ring) && node !in arena && x in arena
    ensures var a, prev := Spliced(arena, ring, node, v), arena[ring[0]].prev;
      && x in a && a[x].value == arena[x].value
      && a[x].next == (if x == prev then node else arena[x].next)
      && a[x].prev == (if x == ring[0] then node else arena[x].prev)
  {
  }

  /** After `insert`, the fresh slot sits between the last and the first, and the old links hold. */
  lemma SplicedLinks(arena: map<nat, Node>, ring: seq<nat>, node: nat, v: Value)
    requires Linked(arena, ring) && node !in arena
    ensures var a, n := Spliced(arena, ring, node, v), |ring|;
      && Link(a, node, ring[0]) && Link(a, ring[n - 1], node)
      && forall k, l :: 0 <= k < l < n && l == k + 1 ==> Link(a, ring[k], ring[l])
  {
    var n, a := |ring|, Spliced(arena, ring, node, v);
    assert arena[ring[0]].prev == ring[n - 1] by {
      assert Link(arena, ring[n - 1], ring[0]);
    }
    assert a[node] == Node(v, ring[n - 1], ring[0]);
    forall k, l | 0 <= k < l < n && l == k + 1
      ensures Link(a, ring[k], ring[l])
    {
      assert Link(arena, ring[k], ring[l]);
      assert ring[k] != ring[n - 1] && ring[l] != ring[0];
      SplicedSlot(arena, ring, node, v, ring[k]);
      SplicedSlot(arena, ring, node, v, ring[l]);
    }
    SplicedSlot(arena, ring, node, v, ring[0]);
    SplicedSlot(arena, ring, node, v, ring[n - 1]);
  }

  /** After `insert`, the ring's marbles are the new one followed by the old ones. */
  lemma SplicedValues(arena: map<nat, Node>, ring: seq<nat>, node: nat, v: Value)
    requires Linked(arena, ring) && node !in arena
    ensures var a := Spliced(arena, ring, node, v);
      && (forall k :: 0 <= k < |ring| ==> ring[k] in a)
      && node in a
      && ValuesOf(a, [node] + ring) == [v] + ValuesOf(arena, ring)
      && a.Keys == arena.Keys + {node}
  {
    var n, a := |ring|, Spliced(arena, ring, node, v);
    var r := [node] + ring;
    forall k | 0 <= k < n
      ensures ring[k] in a && a[ring[k]].value == arena[ring[k]].value
    {
      SplicedSlot(arena, ring, node, v, ring[k]);
    }
    assert a[node].value == v;
    var vs, ws := ValuesOf(a, r), ValuesOf(arena, ring);
    forall k | 0 <= k < n + 1
      ensures vs[k] == ([v] + ws)[k]
    {
      if k > 0 {
        assert r[k] == ring[k - 1];
      }
    }
    assert vs == [v] + ws;
  }

  /** Linking a fresh slot in before the first one extends the ring, and its marbles, at the front. */
  lemma LinkedInsert(arena: map<nat, Node>, ring: seq<nat>, node: nat, v: Value)
    requires Linked(arena, ring) && node !in arena
    ensures var a := Spliced(arena, ring, node, v);
      Linked(a, [node] + ring) && ValuesOf(a, [node] + ring) == [v] + ValuesOf(arena, ring)
      && a.Keys == arena.Keys + {node}
  {
    var n, a := |ring|, Spliced(arena, ring, node, v);
    SplicedLinks(arena, ring, node, v);
    SplicedValues(arena, ring, node, v);
    var r := [node] + ring;
    forall k, l | 0 <= k < l < n + 1 && l == k + 1
      ensures Link(a, r[k], r[l])
    {
      if k > 0 {
        assert r[k] == ring[k - 1] && r[l] == ring[l - 1];
      }
    }
    forall k, l | 0 <= k < l < n + 1
      ensures r[k] != r[l]
    {
      if k > 0 {
        assert r[k] == ring[k - 1] && r[l] == ring[l - 1];
      }
    }
  }

  // ---------------------------------------------------------------------
  // The game on the arena circle.

  /** The last marble played: the loop plays marble 1 before it tests the bound. */
  function Last(marbles: Value): Value
  {
    if marbles == 0 then 1 else marbles
  }

  /**
   * `part1`: each elf in turn plays the next marble until the last is
   * played, and the best score wins.  `marbles` below `u32::MAX` keeps the
   * marble counter from overflowing.
   */
  method Part1(players: Value, marbles: Value) returns (r: Value)
    requires players >= 1 && marbles < 0xFFFF_FFFF
    ensures r == Winner(players, marbles)
  {
    var elfs := new Value[players](_ => 0);
    var circle := new Circle.WithCapacity(marbles);
    var next: Value := 1;
    var elf: nat := 0;
    while true
      invariant 1 <= next <= Last(marbles) && elf == (next - 1) % players
      invariant circle.Valid() && circle.Marbles() == Play(players, next - 1).circle
      invariant elfs.Length == players && elfs[..] == Play(players, next - 1).scores
      decreases Last(marbles) - next
    {
      SizeGrows(next);
      PlayMarble(circle, elfs, players, elf, next, Play(players, next - 1));
      assert Play(players, next) == Turn(Play(players, next - 1), players, next);
      ghost var played := next;
      assert elfs[..] == Play(players, played).scores;
      elf := NextElf(elf, next, players);
      next := next + 1;
      if next > marbles {
        assert played == Last(marbles);
        break;
      }
    }
    assert elfs[..] == Play(players, Last(marbles)).scores;
    r := MaxOf(elfs[..]);
  }

  /**
   * The body of `part1`'s loop for one marble: elf `elf` plays marble
   * `next`, and the circle and the scores move on as `Turn` says.
   */
  method PlayMarble(circle: Circle, elfs: array<Value>, players: nat, elf: nat, next: Value, ghost g: Game)
    requires players >= 1 && next >= 1 && elf == (next - 1) % players
    requires |g.scores| == players && g.circle != [] && (next % 23 == 0 ==> |g.circle| >= 2)
    requires circle.Valid() && circle.Marbles() == g.circle && elfs[..] == g.scores
    modifies circle, elfs
    ensures circle.Valid() && circle.Marbles() == Turn(g, players, next).circle
    ensures elfs[..] == Turn(g, players, next).scores
  {
    if next % 23 == 0 {
      ScoreMarble(circle, elfs, players, elf, next, g);
    } else {
      PlaceMarble(circle, elfs, players, next, g);
    }
  }

  /** A multiple of 23: the elf keeps it and the marble 7 places back. */
  method ScoreMarble(circle: Circle, elfs: array<Value>, players: nat, elf: nat, next: Value, ghost g: Game)
    requires players >= 1 && next >= 1 && elf == (next - 1) % players && next % 23 == 0
    requires |g.scores| == players && |g.circle| >= 2
    requires circle.Valid() && circle.Marbles() == g.circle && elfs[..] == g.scores
    modifies circle, elfs
    ensures circle.Valid() && circle.Marbles() == Turn(g, players, next).circle
    ensures elfs[..] == Turn(g, players, next).scores
  {
    assert elfs[elf] == g.scores[elf];
    var score: Value := WrapU32(elfs[elf] as int + next);
    var marble := TakeSeventhBack(circle, g.circle);
    score := WrapU32(score as int + marble);
    elfs[elf] := score;
    assert elfs[..] == g.scores[elf := score];
  }

  /** `backward(7)` then `remove()`: the marble 7 places back leaves the circle. */
  method TakeSeventhBack(circle: Circle, ghost marbles: seq<Value>) returns (marble: Value)
    requires |marbles| >= 2 && circle.Valid() && circle.Marbles() == marbles
    modifies circle
    ensures circle.Valid()
    ensures marble == Rotate(marbles, -7)[0] && circle.Marbles() == Rotate(marbles, -7)[1..]
  {
    circle.Backward(7);
    marble := circle.Remove();
  }

  /** Any other marble goes in between the marbles 1 and 2 places ahead. */
  method PlaceMarble(circle: Circle, elfs: array<Value>, players: nat, next: Value, ghost g: Game)
    requires players >= 1 && next >= 1 && next % 23 != 0
    requires |g.scores| == players && g.circle != []
    requires circle.Valid() && circle.Marbles() == g.circle && elfs[..] == g.scores
    modifies circle
    ensures circle.Valid() && circle.Marbles() == Turn(g, players, next).circle
    ensures elfs[..] == Turn(g, players, next).scores
  {
    assert Turn(g, players, next) == Game([next] + Rotate(g.circle, 2), g.scores);
    circle.Forward(2);
    circle.Insert(next);
  }

  /** The `for elf in &mut elfs` step: the next elf, back to the first after the last. */
  function NextElf(elf: nat, m: nat, players: nat): (e: nat)
    requires players >= 1 && m >= 1 && elf == (m - 1) % players
    ensures e == m % players
  {
    ModSum(m - 1, 1, players);
    if elf + 1 == players then
      assert (elf + 1) % players == 0 by {
        ModShift(elf + 1, 1, players);
      }
      0
    else
      assert (elf + 1) % players == elf + 1 by {
        ModShift(elf + 1, 0, players);
      }
      elf + 1
  }

  /** `part2`: `part1` with a hundred times the marbles, the product wrapping as `u32`. */
  method Part2(players: Value, marbles: Value) returns (r: Value)
    requires players >= 1 && WrapU32(marbles * 100) < 0xFFFF_FFFF
    ensures r == Winner(players, WrapU32(marbles * 100))
  {
    r := Part1(players, WrapU32(marbles * 100));
  }
}
