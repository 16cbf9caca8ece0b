/**
 * 2016 day 15 (src/bin/y2016/day15.rs): a ball dropped at time t reaches
 * disc i at time t+i+1 and passes when that disc is at position 0.  Each disc
 * gives a congruence on t, and the congruences are combined one by one.
 */
module Y2016Day15 {
  import opened Wrappers
  import opened RustInt
  import opened ModuloSolver

  datatype Disc = Disc(positions: nat, position: nat)

  /** Every disc has at least one position (`modulo` divides by the count). */
  ghost predicate WellFormed(discs: seq<Disc>)
  {
    forall i :: 0 <= i < |discs| ==> 0 < discs[i].positions <= U64
  }

  /** Disc i asks for t = -(position + i + 1) (mod positions). */
  function DiscCongruence(d: Disc, i: nat): (c: Congruence)
    requires d.positions > 0
    ensures c.n == d.positions
  {
    Congruence(Modulo(-(d.position + i + 1), d.positions), d.positions)
  }

  /** Where the fold stands: nothing combined yet, a congruence, or a panic on an incompatible pair. */
  datatype FoldState = Empty | Acc(c: Congruence) | Panicked

  /** The fold over the first k discs. */
  function Folded(discs: seq<Disc>, k: nat): (s: FoldState)
    requires WellFormed(discs) && k <= |discs|
    ensures s.Acc? ==> s.c.n > 0
  {
    if k == 0 then Empty
    else
      var next := DiscCongruence(discs[k - 1], k - 1);
      match Folded(discs, k - 1)
      case Empty => Acc(next)
      case Panicked => Panicked
      case Acc(c) =>
        match Combine(c, next)
        case None => Panicked
        case Some(c') => Acc(c')
  }

  /** `solve`: `.a as usize` of the combined congruence, or None where the source panics (no disc, or an incompatible disc). */
  function Solve(discs: seq<Disc>): (r: Option<nat>)
    requires WellFormed(discs)
    ensures r.Some? <==> Folded(discs, |discs|).Acc?
    ensures discs == [] ==> r.None?
    ensures r.Some? ==> r.value < U64
  {
    match Folded(discs, |discs|)
    case Acc(c) => Some(WrapU64(c.a))
    case _ => None
  }

  /** The combined modulus fits in 64 bits, so that the final cast of `solve` does not wrap. */
  ghost predicate ModulusFits(discs: seq<Disc>)
    requires WellFormed(discs)
  {
    Folded(discs, |discs|).Acc? ==> Folded(discs, |discs|).c.n <= U64
  }

  /** The ball passes disc i when it is released at t. */
  predicate Passes(d: Disc, i: nat, t: int)
    requires d.positions > 0
  {
    (d.position + i + 1 + t) % d.positions == 0
  }

  lemma DiscCongruenceMeaning(d: Disc, i: nat, t: int)
    requires 0 < d.positions <= U64
    ensures Passes(d, i, t) <==> t % d.positions == DiscCongruence(d, i).a % d.positions
  {
    var p, k := d.positions, d.position + i + 1;
    ModuloIsResidue(-k, p);
    var a := (-k) % p;
    assert a % p == a by { EuclideanUnique(a, p, 0, a); }
    if (k + t) % p == 0 {
      ResidueOfMultiple(t, -k, (k + t) / p, p);
    }
    if t % p == a {
      var w := SameResidue(t, -k, p);
      assert k + t == (-w) * p;
      MultipleMod(-w, p);
    }
  }

  /** c is in normal form, its modulus is a multiple of every disc so far, and its residue passes them. */
  ghost predicate Sound(discs: seq<Disc>, k: nat, c: Congruence)
    requires WellFormed(discs) && k <= |discs|
  {
    0 <= c.a < c.n &&
    forall i :: 0 <= i < k ==> c.n % discs[i].positions == 0 && Passes(discs[i], i, c.a)
  }

  lemma MultipleTrans(x: int, y: int, z: int)
    requires y > 0 && z > 0 && x % y == 0 && y % z == 0
    ensures x % z == 0
  {
    var i, j := x / y, y / z;
    assert x == (i * j) * z by {
      assert x == i * y && y == j * z;
    }
    MultipleMod(i * j, z);
  }

  lemma FirstDiscSound(discs: seq<Disc>)
    requires WellFormed(discs) && |discs| >= 1
    ensures Sound(discs, 1, DiscCongruence(discs[0], 0))
  {
    var d := discs[0];
    var next := DiscCongruence(d, 0);
    ModuloIsResidue(-(d.position + 1), d.positions);
    DiscCongruenceMeaning(d, 0, next.a);
    EuclideanUnique(next.a, next.n, 0, next.a);
    MultipleMod(1, next.n);
  }

  lemma FoldStepSound(discs: seq<Disc>, k: nat, c: Congruence, r: Congruence)
    requires WellFormed(discs) && 0 < k <= |discs| && c.n > 0
    requires Sound(discs, k - 1, c)
    requires Combine(c, DiscCongruence(discs[k - 1], k - 1)) == Some(r)
    ensures Sound(discs, k, r)
  {
    var d := discs[k - 1];
    var next := DiscCongruence(d, k - 1);
    CombineSpec(c, next);
    forall i | 0 <= i < k
      ensures r.n % discs[i].positions == 0 && Passes(discs[i], i, r.a)
    {
      if i < k - 1 {
        MultipleTrans(r.n, c.n, discs[i].positions);
        ResidueAcrossMultiple(discs[i], i, c, r);
      } else {
        DiscCongruenceMeaning(d, k - 1, r.a);
      }
    }
  }

  /** While the fold has not panicked, its congruence is sound for every disc folded so far. */
  lemma {:induction false} FoldedSound(discs: seq<Disc>, k: nat)
    requires WellFormed(discs) && k <= |discs|
    ensures Folded(discs, k).Acc? ==> Sound(discs, k, Folded(discs, k).c)
  {
    if k > 0 {
      FoldedSound(discs, k - 1);
      var prev := Folded(discs, k - 1);
      if prev.Empty? {
        assert k == 1 by {
          if k > 1 { FoldedNotEmpty(discs, k - 1); }
        }
        FirstDiscSound(discs);
      } else if prev.Acc? {
        assert Sound(discs, k - 1, prev.c);
        var next := DiscCongruence(discs[k - 1], k - 1);
        var r := Combine(prev.c, next);
        if r.Some? {
          FoldStepSound(discs, k, prev.c, r.value);
        }
      }
    }
  }

  lemma FoldedNotEmpty(discs: seq<Disc>, k: nat)
    requires WellFormed(discs) && 0 < k <= |discs|
    ensures !Folded(discs, k).Empty?
  {
  }

  /** A time that agrees with c modulo c.n passes every disc c passes, once c.n is a multiple of the disc. */
  lemma ResidueAcrossMultiple(d: Disc, i: nat, c: Congruence, r: Congruence)
    requires 0 < d.positions <= U64 && c.n > 0
    requires 0 <= c.a < c.n && Passes(d, i, c.a) && r.a % c.n == c.a % c.n
    requires c.n % d.positions == 0
    ensures Passes(d, i, r.a)
  {
    var p := d.positions;
    EuclideanUnique(c.a, c.n, 0, c.a);
    var w := SameResidue(r.a, c.a, c.n);
    var j := c.n / p;
    assert c.n == j * p;
    assert c.a - r.a == (w * j) * p by {
      assert c.a - r.a == w * c.n;
    }
    DiscCongruenceMeaning(d, i, c.a);
    DiscCongruenceMeaning(d, i, r.a);
    ResidueOfMultiple(c.a, r.a, w * j, p);
  }

  /**
   * `solve`'s answer lets the ball pass every disc (when the combined modulus
   * fits in 64 bits, so that the final cast does not wrap).
   */
  lemma SolvePassesEveryDisc(discs: seq<Disc>)
    requires WellFormed(discs)
    ensures Solve(discs).Some? && ModulusFits(discs) ==>
      forall i :: 0 <= i < |discs| ==> Passes(discs[i], i, Solve(discs).value)
  {
    FoldedSound(discs, |discs|);
  }

  /**
   * `part1` leaves out the last disc. On an empty list `discs.len() - 1`
   * underflows and the source panics: None.
   */
  function Part1(discs: seq<Disc>): (r: Option<nat>)
    requires WellFormed(discs)
    ensures |discs| == 0 ==> r.None?
    ensures r.Some? ==> |discs| >= 1
    ensures r.Some? && ModulusFits(discs[..|discs| - 1]) ==>
      forall i :: 0 <= i < |discs| - 1 ==> Passes(discs[i], i, r.value)
  {
    if |discs| == 0 then None
    else
      SolvePassesEveryDisc(discs[..|discs| - 1]);
      Solve(discs[..|discs| - 1])
  }

  /** `part2` keeps every disc, including the one the puzzle adds. */
  function Part2(discs: seq<Disc>): (r: Option<nat>)
    requires WellFormed(discs)
    ensures r.Some? && ModulusFits(discs) ==>
      forall i :: 0 <= i < |discs| ==> Passes(discs[i], i, r.value)
  {
    SolvePassesEveryDisc(discs);
    Solve(discs)
  }

  /** The example: discs of 5 and 2 positions at 4 and 1 give t = 5. */
  lemma ExampleSolve()
    ensures Solve([Disc(5, 4), Disc(2, 1)]) == Some(5)
  {
    var discs := [Disc(5, 4), Disc(2, 1)];
    assert DiscCongruence(discs[0], 0) == Congruence(0, 5);
    assert DiscCongruence(discs[1], 1) == Congruence(1, 2);
    assert ExtendedEuclid(5, 2) == ExtendedGcd(1, 1, -2) by {
      assert EgcdLoop(5, 2, 1, 0, 0, 1) == EgcdLoop(2, 1, 0, 1, 1, -2);
      assert EgcdLoop(2, 1, 0, 1, 1, -2) == EgcdLoop(1, 0, 1, -2, -2, 5);
    }
    assert Combine(Congruence(0, 5), Congruence(1, 2)) == Some(Congruence(5, 10));
  }
}
