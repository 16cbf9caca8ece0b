/**
 * Cycle detection on the orbit x0, f(x0), f(f(x0)), ... of src/cycle.rs:
 * Brent's power-of-two search for the cycle length, then a second walk for
 * the index where the cycle starts.
 *
 * The source loops until it finds the cycle, which it always does for a
 * function on a finite set.  The model walks at most `fuel` steps in the
 * search for the length and answers None when the fuel runs out; it is proved
 * to find the cycle whenever the fuel is at least 2*mu + 3*lambda.  The cycle
 * of the orbit is passed in as ghost parameters mu0 and lambda0, used only by
 * the contracts that say so.
 */
module Cycles {
  import opened Wrappers
  import opened RustInt

  /** The n-th value of the orbit of x under f. */
  function Iterate<I>(f: I -> I, x: I, n: nat): I
  {
    if n == 0 then x else f(Iterate(f, x, n - 1))
  }

  lemma {:induction false} IterateAdd<I>(f: I -> I, x: I, m: nat, n: nat)
    ensures Iterate(f, Iterate(f, x, m), n) == Iterate(f, x, m + n)
    decreases n
  {
    if n > 0 {
      IterateAdd(f, x, m, n - 1);
    }
  }

  /** l is the least positive number of steps that brings y back to itself. */
  ghost predicate ReturnsAfter<I>(f: I -> I, y: I, l: nat)
  {
    l >= 1 && Iterate(f, y, l) == y &&
    forall k :: 1 <= k < l ==> Iterate(f, y, k) != y
  }

  /** A point that returns to itself after j steps keeps doing so after it moves on. */
  lemma PeriodicAfterMoving<I>(f: I -> I, y: I, j: nat, k: nat)
    requires Iterate(f, y, j) == y
    ensures Iterate(f, Iterate(f, y, k), j) == Iterate(f, y, k)
  {
    IterateAdd(f, y, k, j);
    IterateAdd(f, y, j, k);
  }

  /** A multiple of the period brings a periodic point back to itself. */
  lemma {:induction false} PeriodMultiple<I>(f: I -> I, y: I, l: nat, q: nat)
    requires Iterate(f, y, l) == y
    ensures Iterate(f, y, q * l) == y
    decreases q
  {
    if q > 0 {
      PeriodMultiple(f, y, l, q - 1);
      assert q * l == (q - 1) * l + l;
      IterateAdd(f, y, (q - 1) * l, l);
    }
  }

  /**
   * Every point of a cycle has the same least return time: the cycle length
   * does not depend on the point of the loop where it is measured.
   */
  lemma ReturnTimeOnCycle<I>(f: I -> I, y: I, l: nat, k: nat)
    requires ReturnsAfter(f, y, l)
    ensures ReturnsAfter(f, Iterate(f, y, k), l)
  {
    var z := Iterate(f, y, k);
    PeriodicAfterMoving(f, y, l, k);
    // z reaches y again after m more steps
    var m := l - k % l;
    assert k + m == (k / l + 1) * l;
    IterateAdd(f, y, k, m);
    PeriodMultiple(f, y, l, k / l + 1);
    assert Iterate(f, z, m) == y;
    forall j | 1 <= j < l
      ensures Iterate(f, z, j) != z
    {
      if Iterate(f, z, j) == z {
        PeriodicAfterMoving(f, z, j, m);
        assert Iterate(f, y, j) == y;
        assert false;
      }
    }
  }

  /** From index mu0 on, the orbit of x0 runs round a cycle of length lambda0. */
  ghost predicate OnCycle<I>(f: I -> I, x0: I, mu0: nat, lambda0: nat)
  {
    ReturnsAfter(f, Iterate(f, x0, mu0), lambda0)
  }

  /** mu0 is the first index from which the orbit runs round a cycle of length lambda0. */
  ghost predicate StartsCycle<I>(f: I -> I, x0: I, mu0: nat, lambda0: nat)
  {
    OnCycle(f, x0, mu0, lambda0) &&
    forall m :: 0 <= m < mu0 ==> Iterate(f, x0, m + lambda0) != Iterate(f, x0, m)
  }

  /** Steps of Brent's search that always suffice for a cycle at mu0 of length lambda0. */
  function FuelBound(mu0: nat, lambda0: nat): nat
  {
    2 * mu0 + 3 * lambda0
  }

  function Max(a: nat, b: nat): nat
  {
    if a >= b then a else b
  }

  /** Every later value of the orbit is on the cycle too, with the same return time. */
  lemma OnCycleFrom<I>(f: I -> I, x0: I, mu0: nat, lambda0: nat, t: nat)
    requires OnCycle(f, x0, mu0, lambda0) && t >= mu0
    ensures OnCycle(f, x0, t, lambda0)
  {
    ReturnTimeOnCycle(f, Iterate(f, x0, mu0), lambda0, t - mu0);
    IterateAdd(f, x0, mu0, t - mu0);
  }

  /** Two values of one orbit that both recur have the same least return time. */
  lemma SameReturnTime<I>(f: I -> I, x0: I, t: nat, l: nat, mu0: nat, lambda0: nat)
    requires OnCycle(f, x0, t, l) && OnCycle(f, x0, mu0, lambda0)
    ensures l == lambda0
  {
    var m := Max(t, mu0);
    OnCycleFrom(f, x0, t, l, m);
    OnCycleFrom(f, x0, mu0, lambda0, m);
    var y := Iterate(f, x0, m);
    assert Iterate(f, y, l) == y && Iterate(f, y, lambda0) == y;
  }

  /**
   * Floyd's tortoise (one step a round) and hare (two) agree by round
   * mu0 + lambda0: at the first multiple of lambda0 that is at least mu0 and 1.
   */
  lemma FloydMeetsBy<I>(f: I -> I, x0: I, mu0: nat, lambda0: nat) returns (t: nat)
    requires OnCycle(f, x0, mu0, lambda0)
    ensures 1 <= t <= mu0 + lambda0 && Iterate(f, x0, t) == Iterate(f, x0, 2 * t)
  {
    var a := Max(mu0, 1) + lambda0 - 1;
    var q := a / lambda0;
    assert a == q * lambda0 + a % lambda0;
    t := q * lambda0;
    OnCycleFrom(f, x0, mu0, lambda0, t);
    PeriodMultiple(f, Iterate(f, x0, t), lambda0, q);
    IterateAdd(f, x0, t, t);
  }

  /** `Cycle`: mu is where the loop starts and lambda how many values it holds. */
  datatype Cycle = Cycle(mu: nat, lambda: nat)

  /**
   * `length`: Brent's search.  The answer is the least return time of a point
   * x_t on the orbit (t is returned as evidence).
   */
  method Length<I(==)>(x0: I, f: I -> I, fuel: nat, ghost mu0: nat, ghost lambda0: nat) returns (r: Option<nat>, ghost t: nat)
    ensures r.Some? ==> ReturnsAfter(f, Iterate(f, x0, t), r.value)
    ensures OnCycle(f, x0, mu0, lambda0) && FuelBound(mu0, lambda0) <= fuel ==> r == Some(lambda0)
  {
    ghost var cycles := OnCycle(f, x0, mu0, lambda0);
    ghost var m := Max(lambda0, mu0 + 1);
    var lam := 1;
    var power := 1;
    var tortoise := x0;
    var hare := f(x0);
    t := 0;
    var steps: nat := fuel;
    while tortoise != hare
      invariant 1 <= lam <= power && t + 1 == power
      invariant steps + power + lam - 2 == fuel
      invariant tortoise == Iterate(f, x0, t)
      invariant hare == Iterate(f, tortoise, lam)
      invariant forall k :: 1 <= k < lam ==> Iterate(f, tortoise, k) != tortoise
      invariant cycles ==> power < 2 * m
      decreases steps
    {
      if cycles && power >= m {
        // the tortoise is on the cycle, and the hare has not yet gone round it
        OnCycleFrom(f, x0, mu0, lambda0, t);
        assert Iterate(f, tortoise, lambda0) == tortoise;
        assert lam < lambda0;
      }
      if steps == 0 {
        return None, t;
      }
      steps := steps - 1;
      if power == lam {
        IterateAdd(f, x0, t, lam);
        t := t + lam;
        tortoise := hare;
        power := power * 2;
        lam := 0;
      }
      hare := f(hare);
      lam := lam + 1;
    }
    r := Some(lam);
    if cycles {
      SameReturnTime(f, x0, t, lam, mu0, lambda0);
    }
  }

  /**
   * `find`: mu and lambda of the orbit.  x_mu recurs after lambda steps, no
   * earlier value does, and lambda is the least return time of x_mu.
   */
  method Find<I(==)>(x0: I, f: I -> I, fuel: nat, ghost mu0: nat, ghost lambda0: nat) returns (c: Option<Cycle>)
    ensures c.Some? ==> StartsCycle(f, x0, c.value.mu, c.value.lambda)
    ensures OnCycle(f, x0, mu0, lambda0) && FuelBound(mu0, lambda0) <= fuel ==>
      c.Some? && c.value.lambda == lambda0 && c.value.mu <= mu0
    ensures StartsCycle(f, x0, mu0, lambda0) && FuelBound(mu0, lambda0) <= fuel ==>
      c == Some(Cycle(mu0, lambda0))
  {
    var len, t := Length(x0, f, fuel, mu0, lambda0);
    if len.None? {
      return None;
    }
    var lam := len.value;
    var hare := x0;
    for i := 0 to lam
      invariant hare == Iterate(f, x0, i)
    {
      hare := f(hare);
    }
    IterateAdd(f, x0, t, lam);
    var mu := FindStart(x0, f, lam, t, hare);
    StartOfCycle(f, x0, t, lam, mu);
    c := Some(Cycle(mu, lam));
    if OnCycle(f, x0, mu0, lambda0) && FuelBound(mu0, lambda0) <= fuel {
      // x_mu0 comes back after lambda0 steps, so the walk stops by mu0
      IterateAdd(f, x0, mu0, lambda0);
      assert Iterate(f, x0, mu0 + lam) == Iterate(f, x0, mu0);
    }
  }

  /**
   * The second loop of `find`: a tortoise from x0 and a hare lam steps ahead
   * walk together until they meet, which they do by x_t at the latest.
   */
  method FindStart<I(==)>(x0: I, f: I -> I, lam: nat, ghost t: nat, hare0: I) returns (mu: nat)
    requires hare0 == Iterate(f, x0, lam) && Iterate(f, x0, t + lam) == Iterate(f, x0, t)
    ensures mu <= t && Iterate(f, x0, mu + lam) == Iterate(f, x0, mu)
    ensures forall m :: 0 <= m < mu ==> Iterate(f, x0, m + lam) != Iterate(f, x0, m)
  {
    var tortoise, hare := x0, hare0;
    mu := 0;
    while tortoise != hare
      invariant mu <= t
      invariant tortoise == Iterate(f, x0, mu)
      invariant hare == Iterate(f, x0, mu + lam)
      invariant forall m :: 0 <= m < mu ==> Iterate(f, x0, m + lam) != Iterate(f, x0, m)
      decreases t - mu
    {
      assert f(hare) == Iterate(f, x0, mu + 1 + lam);
      tortoise := f(tortoise);
      hare := f(hare);
      mu := mu + 1;
    }
  }

  /**
   * x_mu is on the cycle: it comes back after lam steps, and no sooner, since
   * x_t = x_(mu + (t - mu)) has least return time lam.
   */
  lemma StartOfCycle<I>(f: I -> I, x0: I, t: nat, lam: nat, mu: nat)
    requires ReturnsAfter(f, Iterate(f, x0, t), lam) && mu <= t
    requires Iterate(f, x0, mu + lam) == Iterate(f, x0, mu)
    ensures ReturnsAfter(f, Iterate(f, x0, mu), lam)
  {
    var y := Iterate(f, x0, mu);
    IterateAdd(f, x0, mu, t - mu);
    forall j | 1 <= j < lam
      ensures Iterate(f, y, j) != y
    {
      if Iterate(f, y, j) == y {
        PeriodicAfterMoving(f, y, j, t - mu);
        assert false;
      }
    }
    IterateAdd(f, x0, mu, lam);
  }

  /** Past mu the orbit repeats with period lambda, for every later index. */
  lemma EventuallyPeriodic<I>(f: I -> I, x0: I, mu: nat, lambda: nat, m: nat)
    requires ReturnsAfter(f, Iterate(f, x0, mu), lambda)
    requires m >= mu
    ensures Iterate(f, x0, m + lambda) == Iterate(f, x0, m)
  {
    var y := Iterate(f, x0, mu);
    PeriodicAfterMoving(f, y, lambda, m - mu);
    IterateAdd(f, x0, mu, m - mu);
    IterateAdd(f, x0, m, lambda);
  }

  /**
   * Floyd's meeting point: once x_t == x_2t (t >= 1), every value that recurs
   * at all recurs after t steps.  So the first m with x_m == x_(m+t) is the
   * first index whose value recurs.
   */
  lemma FloydMeeting<I>(f: I -> I, x0: I, t: nat, m: nat, k: nat)
    requires t >= 1 && Iterate(f, x0, t) == Iterate(f, x0, 2 * t)
    requires k >= 1 && Iterate(f, x0, m + k) == Iterate(f, x0, m)
    ensures Iterate(f, x0, m + t) == Iterate(f, x0, m)
  {
    var y := Iterate(f, x0, m);
    IterateAdd(f, x0, m, k);
    // y returns after k steps, so after k * t steps
    PeriodMultiple(f, y, k, t);
    assert t * k == k * t;
    IterateAdd(f, x0, m, k * t);
    var big := m + k * t;
    assert big >= t by {
      MulAtLeast(k, t);
    }
    // from x_t on, the orbit repeats every t steps
    var z := Iterate(f, x0, t);
    IterateAdd(f, x0, t, t);
    PeriodicAfterMoving(f, z, t, big - t);
    IterateAdd(f, x0, t, big - t);
    IterateAdd(f, x0, big, t);
    // x_(m+t) also returns after k * t steps
    PeriodicAfterMoving(f, y, k, t);
    IterateAdd(f, x0, m, t);
    var w := Iterate(f, x0, m + t);
    PeriodMultiple(f, w, k, t);
    IterateAdd(f, x0, m + t, k * t);
    assert big + t == m + t + k * t;
  }
}
