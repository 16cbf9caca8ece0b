/**
 * 2017 day 6 (src/bin/y2017/day06.rs): memory banks.  Each cycle empties the
 * fullest bank (the lowest-numbered one on a tie) and hands its blocks out one
 * at a time to the banks that follow it, wrapping round.  Floyd's method finds
 * where the sequence of configurations starts to loop and how long the loop is.
 */
module Y2017Day06 {
  import opened Wrappers
  import opened RustInt
  import opened Cycles

  /** p holds the first maximum of s: no bank holds more, none before it as much. */
  ghost predicate IsFirstMax(s: seq<nat>, p: nat)
  {
    p < |s| && (forall k :: 0 <= k < |s| ==> s[k] <= s[p]) && forall k :: 0 <= k < p ==> s[k] < s[p]
  }

  /** The index of the first maximum of s[i..]. */
  function MaxFrom(s: seq<nat>, i: nat): (p: nat)
    requires i < |s|
    ensures i <= p < |s|
    ensures forall k :: i <= k < |s| ==> s[k] <= s[p]
    ensures forall k :: i <= k < p ==> s[k] < s[p]
    decreases |s| - i
  {
    if i == |s| - 1 then i
    else
      var j := MaxFrom(s, i + 1);
      if s[i] >= s[j] then i else j
  }

  /** The index of the first maximum, as a reference for `max`. */
  function FirstMax(s: seq<nat>): (p: nat)
    requires |s| > 0
    ensures IsFirstMax(s, p)
  {
    MaxFrom(s, 0)
  }

  lemma FirstMaxUnique(s: seq<nat>, p: nat, q: nat)
    requires IsFirstMax(s, p) && IsFirstMax(s, q)
    ensures p == q
  {
    assert s[p] <= s[q] && s[q] <= s[p];
  }

  /** `max`: scans from the last bank down with `>=`, so the lowest index holding the maximum wins. */
  method Max(list: array<nat>) returns (maxIdx: nat, max: nat)
    requires list.Length > 0
    ensures IsFirstMax(list[..], maxIdx) && max == list[maxIdx]
  {
    max := 0;
    maxIdx := 0;
    var idx: nat := list.Length - 1;
    while true
      invariant idx < list.Length
      invariant forall k :: idx < k < list.Length ==> list[k] <= max
      invariant idx + 1 < list.Length ==>
        idx < maxIdx < list.Length && max == list[maxIdx] && forall k :: idx < k < maxIdx ==> list[k] < max
      invariant idx + 1 == list.Length ==> max == 0
      decreases idx
    {
      var i := list[idx];
      if i >= max {
        maxIdx := idx;
        max := i;
      }
      if idx == 0 {
        break;
      }
      idx := idx - 1;
    }
  }

  /** The total number of blocks. */
  function Sum(s: seq<nat>): nat
  {
    if s == [] then 0 else s[0] + Sum(s[1..])
  }

  lemma {:induction false} SumUpdate(s: seq<nat>, q: nat, v: nat)
    requires q < |s|
    ensures Sum(s[q := v]) + s[q] == Sum(s) + v
  {
    if q > 0 {
      SumUpdate(s[1..], q - 1, v);
      assert s[q := v][1..] == s[1..][q - 1 := v];
    }
  }

  /** No bank holds more than the total. */
  lemma {:induction false} SlotAtMostSum(s: seq<nat>, i: nat)
    requires i < |s|
    ensures s[i] <= Sum(s)
  {
    if i > 0 {
      SlotAtMostSum(s[1..], i - 1);
    }
  }

  /** The banks after the first j of the blocks from bank p were handed out. */
  function Spread(t: seq<nat>, p: nat, j: nat): (r: seq<nat>)
    requires |t| > 0
    ensures |r| == |t|
  {
    if j == 0 then t
    else
      var r := Spread(t, p, j - 1);
      var q := (p + j) % |t|;
      r[q := r[q] + 1]
  }

  /** Handing out blocks one at a time neither creates nor loses any. */
  lemma {:induction false} SpreadSum(t: seq<nat>, p: nat, j: nat)
    requires |t| > 0
    ensures Sum(Spread(t, p, j)) == Sum(t) + j
  {
    if j > 0 {
      SpreadSum(t, p, j - 1);
      var r := Spread(t, p, j - 1);
      var q := (p + j) % |t|;
      SumUpdate(r, q, r[q] + 1);
    }
  }

  /** How many of the first j blocks handed out from bank p land on bank i. */
  function Hits(p: nat, j: nat, n: nat, i: nat): nat
    requires n > 0
  {
    if j == 0 then 0 else Hits(p, j - 1, n, i) + if (p + j) % n == i then 1 else 0
  }

  lemma {:induction false} SpreadAt(t: seq<nat>, p: nat, j: nat, i: nat)
    requires |t| > 0 && i < |t|
    ensures Spread(t, p, j)[i] == t[i] + Hits(p, j, |t|, i)
  {
    if j > 0 {
      SpreadAt(t, p, j - 1, i);
    }
  }

  /** The block handed out j-th lands on bank i exactly when j - 1 is i - p - 1 modulo n. */
  lemma HitCondition(p: nat, j: nat, n: nat, i: nat)
    requires n > 0 && i < n && j >= 1
    ensures (p + j) % n == i <==> (j - 1) % n == (i - p - 1) % n
  {
    var a, qa := (j - 1) % n, (j - 1) / n;
    var d, qd := (i - p - 1) % n, (i - p - 1) / n;
    assert p + j == i + (qa - qd) * n + (a - d) by {
      assert j - 1 == qa * n + a;
      assert i - p - 1 == qd * n + d;
      Distribute(qa, qd, n);
    }
    if a == d {
      EuclideanUnique(p + j, n, qa - qd, i);
    } else if (p + j) % n == i {
      var q := (p + j) / n;
      assert a - d == (q - qa + qd) * n by {
        assert p + j == q * n + i;
        Distribute4(q, qa, qd, n);
      }
      AbsProduct(q - qa + qd, n);
      assert false;
    }
  }

  lemma Distribute(x: int, y: int, n: int)
    ensures (x - y) * n == x * n - y * n
  {
  }

  lemma Distribute4(x: int, y: int, z: int, n: int)
    ensures (x - y + z) * n == x * n - y * n + z * n
  {
  }

  /** The closed form of a bank's share: m / n, and one more for the d-th bank when d < m % n. */
  function Share(m: nat, n: nat, d: int): nat
    requires n > 0
  {
    m / n + if d < m % n then 1 else 0
  }

  /** Handing out one more block adds one to the d-th bank's share exactly when it is that bank's turn. */
  lemma ShareStep(m: nat, n: nat, d: int)
    requires m >= 1 && n > 0 && 0 <= d < n
    ensures Share(m, n, d) == Share(m - 1, n, d) + if (m - 1) % n == d then 1 else 0
  {
    var j := m - 1;
    var a, q := j % n, j / n;
    assert j == q * n + a;
    if a == n - 1 {
      assert m == (q + 1) * n + 0;
      EuclideanUnique(m, n, q + 1, 0);
    } else {
      EuclideanUnique(m, n, q, a + 1);
    }
  }

  /**
   * Of m blocks handed out from bank p, bank i receives its share m / n, and
   * one more when it lies within the first m % n banks after p.
   */
  lemma {:induction false} HitsClosedForm(p: nat, m: nat, n: nat, i: nat)
    requires n > 0 && i < n
    ensures Hits(p, m, n, i) == Share(m, n, (i - p - 1) % n)
  {
    if m > 0 {
      HitsClosedForm(p, m - 1, n, i);
      HitCondition(p, m, n, i);
      ShareStep(m, n, (i - p - 1) % n);
    }
  }

  /** `f`, one cycle: empty the first fullest bank and spread its blocks over the following ones. */
  function Step(s: seq<nat>): (r: seq<nat>)
    ensures |r| == |s|
  {
    if s == [] then s
    else
      var p := FirstMax(s);
      Spread(s[p := 0], p, s[p])
  }

  /** The configuration after n cycles. */
  function After(s: seq<nat>, n: nat): seq<nat>
  {
    Iterate<seq<nat>>(Step, s, n)
  }

  lemma AfterStep(s: seq<nat>, n: nat)
    ensures After(s, n + 1) == Step(After(s, n))
  {
  }

  /** A cycle keeps the total number of blocks. */
  lemma StepSum(s: seq<nat>)
    ensures Sum(Step(s)) == Sum(s)
  {
    if s != [] {
      var p := FirstMax(s);
      SumUpdate(s, p, 0);
      SpreadSum(s[p := 0], p, s[p]);
    }
  }

  /** Bank by bank: the emptied bank starts from 0, and each bank receives its share of the blocks. */
  lemma StepAt(s: seq<nat>, i: nat)
    requires i < |s|
    ensures Step(s)[i] == (if i == FirstMax(s) then 0 else s[i]) +
      Share(s[FirstMax(s)], |s|, (i - FirstMax(s) - 1) % |s|)
  {
    var p := FirstMax(s);
    var t := s[p := 0];
    assert Step(s) == Spread(t, p, s[p]);
    SpreadAt(t, p, s[p], i);
    assert t[i] == if i == p then 0 else s[i];
    HitsClosedForm(p, s[p], |s|, i);
  }

  lemma {:induction false} AfterKeepsSum(s: seq<nat>, n: nat)
    ensures |After(s, n)| == |s| && Sum(After(s, n)) == Sum(s)
  {
    if n > 0 {
      AfterKeepsSum(s, n - 1);
      StepSum(After(s, n - 1));
    }
  }

  /** With fewer than 2^32 blocks in all no bank ever overflows its u32, however many cycles run. */
  lemma NoOverflow(s: seq<nat>, n: nat, i: nat)
    requires Sum(s) < U32 && i < |s|
    ensures |After(s, n)| == |s| && After(s, n)[i] < U32
  {
    AfterKeepsSum(s, n);
    SlotAtMostSum(After(s, n), i);
  }

  /** `f` on the banks in place. */
  method Redistribute(blocks: array<nat>)
    requires blocks.Length > 0
    modifies blocks
    ensures blocks[..] == Step(old(blocks[..]))
  {
    ghost var s := blocks[..];
    var maxPos, max := Max(blocks);
    FirstMaxUnique(s, maxPos, FirstMax(s));
    blocks[maxPos] := 0;
    assert blocks[..] == s[maxPos := 0];
    Deal(blocks, maxPos, max);
  }

  /** The `while max > 0` loop of `f`: hand out max blocks, one to each following bank in turn. */
  method Deal(blocks: array<nat>, maxPos: nat, total: nat)
    requires blocks.Length > 0
    modifies blocks
    ensures blocks[..] == Spread(old(blocks[..]), maxPos, total)
  {
    ghost var t := blocks[..];
    var max := total;
    var j := 0;
    var len := blocks.Length;
    while max > 0
      invariant max + j == total && j >= 0
      invariant blocks.Length == len == |t|
      invariant blocks[..] == Spread(t, maxPos, j)
    {
      ghost var before := blocks[..];
      var q := (maxPos + j + 1) % len;
      blocks[q] := blocks[q] + 1;
      assert blocks[..] == before[q := before[q] + 1];
      max := max - 1;
      j := j + 1;
    }
  }

  /**
   * f is the cycle `Step`.  The loops of `exec` below are proved about such an
   * f rather than about `Step` itself, which keeps the body of `Step` out of
   * their proofs; the trigger fires only where `Step` is applied.
   */
  ghost predicate IsStep(f: seq<nat> -> seq<nat>)
  {
    forall x {:trigger Step(x)} :: f(x) == Step(x)
  }

  lemma StepIsStep()
    ensures IsStep(Step)
  {
  }

  /** One more cycle on banks that hold the configuration after n cycles. */
  method Advance(blocks: array<nat>, ghost f: seq<nat> -> seq<nat>, ghost s: seq<nat>, ghost n: nat)
    requires IsStep(f) && blocks.Length > 0 && blocks[..] == Iterate(f, s, n)
    modifies blocks
    ensures blocks[..] == Iterate(f, s, n + 1)
  {
    Redistribute(blocks);
  }

  /** y never comes back, however many further steps of f run. */
  ghost predicate NeverReturns(f: seq<nat> -> seq<nat>, y: seq<nat>)
  {
    forall k: nat :: k >= 1 ==> Iterate(f, y, k) != y
  }

  /**
   * The loop of the configurations from s: the configuration after mu cycles
   * comes back after lam cycles and no earlier, and no earlier configuration
   * ever comes back.
   */
  ghost predicate IsLoop(s: seq<nat>, lam: nat, mu: nat)
  {
    ReturnsAfter<seq<nat>>(Step, After(s, mu), lam) &&
    forall m: nat :: m < mu ==> NeverReturns(Step, After(s, m))
  }

  /** The loop is determined by the start configuration. */
  lemma IsLoopUnique(s: seq<nat>, lam: nat, mu: nat, lam': nat, mu': nat)
    requires IsLoop(s, lam, mu) && IsLoop(s, lam', mu')
    ensures lam == lam' && mu == mu'
  {
    var y, y' := After(s, mu), After(s, mu');
    // each loop start comes back, so it is not before the other one
    assert Iterate<seq<nat>>(Step, y, lam) == y && Iterate<seq<nat>>(Step, y', lam') == y';
    assert mu == mu';
    // and each return time is the least one
    assert Iterate<seq<nat>>(Step, y, lam) == y && Iterate<seq<nat>>(Step, y, lam') == y;
  }

  /** A fresh array holding s (`Vec::from` and `clone`). */
  method Load(s: seq<nat>) returns (a: array<nat>)
    ensures fresh(a) && a[..] == s
  {
    a := new nat[|s|](i requires 0 <= i < |s| => s[i]);
  }

  /**
   * The first loop of `exec`: the tortoise takes one cycle per round and the
   * hare two, until they agree after t rounds.  The source loops until they
   * meet, which they do since the configurations are finitely many; here the
   * loop gives up after `fuel` rounds.
   */
  method Meet(ghost f: seq<nat> -> seq<nat>, s: seq<nat>, fuel: nat, ghost mu0: nat, ghost lam0: nat)
    returns (met: bool, hare: array<nat>, ghost t: nat)
    requires IsStep(f) && |s| > 0
    ensures fresh(hare) && hare.Length == |s|
    ensures met ==> t >= 1 && Iterate(f, s, t) == Iterate(f, s, 2 * t) && hare[..] == Iterate(f, s, t)
    ensures OnCycle(f, s, mu0, lam0) && mu0 + lam0 <= fuel ==> met
  {
    ghost var cycles := OnCycle(f, s, mu0, lam0);
    ghost var meeting: nat := 1;
    if cycles {
      meeting := FloydMeetsBy(f, s, mu0, lam0);
    }
    var tortoise := Load(s);
    hare := Load(s);
    Advance(tortoise, f, s, 0);
    Advance(hare, f, s, 0);
    Advance(hare, f, s, 1);
    t := 1;
    var steps: nat := fuel;
    while tortoise[..] != hare[..]
      invariant fresh(tortoise) && fresh(hare) && tortoise != hare
      invariant tortoise.Length == hare.Length == |s|
      invariant t >= 1 && tortoise[..] == Iterate(f, s, t) && hare[..] == Iterate(f, s, 2 * t)
      invariant steps + t - 1 == fuel
      invariant cycles ==> t <= meeting <= mu0 + lam0 && Iterate(f, s, meeting) == Iterate(f, s, 2 * meeting)
      decreases steps
    {
      if steps == 0 {
        return false, hare, t;
      }
      steps := steps - 1;
      Race(f, s, tortoise, hare, t);
      t := t + 1;
    }
    met := true;
  }

  /** A round of the first loop: the tortoise moves one cycle and the hare two. */
  method Race(ghost f: seq<nat> -> seq<nat>, ghost s: seq<nat>, tortoise: array<nat>, hare: array<nat>, ghost t: nat)
    requires IsStep(f) && tortoise != hare && tortoise.Length > 0 && hare.Length > 0
    requires tortoise[..] == Iterate(f, s, t) && hare[..] == Iterate(f, s, 2 * t)
    modifies tortoise, hare
    ensures tortoise[..] == Iterate(f, s, t + 1) && hare[..] == Iterate(f, s, 2 * (t + 1))
  {
    Advance(tortoise, f, s, t);
    Advance(hare, f, s, 2 * t);
    Advance(hare, f, s, 2 * t + 1);
  }

  /** A round of the second loop: both move one cycle, t cycles apart. */
  method Walk(ghost f: seq<nat> -> seq<nat>, ghost s: seq<nat>, tortoise: array<nat>, hare: array<nat>, ghost mu: nat, ghost t: nat)
    requires IsStep(f) && tortoise != hare && tortoise.Length > 0 && hare.Length > 0
    requires tortoise[..] == Iterate(f, s, mu) && hare[..] == Iterate(f, s, mu + t)
    modifies tortoise, hare
    ensures tortoise[..] == Iterate(f, s, mu + 1) && hare[..] == Iterate(f, s, mu + 1 + t)
  {
    Advance(tortoise, f, s, mu);
    Advance(hare, f, s, mu + t);
  }

  /** The configuration after m steps of f is back after t more. */
  ghost predicate Meets(f: seq<nat> -> seq<nat>, s: seq<nat>, t: nat, m: nat)
  {
    Iterate(f, s, m + t) == Iterate(f, s, m)
  }

  /**
   * The second loop: a new tortoise from the start and the hare t cycles
   * ahead, one cycle each per round.  The first index where they agree is the
   * first configuration that ever comes back.
   */
  method FindMu(ghost f: seq<nat> -> seq<nat>, s: seq<nat>, hare: array<nat>, ghost t: nat)
    returns (tortoise: array<nat>, mu: nat)
    requires IsStep(f) && hare.Length == |s| > 0
    requires t >= 1 && Iterate(f, s, t) == Iterate(f, s, 2 * t) && hare[..] == Iterate(f, s, t)
    modifies hare
    ensures fresh(tortoise) && tortoise.Length == |s| && tortoise[..] == Iterate(f, s, mu)
    ensures Meets(f, s, t, mu)
    ensures forall m: nat :: m < mu ==> NeverReturns(f, Iterate(f, s, m))
  {
    tortoise := Load(s);
    assert Iterate(f, s, t + t) == Iterate(f, s, t);
    mu := Chase(f, s, tortoise, hare, t);
    NoEarlierReturn(f, s, t, mu);
  }

  /** The loop of the second phase: both walk until they hold the same configuration. */
  method Chase(ghost f: seq<nat> -> seq<nat>, ghost s: seq<nat>, tortoise: array<nat>, hare: array<nat>, ghost t: nat)
    returns (mu: nat)
    requires IsStep(f) && tortoise != hare && tortoise.Length == hare.Length == |s| > 0
    requires t >= 1 && Iterate(f, s, t + t) == Iterate(f, s, t)
    requires tortoise[..] == Iterate(f, s, 0) && hare[..] == Iterate(f, s, t)
    modifies tortoise, hare
    ensures tortoise[..] == Iterate(f, s, mu) && Meets(f, s, t, mu)
    ensures forall m: nat :: m < mu ==> !Meets(f, s, t, m)
  {
    mu := 0;
    while tortoise[..] != hare[..]
      invariant mu <= t && tortoise[..] == Iterate(f, s, mu) && hare[..] == Iterate(f, s, mu + t)
      invariant forall m: nat :: m < mu ==> !Meets(f, s, t, m)
      decreases t - mu
    {
      assert !Meets(f, s, t, mu);
      Walk(f, s, tortoise, hare, mu, t);
      mu := mu + 1;
    }
  }

  /** Before Floyd's meeting index no value of the orbit comes back at all. */
  lemma NoEarlierReturn(f: seq<nat> -> seq<nat>, s: seq<nat>, t: nat, mu: nat)
    requires t >= 1 && Iterate(f, s, t) == Iterate(f, s, 2 * t)
    requires forall m: nat :: m < mu ==> !Meets(f, s, t, m)
    ensures forall m: nat :: m < mu ==> NeverReturns(f, Iterate(f, s, m))
  {
    forall m: nat, k: nat | m < mu && k >= 1
      ensures Iterate(f, Iterate(f, s, m), k) != Iterate(f, s, m)
    {
      IterateAdd(f, s, m, k);
      assert !Meets(f, s, t, m);
      if Iterate(f, s, m + k) == Iterate(f, s, m) {
        FloydMeeting(f, s, t, m, k);
      }
    }
  }

  /** The third loop: a copy of the meeting configuration runs until it comes back. */
  method FindLam(ghost f: seq<nat> -> seq<nat>, tortoise: array<nat>, ghost t: nat) returns (lam: nat)
    requires IsStep(f) && tortoise.Length > 0
    requires t >= 1 && Iterate(f, tortoise[..], t) == tortoise[..]
    ensures ReturnsAfter(f, tortoise[..], lam)
  {
    ghost var y := tortoise[..];
    lam := 1;
    var hare := Load(tortoise[..]);
    Advance(hare, f, y, 0);
    while tortoise[..] != hare[..]
      invariant fresh(hare) && hare != tortoise && hare.Length == tortoise.Length
      invariant 1 <= lam <= t && hare[..] == Iterate(f, y, lam)
      invariant forall k: nat :: 1 <= k < lam ==> Iterate(f, y, k) != y
      decreases t - lam
    {
      Advance(hare, f, y, lam);
      lam := lam + 1;
    }
  }

  /** `exec`: Floyd's tortoise and hare; None when the first loop runs out of fuel. */
  method Exec(s: seq<nat>, fuel: nat) returns (r: Option<(nat, nat)>)
    requires |s| > 0
    ensures r.Some? ==> IsLoop(s, r.value.0, r.value.1)
    ensures (exists lam: nat, mu: nat :: IsLoop(s, lam, mu) && mu + lam <= fuel) ==> r.Some?
  {
    StepIsStep();
    ghost var lam0: nat, mu0: nat := 1, 0;
    if exists lam: nat, mu: nat :: IsLoop(s, lam, mu) && mu + lam <= fuel {
      lam0, mu0 :| IsLoop(s, lam0, mu0) && mu0 + lam0 <= fuel;
    }
    var met, hare, t := Meet(Step, s, fuel, mu0, lam0);
    if !met {
      return None;
    }
    var tortoise, mu := FindMu(Step, s, hare, t);
    IterateAdd<seq<nat>>(Step, s, mu, t);
    var lam := FindLam(Step, tortoise, t);
    r := Some((lam, mu));
  }

  /** `part1`: how many cycles run before a configuration repeats, lam + mu. */
  method Part1(s: seq<nat>, fuel: nat) returns (r: Option<nat>)
    requires |s| > 0
    ensures r.Some? ==> exists lam: nat, mu: nat :: IsLoop(s, lam, mu) && r.value == lam + mu
    ensures (exists lam: nat, mu: nat :: IsLoop(s, lam, mu) && mu + lam <= fuel) ==> r.Some?
  {
    var e := Exec(s, fuel);
    if e.None? {
      return None;
    }
    r := Some(e.value.0 + e.value.1);
  }

  /** `part2`: the length of the loop, lam. */
  method Part2(s: seq<nat>, fuel: nat) returns (r: Option<nat>)
    requires |s| > 0
    ensures r.Some? ==> exists mu: nat :: IsLoop(s, r.value, mu)
    ensures (exists lam: nat, mu: nat :: IsLoop(s, lam, mu) && mu + lam <= fuel) ==> r.Some?
  {
    var e := Exec(s, fuel);
    if e.None? {
      return None;
    }
    r := Some(e.value.0);
  }

  /** The example: banks 0, 2, 7, 0 and the configurations they go through. */
  const Example: seq<nat> := [0, 2, 7, 0]
  const Loop: seq<seq<nat>> := [[2, 4, 1, 2], [3, 1, 2, 3], [0, 2, 3, 4], [1, 3, 4, 1]]

  /** The cycle from s at a given first maximum p, bank by bank. */
  lemma StepOfFour(s: seq<nat>, p: nat)
    requires |s| == 4 && p < 4 && IsFirstMax(s, p)
    ensures Step(s) == [Slot(s, p, 0), Slot(s, p, 1), Slot(s, p, 2), Slot(s, p, 3)]
  {
    FirstMaxUnique(s, p, FirstMax(s));
    StepAt(s, 0);
    StepAt(s, 1);
    StepAt(s, 2);
    StepAt(s, 3);
  }

  function Slot(s: seq<nat>, p: nat, i: nat): nat
    requires |s| == 4 && p < 4 && i < 4
  {
    (if i == p then 0 else s[i]) + Share(s[p], 4, (i - p - 1) % 4)
  }

  lemma ExampleFirstCycle()
    ensures Step(Example) == Loop[0]
  {
    StepOfFour(Example, 2);
  }

  lemma ExampleSecondCycle()
    ensures Step(Loop[0]) == Loop[1]
  {
    StepOfFour(Loop[0], 1);
  }

  lemma ExampleThirdCycle()
    ensures Step(Loop[1]) == Loop[2]
  {
    StepOfFour(Loop[1], 0);
  }

  lemma ExampleFourthCycle()
    ensures Step(Loop[2]) == Loop[3]
  {
    StepOfFour(Loop[2], 3);
  }

  lemma ExampleFifthCycle()
    ensures Step(Loop[3]) == Loop[0]
  {
    StepOfFour(Loop[3], 2);
  }

  /** Every cycle from the loop goes to the next configuration of the loop. */
  lemma ExampleLoopSteps(f: seq<nat> -> seq<nat>, i: nat)
    requires IsStep(f) && i < 4
    ensures f(Loop[i]) == Loop[(i + 1) % 4]
  {
    var x := Loop[i];
    assert f(x) == Step(x);
    if i == 0 {
      ExampleSecondCycle();
      assert Step(x) == Loop[1];
    } else if i == 1 {
      ExampleThirdCycle();
      assert Step(x) == Loop[2];
    } else if i == 2 {
      ExampleFourthCycle();
      assert Step(x) == Loop[3];
    } else {
      ExampleFifthCycle();
      assert Step(x) == Loop[0];
    }
  }

  /** After k >= 1 cycles the example is at the (k - 1) % 4-th configuration of the loop. */
  lemma {:induction false} ExampleOrbit(f: seq<nat> -> seq<nat>, k: nat)
    requires IsStep(f) && k >= 1
    ensures Iterate(f, Example, k) == Loop[(k - 1) % 4]
  {
    if k == 1 {
      ExampleFirstCycle();
    } else {
      ExampleOrbit(f, k - 1);
      ExampleLoopSteps(f, (k - 2) % 4);
      NextResidue(k - 2, 4);
    }
  }

  lemma NextResidue(j: nat, n: nat)
    requires n > 0
    ensures (j % n + 1) % n == (j + 1) % n
  {
    var q, r := j / n, j % n;
    if r + 1 == n {
      EuclideanUnique(j + 1, n, q + 1, 0);
    } else {
      EuclideanUnique(j + 1, n, q, r + 1);
    }
  }

  /** From the first configuration of the loop, k cycles lead to the (k % 4)-th. */
  lemma ExampleOnLoop(f: seq<nat> -> seq<nat>, k: nat)
    requires IsStep(f)
    ensures Iterate(f, Loop[0], k) == Loop[k % 4]
  {
    if k == 0 {
    } else {
      ExampleFirstCycle();
      IterateAdd(f, Example, 1, k);
      ExampleOrbit(f, 1 + k);
    }
  }

  /** The configuration reached after one cycle comes back after 4, and the start never does. */
  lemma ExampleLoopOf(f: seq<nat> -> seq<nat>)
    requires IsStep(f)
    ensures Iterate(f, Example, 1) == Loop[0]
    ensures ReturnsAfter(f, Loop[0], 4)
    ensures NeverReturns(f, Example)
  {
    ExampleOrbit(f, 1);
    ExampleOnLoop(f, 1);
    ExampleOnLoop(f, 2);
    ExampleOnLoop(f, 3);
    ExampleOnLoop(f, 4);
    forall k: nat | k >= 1
      ensures Iterate(f, Example, k) != Example
    {
      ExampleOrbit(f, k);
    }
  }

  /** The loop starts after mu = 1 cycle and holds lam = 4 configurations. */
  lemma ExampleLoop()
    ensures IsLoop(Example, 4, 1)
  {
    StepIsStep();
    ExampleLoopOf(Step);
  }

  /** So `part1` of the example is 5 and `part2` is 4, whenever `exec` finishes. */
  lemma ExampleAnswers(lam: nat, mu: nat)
    requires IsLoop(Example, lam, mu)
    ensures lam + mu == 5 && lam == 4
  {
    ExampleLoop();
    IsLoopUnique(Example, lam, mu, 4, 1);
  }
}
