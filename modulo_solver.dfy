/**
 * Modular arithmetic of src/modulo_solver.rs: a non-negative `modulo`, the
 * extended Euclidean algorithm, a binary gcd, and the combination of two
 * congruences x = a1 (mod n1), x = a2 (mod n2) into one (the Chinese
 * remainder theorem for moduli that need not be coprime).
 */
module ModuloSolver {
  import opened Wrappers
  import opened RustInt

  // ---------------------------------------------------------------------
  // The reference gcd and what it means.
  // ---------------------------------------------------------------------

  /** Euclid's gcd of two natural numbers; the reference the algorithms are proved against. */
  function Gcd(a: nat, b: nat): (g: nat)
    ensures a > 0 || b > 0 ==> g > 0
    decreases b
  {
    if b == 0 then a else Gcd(b, a % b)
  }

  /** The gcd divides both arguments (the quotients are returned). */
  lemma {:induction false} GcdDivides(a: nat, b: nat) returns (ka: int, kb: int)
    ensures a == ka * Gcd(a, b) && b == kb * Gcd(a, b)
    decreases b
  {
    if b == 0 {
      ka, kb := 1, 0;
    } else {
      var ka', kb' := GcdDivides(b, a % b);
      var g := Gcd(a, b);
      var q := a / b;
      assert a == q * b + a % b;
      ka, kb := q * ka' + kb', ka';
      assert q * b == (q * ka') * g by {
        assert b == ka' * g;
      }
    }
  }

  /** Every common divisor of a and b divides their gcd (the quotient is returned). */
  lemma {:induction false} CommonDivisorDividesGcd(a: nat, b: nat, d: int, ia: int, ib: int) returns (k: int)
    requires a == ia * d && b == ib * d
    ensures Gcd(a, b) == k * d
    decreases b
  {
    if b == 0 {
      k := ia;
    } else {
      var q := a / b;
      assert a % b == (ia - q * ib) * d by {
        assert a % b == a - q * b;
        assert q * b == (q * ib) * d;
      }
      k := CommonDivisorDividesGcd(b, a % b, d, ib, ia - q * ib);
    }
  }

  lemma GcdSymmetric(a: nat, b: nat)
    ensures Gcd(a, b) == Gcd(b, a)
  {
    if a < b {
      EuclideanUnique(a, b, 0, a);
      assert Gcd(a, b) == Gcd(b, a % b);
    } else if b < a {
      EuclideanUnique(b, a, 0, b);
      assert Gcd(b, a) == Gcd(a, b % a);
    }
  }

  lemma GcdSubtract(a: nat, b: nat)
    requires a >= b
    ensures Gcd(a, b) == Gcd(a - b, b)
  {
    if b > 0 {
      EuclideanUnique(a - b, b, a / b - 1, a % b);
    }
  }

  lemma {:induction false} GcdDouble(a: nat, b: nat)
    ensures Gcd(2 * a, 2 * b) == 2 * Gcd(a, b)
    decreases b
  {
    if b > 0 {
      EuclideanUnique(2 * a, 2 * b, a / b, 2 * (a % b));
      GcdDouble(b, a % b);
    }
  }

  lemma OddProduct(x: int, y: int)
    requires x % 2 == 1 && y % 2 == 1
    ensures (x * y) % 2 == 1
  {
    var i, j := x / 2, y / 2;
    assert x * y == 2 * (2 * i * j + i + j) + 1 by {
      assert x == 2 * i + 1 && y == 2 * j + 1;
    }
    EuclideanUnique(x * y, 2, 2 * i * j + i + j, 1);
  }

  lemma EvenProduct(x: int, y: int)
    requires x % 2 == 0
    ensures (x * y) % 2 == 0
  {
    var i := x / 2;
    assert x * y == (i * y) * 2;
    MultipleMod(i * y, 2);
  }

  /** A factor of an odd number is odd. */
  lemma OddFactor(b: int, k: int, g: int)
    requires b % 2 == 1 && b == k * g
    ensures g % 2 == 1 && k % 2 == 1
  {
    if g % 2 == 0 { EvenProduct(g, k); }
    if k % 2 == 0 { EvenProduct(k, g); }
  }

  lemma Double(a: int, k: int, g: int)
    requires a == k * g
    ensures 2 * a == (2 * k) * g
  {
  }

  /** An odd g that divides 2a divides a. */
  lemma HalfFactor(a: int, k: int, g: int) returns (h: int)
    requires 2 * a == k * g && g % 2 == 1
    ensures a == h * g
  {
    if k % 2 == 1 {
      OddProduct(k, g);
      EuclideanUnique(2 * a, 2, a, 0);
      assert false;
    }
    h := k / 2;
    assert k == 2 * h;
    assert 2 * a == 2 * (h * g);
  }

  /** Two positive numbers that are multiples of each other are equal. */
  lemma MutualMultiples(g1: int, g2: int, k1: int, k2: int)
    requires g1 > 0 && g2 > 0 && g1 == k1 * g2 && g2 == k2 * g1
    ensures g1 == g2
  {
    MulAtLeast(k1, g2);
    MulAtLeast(k2, g1);
  }

  /** Halving one argument does not change the gcd when the other is odd. */
  lemma GcdHalve(a: nat, b: nat)
    requires b % 2 == 1
    ensures Gcd(2 * a, b) == Gcd(a, b)
  {
    var g1, g2 := Gcd(2 * a, b), Gcd(a, b);
    var ka2, kb2 := GcdDivides(a, b);
    Double(a, ka2, g2);
    var k1 := CommonDivisorDividesGcd(2 * a, b, g2, 2 * ka2, kb2);
    var ka1, kb1 := GcdDivides(2 * a, b);
    OddFactor(b, kb1, g1);
    var h := HalfFactor(a, ka1, g1);
    var k2 := CommonDivisorDividesGcd(a, b, g1, h, kb1);
    MutualMultiples(g1, g2, k1, k2);
  }

  /** One step of the binary gcd when a is even (so b is odd): halve a. */
  lemma SteinHalveA(a: nat, b: nat)
    requires a > 0 && b > 0 && a % 2 == 0 && (a % 2 == 1 || b % 2 == 1)
    ensures a / 2 > 0 && b % 2 == 1 && Gcd(a / 2, b) == Gcd(a, b)
  {
    GcdHalve(a / 2, b);
  }

  /** One step when a is odd and b even: halve b. */
  lemma SteinHalveB(a: nat, b: nat)
    requires a > 0 && b > 0 && a % 2 == 1 && b % 2 == 0
    ensures b / 2 > 0 && Gcd(a, b / 2) == Gcd(a, b)
  {
    GcdSymmetric(a, b);
    GcdSymmetric(a, b / 2);
    GcdHalve(b / 2, a);
  }

  /** One step when both are odd and a > b: a becomes (a - b) / 2. */
  lemma SteinSubtract(a: nat, b: nat)
    requires b > 0 && a > b && a % 2 == 1 && b % 2 == 1
    ensures (a - b) / 2 > 0 && Gcd((a - b) / 2, b) == Gcd(a, b)
  {
    GcdSubtract(a, b);
    GcdHalve((a - b) / 2, b);
  }

  // ---------------------------------------------------------------------
  // modulo
  // ---------------------------------------------------------------------

  /** `modulo(a, b)`: the truncated remainder, moved up by b when negative, cast to u64. */
  function Modulo(a: int, b: int): (r: nat)
    requires b != 0
    ensures r < U64
    ensures 0 < b <= U64 ==> r < b
  {
    var ret := TRem(a, b);
    WrapU64(if ret < 0 then ret + b else ret)
  }

  /** For a modulus that fits in u64, `modulo` is the mathematical residue in [0, b). */
  lemma ModuloIsResidue(a: int, b: int)
    requires 0 < b <= U64
    ensures Modulo(a, b) == a % b
    ensures Modulo(a, b) < b
  {
    var q, r := TDiv(a, b), TRem(a, b);
    if r < 0 {
      EuclideanUnique(a, b, q - 1, r + b);
    } else {
      EuclideanUnique(a, b, q, r);
    }
  }

  // ---------------------------------------------------------------------
  // The extended Euclidean algorithm.
  // ---------------------------------------------------------------------

  datatype ExtendedGcd = ExtendedGcd(gcd: int, m: int, n: int)

  /** The state of `ExtendedGcd::new`'s loop, run to the end. */
  function EgcdLoop(oldR: int, r: int, oldS: int, s: int, oldT: int, t: int): ExtendedGcd
    decreases Abs(r)
  {
    if r == 0 then ExtendedGcd(oldR, oldS, oldT)
    else
      var q := TDiv(oldR, r);
      EgcdLoop(r, oldR - q * r, s, oldS - q * s, t, oldT - q * t)
  }

  /** `ExtendedGcd::new(a, b)` as a function of its inputs. */
  function ExtendedEuclid(a: int, b: int): ExtendedGcd
  {
    EgcdLoop(a, b, 1, 0, 0, 1)
  }

  lemma Combination(q: int, r: int, s: int, t: int, a: int, b: int)
    requires r == s * a + t * b
    ensures q * r == (q * s) * a + (q * t) * b
  {
  }

  /** Subtracting q times one combination from another gives a combination. */
  lemma BezoutStep(a: int, b: int, oldR: int, r: int, oldS: int, s: int, oldT: int, t: int, q: int)
    requires oldR == oldS * a + oldT * b && r == s * a + t * b
    ensures oldR - q * r == (oldS - q * s) * a + (oldT - q * t) * b
  {
    Combination(q, r, s, t, a, b);
    assert (oldS - q * s) * a == oldS * a - (q * s) * a;
    assert (oldT - q * t) * b == oldT * b - (q * t) * b;
  }

  /** The loop keeps both remainders integer combinations of a and b (Bezout). */
  lemma {:induction false} EgcdLoopBezout(a: int, b: int, oldR: int, r: int, oldS: int, s: int, oldT: int, t: int)
    requires oldR == oldS * a + oldT * b && r == s * a + t * b
    ensures var e := EgcdLoop(oldR, r, oldS, s, oldT, t); e.gcd == e.m * a + e.n * b
    decreases Abs(r)
  {
    if r != 0 {
      var q := TDiv(oldR, r);
      var r2, s2, t2 := oldR - q * r, oldS - q * s, oldT - q * t;
      EgcdStep(oldR, r, oldS, s, oldT, t);
      assert EgcdLoop(oldR, r, oldS, s, oldT, t) == EgcdLoop(r, r2, s, s2, t, t2);
      BezoutStep(a, b, oldR, r, oldS, s, oldT, t, q);
      assert r2 == s2 * a + t2 * b;
      EgcdLoopBezout(a, b, r, r2, s, s2, t, t2);
    }
  }

  /** On natural numbers the loop follows Euclid's remainders. */
  lemma {:induction false} EgcdLoopIsGcd(oldR: nat, r: nat, oldS: int, s: int, oldT: int, t: int)
    ensures EgcdLoop(oldR, r, oldS, s, oldT, t).gcd == Gcd(oldR, r)
    decreases r
  {
    if r != 0 {
      TruncIsEuclideanWhenNonNegative(oldR, r);
      var q := TDiv(oldR, r);
      assert oldR - q * r == oldR % r;
      EgcdLoopIsGcd(r, oldR % r, s, oldS - q * s, t, oldT - q * t);
    }
  }

  /** `gcd == m*a + n*b`, and for natural inputs gcd is the gcd, dividing both. */
  lemma ExtendedEuclidSpec(a: int, b: int)
    ensures var e := ExtendedEuclid(a, b); e.gcd == e.m * a + e.n * b
    ensures a >= 0 && b >= 0 ==> ExtendedEuclid(a, b).gcd == Gcd(a, b)
  {
    EgcdLoopBezout(a, b, a, b, 1, 0, 0, 1);
    if a >= 0 && b >= 0 {
      EgcdLoopIsGcd(a, b, 1, 0, 0, 1);
    }
  }

  /** `ExtendedGcd::new`: the update loop of the extended Euclidean algorithm. */
  method NewExtendedGcd(a: int, b: int) returns (e: ExtendedGcd)
    ensures e == ExtendedEuclid(a, b)
    ensures e.gcd == e.m * a + e.n * b
    ensures a >= 0 && b >= 0 ==> e.gcd == Gcd(a, b)
  {
    var s, oldS, t, oldT, r, oldR := 0, 1, 1, 0, b, a;
    while r != 0
      invariant EgcdLoop(oldR, r, oldS, s, oldT, t) == ExtendedEuclid(a, b)
      decreases Abs(r)
    {
      var q := TDiv(oldR, r);
      EgcdStep(oldR, r, oldS, s, oldT, t);
      var r1, s1, t1 := r, s, t;
      r := oldR - q * r;
      s := oldS - q * s;
      t := oldT - q * t;
      oldR, oldS, oldT := r1, s1, t1;
    }
    e := ExtendedGcd(oldR, oldS, oldT);
    ExtendedEuclidSpec(a, b);
  }

  /** One turn of the loop: the remainder shrinks and the rest of the run is unchanged. */
  lemma EgcdStep(oldR: int, r: int, oldS: int, s: int, oldT: int, t: int)
    requires r != 0
    ensures var q := TDiv(oldR, r);
      Abs(oldR - q * r) < Abs(r) &&
      EgcdLoop(oldR, r, oldS, s, oldT, t) == EgcdLoop(r, oldR - q * r, s, oldS - q * s, t, oldT - q * t)
  {
    assert oldR - TDiv(oldR, r) * r == TRem(oldR, r);
  }

  // ---------------------------------------------------------------------
  // The binary gcd.
  // ---------------------------------------------------------------------

  function Pow2(d: nat): (p: nat)
    ensures p >= 1
  {
    if d == 0 then 1 else 2 * Pow2(d - 1)
  }

  /**
   * `gcd`: Stein's binary algorithm.  The source loops forever when an
   * argument is 0, so both must be positive.
   */
  method BinaryGcd(a0: nat, b0: nat) returns (g: nat)
    requires a0 > 0 && b0 > 0
    ensures g == Gcd(a0, b0)
  {
    var a, b, d := a0, b0, 0;
    while a % 2 == 0 && b % 2 == 0
      invariant a > 0 && b > 0
      invariant Gcd(a, b) * Pow2(d) == Gcd(a0, b0)
      decreases a
    {
      HalveBoth(a, b, d);
      a, b, d := a / 2, b / 2, d + 1;
    }
    var h := SteinLoop(a, b);
    g := h * Pow2(d);
  }

  /** Halving two even numbers halves their gcd, which the extra factor 2 makes up. */
  lemma HalveBoth(a: nat, b: nat, d: nat)
    requires a % 2 == 0 && b % 2 == 0
    ensures Gcd(a / 2, b / 2) * Pow2(d + 1) == Gcd(a, b) * Pow2(d)
  {
    var x := Gcd(a / 2, b / 2);
    GcdDouble(a / 2, b / 2);
    assert Gcd(a, b) == 2 * x;
    assert x * Pow2(d + 1) == x * (2 * Pow2(d));
  }

  /** The second loop of `gcd`: with one of them odd, halve the even one or halve the odd difference. */
  method SteinLoop(a0: nat, b0: nat) returns (g: nat)
    requires a0 > 0 && b0 > 0 && (a0 % 2 == 1 || b0 % 2 == 1)
    ensures g == Gcd(a0, b0)
  {
    var a, b := a0, b0;
    while a != b
      invariant a > 0 && b > 0 && (a % 2 == 1 || b % 2 == 1)
      invariant Gcd(a, b) == Gcd(a0, b0)
      decreases a + b
    {
      if a % 2 == 0 {
        SteinHalveA(a, b);
        a := a / 2;
      } else if b % 2 == 0 {
        SteinHalveB(a, b);
        b := b / 2;
      } else if a > b {
        SteinSubtract(a, b);
        a := (a - b) / 2;
      } else {
        SteinSubtract(b, a);
        GcdSymmetric(a, b);
        GcdSymmetric(a, (b - a) / 2);
        b := (b - a) / 2;
      }
    }
    assert Gcd(a, a) == a by {
      assert a % a == 0;
    }
    g := a;
  }

  // ---------------------------------------------------------------------
  // Congruences.
  // ---------------------------------------------------------------------

  /** x = a (mod n). */
  datatype Congruence = Congruence(a: int, n: int)

  /** `normalize`: brings a into range by truncated division; n is unchanged. */
  function Normalize(c: Congruence): (r: Congruence)
    requires c.n != 0
    ensures r.n == c.n
  {
    var a := c.a - TDiv(c.a, c.n) * c.n;
    var a' := if a < 0 then a + (TDiv(Abs(a), c.n) + 1) * c.n else a;
    Congruence(a', c.n)
  }

  /** For a positive modulus, `normalize` yields the residue of a in [0, n). */
  lemma NormalizeIsResidue(c: Congruence)
    requires c.n > 0
    ensures Normalize(c).a == c.a % c.n
    ensures 0 <= Normalize(c).a < c.n
  {
    var q, r := TDiv(c.a, c.n), TRem(c.a, c.n);
    assert c.a - q * c.n == r;
    if r < 0 {
      TruncIsEuclideanWhenNonNegative(Abs(r), c.n);
      assert TDiv(Abs(r), c.n) == 0;
      EuclideanUnique(c.a, c.n, q - 1, r + c.n);
    } else {
      EuclideanUnique(c.a, c.n, q, r);
    }
  }

  /**
   * `combine`: the congruence satisfied exactly by the common solutions, or None
   * when the residues disagree modulo the gcd.  The source only combines
   * positive moduli.
   */
  function Combine(c1: Congruence, c2: Congruence): (r: Option<Congruence>)
    requires c1.n > 0 && c2.n > 0
    ensures r.Some? ==> r.value.n > 0
  {
    var e := ExtendedEuclid(c1.n, c2.n);
    ExtendedEuclidSpec(c1.n, c2.n);
    if Modulo(c1.a, e.gcd) == Modulo(c2.a, e.gcd) then
      var lcm := TDiv(c1.n * c2.n, e.gcd);
      var a := TDiv(c2.a * e.m * c1.n + c1.a * e.n * c2.n, e.gcd);
      LcmPositive(c1.n, c2.n);
      Some(Normalize(Congruence(a, lcm)))
    else None
  }

  lemma LcmPositive(n1: nat, n2: nat)
    requires n1 > 0 && n2 > 0
    ensures TDiv(n1 * n2, Gcd(n1, n2)) > 0
  {
    var u, v := GcdDivides(n1, n2);
    CombinedModulus(n1, n2, Gcd(n1, n2), u, v);
  }

  /** Equal residues modulo g: the difference is a multiple of g. */
  lemma SameResidue(x: int, y: int, g: int) returns (w: int)
    requires g > 0 && x % g == y % g
    ensures y - x == w * g
  {
    w := y / g - x / g;
  }

  lemma ResidueOfMultiple(x: int, y: int, k: int, n: int)
    requires n > 0 && x - y == k * n
    ensures x % n == y % n
  {
    EuclideanUnique(x, n, y / n + k, y % n);
  }

  /** Cancelling a positive factor. */
  lemma Cancel(x: int, g: int)
    requires g > 0 && x * g == g
    ensures x == 1
  {
    assert (x - 1) * g == 0;
  }

  lemma Cancel2(x: int, y: int, g: int)
    requires g > 0 && x * g == y * g
    ensures x == y
  {
    assert (x - y) * g == 0;
  }

  /** x times (k times g) regrouped. */
  lemma Swap3(x: int, y: int, z: int)
    ensures (x * y) * z == (x * z) * y
  {
  }

  lemma PositiveFactor(x: int, y: int)
    requires y > 0 && x * y > 0
    ensures x > 0
  {
    assert x <= 0 ==> x * y <= 0;
  }

  lemma PositiveProduct(x: int, y: int)
    requires x > 0 && y > 0
    ensures x * y > 0
  {
  }

  lemma Regroup(x: int, k: int, g: int)
    ensures x * (k * g) == (x * k) * g
  {
  }

  lemma Distribute(x: int, y: int, g: int)
    ensures x * g + y * g == (x + y) * g
  {
  }

  /** With n1 = u*g, n2 = v*g and Bezout g = m*n1 + n*n2: m*u + n*v = 1. */
  lemma BezoutQuotients(n1: int, n2: int, g: int, m: int, n: int, u: int, v: int)
    requires g > 0 && n1 == u * g && n2 == v * g && g == m * n1 + n * n2
    ensures m * u + n * v == 1
  {
    Regroup(m, u, g);
    Regroup(n, v, g);
    Distribute(m * u, n * v, g);
    Cancel(m * u + n * v, g);
  }

  /** The numerator `combine` divides by g is an exact multiple of g. */
  lemma CombinedNumerator(a1: int, a2: int, n1: int, n2: int, g: int, m: int, n: int, u: int, v: int)
    requires n1 == u * g && n2 == v * g
    ensures a2 * m * n1 + a1 * n * n2 == (a2 * m * u + a1 * n * v) * g
  {
    Regroup(a2 * m, u, g);
    Regroup(a1 * n, v, g);
    assert a2 * m * u == (a2 * m) * u;
    Distribute(a2 * m * u, a1 * n * v, g);
  }

  /** The combined value x = a2*m*u + a1*n*v differs from a1 by a multiple of n1. */
  lemma CombinedFirst(a1: int, a2: int, g: int, m: int, n: int, u: int, v: int, w: int) returns (k: int)
    requires m * u + n * v == 1 && a2 - a1 == w * g
    ensures (a2 * m * u + a1 * n * v) - a1 == k * (u * g)
  {
    assert a1 == a1 * (m * u) + a1 * (n * v) by {
      assert a1 * (m * u + n * v) == a1 * (m * u) + a1 * (n * v);
    }
    assert a2 * m * u - a1 * (m * u) == (a2 - a1) * (m * u);
    assert (a2 - a1) * (m * u) == (w * g) * (m * u);
    k := w * m;
    assert (w * g) * (m * u) == (w * m) * (u * g);
  }

  /** ... and from a2 by a multiple of n2. */
  lemma CombinedSecond(a1: int, a2: int, g: int, m: int, n: int, u: int, v: int, w: int) returns (k: int)
    requires m * u + n * v == 1 && a2 - a1 == w * g
    ensures (a2 * m * u + a1 * n * v) - a2 == k * (v * g)
  {
    assert a2 == a2 * (m * u) + a2 * (n * v) by {
      assert a2 * (m * u + n * v) == a2 * (m * u) + a2 * (n * v);
    }
    assert a1 * n * v - a2 * (n * v) == (a1 - a2) * (n * v);
    assert (a1 - a2) * (n * v) == (-(w * g)) * (n * v);
    k := -(w * n);
    assert (-(w * g)) * (n * v) == (-(w * n)) * (v * g);
  }

  /** A residue modulo a common multiple L of n keeps the residue modulo n. */
  lemma ResidueThroughMultiple(x: int, lcm: int, n: int, j: int)
    requires n > 0 && lcm > 0 && lcm == j * n
    ensures (x % lcm) % n == x % n
  {
    var q := x / lcm;
    assert x % lcm - x == (-q * j) * n by {
      assert x % lcm - x == -(q * lcm);
      Regroup(q, j, n);
    }
    ResidueOfMultiple(x % lcm, x, -q * j, n);
  }

  /** The lcm n1*n2/g is u*n2 = n1*v, a positive common multiple. */
  lemma CombinedModulus(n1: int, n2: int, g: int, u: int, v: int)
    requires g > 0 && n1 > 0 && n2 > 0 && n1 == u * g && n2 == v * g
    ensures TDiv(n1 * n2, g) == u * n2 && (n1 * n2) / g == u * n2
    ensures u * n2 == v * n1 && u * n2 > 0 && v * n1 > 0
  {
    var un2, vn1 := u * n2, v * n1;
    assert n1 * n2 == un2 * g by {
      Swap3(u, g, n2);
    }
    TDivExact(un2, g);
    MultipleMod(un2, g);
    PositiveFactor(u, g);
    PositiveProduct(u, n2);
    PositiveFactor(v, g);
    PositiveProduct(v, n1);
    assert un2 == vn1 by {
      Swap3(u, g, n2);
      Swap3(v, g, n1);
      Cancel2(un2, vn1, g);
    }
  }

  /** The gcd of two positive numbers is at most the first. */
  lemma GcdAtMost(n1: nat, n2: nat)
    requires n1 > 0 && n2 > 0
    ensures Gcd(n1, n2) <= n1 && Gcd(n1, n2) <= n2
  {
    var g := Gcd(n1, n2);
    var u, v := GcdDivides(n1, n2);
    assert u >= 1 && v >= 1;
    MulAtLeast(u, g);
    MulAtLeast(v, g);
  }

  /**
   * The Chinese remainder theorem as `combine` computes it (one modulus fits in
   * u64, so the gcd does and `modulo` does not wrap): None exactly when a1 and a2 differ
   * modulo g = gcd(n1, n2); otherwise the result's modulus is n1*n2/g, a
   * common multiple of both, and its residue lies in [0, n) and satisfies both
   * congruences.
   */
  lemma CombineSpec(c1: Congruence, c2: Congruence)
    requires 0 < c1.n && 0 < c2.n && (c1.n <= U64 || c2.n <= U64)
    ensures var g := Gcd(c1.n, c2.n);
      Combine(c1, c2).None? <==> c1.a % g != c2.a % g
    ensures Combine(c1, c2).Some? ==>
      var r := Combine(c1, c2).value;
      r.n == c1.n * c2.n / Gcd(c1.n, c2.n) &&
      r.n % c1.n == 0 && r.n % c2.n == 0 &&
      0 <= r.a < r.n &&
      r.a % c1.n == c1.a % c1.n && r.a % c2.n == c2.a % c2.n
  {
    var n1, n2 := c1.n, c2.n;
    var e := ExtendedEuclid(n1, n2);
    ExtendedEuclidSpec(n1, n2);
    var g := e.gcd;
    var u, v := GcdDivides(n1, n2);
    GcdAtMost(n1, n2);
    ModuloIsResidue(c1.a, g);
    ModuloIsResidue(c2.a, g);
    if c1.a % g == c2.a % g {
      var w := SameResidue(c1.a, c2.a, g);
      CombinedModulus(n1, n2, g, u, v);
      var lcm := u * n2;
      MultipleMod(v, n1);
      MultipleMod(u, n2);
      BezoutQuotients(n1, n2, g, e.m, e.n, u, v);
      CombinedNumerator(c1.a, c2.a, n1, n2, g, e.m, e.n, u, v);
      var big := c2.a * e.m * u + c1.a * e.n * v;
      TDivExact(big, g);
      var k1 := CombinedFirst(c1.a, c2.a, g, e.m, e.n, u, v, w);
      var k2 := CombinedSecond(c1.a, c2.a, g, e.m, e.n, u, v, w);
      ResidueOfMultiple(big, c1.a, k1, n1);
      ResidueOfMultiple(big, c2.a, k2, n2);
      NormalizeIsResidue(Congruence(big, lcm));
      ResidueThroughMultiple(big, lcm, n1, v);
      ResidueThroughMultiple(big, lcm, n2, u);
    }
  }

  /** Two congruences whose residues differ modulo the gcd have no common solution. */
  lemma IncompatibleHasNoSolution(c1: Congruence, c2: Congruence, x: int)
    requires c1.n > 0 && c2.n > 0
    requires c1.a % Gcd(c1.n, c2.n) != c2.a % Gcd(c1.n, c2.n)
    ensures !(x % c1.n == c1.a % c1.n && x % c2.n == c2.a % c2.n)
  {
    var g := Gcd(c1.n, c2.n);
    var u, v := GcdDivides(c1.n, c2.n);
    if x % c1.n == c1.a % c1.n && x % c2.n == c2.a % c2.n {
      var w1 := SameResidue(x, c1.a, c1.n);
      var w2 := SameResidue(x, c2.a, c2.n);
      Regroup(w1, u, g);
      Regroup(w2, v, g);
      ResidueOfMultiple(c1.a, x, w1 * u, g);
      ResidueOfMultiple(c2.a, x, w2 * v, g);
      assert false;
    }
  }
}
