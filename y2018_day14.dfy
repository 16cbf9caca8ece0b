/**
 * 2018 day 14 (y2018/src/bin/day14.rs): the hot chocolate scoreboard.  Two
 * elves combine their current recipes, the digits of the sum are appended,
 * and each elf steps forward one plus its recipe's score around the board.
 */
module Y2018Day14 {

  /** A recipe's score: one decimal digit. */
  type Digit = x: nat | x < 10

  /** The decimal digits of v, most significant first; 0 has the single digit 0. */
  function DigitsOf(v: nat): (d: seq<Digit>)
    ensures |d| > 0
    ensures v >= 10 ==> d[0] != 0
  {
    if v < 10 then [v] else DigitsOf(v / 10) + [v % 10]
  }

  function Pow10(k: nat): (p: nat)
    ensures p > 0
  {
    if k == 0 then 1 else 10 * Pow10(k - 1)
  }

  /** `recombine`: the digit at place p from the end weighs 10^p. */
  function Recombine(v: seq<nat>): (n: nat)
    ensures (forall i :: 0 <= i < |v| ==> v[i] < 10) ==> n < Pow10(|v|)
  {
    if v == [] then 0
    else
      var p := Pow10(|v| - 1);
      assert v[0] < 10 ==> v[0] * p <= 9 * p;
      v[0] * p + Recombine(v[1..])
  }

  /** Appending a digit shifts the others up one place. */
  lemma {:induction false} RecombineSnoc(v: seq<nat>, d: nat)
    ensures Recombine(v + [d]) == 10 * Recombine(v) + d
    decreases |v|
  {
    if v == [] {
      assert [] + [d] == [d];
      assert [d][1..] == [];
    } else {
      assert (v + [d])[1..] == v[1..] + [d];
      RecombineSnoc(v[1..], d);
      assert Pow10(|v|) == 10 * Pow10(|v| - 1);
      assert v[0] * Pow10(|v|) == 10 * (v[0] * Pow10(|v| - 1));
    }
  }

  /** `recombine` undoes `digits`. */
  lemma {:induction false} RecombineDigits(v: nat)
    ensures Recombine(DigitsOf(v)) == v
  {
    if v < 10 {
      assert [v][1..] == [];
    } else {
      RecombineDigits(v / 10);
      RecombineSnoc(DigitsOf(v / 10), v % 10);
    }
  }

  /** `digits`: the remainders by 10 pushed least significant first, then reversed. */
  method Digits(v: nat) returns (o: seq<Digit>)
    ensures o == DigitsOf(v)
  {
    var rest := v;
    var low: seq<Digit> := [];
    while true
      invariant DigitsOf(rest) + low == DigitsOf(v)
      decreases rest
    {
      var d := rest % 10;
      if rest < 10 {
        low := [d] + low;
        break;
      }
      assert DigitsOf(rest) == DigitsOf(rest / 10) + [d];
      low := [d] + low;
      rest := rest / 10;
    }
    o := low;
  }

  /** The `digits_*` and `recombine_*` tests. */
  lemma DigitsExamples()
    ensures DigitsOf(3232) == [3, 2, 3, 2]
    ensures DigitsOf(234324) == [2, 3, 4, 3, 2, 4]
    ensures Recombine([0, 1, 2, 3]) == 123
    ensures Recombine([5, 6, 2, 3]) == 5623
  {
    assert DigitsOf(3) == [3];
    assert DigitsOf(32) == [3, 2];
    assert DigitsOf(323) == [3, 2, 3];
    assert DigitsOf(23) == [2, 3];
    assert DigitsOf(234) == [2, 3, 4];
    assert DigitsOf(2343) == [2, 3, 4, 3];
    assert DigitsOf(23432) == [2, 3, 4, 3, 2];
    assert Recombine([3]) == 3 && Recombine([2, 3]) == 23 && Recombine([1, 2, 3]) == 123;
    assert Recombine([6, 2, 3]) == 623;
  }

  // ---------------------------------------------------------------------
  // The scoreboard.

  datatype Board = Board(recipes: seq<Digit>, a: nat, b: nat)

  /** Both elves stand on recipes. */
  predicate Valid(s: Board)
  {
    |s.recipes| >= 2 && s.a < |s.recipes| && s.b < |s.recipes|
  }

  const Start: Board := Board([3, 7], 0, 1)

  /** One round: append the digits of the two scores' sum, then each elf moves on 1 + its score. */
  function Step(s: Board): (t: Board)
    requires Valid(s)
    ensures Valid(t)
  {
    var recipes := s.recipes + DigitsOf(s.recipes[s.a] as nat + s.recipes[s.b]);
    Board(recipes, (s.a + recipes[s.a] + 1) % |recipes|, (s.b + recipes[s.b] + 1) % |recipes|)
  }

  /** A round appends one or two digits and keeps what was there. */
  lemma StepGrows(s: Board)
    requires Valid(s)
    ensures var t := Step(s); |s.recipes| < |t.recipes| <= |s.recipes| + 2 && t.recipes[..|s.recipes|] == s.recipes
  {
    var sum: nat := s.recipes[s.a] as nat + s.recipes[s.b];
    if sum >= 10 {
      assert DigitsOf(sum) == DigitsOf(sum / 10) + [sum % 10] && sum / 10 < 10;
    }
    assert Step(s).recipes == s.recipes + DigitsOf(sum);
  }

  /** The board after k rounds. */
  function Steps(s: Board, k: nat): (t: Board)
    requires Valid(s)
    ensures Valid(t)
  {
    if k == 0 then s else Step(Steps(s, k - 1))
  }

  /** Later boards extend earlier ones: the recipe sequence never changes once written. */
  lemma {:induction false} StepsExtend(s: Board, i: nat, j: nat)
    requires Valid(s) && i <= j
    ensures |Steps(s, i).recipes| <= |Steps(s, j).recipes|
    ensures Steps(s, j).recipes[..|Steps(s, i).recipes|] == Steps(s, i).recipes
    decreases j
  {
    if i < j {
      StepsExtend(s, i, j - 1);
      var u, v := Steps(s, i).recipes, Steps(s, j - 1).recipes;
      StepGrows(Steps(s, j - 1));
      var w := Steps(s, j).recipes;
      assert |u| <= |v| < |w|;
      assert w[..|v|] == v && v[..|u|] == u;
      assert w[..|u|] == w[..|v|][..|u|];
    }
  }

  /** Each round adds at least one recipe. */
  lemma {:induction false} StepsLength(s: Board, k: nat)
    requires Valid(s)
    ensures |Steps(s, k).recipes| >= |s.recipes| + k
  {
    if k > 0 {
      StepsLength(s, k - 1);
      StepGrows(Steps(s, k - 1));
    }
  }

  /** `part1`'s loop: rounds until the board is longer than the limit. */
  function Grow(s: Board, limit: nat): (t: Board)
    requires Valid(s)
    ensures Valid(t) && |t.recipes| > limit
    decreases limit + 1 - |s.recipes|
  {
    StepGrows(s);
    if |s.recipes| > limit then s else Grow(Step(s), limit)
  }

  /** Growing is a number of rounds. */
  lemma {:induction false} GrowIsSteps(s: Board, limit: nat) returns (k: nat)
    requires Valid(s)
    ensures Grow(s, limit) == Steps(s, k)
    decreases limit + 1 - |s.recipes|
  {
    StepGrows(s);
    if |s.recipes| > limit {
      k := 0;
    } else {
      var k' := GrowIsSteps(Step(s), limit);
      StepsShift(s, k');
      k := k' + 1;
    }
  }

  lemma {:induction false} StepsShift(s: Board, k: nat)
    requires Valid(s)
    ensures Steps(Step(s), k) == Steps(s, k + 1)
  {
    if k > 0 {
      StepsShift(s, k - 1);
    }
  }

  /** One round on the scoreboard, as the loop bodies do it. */
  method Round(recipes: seq<Digit>, a: nat, b: nat) returns (recipes': seq<Digit>, a': nat, b': nat)
    requires Valid(Board(recipes, a, b))
    ensures Board(recipes', a', b') == Step(Board(recipes, a, b))
  {
    var sum: nat := recipes[a] as nat + recipes[b];
    var digits := Digits(sum);
    recipes' := recipes + digits;
    a' := a + recipes'[a] + 1;
    a' := a' % |recipes'|;
    b' := b + recipes'[b] + 1;
    b' := b' % |recipes'|;
  }

  /**
   * `part1`: the ten recipes after the first `recombine(count)` ones.  They
   * are the recipes of every long enough board: rounds never rewrite them.
   */
  method Part1(count: seq<nat>) returns (r: seq<Digit>)
    ensures var n := Recombine(count);
      |r| == 10 && |Grow(Start, n + 20).recipes| > n + 20 && r == Grow(Start, n + 20).recipes[n..n + 10]
  {
    var n := Recombine(count);
    var recipes: seq<Digit>, a, b := [3, 7], 0, 1;
    while |recipes| <= n + 20
      invariant Valid(Board(recipes, a, b))
      invariant Grow(Board(recipes, a, b), n + 20) == Grow(Start, n + 20)
      decreases n + 21 - |recipes|
    {
      StepGrows(Board(recipes, a, b));
      recipes, a, b := Round(recipes, a, b);
    }
    r := recipes[n..n + 10];
  }

  /** Whatever number of rounds is taken, the answer of `part1` reads the same ten recipes. */
  lemma Part1Stable(n: nat, k: nat)
    requires |Steps(Start, k).recipes| >= n + 10
    ensures |Grow(Start, n + 20).recipes| > n + 20
    ensures Steps(Start, k).recipes[n..n + 10] == Grow(Start, n + 20).recipes[n..n + 10]
  {
    var g := GrowIsSteps(Start, n + 20);
    if k <= g {
      StepsExtend(Start, k, g);
    } else {
      StepsExtend(Start, g, k);
    }
  }

  // ---------------------------------------------------------------------
  // Part 2.

  datatype Search = Found(index: nat) | Panicked | OutOfFuel

  /** The pattern occurs at idx of the recipes. */
  predicate MatchAt(recipes: seq<Digit>, pattern: seq<nat>, idx: nat)
  {
    idx + |pattern| <= |recipes| && recipes[idx..idx + |pattern|] == pattern
  }

  /** The `as u8` of the input values. */
  function AsBytes(input: seq<nat>): (p: seq<nat>)
    ensures |p| == |input| && forall i :: 0 <= i < |input| ==> p[i] == input[i] % 256
  {
    if input == [] then [] else [input[0] % 256] + AsBytes(input[1..])
  }

  /**
   * The scan of `part2` when the length is a multiple of 1000: the windows
   * from `lastCheck` on, first match wins.  `windows(0)` panics.
   */
  method Scan(recipes: seq<Digit>, pattern: seq<nat>, lastCheck: nat) returns (r: Search)
    ensures r.Panicked? <==> pattern == []
    ensures r.Found? ==> lastCheck <= r.index && MatchAt(recipes, pattern, r.index)
    ensures r.Found? ==> forall i :: lastCheck <= i < r.index ==> !MatchAt(recipes, pattern, i)
    ensures r.OutOfFuel? ==> forall i :: lastCheck <= i ==> !MatchAt(recipes, pattern, i)
  {
    if pattern == [] {
      return Panicked;
    }
    var k := |pattern|;
    if |recipes| < k {
      return OutOfFuel;
    }
    var idx := lastCheck;
    while idx + k <= |recipes|
      invariant lastCheck <= idx
      invariant forall i :: lastCheck <= i < idx ==> !MatchAt(recipes, pattern, i)
      decreases |recipes| - idx
    {
      if recipes[idx..idx + k] == pattern {
        return Found(idx);
      }
      idx := idx + 1;
    }
    return OutOfFuel;
  }

  /** Round k ends with a scan of the windows: the recipes then number a multiple of 1000. */
  predicate ChecksAt(k: nat)
  {
    k >= 1 && |Steps(Start, k).recipes| % 1000 == 0
  }

  /** `last_check`: 0 before the first scan, afterwards the length at which a scan ran. */
  ghost predicate ScanLength(m: nat)
  {
    m == 0 || exists k: nat :: ChecksAt(k) && |Steps(Start, k).recipes| == m
  }

  /**
   * The window of n recipes at i is never looked at: a scan ran when the
   * board ended inside it, so that scan could not see the whole window, and
   * every later scan resumes after its start.  A multiple of 1000 that the
   * board jumped over (999 to 1001 recipes in one round) holds no scan and
   * exempts nothing.
   */
  ghost predicate Skipped(i: nat, n: nat)
  {
    exists k: nat :: ChecksAt(k) && i < |Steps(Start, k).recipes| < i + n
  }

  /** A window starting before `last_check` and ending after it is skipped. */
  lemma SkippedAcross(i: nat, n: nat, m: nat)
    requires ScanLength(m) && i < m < i + n
    ensures Skipped(i, n)
  {
    var k: nat :| ChecksAt(k) && |Steps(Start, k).recipes| == m;
  }

  /** A window inside a prefix reads the same in the longer sequence. */
  lemma MatchAtLonger(s: seq<Digit>, t: seq<Digit>, p: seq<nat>, i: nat)
    requires |s| <= |t| && t[..|s|] == s && i + |p| <= |s|
    ensures MatchAt(s, p, i) <==> MatchAt(t, p, i)
  {
    assert forall k :: i <= k < i + |p| ==> t[k] == t[..|s|][k];
    assert t[i..i + |p|] == s[i..i + |p|];
  }

  /**
   * If no window before idx that is not skipped shows the pattern on one
   * board, no such window shows it on any board: the answer comes first on
   * every board.
   */
  lemma FoundIsFirst(p: seq<nat>, rounds: nat, idx: nat, j: nat, i: nat)
    requires MatchAt(Steps(Start, rounds).recipes, p, idx)
    requires forall i': nat :: i' < idx && !Skipped(i', |p|) ==> !MatchAt(Steps(Start, rounds).recipes, p, i')
    requires MatchAt(Steps(Start, j).recipes, p, i) && !Skipped(i, |p|)
    ensures idx <= i
  {
    var u, v := Steps(Start, rounds).recipes, Steps(Start, j).recipes;
    if j <= rounds {
      StepsExtend(Start, j, rounds);
      MatchAtLonger(v, u, p, i);
    } else {
      StepsExtend(Start, rounds, j);
      assert i < idx ==> i + |p| <= |u|;
      assert i < idx ==> MatchAt(u, p, i) by {
        if i < idx {
          MatchAtLonger(u, v, p, i);
        }
      }
    }
  }

  /** Every window wholly before `upto` that is not skipped has been looked at, and none matched. */
  ghost predicate ScannedUpTo(recipes: seq<Digit>, pattern: seq<nat>, upto: nat)
  {
    pattern != [] ==>
      forall i: nat :: i + |pattern| <= upto && !Skipped(i, |pattern|) ==> !MatchAt(recipes, pattern, i)
  }

  /** Every scan in the first k rounds stopped at `upto` or before. */
  ghost predicate ScansBelow(k: nat, upto: nat)
  {
    forall j: nat :: 1 <= j <= k && ChecksAt(j) ==> |Steps(Start, j).recipes| <= upto
  }

  /** No scan in the first k rounds. */
  ghost predicate NoScans(k: nat)
  {
    forall j: nat :: 1 <= j <= k ==> !ChecksAt(j)
  }

  lemma ScansBelowNext(k: nat, upto: nat, upto': nat)
    requires ScansBelow(k, upto) && upto <= upto'
    requires ChecksAt(k + 1) ==> |Steps(Start, k + 1).recipes| <= upto'
    ensures ScansBelow(k + 1, upto')
  {
  }

  lemma NoScansNext(k: nat)
    requires NoScans(k) && !ChecksAt(k + 1)
    ensures NoScans(k + 1)
  {
  }

  lemma ScannedLonger(s: seq<Digit>, t: seq<Digit>, pattern: seq<nat>, upto: nat)
    requires upto <= |s| <= |t| && t[..|s|] == s && ScannedUpTo(s, pattern, upto)
    ensures ScannedUpTo(t, pattern, upto)
  {
    forall i: nat | i + |pattern| <= upto
      ensures MatchAt(s, pattern, i) <==> MatchAt(t, pattern, i)
    {
      MatchAtLonger(s, t, pattern, i);
    }
  }

  /** A scan from `last_check` that finds nothing extends what has been scanned to the whole board. */
  lemma ScanAdvances(recipes: seq<Digit>, pattern: seq<nat>, lastCheck: nat)
    requires ScannedUpTo(recipes, pattern, lastCheck) && ScanLength(lastCheck) && pattern != []
    requires forall i: nat :: lastCheck <= i ==> !MatchAt(recipes, pattern, i)
    ensures ScannedUpTo(recipes, pattern, |recipes|)
  {
    forall i: nat | i + |pattern| <= |recipes|
      ensures !Skipped(i, |pattern|) ==> !MatchAt(recipes, pattern, i)
    {
      if i < lastCheck < i + |pattern| {
        SkippedAcross(i, |pattern|, lastCheck);
      }
    }
  }

  /** The first match of a scan from `last_check` is the first window not skipped that matches. */
  lemma ScanFindsFirst(recipes: seq<Digit>, pattern: seq<nat>, lastCheck: nat, idx: nat)
    requires ScannedUpTo(recipes, pattern, lastCheck) && ScanLength(lastCheck) && pattern != []
    requires forall i: nat :: lastCheck <= i < idx ==> !MatchAt(recipes, pattern, i)
    ensures forall i: nat :: i < idx && !Skipped(i, |pattern|) ==> !MatchAt(recipes, pattern, i)
  {
    forall i: nat | i < idx
      ensures !Skipped(i, |pattern|) ==> !MatchAt(recipes, pattern, i)
    {
      if i < lastCheck < i + |pattern| {
        SkippedAcross(i, |pattern|, lastCheck);
      }
    }
  }

  /**
   * A window that starts at or after `last_check` and fits on the board of
   * the scan that finds it is not skipped: earlier scans ended before it,
   * and this and later boards hold all of it.
   */
  lemma FoundNotSkipped(n: nat, rounds: nat, idx: nat, lastCheck: nat)
    requires rounds >= 1 && ScansBelow(rounds - 1, lastCheck) && lastCheck <= idx
    requires idx + n <= |Steps(Start, rounds).recipes|
    ensures !Skipped(idx, n)
  {
    forall k: nat | ChecksAt(k)
      ensures !(idx < |Steps(Start, k).recipes| < idx + n)
    {
      if rounds <= k {
        StepsExtend(Start, rounds, k);
      }
    }
  }

  /** When every scan so far found nothing, no scanned board shows the pattern in a window not skipped. */
  lemma NothingFound(k: nat, pattern: seq<nat>, lastCheck: nat)
    requires pattern != [] && ScannedUpTo(Steps(Start, k).recipes, pattern, lastCheck) && ScansBelow(k, lastCheck)
    ensures forall j: nat, i: nat :: 1 <= j <= k && ChecksAt(j) && !Skipped(i, |pattern|) ==>
      !MatchAt(Steps(Start, j).recipes, pattern, i)
  {
    forall j: nat, i: nat | 1 <= j <= k && ChecksAt(j) && !Skipped(i, |pattern|) && i + |pattern| <= |Steps(Start, j).recipes|
      ensures !MatchAt(Steps(Start, j).recipes, pattern, i)
    {
      StepsExtend(Start, j, k);
      MatchAtLonger(Steps(Start, j).recipes, Steps(Start, k).recipes, pattern, i);
    }
  }

  /**
   * `part2`, for at most `fuel` rounds (the source loops until found).  A
   * returned index is where a scan found the input's digits in a window it
   * does not skip, and no earlier window that is not skipped shows them; any
   * window not skipped that shows them at a scan within the fuel is found, at
   * that index or earlier.
   */
  method Part2(input: seq<nat>, fuel: nat) returns (r: Search, ghost rounds: nat)
    ensures r.Panicked? ==> input == [] && rounds <= fuel && ChecksAt(rounds)
    ensures input == [] && (exists k :: 1 <= k <= fuel && ChecksAt(k)) ==> r.Panicked?
    ensures r.Found? ==> rounds <= fuel && ChecksAt(rounds) && MatchAt(Steps(Start, rounds).recipes, AsBytes(input), r.index)
    ensures r.Found? ==> !Skipped(r.index, |input|)
    ensures r.Found? ==> forall i: nat :: i < r.index && !Skipped(i, |input|) ==>
      !MatchAt(Steps(Start, rounds).recipes, AsBytes(input), i)
    ensures input != [] ==> forall k: nat, i: nat ::
      (1 <= k <= fuel && ChecksAt(k) && !Skipped(i, |input|) && MatchAt(Steps(Start, k).recipes, AsBytes(input), i)) ==>
      r.Found? && r.index <= i
  {
    var pattern := AsBytes(input);
    var recipes: seq<Digit>, a, b := [3, 7], 0, 1;
    var lastCheck: nat := 0;
    rounds := 0;
    for k := 0 to fuel
      invariant Board(recipes, a, b) == Steps(Start, k)
      invariant lastCheck <= |recipes| && ScanLength(lastCheck)
      invariant ScannedUpTo(recipes, pattern, lastCheck) && ScansBelow(k, lastCheck)
      invariant input == [] ==> NoScans(k)
    {
      ghost var before := recipes;
      StepGrows(Board(recipes, a, b));
      recipes, a, b := Round(recipes, a, b);
      ScannedLonger(before, recipes, pattern, lastCheck);
      if |recipes| % 1000 == 0 {
        assert ChecksAt(k + 1);
        var s := Scan(recipes, pattern, lastCheck);
        if !s.OutOfFuel? {
          rounds := k + 1;
          if s.Found? {
            FoundNotSkipped(|pattern|, rounds, s.index, lastCheck);
            ScanFindsFirst(recipes, pattern, lastCheck, s.index);
            forall j: nat, i: nat | 1 <= j <= fuel && ChecksAt(j) && !Skipped(i, |pattern|) && MatchAt(Steps(Start, j).recipes, pattern, i)
              ensures s.index <= i
            {
              FoundIsFirst(pattern, rounds, s.index, j, i);
            }
          }
          r := s;
          return;
        }
        ScanAdvances(recipes, pattern, lastCheck);
        ScansBelowNext(k, lastCheck, |recipes|);
        assert ScanLength(|recipes|) by {
          assert ChecksAt(k + 1) && |Steps(Start, k + 1).recipes| == |recipes|;
        }
        lastCheck := |recipes|;
      } else {
        assert !ChecksAt(k + 1);
        ScansBelowNext(k, lastCheck, lastCheck);
      }
      if input == [] {
        NoScansNext(k);
      }
    }
    if pattern != [] {
      NothingFound(fuel, pattern, lastCheck);
    }
    r := OutOfFuel;
  }
}
