/**
 * 2018 day 5, the version in y2018/src/bin/day05.rs: `react` scans the
 * polymer from the right and drains each reacting pair in place, and
 * repeats passes until one removes nothing.
 */
module Y2018Day05Drain {
  import opened Polymer

  /**
   * The inner loop of a pass from index idx down: the pair ending at idx is
   * drained if it reacts, and the scan goes on two places further left
   * (or stops when the pair was at the front); otherwise one place left.
   */
  function Back(s: string, idx: nat): (r: string)
    requires idx < |s|
    ensures |r| <= |s|
    decreases idx
  {
    if idx < 1 then s
    else if Reacts(s[idx], s[idx - 1]) then
      if idx == 1 then Remove(s, 0) else Back(Remove(s, idx - 1), idx - 2)
    else Back(s, idx - 1)
  }

  /** What a pass drains are reactions. */
  lemma {:induction false} BackReduces(s: string, idx: nat)
    requires idx < |s|
    ensures Reduces(s, Back(s, idx))
    decreases idx
  {
    ReducesRefl(s);
    if idx >= 1 {
      if Reacts(s[idx], s[idx - 1]) {
        ReactsSymmetric(s[idx], s[idx - 1]);
        ReducesStep(s, s, idx - 1);
        if idx > 1 {
          BackReduces(Remove(s, idx - 1), idx - 2);
          ReducesTrans(s, Remove(s, idx - 1), Back(Remove(s, idx - 1), idx - 2));
        }
      } else {
        BackReduces(s, idx - 1);
      }
    }
  }

  /** A pass that drains nothing has seen every pair up to idx not react. */
  lemma {:induction false} BackUnchanged(s: string, idx: nat)
    requires idx < |s| && |Back(s, idx)| == |s|
    ensures Back(s, idx) == s
    ensures forall i :: 0 <= i < idx ==> !Reacts(s[i], s[i + 1])
    decreases idx
  {
    if idx >= 1 {
      if Reacts(s[idx], s[idx - 1]) {
        assert false;
      }
      BackUnchanged(s, idx - 1);
      ReactsSymmetric(s[idx], s[idx - 1]);
    }
  }

  /** The outer loop: passes until one leaves the length unchanged; short polymers are returned unchanged. */
  function React(s: string): (r: string)
    ensures |r| <= |s|
    ensures |s| < 2 ==> r == s
    decreases |s|
  {
    if |s| < 2 then s
    else
      var t := Back(s, |s| - 1);
      if |t| == |s| then t else React(t)
  }

  /** The result of `react` is a reduction of its input. */
  lemma {:induction false} ReactReduces(s: string)
    ensures Reduces(s, React(s))
    decreases |s|
  {
    if |s| < 2 {
      ReducesRefl(s);
    } else {
      var t := Back(s, |s| - 1);
      BackReduces(s, |s| - 1);
      if |t| != |s| {
        ReactReduces(t);
        ReducesTrans(s, t, React(t));
      }
    }
  }

  /** No reacting pair is left: the loop only stops after a pass that removes nothing. */
  lemma {:induction false} ReactStable(s: string)
    ensures Stable(React(s))
    decreases |s|
  {
    if |s| >= 2 {
      var t := Back(s, |s| - 1);
      if |t| == |s| {
        BackUnchanged(s, |s| - 1);
      } else {
        ReactStable(t);
      }
    }
  }

  /** `react` computes the reference reduction; so its result has even length difference and never grows. */
  lemma ReactIsNorm(s: string)
    ensures React(s) == Norm(s)
    ensures |React(s)| <= |s| && (|s| - |React(s)|) % 2 == 0
  {
    ReactReduces(s);
    ReactStable(s);
    UniqueResult(s, React(s));
    ReducesLength(s, React(s));
  }

  /** `react`, draining the String in place. */
  method ReactInPlace(s: string) returns (output: string)
    ensures output == React(s)
  {
    var input := s;
    var madeProgress := true;
    while madeProgress
      invariant madeProgress ==> React(input) == React(s)
      invariant !madeProgress ==> input == React(s)
      decreases if madeProgress then |input| + 1 else 0
    {
      var start := |input|;
      if |input| < 2 {
        return input;
      }
      input := Pass(input);
      madeProgress := start != |input|;
    }
    return input;
  }

  /** One pass of the inner `while`, on the drained string. */
  method Pass(s: string) returns (input: string)
    requires |s| >= 2
    ensures input == Back(s, |s| - 1)
  {
    input := s;
    var idx: nat := |input| - 1;
    while idx >= 1
      invariant idx < |input| && Back(input, idx) == Back(s, |s| - 1)
      decreases idx
    {
      var a := input[idx];
      var b := input[idx - 1];
      if ToLower(a) == ToLower(b) {
        var aUpper := IsUpper(a);
        var bUpper := IsUpper(b);
        if aUpper != bUpper {
          input := input[..idx - 1] + input[idx + 1..];
          if idx == 1 {
            break;
          } else {
            idx := idx - 2;
            continue;
          }
        }
      }
      idx := idx - 1;
    }
  }

  /** `part1`: the length of the fully reacted polymer. */
  method Part1(input: string) returns (n: nat)
    ensures n == |Norm(input)|
  {
    var reacted := ReactInPlace(input);
    ReactIsNorm(input);
    n := |reacted|;
  }

  /** `part2`: the shortest reaction once one unit type is removed, starting from the length of the input. */
  method Part2(input: string) returns (best: nat)
    ensures best == Best(input, 26)
  {
    best := |input|;
    for unit := 0 to 26
      invariant best == Best(input, unit)
    {
      var stripped := Strip(input, Letter(unit));
      var reacted := ReactInPlace(stripped);
      ReactIsNorm(stripped);
      best := Min(best, |reacted|);
    }
  }
}
