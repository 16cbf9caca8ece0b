/**
 * 2018 day 5, the version in y2018/src/day05.rs: each pass of `react`
 * copies the polymer left to right into a new string, skipping every
 * reacting pair it meets, and passes repeat until one copies everything.
 */
module Y2018Day05Rebuild {
  import opened Polymer

  /** The test of the pass: an upper-case unit followed or preceded by its lower-case letter. */
  predicate Cancels(a: char, b: char)
  {
    (IsUpper(a) && !IsUpper(b) && ToLower(a) == b) || (IsUpper(b) && !IsUpper(a) && ToLower(b) == a)
  }

  /** The test is the same reaction as the other version's `eq_ignore_ascii_case` and case test. */
  lemma CancelsIsReacts(a: char, b: char)
    ensures Cancels(a, b) <==> Reacts(a, b)
  {
  }

  /** What a pass copies from index idx on. */
  function Forward(s: string, idx: nat): (r: string)
    requires idx <= |s|
    ensures |r| <= |s| - idx
    decreases |s| - idx
  {
    if idx + 1 < |s| then
      if Cancels(s[idx], s[idx + 1]) then Forward(s, idx + 2) else [s[idx]] + Forward(s, idx + 1)
    else s[idx..]
  }

  /** The pairs a pass skips are reactions. */
  lemma {:induction false} ForwardReduces(s: string, idx: nat)
    requires idx <= |s|
    ensures Reduces(s[idx..], Forward(s, idx))
    decreases |s| - idx
  {
    if idx + 1 < |s| {
      var rest := s[idx..];
      if Cancels(s[idx], s[idx + 1]) {
        CancelsIsReacts(s[idx], s[idx + 1]);
        ReducesRefl(rest);
        ReducesStep(rest, rest, 0);
        assert Remove(rest, 0) == s[idx + 2..];
        ForwardReduces(s, idx + 2);
        ReducesTrans(rest, s[idx + 2..], Forward(s, idx + 2));
      } else {
        ForwardReduces(s, idx + 1);
        ReducesPrefix([s[idx]], s[idx + 1..], Forward(s, idx + 1));
        assert rest == [s[idx]] + s[idx + 1..];
      }
    } else {
      ReducesRefl(s[idx..]);
    }
  }

  /** A pass that skips nothing has copied everything and seen no reacting pair from idx on. */
  lemma {:induction false} ForwardUnchanged(s: string, idx: nat)
    requires idx <= |s| && |Forward(s, idx)| == |s| - idx
    ensures Forward(s, idx) == s[idx..]
    ensures forall i :: idx <= i && i + 1 < |s| ==> !Reacts(s[i], s[i + 1])
    decreases |s| - idx
  {
    if idx + 1 < |s| {
      if Cancels(s[idx], s[idx + 1]) {
        assert false;
      }
      CancelsIsReacts(s[idx], s[idx + 1]);
      ForwardUnchanged(s, idx + 1);
      assert s[idx..] == [s[idx]] + s[idx + 1..];
    }
  }

  /** The outer loop: passes until one leaves the length unchanged. */
  function React(s: string): (r: string)
    ensures |r| <= |s|
    decreases |s|
  {
    var t := Forward(s, 0);
    if |t| == |s| then t else React(t)
  }

  lemma {:induction false} ReactReduces(s: string)
    ensures Reduces(s, React(s))
    decreases |s|
  {
    var t := Forward(s, 0);
    ForwardReduces(s, 0);
    assert s[0..] == s;
    if |t| != |s| {
      ReactReduces(t);
      ReducesTrans(s, t, React(t));
    }
  }

  lemma {:induction false} ReactStable(s: string)
    ensures Stable(React(s))
    decreases |s|
  {
    var t := Forward(s, 0);
    if |t| == |s| {
      ForwardUnchanged(s, 0);
      assert s[0..] == s;
    } else {
      ReactStable(t);
    }
  }

  /**
   * This `react` also computes the reference reduction, so both versions
   * agree on every polymer; the result never grows.
   */
  lemma ReactIsNorm(s: string)
    ensures React(s) == Norm(s)
    ensures |React(s)| <= |s| && (|s| - |React(s)|) % 2 == 0
  {
    ReactReduces(s);
    ReactStable(s);
    UniqueResult(s, React(s));
    ReducesLength(s, React(s));
  }

  /** One pass: the `next` string built by pushes. */
  method Pass(bytes: string) returns (next: string)
    ensures next == Forward(bytes, 0)
  {
    ghost var target := Forward(bytes, 0);
    next := [];
    var idx: nat := 0;
    while idx + 1 < |bytes|
      invariant idx <= |bytes| && next + Forward(bytes, idx) == target
      decreases |bytes| - idx
    {
      next, idx := Visit(bytes, next, idx);
    }
    assert Forward(bytes, idx) == bytes[idx..];
    while idx < |bytes|
      invariant idx <= |bytes| && next + bytes[idx..] == target
      decreases |bytes| - idx
    {
      assert bytes[idx..] == [bytes[idx]] + bytes[idx + 1..];
      next := next + [bytes[idx]];
      idx := idx + 1;
    }
    assert bytes[idx..] == [];
  }

  /** One round of the first loop: skip a cancelling pair, or push the unit at idx. */
  method Visit(bytes: string, next: string, idx: nat) returns (next': string, idx': nat)
    requires idx + 1 < |bytes|
    ensures idx < idx' <= |bytes|
    ensures next' + Forward(bytes, idx') == next + Forward(bytes, idx)
  {
    var a := bytes[idx];
    var b := bytes[idx + 1];
    var aUpper := IsUpper(a);
    var bUpper := IsUpper(b);
    if aUpper && !bUpper && ToLower(a) == b {
      return next, idx + 2;
    }
    if bUpper && !aUpper && ToLower(b) == a {
      return next, idx + 2;
    }
    assert Forward(bytes, idx) == [a] + Forward(bytes, idx + 1);
    next', idx' := next + [a], idx + 1;
  }

  /** `react`: passes reassigning the input until one keeps the length. */
  method ReactByPasses(s: string) returns (input: string)
    ensures input == React(s)
  {
    input := s;
    var madeProgress := true;
    while madeProgress
      invariant madeProgress ==> React(input) == React(s)
      invariant !madeProgress ==> input == React(s)
      decreases if madeProgress then |input| + 1 else 0
    {
      var next := Pass(input);
      madeProgress := |next| != |input|;
      input := next;
    }
  }

  /** `part1`: the length of the fully reacted polymer. */
  method Part1(input: string) returns (n: nat)
    ensures n == |Norm(input)|
  {
    var reacted := ReactByPasses(input);
    ReactIsNorm(input);
    n := |reacted|;
  }

  /** `part2`: the shortest reaction once one unit type is removed; never more than the input's length. */
  method Part2(input: string) returns (best: nat)
    ensures best == Best(input, 26) && best <= |input|
  {
    best := |input|;
    for unit := 0 to 26
      invariant best == Best(input, unit)
    {
      var stripped := Strip(input, Letter(unit));
      var reacted := ReactByPasses(stripped);
      ReactIsNorm(stripped);
      best := Min(best, |reacted|);
    }
  }
}
