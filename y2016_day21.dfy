/**
 * 2016 day 21 (src/bin/y2016/day21.rs): scrambling an eight-letter password
 * with swaps, rotations, reversals and moves, and unscrambling it by running
 * the inverted instructions backwards.  The password is a `[u8; 8]` changed in
 * place; its letters are ASCII and are modelled as `char`.
 */
module Y2016Day21 {
  import opened Wrappers
  import opened RustInt
  import V = VecLike
  import opened Strings

  datatype Instruction =
    | SwapPositions(x: nat, y: nat)
    | SwapLetters(a: char, b: char)
    | RotateLeft(n: nat)
    | RotateRight(n: nat)
    | RotateLetter(l: char)
    | Reverse(lo: nat, hi: nat)
    | Move(from: nat, to: nat)

  // ---------------------------------------------------------------------
  // Parsing
  // ---------------------------------------------------------------------

  /** `line[k..][..1].parse()`: a single decimal digit at k, or None where the source panics. */
  function DigitAt(line: string, k: nat): (d: Option<nat>)
    ensures d.Some? ==> d.value < 10
  {
    if k < |line| && '0' <= line[k] <= '9' then Some(line[k] as int - '0' as int) else None
  }

  /** `line[k..].as_bytes()[0]`, or None where the source panics. */
  function LetterAt(line: string, k: nat): Option<char>
  {
    if k < |line| then Some(line[k]) else None
  }

  function Pair<A, B>(a: Option<A>, b: Option<B>): Option<(A, B)>
  {
    if a.Some? && b.Some? then Some((a.value, b.value)) else None
  }

  /** One line of the puzzle; None for a line the source rejects (`unreachable!` or a failed `unwrap`). */
  function ParseLine(line: string): Option<Instruction>
  {
    if StartsWith(line, "swap position ") then
      var p := Pair(DigitAt(line, |"swap position "|), DigitAt(line, |"swap position x with position "|));
      if p.Some? then Some(SwapPositions(p.value.0, p.value.1)) else None
    else if StartsWith(line, "swap letter") then
      var p := Pair(LetterAt(line, |"swap letter "|), LetterAt(line, |"swap letter x with letter "|));
      if p.Some? then Some(SwapLetters(p.value.0, p.value.1)) else None
    else if StartsWith(line, "rotate left") then
      var d := DigitAt(line, |"rotate left "|);
      if d.Some? then Some(RotateLeft(d.value)) else None
    else if StartsWith(line, "rotate right") then
      var d := DigitAt(line, |"rotate right "|);
      if d.Some? then Some(RotateRight(d.value)) else None
    else if StartsWith(line, "rotate based") then
      var l := LetterAt(line, |"rotate based on position of letter "|);
      if l.Some? then Some(RotateLetter(l.value)) else None
    else if StartsWith(line, "reverse positions") then
      var p := Pair(DigitAt(line, |"reverse positions "|), DigitAt(line, |"reverse positions x through "|));
      if p.Some? then Some(Reverse(p.value.0, p.value.1)) else None
    else if StartsWith(line, "move position") then
      var p := Pair(DigitAt(line, |"move position "|), DigitAt(line, |"move position x to position "|));
      if p.Some? then Some(Move(p.value.0, p.value.1)) else None
    else None
  }

  /** `parse` over the lines of the input: None as soon as one line is rejected. */
  function Parse(lines: seq<string>): (r: Option<seq<Instruction>>)
    ensures r.Some? ==> |r.value| == |lines|
  {
    if lines == [] then Some([])
    else
      var first := ParseLine(lines[0]);
      var rest := Parse(lines[1..]);
      if first.Some? && rest.Some? then Some([first.value] + rest.value) else None
  }

  function DigitChar(d: nat): (c: char)
    requires d < 10
  {
    (d + '0' as int) as char
  }

  /** The puzzle's wording of an instruction whose numbers are single digits. */
  function Show(i: Instruction): string
    requires Small(i)
  {
    match i
    case SwapPositions(x, y) => "swap position " + [DigitChar(x)] + " with position " + [DigitChar(y)]
    case SwapLetters(a, b) => "swap letter " + [a] + " with letter " + [b]
    case RotateLeft(n) => "rotate left " + [DigitChar(n)] + " steps"
    case RotateRight(n) => "rotate right " + [DigitChar(n)] + " steps"
    case RotateLetter(l) => "rotate based on position of letter " + [l]
    case Reverse(lo, hi) => "reverse positions " + [DigitChar(lo)] + " through " + [DigitChar(hi)]
    case Move(from, to) => "move position " + [DigitChar(from)] + " to position " + [DigitChar(to)]
  }

  /** Every number of the instruction is a single digit, as the parser reads them. */
  predicate Small(i: Instruction)
  {
    match i
    case SwapPositions(x, y) => x < 10 && y < 10
    case RotateLeft(n) => n < 10
    case RotateRight(n) => n < 10
    case Reverse(lo, hi) => lo < 10 && hi < 10
    case Move(from, to) => from < 10 && to < 10
    case _ => true
  }

  lemma DigitAtShown(line: string, k: nat, d: nat)
    requires d < 10 && k < |line| && line[k] == DigitChar(d)
    ensures DigitAt(line, k) == Some(d)
  {
  }

  lemma StartsWithPrefix(p: string, rest: string)
    ensures StartsWith(p + rest, p)
  {
    assert (p + rest)[..|p|] == p;
  }

  /** A line that differs from p at slot k does not start with p. */
  lemma NotStartsWith(line: string, p: string, k: nat)
    requires k < |p| && k < |line| && line[k] != p[k]
    ensures !StartsWith(line, p)
  {
  }

  /** The parser reads back the puzzle's wording of every instruction with single-digit numbers. */
  lemma ParseShow(i: Instruction)
    requires Small(i)
    ensures ParseLine(Show(i)) == Some(i)
  {
    match i
    case SwapPositions(x, y) => ParseShowSwapPositions(x, y);
    case SwapLetters(a, b) => ParseShowSwapLetters(a, b);
    case RotateLeft(n) => ParseShowRotateLeft(n);
    case RotateRight(n) => ParseShowRotateRight(n);
    case RotateLetter(l) => ParseShowRotateLetter(l);
    case Reverse(lo, hi) => ParseShowReverse(lo, hi);
    case Move(from, to) => ParseShowMove(from, to);
  }

  lemma ParseShowSwapPositions(x: nat, y: nat)
    requires Small(SwapPositions(x, y))
    ensures ParseLine(Show(SwapPositions(x, y))) == Some(SwapPositions(x, y))
  {
    var line := Show(SwapPositions(x, y));
    StartsWithPrefix("swap position ", [DigitChar(x)] + " with position " + [DigitChar(y)]);
    DigitAtShown(line, 14, x);
    DigitAtShown(line, 30, y);
  }

  lemma ParseShowSwapLetters(a: char, b: char)
    ensures ParseLine(Show(SwapLetters(a, b))) == Some(SwapLetters(a, b))
  {
    var line := Show(SwapLetters(a, b));
    NotStartsWith(line, "swap position ", 5);
    StartsWithPrefix("swap letter", " " + [a] + " with letter " + [b]);
  }

  lemma ParseShowRotateLeft(n: nat)
    requires Small(RotateLeft(n))
    ensures ParseLine(Show(RotateLeft(n))) == Some(RotateLeft(n))
  {
    var line := Show(RotateLeft(n));
    NotStartsWith(line, "swap position ", 0);
    NotStartsWith(line, "swap letter", 0);
    StartsWithPrefix("rotate left", " " + [DigitChar(n)] + " steps");
    DigitAtShown(line, 12, n);
  }

  lemma ParseShowRotateRight(n: nat)
    requires Small(RotateRight(n))
    ensures ParseLine(Show(RotateRight(n))) == Some(RotateRight(n))
  {
    var line := Show(RotateRight(n));
    NotStartsWith(line, "swap position ", 0);
    NotStartsWith(line, "swap letter", 0);
    NotStartsWith(line, "rotate left", 7);
    StartsWithPrefix("rotate right", " " + [DigitChar(n)] + " steps");
    DigitAtShown(line, 13, n);
  }

  lemma ParseShowRotateLetter(l: char)
    ensures ParseLine(Show(RotateLetter(l))) == Some(RotateLetter(l))
  {
    var line := Show(RotateLetter(l));
    NotStartsWith(line, "swap position ", 0);
    NotStartsWith(line, "swap letter", 0);
    NotStartsWith(line, "rotate left", 7);
    NotStartsWith(line, "rotate right", 7);
    StartsWithPrefix("rotate based", " on position of letter " + [l]);
  }

  lemma ParseShowReverse(lo: nat, hi: nat)
    requires Small(Reverse(lo, hi))
    ensures ParseLine(Show(Reverse(lo, hi))) == Some(Reverse(lo, hi))
  {
    var line := Show(Reverse(lo, hi));
    NotStartsWith(line, "swap position ", 0);
    NotStartsWith(line, "swap letter", 0);
    NotStartsWith(line, "rotate left", 1);
    NotStartsWith(line, "rotate right", 1);
    NotStartsWith(line, "rotate based", 1);
    StartsWithPrefix("reverse positions", " " + [DigitChar(lo)] + " through " + [DigitChar(hi)]);
    DigitAtShown(line, 18, lo);
    DigitAtShown(line, 28, hi);
  }

  lemma ParseShowMove(from: nat, to: nat)
    requires Small(Move(from, to))
    ensures ParseLine(Show(Move(from, to))) == Some(Move(from, to))
  {
    var line := Show(Move(from, to));
    NotStartsWith(line, "swap position ", 0);
    NotStartsWith(line, "swap letter", 0);
    NotStartsWith(line, "rotate left", 0);
    NotStartsWith(line, "rotate right", 0);
    NotStartsWith(line, "rotate based", 0);
    NotStartsWith(line, "reverse positions", 0);
    StartsWithPrefix("move position", " " + [DigitChar(from)] + " to position " + [DigitChar(to)]);
    DigitAtShown(line, 14, from);
    DigitAtShown(line, 28, to);
  }

  // ---------------------------------------------------------------------
  // The operations, on values
  // ---------------------------------------------------------------------

  /** `swap(i, j)`. */
  function Swap(s: seq<char>, i: nat, j: nat): (r: seq<char>)
    requires i < |s| && j < |s|
  {
    s[i := s[j]][j := s[i]]
  }

  /** `rotate_left(k)`: the first k letters move to the end. */
  function RotL(s: seq<char>, k: nat): (r: seq<char>)
    requires k <= |s|
  {
    s[k..] + s[..k]
  }

  /** `rotate_right(k)`: the last k letters move to the front. */
  function RotR(s: seq<char>, k: nat): (r: seq<char>)
    requires k <= |s|
  {
    s[|s| - k..] + s[..|s| - k]
  }

  /** The first index holding c (`iter().position`). */
  function IndexOf(s: seq<char>, c: char): (p: Option<nat>)
    ensures p.Some? ==> p.value < |s| && s[p.value] == c && forall j :: 0 <= j < p.value ==> s[j] != c
    ensures p.None? <==> c !in s
  {
    if s == [] then None
    else if s[0] == c then Some(0)
    else
      var p := IndexOf(s[1..], c);
      if p.Some? then Some(p.value + 1) else None
  }

  /** s with the window [lo, hi) replaced by w. */
  function Splice(s: seq<char>, lo: nat, hi: nat, w: seq<char>): seq<char>
    requires lo <= hi <= |s|
  {
    s[..lo] + w + s[hi..]
  }

  /** `rotate_based`: rotate right by one more than the letter's index, and once more from index 4. */
  function RotateBased(s: seq<char>, l: char): (r: Option<seq<char>>)
    ensures r.Some? <==> l in s
    ensures r.Some? ==> |r.value| == |s|
  {
    var p := IndexOf(s, l);
    if p.None? then None else Some(BasedTurn(s, p.value))
  }

  /** The turn `rotate_based` makes for a letter found at index p. */
  function BasedTurn(s: seq<char>, p: nat): seq<char>
    requires p < |s|
  {
    var r := RotR(s, 1 + p);
    if p >= 4 then RotR(r, 1) else r
  }

  /** `input[lo..=hi].reverse()`; the slice panics past the end or when lo > hi + 1. */
  function ReverseSpan(s: seq<char>, lo: nat, hi: nat): Option<seq<char>>
  {
    if lo <= hi + 1 && hi < |s| then Some(Splice(s, lo, hi + 1, V.Reversed(s[lo..hi + 1]))) else None
  }

  /** The `Move(from, to)` arm of part 1: the window between them rotated by one, towards from. */
  function MoveSpan(s: seq<char>, from: nat, to: nat): Option<seq<char>>
  {
    if from < to then
      if to < |s| then Some(Splice(s, from, to + 1, RotL(s[from..to + 1], 1))) else None
    else
      if from < |s| then Some(Splice(s, to, from + 1, RotR(s[to..from + 1], 1))) else None
  }

  /** One instruction of part 1; None where the source panics. */
  function Step(s: seq<char>, i: Instruction): (r: Option<seq<char>>)
    ensures r.Some? ==> |r.value| == |s|
  {
    match i
    case SwapPositions(x, y) => if x < |s| && y < |s| then Some(Swap(s, x, y)) else None
    case SwapLetters(a, b) =>
      var p := Pair(IndexOf(s, a), IndexOf(s, b));
      if p.Some? then Some(Swap(s, p.value.0, p.value.1)) else None
    case RotateLeft(n) => if n <= |s| then Some(RotL(s, n)) else None
    case RotateRight(n) => if n <= |s| then Some(RotR(s, n)) else None
    case RotateLetter(l) => RotateBased(s, l)
    case Reverse(lo, hi) => ReverseSpan(s, lo, hi)
    case Move(from, to) => MoveSpan(s, from, to)
  }

  /**
   * The first c in [c0, |s|) for which rotating s left by c and then by the
   * letter gives s back.  The source tries c = 0, 1, 2, ... for ever; its
   * copies repeat after |s| rotations, so when no c below |s| works it never
   * stops, and this is None.
   */
  function Preimage(s: seq<char>, l: char, c0: nat): (c: Option<nat>)
    ensures c.Some? ==> c0 <= c.value < |s| && RotateBased(RotL(s, c.value), l) == Some(s)
    decreases |s| - c0
  {
    if c0 >= |s| then None
    else if RotateBased(RotL(s, c0), l) == Some(s) then Some(c0)
    else Preimage(s, l, c0 + 1)
  }

  /** The `RotateLetter` arm of part 2; None where the source panics or loops for ever. */
  function UnrotateBased(s: seq<char>, l: char): Option<seq<char>>
  {
    if l !in s then None
    else
      var c := Preimage(s, l, 0);
      if c.Some? then Some(RotL(s, c.value)) else None
  }

  /** The `Move(from, to)` arm of part 2: the window rotated the other way. */
  function UnmoveSpan(s: seq<char>, from: nat, to: nat): Option<seq<char>>
  {
    if from < to then
      if to < |s| then Some(Splice(s, from, to + 1, RotR(s[from..to + 1], 1))) else None
    else
      if from < |s| then Some(Splice(s, to, from + 1, RotL(s[to..from + 1], 1))) else None
  }

  /** One instruction of part 2, inverted; None where the source panics or loops for ever. */
  function Unstep(s: seq<char>, i: Instruction): (r: Option<seq<char>>)
    ensures r.Some? ==> |r.value| == |s|
  {
    match i
    case RotateLeft(n) => if n <= |s| then Some(RotR(s, n)) else None
    case RotateRight(n) => if n <= |s| then Some(RotL(s, n)) else None
    case RotateLetter(l) => UnrotateBased(s, l)
    case Move(from, to) => UnmoveSpan(s, from, to)
    case _ => Step(s, i)
  }

  /** Part 1's loop: the instructions in order. */
  function Scramble(s: seq<char>, ins: seq<Instruction>): (r: Option<seq<char>>)
    ensures r.Some? ==> |r.value| == |s|
    decreases |ins|
  {
    if ins == [] then Some(s)
    else
      var t := Step(s, ins[0]);
      if t.None? then None else Scramble(t.value, ins[1..])
  }

  /** Part 2's loop: the instructions from the last to the first, each inverted. */
  function Unscramble(s: seq<char>, ins: seq<Instruction>): (r: Option<seq<char>>)
    ensures r.Some? ==> |r.value| == |s|
    decreases |ins|
  {
    if ins == [] then Some(s)
    else
      var t := Unstep(s, ins[|ins| - 1]);
      if t.None? then None else Unscramble(t.value, ins[..|ins| - 1])
  }

  // ---------------------------------------------------------------------
  // Rotations of the eight-letter password as index arithmetic
  // ---------------------------------------------------------------------

  /** Rotation left by any amount: slot i takes the letter k places further on, round the end. */
  function Rot(s: seq<char>, k: int): (r: seq<char>)
    requires |s| == 8
  {
    seq(8, i requires 0 <= i < 8 => s[(i + k) % 8])
  }

  lemma ModAdd8(x: int, y: int)
    ensures ((x % 8) + y) % 8 == (x + y) % 8
  {
  }

  lemma RotAt(s: seq<char>, k: int, i: nat)
    requires |s| == 8 && i < 8
    ensures Rot(s, k)[i] == s[(i + k) % 8]
  {
  }

  /** `rotate_left(k)` is the rotation by k. */
  lemma RotLIsRot(s: seq<char>, k: nat)
    requires |s| == 8 && k <= 8
    ensures RotL(s, k) == Rot(s, k)
  {
    forall i | 0 <= i < 8
      ensures RotL(s, k)[i] == Rot(s, k)[i]
    {
      RotAt(s, k, i);
      if i + k < 8 {
        assert (i + k) % 8 == i + k;
        assert RotL(s, k)[i] == s[i + k];
      } else {
        assert (i + k) % 8 == i + k - 8;
        assert RotL(s, k)[i] == s[i + k - 8];
      }
    }
  }

  /** `rotate_right(k)` is the rotation by -k. */
  lemma RotRIsRot(s: seq<char>, k: nat)
    requires |s| == 8 && k <= 8
    ensures RotR(s, k) == Rot(s, -(k as int))
  {
    forall i | 0 <= i < 8
      ensures RotR(s, k)[i] == Rot(s, -(k as int))[i]
    {
      if i < k {
        assert RotR(s, k)[i] == s[8 - k + i];
      } else {
        assert RotR(s, k)[i] == s[i - k];
      }
    }
  }

  /** Rotations add up. */
  lemma RotRot(s: seq<char>, a: int, b: int)
    requires |s| == 8
    ensures Rot(Rot(s, a), b) == Rot(s, a + b)
  {
    forall i | 0 <= i < 8
      ensures Rot(Rot(s, a), b)[i] == Rot(s, a + b)[i]
    {
      RotAt(Rot(s, a), b, i);
      RotAt(s, a, (i + b) % 8);
      RotAt(s, a + b, i);
      ModAdd8(i + b, a);
      assert i + b + a == i + (a + b);
    }
  }

  /** Amounts that agree modulo the length give the same rotation. */
  lemma RotCongruent(s: seq<char>, a: int, b: int)
    requires |s| == 8 && a % 8 == b % 8
    ensures Rot(s, a) == Rot(s, b)
  {
    forall i | 0 <= i < 8
      ensures Rot(s, a)[i] == Rot(s, b)[i]
    {
      ModAdd8(a, i);
      ModAdd8(b, i);
      assert (i + a) % 8 == (i + b) % 8;
    }
  }

  /** A rotation by a multiple of the length changes nothing. */
  lemma RotNone(s: seq<char>, k: int)
    requires |s| == 8 && k % 8 == 0
    ensures Rot(s, k) == s
  {
    forall i | 0 <= i < 8
      ensures Rot(s, k)[i] == s[i]
    {
      ModAdd8(k, i);
    }
  }

  /** No two slots hold the same letter. */
  predicate Distinct(s: seq<char>)
  {
    forall i, j :: 0 <= i < j < |s| ==> s[i] != s[j]
  }

  lemma RotDistinct(s: seq<char>, k: int)
    requires |s| == 8 && Distinct(s)
    ensures Distinct(Rot(s, k))
  {
    forall i, j | 0 <= i < j < 8
      ensures Rot(s, k)[i] != Rot(s, k)[j]
    {
      RotAt(s, k, i);
      RotAt(s, k, j);
    }
  }

  /** A rotation of distinct letters fixes its amount modulo the length. */
  lemma RotInjective(s: seq<char>, a: int, b: int)
    requires |s| == 8 && Distinct(s) && Rot(s, a) == Rot(s, b)
    ensures a % 8 == b % 8
  {
    RotAt(s, a, 0);
    RotAt(s, b, 0);
  }

  lemma IndexOfDistinct(s: seq<char>, i: nat)
    requires Distinct(s) && i < |s|
    ensures IndexOf(s, s[i]) == Some(i)
  {
  }

  /** Where a letter went under a rotation. */
  lemma IndexOfRot(s: seq<char>, p: nat, k: int)
    requires |s| == 8 && Distinct(s) && p < 8
    ensures IndexOf(Rot(s, k), s[p]) == Some((p - k) % 8)
  {
    var q := (p - k) % 8;
    RotAt(s, k, q);
    ModAdd8(p - k, k);
    assert p - k + k == p && p % 8 == p;
    assert Rot(s, k)[q] == s[p];
    RotDistinct(s, k);
    IndexOfDistinct(Rot(s, k), q);
  }

  /** The total right rotation `rotate_based` applies for a letter at index p. */
  function Shift(p: nat): int
  {
    1 + p + (if p >= 4 then 1 else 0)
  }

  /** `rotate_based` is the rotation right by Shift of the letter's index. */
  lemma RotateBasedRot(s: seq<char>, l: char, p: nat)
    requires |s| == 8 && IndexOf(s, l) == Some(p)
    ensures RotateBased(s, l) == Some(Rot(s, -Shift(p)))
  {
    var r := RotR(s, 1 + p);
    assert RotateBased(s, l) == Some(if p >= 4 then RotR(r, 1) else r);
    if p >= 4 {
      RotateTwice(s, p);
    } else {
      RotRIsRot(s, 1 + p);
      assert -(1 + p) == -Shift(p);
    }
  }

  /** From index 4 on, the two right rotations of `rotate_based` add up. */
  lemma RotateTwice(s: seq<char>, p: nat)
    requires |s| == 8 && 4 <= p < 8
    ensures RotR(RotR(s, 1 + p), 1) == Rot(s, -Shift(p))
  {
    var r := RotR(s, 1 + p);
    RotRIsRot(s, 1 + p);
    RotRIsRot(r, 1);
    RotRot(s, -(1 + p), -1);
    assert -(1 + p) + -1 == -Shift(p);
  }

  /** On eight slots, where `rotate_based` puts the letter determines where it was. */
  lemma ShiftInjective(p: nat, q: nat)
    requires p < 8 && q < 8 && (p + Shift(p)) % 8 == (q + Shift(q)) % 8
    ensures p == q
  {
  }

  /** `rotate_based` after a rotation by k: the letter moved, so the second rotation depends on k. */
  lemma RotateBasedAfterRot(s: seq<char>, p: nat, k: int)
    requires |s| == 8 && Distinct(s) && p < 8
    ensures RotateBased(Rot(s, k), s[p]) == Some(Rot(s, k - Shift((p - k) % 8)))
  {
    var u := Rot(s, k);
    var q := (p - k) % 8;
    IndexOfRot(s, p, k);
    RotateBasedRot(u, s[p], q);
    RotRot(s, k, -Shift(q));
    assert k + -Shift(q) == k - Shift(q);
  }

  /** Two rotations of distinct letters agree exactly when their amounts do, modulo the length. */
  lemma RotSame(s: seq<char>, a: int, b: int)
    requires |s| == 8 && Distinct(s)
    ensures Rot(s, a) == Rot(s, b) <==> a % 8 == b % 8
  {
    if a % 8 == b % 8 {
      RotCongruent(s, a, b);
    }
    if Rot(s, a) == Rot(s, b) {
      RotInjective(s, a, b);
    }
  }

  /** The arithmetic behind part 2's search on eight slots. */
  lemma ShiftSearch(p: nat, c: nat, k: int, q: nat)
    requires p < 8 && c < 8 && k == c - Shift(p) && q == (p - k) % 8
    ensures (k - Shift(q)) % 8 == (-Shift(p)) % 8 <==> c == Shift(p) % 8
  {
    // the condition says c == Shift(q) modulo 8
    ModCancel(c - Shift(q), Shift(p));
    assert k - Shift(q) == (c - Shift(q)) - Shift(p);
    if c == Shift(p) % 8 {
      ModBack(p, c, Shift(p), q);
    }
    if (c - Shift(q)) % 8 == 0 {
      ModShuffle(p, c, Shift(p), Shift(q), q);
      ShiftInjective(p, q);
    }
  }

  lemma ModBack(p: int, c: int, a: int, q: int)
    requires 0 <= p < 8 && c == a % 8 && q == (p - (c - a)) % 8
    ensures q == p
  {
  }

  lemma ModShuffle(p: int, c: int, a: int, b: int, q: int)
    requires q == (p - (c - a)) % 8 && (c - b) % 8 == 0
    ensures (q + b) % 8 == (p + a) % 8
  {
  }

  lemma ModCancel(x: int, y: int)
    ensures (x - y) % 8 == (-y) % 8 <==> x % 8 == 0
  {
  }

  /**
   * Part 2's test for the RotateLetter inverse, on t = rotate_based(s) for
   * eight distinct letters with l at index p: rotating t left by c < 8 and
   * applying `rotate_based` gives t back exactly when c == Shift(p) % 8.
   */
  lemma TryRotation(s: seq<char>, p: nat, c: nat)
    requires |s| == 8 && Distinct(s) && p < 8 && c < 8
    ensures RotateBased(RotL(Rot(s, -Shift(p)), c), s[p]) == Some(Rot(s, -Shift(p)))
      <==> c == Shift(p) % 8
  {
    var k := c - Shift(p);
    var q := (p - k) % 8;
    TurnThenRotate(s, p, c, k, q);
    TurnMatches(s, p, c, k, q);
  }

  /** Rotating t = rotate_based(s) left by c, then by the letter: a rotation of s by k - Shift(q). */
  lemma TurnThenRotate(s: seq<char>, p: nat, c: nat, k: int, q: nat)
    requires |s| == 8 && Distinct(s) && p < 8 && c < 8 && k == c - Shift(p) && q == (p - k) % 8
    ensures RotateBased(RotL(Rot(s, -Shift(p)), c), s[p]) == Some(Rot(s, k - Shift(q)))
  {
    var t := Rot(s, -Shift(p));
    assert RotL(t, c) == Rot(s, k) by {
      RotLIsRot(t, c);
      RotRot(s, -Shift(p), c);
      assert -Shift(p) + c == k;
    }
    RotateBasedAfterRot(s, p, k);
  }

  /** ... and that rotation is t itself exactly for c == Shift(p) % 8. */
  lemma TurnMatches(s: seq<char>, p: nat, c: nat, k: int, q: nat)
    requires |s| == 8 && Distinct(s) && p < 8 && c < 8 && k == c - Shift(p) && q == (p - k) % 8
    ensures Rot(s, k - Shift(q)) == Rot(s, -Shift(p)) <==> c == Shift(p) % 8
  {
    RotSame(s, k - Shift(q), -Shift(p));
    ShiftSearch(p, c, k, q);
  }

  /** Skipping candidates that fail. */
  lemma {:induction false} PreimageSkip(s: seq<char>, l: char, c0: nat, c: nat)
    requires c0 <= c
    requires forall d :: c0 <= d < c && d < |s| ==> RotateBased(RotL(s, d), l) != Some(s)
    ensures Preimage(s, l, c0) == Preimage(s, l, c)
    decreases c - c0
  {
    if c0 < c {
      PreimageSkip(s, l, c0 + 1, c);
    }
  }

  /** Part 2's search on t = rotate_based(s) stops at c = Shift(p) % 8. */
  lemma PreimageOfRotated(s: seq<char>, p: nat)
    requires |s| == 8 && Distinct(s) && p < 8
    ensures Preimage(Rot(s, -Shift(p)), s[p], 0) == Some(Shift(p) % 8)
  {
    var t := Rot(s, -Shift(p));
    var c := Shift(p) % 8;
    forall d | 0 <= d < c
      ensures RotateBased(RotL(t, d), s[p]) != Some(t)
    {
      TryRotation(s, p, d);
    }
    PreimageSkip(t, s[p], 0, c);
    TryRotation(s, p, c);
  }

  /** Rotating t = rotate_based(s) left by Shift(p) % 8 gives s back. */
  lemma UnturnRotation(s: seq<char>, p: nat)
    requires |s| == 8 && p < 8
    ensures RotL(Rot(s, -Shift(p)), Shift(p) % 8) == s
  {
    var k := Shift(p);
    var t := Rot(s, -k);
    var c := k % 8;
    var m := -k + c;
    ModCancel8(k);
    assert m % 8 == 0;
    RotLIsRot(t, c);
    RotRot(s, -k, c);
    RotNone(s, m);
    assert RotL(t, c) == Rot(t, c) == Rot(s, m) == s;
  }

  lemma ModCancel8(x: int)
    ensures (-x + x % 8) % 8 == 0
  {
    var q := x / 8;
    assert -x + x % 8 == 8 * -q;
  }

  /** Where the letter at p lands under the rotation by -Shift(p). */
  lemma LetterAfterRotation(s: seq<char>, p: nat)
    requires |s| == 8 && p < 8
    ensures Rot(s, -Shift(p))[(p + Shift(p)) % 8] == s[p]
  {
    var x := (p + Shift(p)) % 8;
    RotAt(s, -Shift(p), x);
    ModAdd8(p + Shift(p), -Shift(p));
    assert p + Shift(p) + -Shift(p) == p && p % 8 == p;
  }

  /** Part 2 undoes `rotate_based` on eight distinct letters. */
  lemma UnrotateBasedUndoes(s: seq<char>, l: char)
    requires |s| == 8 && Distinct(s) && l in s
    ensures RotateBased(s, l).Some? && UnrotateBased(RotateBased(s, l).value, l) == Some(s)
  {
    var p :| 0 <= p < 8 && s[p] == l;
    IndexOfDistinct(s, p);
    RotateBasedRot(s, l, p);
    var t := Rot(s, -Shift(p));
    LetterAfterRotation(s, p);
    PreimageOfRotated(s, p);
    UnturnRotation(s, p);
  }

  // ---------------------------------------------------------------------
  // Every instruction permutes the letters
  // ---------------------------------------------------------------------

  lemma SplicePermutes(s: seq<char>, lo: nat, hi: nat, w: seq<char>)
    requires lo <= hi <= |s| && multiset(w) == multiset(s[lo..hi])
    ensures multiset(Splice(s, lo, hi, w)) == multiset(s)
  {
    assert s == s[..lo] + s[lo..hi] + s[hi..];
  }

  lemma RotLPermutes(s: seq<char>, k: nat)
    requires k <= |s|
    ensures multiset(RotL(s, k)) == multiset(s)
  {
    assert s == s[..k] + s[k..];
  }

  lemma RotRPermutes(s: seq<char>, k: nat)
    requires k <= |s|
    ensures multiset(RotR(s, k)) == multiset(s)
  {
    assert s == s[..|s| - k] + s[|s| - k..];
  }

  lemma SwapPermutes(s: seq<char>, i: nat, j: nat)
    requires i < |s| && j < |s|
    ensures multiset(Swap(s, i, j)) == multiset(s)
  {
  }

  lemma RotateBasedPermutes(s: seq<char>, l: char)
    requires RotateBased(s, l).Some?
    ensures multiset(RotateBased(s, l).value) == multiset(s)
  {
    var p := IndexOf(s, l).value;
    RotRPermutes(s, 1 + p);
    RotRPermutes(RotR(s, 1 + p), 1);
  }

  lemma ReversePermutes(s: seq<char>, lo: nat, hi: nat)
    requires ReverseSpan(s, lo, hi).Some?
    ensures multiset(ReverseSpan(s, lo, hi).value) == multiset(s)
  {
    V.ReversedPermutes(s[lo..hi + 1]);
    SplicePermutes(s, lo, hi + 1, V.Reversed(s[lo..hi + 1]));
  }

  lemma MovePermutes(s: seq<char>, from: nat, to: nat)
    requires MoveSpan(s, from, to).Some?
    ensures multiset(MoveSpan(s, from, to).value) == multiset(s)
  {
    if from < to {
      RotLPermutes(s[from..to + 1], 1);
      SplicePermutes(s, from, to + 1, RotL(s[from..to + 1], 1));
    } else {
      RotRPermutes(s[to..from + 1], 1);
      SplicePermutes(s, to, from + 1, RotR(s[to..from + 1], 1));
    }
  }

  /** Every instruction of part 1 that does not panic rearranges the letters and changes none. */
  lemma StepPermutes(s: seq<char>, i: Instruction)
    requires Step(s, i).Some?
    ensures multiset(Step(s, i).value) == multiset(s) && |Step(s, i).value| == |s|
  {
    match i
    case SwapPositions(x, y) => SwapPermutes(s, x, y);
    case SwapLetters(a, b) => SwapPermutes(s, IndexOf(s, a).value, IndexOf(s, b).value);
    case RotateLeft(n) => RotLPermutes(s, n);
    case RotateRight(n) => RotRPermutes(s, n);
    case RotateLetter(l) => RotateBasedPermutes(s, l);
    case Reverse(lo, hi) => ReversePermutes(s, lo, hi);
    case Move(from, to) => MovePermutes(s, from, to);
    assert |multiset(Step(s, i).value)| == |Step(s, i).value|;
  }

  /** So does a whole program of them. */
  lemma {:induction false} ScramblePermutes(s: seq<char>, ins: seq<Instruction>)
    requires Scramble(s, ins).Some?
    ensures multiset(Scramble(s, ins).value) == multiset(s)
    decreases |ins|
  {
    if ins != [] {
      StepPermutes(s, ins[0]);
      ScramblePermutes(Step(s, ins[0]).value, ins[1..]);
    }
  }

  /** No letter twice: every letter occurs at most once. */
  lemma {:induction false} DistinctCounts(s: seq<char>)
    ensures Distinct(s) <==> forall c :: multiset(s)[c] <= 1
  {
    if s != [] {
      var r := s[1..];
      DistinctCounts(r);
      assert s == [s[0]] + r;
      assert multiset(s) == multiset{s[0]} + multiset(r);
      if Distinct(s) {
        assert Distinct(r) by {
          forall i, j | 0 <= i < j < |r|
            ensures r[i] != r[j]
          {
            assert r[i] == s[i + 1] && r[j] == s[j + 1];
          }
        }
        forall j | 0 <= j < |r|
          ensures r[j] != s[0]
        {
          assert r[j] == s[j + 1];
        }
      } else {
        var i, j :| 0 <= i < j < |s| && s[i] == s[j];
        if i == 0 {
          assert r[j - 1] == s[0];
          assert multiset(s)[s[0]] >= 2;
        } else {
          assert r[i - 1] == r[j - 1];
          assert !Distinct(r);
          var c :| multiset(r)[c] > 1;
          assert multiset(s)[c] > 1;
        }
      }
    }
  }

  /** Rearranging distinct letters leaves them distinct. */
  lemma DistinctPermutation(s: seq<char>, t: seq<char>)
    requires Distinct(s) && multiset(t) == multiset(s)
    ensures Distinct(t)
  {
    DistinctCounts(s);
    DistinctCounts(t);
  }

  // ---------------------------------------------------------------------
  // Part 2 undoes part 1
  // ---------------------------------------------------------------------

  lemma SwapTwice(s: seq<char>, i: nat, j: nat)
    requires i < |s| && j < |s|
    ensures Swap(Swap(s, i, j), i, j) == s && Swap(Swap(s, i, j), j, i) == s
  {
    var t := Swap(s, i, j);
    assert forall k :: 0 <= k < |s| ==> Swap(t, i, j)[k] == s[k];
    assert forall k :: 0 <= k < |s| ==> Swap(t, j, i)[k] == s[k];
  }

  lemma SwapLettersUndone(s: seq<char>, a: char, b: char)
    requires Distinct(s) && Step(s, SwapLetters(a, b)).Some?
    ensures Step(Step(s, SwapLetters(a, b)).value, SwapLetters(a, b)) == Some(s)
  {
    var pa, pb := IndexOf(s, a).value, IndexOf(s, b).value;
    var t := Swap(s, pa, pb);
    SwapPermutes(s, pa, pb);
    DistinctPermutation(s, t);
    IndexOfDistinct(t, pb);
    IndexOfDistinct(t, pa);
    SwapTwice(s, pa, pb);
  }

  lemma RotLThenRotR(s: seq<char>, k: nat)
    requires k <= |s|
    ensures RotR(RotL(s, k), k) == s
  {
    var t := RotL(s, k);
    assert t[|t| - k..] == s[..k];
    assert t[..|t| - k] == s[k..];
  }

  lemma RotRThenRotL(s: seq<char>, k: nat)
    requires k <= |s|
    ensures RotL(RotR(s, k), k) == s
  {
    var t := RotR(s, k);
    assert t[k..] == s[..|s| - k];
    assert t[..k] == s[|s| - k..];
  }

  /** Splicing twice into the same window keeps only the second splice. */
  lemma SpliceTwice(s: seq<char>, lo: nat, hi: nat, w: seq<char>, w': seq<char>)
    requires lo <= hi <= |s| && |w| == hi - lo
    ensures Splice(s, lo, hi, w)[lo..hi] == w
    ensures Splice(Splice(s, lo, hi, w), lo, hi, w') == Splice(s, lo, hi, w')
  {
    var t := Splice(s, lo, hi, w);
    assert t[..lo] == s[..lo];
    assert t[hi..] == s[hi..];
  }

  lemma SpliceSame(s: seq<char>, lo: nat, hi: nat)
    requires lo <= hi <= |s|
    ensures Splice(s, lo, hi, s[lo..hi]) == s
  {
  }

  lemma ReverseUndone(s: seq<char>, lo: nat, hi: nat)
    requires ReverseSpan(s, lo, hi).Some?
    ensures ReverseSpan(ReverseSpan(s, lo, hi).value, lo, hi) == Some(s)
  {
    var w := s[lo..hi + 1];
    SpliceTwice(s, lo, hi + 1, V.Reversed(w), V.Reversed(V.Reversed(w)));
    V.ReversedTwice(w);
    SpliceSame(s, lo, hi + 1);
  }

  lemma MoveUndone(s: seq<char>, from: nat, to: nat)
    requires MoveSpan(s, from, to).Some?
    ensures UnmoveSpan(MoveSpan(s, from, to).value, from, to) == Some(s)
  {
    if from < to {
      var w := s[from..to + 1];
      SpliceTwice(s, from, to + 1, RotL(w, 1), RotR(RotL(w, 1), 1));
      RotLThenRotR(w, 1);
      SpliceSame(s, from, to + 1);
    } else {
      var w := s[to..from + 1];
      SpliceTwice(s, to, from + 1, RotR(w, 1), RotL(RotR(w, 1), 1));
      RotRThenRotL(w, 1);
      SpliceSame(s, to, from + 1);
    }
  }

  /**
   * Part 2's inversion of one instruction undoes it, when the password holds
   * distinct letters (and has eight of them, when the letter rotation is to
   * be undone: part 2's search relies on that).
   */
  lemma StepUndone(s: seq<char>, i: Instruction)
    requires Distinct(s) && Step(s, i).Some? && (i.RotateLetter? ==> |s| == 8)
    ensures Unstep(Step(s, i).value, i) == Some(s)
  {
    match i
    case SwapPositions(x, y) => SwapTwice(s, x, y);
    case SwapLetters(a, b) => SwapLettersUndone(s, a, b);
    case RotateLeft(n) => RotLThenRotR(s, n);
    case RotateRight(n) => RotRThenRotL(s, n);
    case RotateLetter(l) => UnrotateBasedUndoes(s, l);
    case Reverse(lo, hi) => ReverseUndone(s, lo, hi);
    case Move(from, to) => MoveUndone(s, from, to);
  }

  /** Unscrambling with one more instruction in front undoes that one last. */
  lemma {:induction false} UnscrambleCons(t: seq<char>, i: Instruction, rest: seq<Instruction>)
    ensures Unscramble(t, [i] + rest) ==
      if Unscramble(t, rest).None? then None else Unstep(Unscramble(t, rest).value, i)
    decreases |rest|
  {
    var ins := [i] + rest;
    if rest == [] {
      assert ins[..0] == [];
    } else {
      var last := rest[|rest| - 1];
      assert ins[|ins| - 1] == last;
      assert ins[..|ins| - 1] == [i] + rest[..|rest| - 1];
      var v := Unstep(t, last);
      if v.Some? {
        UnscrambleCons(v.value, i, rest[..|rest| - 1]);
      }
    }
  }

  /** Part 2 undoes part 1: unscrambling a scrambled eight-letter password of distinct letters gives it back. */
  lemma {:induction false} ScrambleUndone(s: seq<char>, ins: seq<Instruction>)
    requires |s| == 8 && Distinct(s) && Scramble(s, ins).Some?
    ensures Unscramble(Scramble(s, ins).value, ins) == Some(s)
    decreases |ins|
  {
    if ins != [] {
      var u := Step(s, ins[0]).value;
      StepPermutes(s, ins[0]);
      DistinctPermutation(s, u);
      ScrambleUndone(u, ins[1..]);
      assert ins == [ins[0]] + ins[1..];
      UnscrambleCons(Scramble(s, ins).value, ins[0], ins[1..]);
      StepUndone(s, ins[0]);
    }
  }

  // ---------------------------------------------------------------------
  // What a move means
  // ---------------------------------------------------------------------

  /** s without slot i. */
  function Remove(s: seq<char>, i: nat): (r: seq<char>)
    requires i < |s|
    ensures |r| == |s| - 1
  {
    s[..i] + s[i + 1..]
  }

  /** `Move(from, to)` takes the letter out of slot from and puts it back so that it ends up in slot to. */
  lemma MoveMeaning(s: seq<char>, from: nat, to: nat)
    ensures MoveSpan(s, from, to) ==
      if from < |s| && to < |s| then Some(V.Insert(Remove(s, from), to, s[from])) else None
  {
    if from < |s| && to < |s| {
      var r := Remove(s, from);
      if from < to {
        assert s[from + 1..][..to - from] == s[from + 1..to + 1];
        assert s[from + 1..][to - from..] == s[to + 1..];
        assert r[..to] == s[..from] + s[from + 1..to + 1];
        assert r[to..] == s[to + 1..];
        assert V.Insert(r, to, s[from]) == s[..from] + (s[from + 1..to + 1] + [s[from]]) + s[to + 1..];
        var w := s[from..to + 1];
        assert w[1..] == s[from + 1..to + 1] && w[..1] == [s[from]];
        assert RotL(w, 1) == s[from + 1..to + 1] + [s[from]];
      } else {
        assert s[..from][..to] == s[..to];
        assert s[..from][to..] == s[to..from];
        assert r[..to] == s[..to];
        assert r[to..] == s[to..from] + s[from + 1..];
        assert V.Insert(r, to, s[from]) == s[..to] + ([s[from]] + s[to..from]) + s[from + 1..];
        var w := s[to..from + 1];
        assert w[|w| - 1..] == [s[from]] && w[..|w| - 1] == s[to..from];
        assert RotR(w, 1) == [s[from]] + s[to..from];
      }
    }
  }

  // ---------------------------------------------------------------------
  // The password array, changed in place
  // ---------------------------------------------------------------------

  /** `swap(i, j)` on the array. */
  method SwapIn(a: array<char>, i: nat, j: nat)
    requires i < a.Length && j < a.Length
    modifies a
    ensures a[..] == Swap(old(a[..]), i, j)
  {
    var t := a[i];
    a[i] := a[j];
    a[j] := t;
  }

  /** `a[lo..hi].reverse()`, Rust's in-place slice reversal. */
  method ReverseIn(a: array<char>, lo: nat, hi: nat)
    requires lo <= hi <= a.Length
    modifies a
    ensures a[..] == Splice(old(a[..]), lo, hi, V.Reversed(old(a[..])[lo..hi]))
  {
    ghost var s := a[..];
    V.ReverseSlice(a, lo, hi);
    assert a[..] == Splice(s, lo, hi, V.Reversed(s[lo..hi]));
  }

  /** `a[lo..hi].rotate_left(k)`: the window is read once and written back shifted. */
  method RotateLeftIn(a: array<char>, lo: nat, hi: nat, k: nat)
    requires lo <= hi <= a.Length && k <= hi - lo
    modifies a
    ensures a[..] == Splice(old(a[..]), lo, hi, RotL(old(a[..])[lo..hi], k))
  {
    ghost var s := a[..];
    var w := a[lo..hi];
    var n := hi - lo;
    ghost var r := RotL(w, k);
    for i := 0 to n
      invariant forall m :: 0 <= m < a.Length ==> a[m] == if lo <= m < lo + i then r[m - lo] else s[m]
    {
      a[lo + i] := if i + k < n then w[i + k] else w[i + k - n];
    }
    assert forall m :: 0 <= m < a.Length ==> a[m] == Splice(s, lo, hi, r)[m];
  }

  /** `a[lo..hi].rotate_right(k)`, which is the left rotation by the rest of the window. */
  method RotateRightIn(a: array<char>, lo: nat, hi: nat, k: nat)
    requires lo <= hi <= a.Length && k <= hi - lo
    modifies a
    ensures a[..] == Splice(old(a[..]), lo, hi, RotR(old(a[..])[lo..hi], k))
  {
    RotateLeftIn(a, lo, hi, hi - lo - k);
  }

  /** `iter().position(|c| *c == l)`. */
  method PositionOf(a: array<char>, c: char) returns (p: Option<nat>)
    ensures p == IndexOf(a[..], c)
  {
    var i := 0;
    while i < a.Length
      invariant i <= a.Length
      invariant forall j :: 0 <= j < i ==> a[j] != c
    {
      if a[i] == c {
        return Some(i);
      }
      i := i + 1;
    }
    return None;
  }

  /** `rotate_right(k)` on the whole array. */
  method RotateRightAll(a: array<char>, k: nat)
    requires k <= a.Length
    modifies a
    ensures a[..] == RotR(old(a[..]), k)
  {
    ghost var s := a[..];
    RotateRightIn(a, 0, a.Length, k);
    assert s[0..|s|] == s;
  }

  /** `rotate_left(k)` on the whole array. */
  method RotateLeftAll(a: array<char>, k: nat)
    requires k <= a.Length
    modifies a
    ensures a[..] == RotL(old(a[..]), k)
  {
    ghost var s := a[..];
    RotateLeftIn(a, 0, a.Length, k);
    assert s[0..|s|] == s;
  }

  /** The two rotations of `rotate_based`, for the letter found at p. */
  method RotateForIndex(a: array<char>, p: nat)
    requires p < a.Length
    modifies a
    ensures a[..] == BasedTurn(old(a[..]), p)
  {
    ghost var s := a[..];
    RotateRightAll(a, 1 + p);
    if p >= 4 {
      RotateRightAll(a, 1);
    }
    assert a[..] == BasedTurn(s, p);
  }

  /** `rotate_based` on the array; false where the source panics (the letter is missing). */
  method RotateBasedIn(a: array<char>, l: char) returns (ok: bool)
    modifies a
    ensures RotateBased(old(a[..]), l) == if ok then Some(a[..]) else None
  {
    ghost var s := a[..];
    var p := PositionOf(a, l);
    if p.None? {
      assert RotateBased(s, l).None?;
      return false;
    }
    RotateForIndex(a, p.value);
    return true;
  }

  /** `Move(from, to)` of part 1 on the array. */
  method MoveIn(a: array<char>, from: nat, to: nat) returns (ok: bool)
    modifies a
    ensures MoveSpan(old(a[..]), from, to) == if ok then Some(a[..]) else None
  {
    if from < to {
      if to >= a.Length {
        return false;
      }
      RotateLeftIn(a, from, to + 1, 1);
    } else {
      if from >= a.Length {
        return false;
      }
      RotateRightIn(a, to, from + 1, 1);
    }
    return true;
  }

  /** `Move(from, to)` of part 2 on the array: the window turned the other way. */
  method UnmoveIn(a: array<char>, from: nat, to: nat) returns (ok: bool)
    modifies a
    ensures UnmoveSpan(old(a[..]), from, to) == if ok then Some(a[..]) else None
  {
    if from < to {
      if to >= a.Length {
        return false;
      }
      RotateRightIn(a, from, to + 1, 1);
    } else {
      if from >= a.Length {
        return false;
      }
      RotateLeftIn(a, to, from + 1, 1);
    }
    return true;
  }

  /** `SwapLetters(x, y)` on the array. */
  method SwapLettersIn(a: array<char>, x: char, y: char) returns (ok: bool)
    modifies a
    ensures Step(old(a[..]), SwapLetters(x, y)) == if ok then Some(a[..]) else None
  {
    var p := PositionOf(a, x);
    var q := PositionOf(a, y);
    if p.None? || q.None? {
      return false;
    }
    SwapIn(a, p.value, q.value);
    return true;
  }

  /** `Reverse(lo, hi)` on the array: `a[lo..=hi].reverse()`. */
  method ReverseSpanIn(a: array<char>, lo: nat, hi: nat) returns (ok: bool)
    modifies a
    ensures ReverseSpan(old(a[..]), lo, hi) == if ok then Some(a[..]) else None
  {
    if lo <= hi + 1 && hi < a.Length {
      ReverseIn(a, lo, hi + 1);
      return true;
    }
    return false;
  }

  /** One instruction of part 1 on the password; false where the source panics. */
  method Execute(a: array<char>, i: Instruction) returns (ok: bool)
    modifies a
    ensures Step(old(a[..]), i) == if ok then Some(a[..]) else None
  {
    match i
    case SwapPositions(x, y) =>
      ok := x < a.Length && y < a.Length;
      if ok {
        SwapIn(a, x, y);
      }
    case SwapLetters(x, y) => ok := SwapLettersIn(a, x, y);
    case RotateLeft(n) =>
      ok := n <= a.Length;
      if ok {
        RotateLeftAll(a, n);
      }
    case RotateRight(n) =>
      ok := n <= a.Length;
      if ok {
        RotateRightAll(a, n);
      }
    case RotateLetter(l) => ok := RotateBasedIn(a, l);
    case Reverse(lo, hi) => ok := ReverseSpanIn(a, lo, hi);
    case Move(from, to) => ok := MoveIn(a, from, to);
  }

  /** A copy of the array (`let mut copy = input`). */
  method Clone(a: array<char>) returns (b: array<char>)
    ensures fresh(b) && b[..] == a[..]
  {
    b := new char[a.Length](i requires 0 <= i < a.Length reads a => a[i]);
  }

  lemma RotLOneMore(s: seq<char>, c: nat)
    requires c < |s|
    ensures RotL(RotL(s, c), 1) == RotL(s, c + 1)
  {
    var t := RotL(s, c);
    assert t[1..] == s[c + 1..] + s[..c];
    assert s[..c + 1] == s[..c] + [s[c]];
  }

  /** The search stops at the first rotation c that `rotate_based` maps back onto s. */
  lemma UnrotateBasedFound(s: seq<char>, l: char, c: nat)
    requires c < |s|
    requires forall d :: 0 <= d < c ==> RotateBased(RotL(s, d), l) != Some(s)
    requires RotateBased(RotL(s, c), l) == Some(s)
    ensures UnrotateBased(s, l) == Some(RotL(s, c))
  {
    RotLPermutes(s, c);
    assert l in s by {
      assert multiset(RotL(s, c))[l] == multiset(s)[l];
    }
    PreimageSkip(s, l, 0, c);
  }

  /** A rotation that lacks the letter shows that s lacks it. */
  lemma UnrotateBasedMissing(s: seq<char>, l: char, c: nat)
    requires c <= |s| && RotateBased(RotL(s, c), l).None?
    ensures UnrotateBased(s, l).None?
  {
    RotLPermutes(s, c);
    assert l !in s by {
      assert multiset(RotL(s, c))[l] == multiset(s)[l];
    }
  }

  /** No rotation at all maps back onto s. */
  lemma UnrotateBasedExhausted(s: seq<char>, l: char)
    requires forall d :: 0 <= d < |s| ==> RotateBased(RotL(s, d), l) != Some(s)
    ensures UnrotateBased(s, l).None?
  {
    PreimageSkip(s, l, 0, |s|);
  }

  /** `a.copy_from_slice(b)`. */
  method CopyInto(a: array<char>, b: array<char>)
    requires a.Length == b.Length && a != b
    modifies a
    ensures a[..] == b[..]
  {
    forall k | 0 <= k < a.Length {
      a[k] := b[k];
    }
  }

  /**
   * The RotateLetter arm of part 2: try the left rotations of the password
   * one by one until `rotate_based` maps one of them back onto it.  The
   * source keeps trying for ever; after |a| tries the rotations repeat, and
   * the model gives up with false, as it does where the source panics.
   */
  method UnrotateBasedIn(a: array<char>, l: char) returns (ok: bool)
    modifies a
    ensures UnrotateBased(old(a[..]), l) == if ok then Some(a[..]) else None
  {
    ghost var s := a[..];
    var copy := Clone(a);
    var c := 0;
    while c < a.Length
      invariant c <= a.Length && a[..] == s && copy.Length == a.Length
      invariant copy[..] == RotL(s, c)
      invariant forall d :: 0 <= d < c ==> RotateBased(RotL(s, d), l) != Some(s)
    {
      var copy2 := Clone(copy);
      var found := RotateBasedIn(copy2, l);
      if !found {
        UnrotateBasedMissing(s, l, c);
        return false;
      }
      if copy2[..] == a[..] {
        UnrotateBasedFound(s, l, c);
        CopyInto(a, copy);
        return true;
      }
      RotateLeftAll(copy, 1);
      RotLOneMore(s, c);
      c := c + 1;
    }
    UnrotateBasedExhausted(s, l);
    return false;
  }

  /** One instruction of part 2, inverted, on the password; false where the source panics or loops for ever. */
  method Undo(a: array<char>, i: Instruction) returns (ok: bool)
    modifies a
    ensures Unstep(old(a[..]), i) == if ok then Some(a[..]) else None
  {
    match i
    case RotateLeft(n) =>
      ok := n <= a.Length;
      if ok {
        RotateRightAll(a, n);
      }
    case RotateRight(n) =>
      ok := n <= a.Length;
      if ok {
        RotateLeftAll(a, n);
      }
    case RotateLetter(l) => ok := UnrotateBasedIn(a, l);
    case Move(from, to) => ok := UnmoveIn(a, from, to);
    case _ => ok := Execute(a, i);
  }

  /** Unscrambling with the first k instructions undoes the k-th one first. */
  lemma UnscrambleLast(s: seq<char>, ins: seq<Instruction>, k: nat)
    requires 0 < k <= |ins|
    ensures Unscramble(s, ins[..k]) ==
      if Unstep(s, ins[k - 1]).None? then None else Unscramble(Unstep(s, ins[k - 1]).value, ins[..k - 1])
  {
    assert ins[..k][..k - 1] == ins[..k - 1];
  }

  /** The password part 1 starts from. */
  const Plain: string := "abcdefgh"

  /** The scrambled password part 2 starts from. */
  const Scrambled: string := "fbgdceah"

  /** Part 2 undoes part 1: unscrambling part 1's answer gives back "abcdefgh". */
  lemma PlainRoundTrip(ins: seq<Instruction>)
    requires Scramble(Plain, ins).Some?
    ensures Unscramble(Scramble(Plain, ins).value, ins) == Some(Plain)
  {
    assert Distinct(Plain) by {
      forall i, j | 0 <= i < j < |Plain|
        ensures Plain[i] != Plain[j]
      {
      }
    }
    ScrambleUndone(Plain, ins);
  }

  /** The array holding a password. */
  method Load(s: string) returns (a: array<char>)
    ensures fresh(a) && a[..] == s
  {
    a := new char[|s|](i requires 0 <= i < |s| => s[i]);
  }

  /** `part1`: scramble "abcdefgh" with the instructions, in order; None where the source panics. */
  method Part1(lines: seq<string>) returns (r: Option<string>)
    ensures r == if Parse(lines).None? then None else Scramble(Plain, Parse(lines).value)
  {
    var parsed := Parse(lines);
    if parsed.None? {
      return None;
    }
    var ins := parsed.value;
    var input := Load(Plain);
    for k := 0 to |ins|
      invariant Scramble(Plain, ins) == Scramble(input[..], ins[k..])
    {
      assert ins[k..][1..] == ins[k + 1..];
      var ok := Execute(input, ins[k]);
      if !ok {
        return None;
      }
    }
    return Some(input[..]);
  }

  /**
   * `part2`: unscramble "fbgdceah" with the instructions from the last to the
   * first, each inverted; None where the source panics or loops for ever.
   */
  method Part2(lines: seq<string>) returns (r: Option<string>)
    ensures r == if Parse(lines).None? then None else Unscramble(Scrambled, Parse(lines).value)
  {
    var parsed := Parse(lines);
    if parsed.None? {
      return None;
    }
    var ins := parsed.value;
    var input := Load(Scrambled);
    var k := |ins|;
    assert ins[..k] == ins;
    while k > 0
      invariant 0 <= k <= |ins|
      invariant Unscramble(Scrambled, ins) == Unscramble(input[..], ins[..k])
    {
      UnscrambleLast(input[..], ins, k);
      var ok := Undo(input, ins[k - 1]);
      if !ok {
        return None;
      }
      k := k - 1;
    }
    return Some(input[..]);
  }
}
