/**
 * 2018 day 2 (y2018/src/day02.rs): box IDs.  Part 1 is a checksum over
 * letter counts, part 2 the first pair of IDs that differ in exactly one
 * position.  The IDs are the lines of the trimmed input, given here as a
 * sequence of strings; bytes and chars agree on them (they are ASCII).
 */
module Y2018Day02 {
  import opened Wrappers

  // ---------------------------------------------------------------------
  // Part 1.

  /** Some letter of the line occurs exactly k times. */
  predicate HasCount(line: string, k: nat)
  {
    exists c :: c in line && multiset(line)[c] == k
  }

  /** How many of the lines have a letter occurring exactly k times. */
  function CountHaving(lines: seq<string>, k: nat): (n: nat)
    ensures n <= |lines|
  {
    if lines == [] then 0
    else CountHaving(lines[..|lines| - 1], k) + if HasCount(lines[|lines| - 1], k) then 1 else 0
  }

  lemma CountHavingNext(lines: seq<string>, i: nat, k: nat)
    requires i < |lines|
    ensures CountHaving(lines[..i + 1], k) == CountHaving(lines[..i], k) + if HasCount(lines[i], k) then 1 else 0
  {
    assert lines[..i + 1][..i] == lines[..i];
  }

  /** The per-line `HashMap` of `part1`: each letter of the line with its number of occurrences. */
  method Tally(line: string) returns (m: map<char, nat>)
    ensures forall c :: c in m <==> c in line
    ensures forall c :: c in m ==> m[c] == multiset(line)[c]
  {
    m := map[];
    for i := 0 to |line|
      invariant forall c :: c in m <==> c in line[..i]
      invariant forall c :: c in m ==> m[c] == multiset(line[..i])[c]
    {
      assert line[..i + 1] == line[..i] + [line[i]];
      var n := if line[i] in m then m[line[i]] else 0;
      m := m[line[i] := n + 1];
    }
    assert line[..|line|] == line;
  }

  /** A count among the values of a tally is a letter of the line with that count. */
  method AnyCount(line: string, m: map<char, nat>, k: nat) returns (b: bool)
    requires forall c :: c in m <==> c in line
    requires forall c :: c in m ==> m[c] == multiset(line)[c]
    ensures b == HasCount(line, k)
  {
    b := k in m.Values;
    if b {
      var c :| c in m && m[c] == k;
    }
  }

  lemma NatProduct(a: nat, b: nat)
    ensures a * b >= 0
  {
  }

  /** `part1`: lines with a letter twice, times lines with a letter three times. */
  method Part1(lines: seq<string>) returns (checksum: nat)
    ensures checksum == CountHaving(lines, 2) * CountHaving(lines, 3)
  {
    var twice: nat, three: nat := 0, 0;
    for i := 0 to |lines|
      invariant twice == CountHaving(lines[..i], 2) && three == CountHaving(lines[..i], 3)
    {
      CountHavingNext(lines, i, 2);
      CountHavingNext(lines, i, 3);
      var two, tri := LineCounts(lines[i]);
      twice := twice + if two then 1 else 0;
      three := three + if tri then 1 else 0;
    }
    assert lines[..|lines|] == lines;
    NatProduct(twice, three);
    checksum := twice * three;
  }

  /** One line of `part1`: tally its letters, then look for a count of 2 and of 3. */
  method LineCounts(line: string) returns (two: bool, tri: bool)
    ensures two == HasCount(line, 2) && tri == HasCount(line, 3)
  {
    var m := Tally(line);
    two := AnyCount(line, m, 2);
    tri := AnyCount(line, m, 3);
  }

  const Example1: seq<string> := ["abcdef", "bababc", "abbcde", "abcccd", "aabcdd", "abcdee", "ababab"]

  /** A line whose letters occur once each has no letter twice or three times. */
  lemma Distinct(line: string, k: nat)
    requires forall i, j :: 0 <= i < j < |line| ==> line[i] != line[j]
    requires k > 1
    ensures !HasCount(line, k)
  {
    forall c | c in line
      ensures multiset(line)[c] == 1
    {
      var i :| 0 <= i < |line| && line[i] == c;
      assert line == line[..i] + [c] + line[i + 1..];
      assert c !in line[..i] && c !in line[i + 1..];
    }
  }

  lemma ExampleLine1()
    ensures HasCount(Example1[1], 2) && HasCount(Example1[1], 3)
  {
    assert multiset(Example1[1])['a'] == 2 && multiset(Example1[1])['b'] == 3;
  }

  lemma ExampleLine2()
    ensures HasCount(Example1[2], 2) && !HasCount(Example1[2], 3)
  {
    var s := Example1[2];
    assert multiset(s)['b'] == 2;
    assert multiset(s) == multiset{'a', 'b', 'b', 'c', 'd', 'e'};
  }

  lemma ExampleLine3()
    ensures !HasCount(Example1[3], 2) && HasCount(Example1[3], 3)
  {
    var s := Example1[3];
    assert multiset(s)['c'] == 3;
    assert multiset(s) == multiset{'a', 'b', 'c', 'c', 'c', 'd'};
  }

  lemma ExampleLine4()
    ensures HasCount(Example1[4], 2) && !HasCount(Example1[4], 3)
  {
    var s := Example1[4];
    assert multiset(s)['a'] == 2;
    assert multiset(s) == multiset{'a', 'a', 'b', 'c', 'd', 'd'};
  }

  lemma ExampleLine5()
    ensures HasCount(Example1[5], 2) && !HasCount(Example1[5], 3)
  {
    var s := Example1[5];
    assert multiset(s)['e'] == 2;
    assert multiset(s) == multiset{'a', 'b', 'c', 'd', 'e', 'e'};
  }

  lemma ExampleLine6()
    ensures !HasCount(Example1[6], 2) && HasCount(Example1[6], 3)
  {
    var s := Example1[6];
    assert multiset(s)['a'] == 3;
    assert multiset(s) == multiset{'a', 'a', 'a', 'b', 'b', 'b'};
  }

  lemma ProductOf(x: nat, y: nat)
    requires x == 4 && y == 3
    ensures x * y == 12
  {
  }

  /** The first three lines of the example. */
  lemma ExamplePrefix(e: seq<string>)
    requires e == Example1
    ensures CountHaving(e[..3], 2) == 2 && CountHaving(e[..3], 3) == 1
  {
    assert CountHaving(e[..0], 2) == 0 && CountHaving(e[..0], 3) == 0;
    Distinct(e[0], 2);
    Distinct(e[0], 3);
    CountHavingNext(e, 0, 2);
    CountHavingNext(e, 0, 3);
    assert CountHaving(e[..1], 2) == 0 && CountHaving(e[..1], 3) == 0;
    ExampleLine1();
    CountHavingNext(e, 1, 2);
    CountHavingNext(e, 1, 3);
    assert CountHaving(e[..2], 2) == 1 && CountHaving(e[..2], 3) == 1;
    ExampleLine2();
    CountHavingNext(e, 2, 2);
    CountHavingNext(e, 2, 3);
  }

  /** The example: four IDs with a doubled letter, three with a tripled one, checksum 12. */
  lemma Part1Example(e: seq<string>)
    requires e == Example1
    ensures CountHaving(e, 2) * CountHaving(e, 3) == 12
  {
    ExamplePrefix(e);
    ExampleLine3();
    CountHavingNext(e, 3, 2);
    CountHavingNext(e, 3, 3);
    assert CountHaving(e[..4], 2) == 2 && CountHaving(e[..4], 3) == 2;
    ExampleLine4();
    CountHavingNext(e, 4, 2);
    CountHavingNext(e, 4, 3);
    assert CountHaving(e[..5], 2) == 3 && CountHaving(e[..5], 3) == 2;
    ExampleLine5();
    CountHavingNext(e, 5, 2);
    CountHavingNext(e, 5, 3);
    assert CountHaving(e[..6], 2) == 4 && CountHaving(e[..6], 3) == 2;
    ExampleLine6();
    assert |e| == 7 && e[|e| - 1] == e[6];
    assert HasCount(e[6], 3) && !HasCount(e[6], 2);
    assert CountHaving(e, 2) == CountHaving(e[..6], 2);
    assert CountHaving(e, 3) == CountHaving(e[..6], 3) + 1;
    ProductOf(CountHaving(e, 2), CountHaving(e, 3));
  }

  // ---------------------------------------------------------------------
  // Part 2.

  /** The positions below k (both lines long enough) where the two lines differ. */
  function DiffUpTo(a: string, b: string, k: nat): nat
    requires k <= |a| && k <= |b|
  {
    if k == 0 then 0 else DiffUpTo(a, b, k - 1) + if a[k - 1] != b[k - 1] then 1 else 0
  }

  function Min(x: nat, y: nat): nat
  {
    if x <= y then x else y
  }

  /** The number of differing positions of the zipped lines (as long as the shorter one). */
  function Diff(a: string, b: string): nat
  {
    DiffUpTo(a, b, Min(|a|, |b|))
  }

  /** The letters the two lines share, position by position, below k. */
  function CommonUpTo(a: string, b: string, k: nat): string
    requires k <= |a| && k <= |b|
  {
    if k == 0 then [] else CommonUpTo(a, b, k - 1) + if a[k - 1] == b[k - 1] then [a[k - 1]] else []
  }

  /** The `filter` and `collect` of `part2`: the letters in which the zipped lines agree. */
  function Common(a: string, b: string): string
  {
    CommonUpTo(a, b, Min(|a|, |b|))
  }

  lemma {:induction false} DiffMonotone(a: string, b: string, j: nat, k: nat)
    requires j <= k <= |a| && k <= |b|
    ensures DiffUpTo(a, b, j) <= DiffUpTo(a, b, k)
    decreases k
  {
    if j < k {
      DiffMonotone(a, b, j, k - 1);
    }
  }

  /** With no difference below k, the common letters are the first k letters. */
  lemma {:induction false} NoDiffCommon(a: string, b: string, k: nat)
    requires k <= |a| && k <= |b| && DiffUpTo(a, b, k) == 0
    ensures CommonUpTo(a, b, k) == a[..k]
  {
    if k > 0 {
      NoDiffCommon(a, b, k - 1);
      assert a[..k] == a[..k - 1] + [a[k - 1]];
    }
  }

  /**
   * With exactly one difference below k, it sits at some position p, and
   * the common letters are the first k letters without the one at p.
   */
  lemma {:induction false} OneDiffCommon(a: string, b: string, k: nat) returns (p: nat)
    requires k <= |a| && k <= |b| && DiffUpTo(a, b, k) == 1
    ensures p < k && a[p] != b[p] && DiffUpTo(a, b, p) == 0
    ensures CommonUpTo(a, b, k) == a[..p] + a[p + 1..k]
  {
    if a[k - 1] != b[k - 1] {
      NoDiffCommon(a, b, k - 1);
      p := k - 1;
    } else {
      p := OneDiffCommon(a, b, k - 1);
      assert a[p + 1..k] == a[p + 1..k - 1] + [a[k - 1]];
    }
  }

  /** The common letters and the differences together account for every zipped position. */
  lemma {:induction false} CommonLength(a: string, b: string, k: nat)
    requires k <= |a| && k <= |b|
    ensures |CommonUpTo(a, b, k)| + DiffUpTo(a, b, k) == k
  {
    if k > 0 {
      CommonLength(a, b, k - 1);
    }
  }

  /**
   * The inner loop of `part2`: walk the zipped lines counting differences,
   * giving up as soon as there are two.  True exactly when they differ in
   * one position.
   */
  method OffByOne(a: string, b: string) returns (one: bool)
    ensures one <==> Diff(a, b) == 1
  {
    var n := Min(|a|, |b|);
    var difference := 0;
    for i := 0 to n
      invariant difference == DiffUpTo(a, b, i) && difference <= 1
    {
      if a[i] == b[i] {
        continue;
      }
      difference := difference + 1;
      if difference > 1 {
        DiffMonotone(a, b, i + 1, n);
        return false;
      }
    }
    one := difference == 1;
  }

  /** The pair (i, j) comes before (i', j') in the nested loops: outer i, inner j. */
  predicate Before(i: nat, j: nat, i': nat, j': nat)
  {
    i < i' || (i == i' && j < j')
  }

  /** Lines i and j differ in one position, and no pair before them in the nested loops does. */
  predicate FirstNear(lines: seq<string>, i: nat, j: nat)
  {
    i < |lines| && j < |lines| && Diff(lines[i], lines[j]) == 1 &&
    forall i', j' :: 0 <= i' < |lines| && 0 <= j' < |lines| && Before(i', j', i, j) ==> Diff(lines[i'], lines[j']) != 1
  }

  /**
   * `part2`: the common letters of the first pair of lines, outer loop
   * first, that differ in one position.  None is the `unreachable!()` when
   * no pair does.
   */
  method Part2(lines: seq<string>) returns (r: Option<string>)
    ensures r.None? <==> forall i, j :: 0 <= i < |lines| && 0 <= j < |lines| ==> Diff(lines[i], lines[j]) != 1
    ensures r.Some? ==> exists i: nat, j: nat :: FirstNear(lines, i, j) && r.value == Common(lines[i], lines[j])
  {
    for i := 0 to |lines|
      invariant forall i', j' :: 0 <= i' < i && 0 <= j' < |lines| ==> Diff(lines[i'], lines[j']) != 1
    {
      for j := 0 to |lines|
        invariant forall i', j' :: 0 <= i' < |lines| && 0 <= j' < |lines| && Before(i', j', i, j) ==> Diff(lines[i'], lines[j']) != 1
      {
        var one := OffByOne(lines[i], lines[j]);
        if one {
          return Some(Common(lines[i], lines[j]));
        }
      }
    }
    return None;
  }

  /**
   * What `part2` returns means: for two lines of the same length that differ
   * in one position, the common letters are the line with that one letter
   * taken out, one letter shorter.
   */
  lemma CommonDropsOne(a: string, b: string)
    requires |a| == |b| && Diff(a, b) == 1
    ensures exists p :: 0 <= p < |a| && a[p] != b[p] && Common(a, b) == a[..p] + a[p + 1..]
    ensures |Common(a, b)| == |a| - 1
  {
    var p := OneDiffCommon(a, b, |a|);
    CommonLength(a, b, |a|);
  }

  const Example2: seq<string> := ["abcde", "fghij", "klmno", "pqrst", "fguij", "axcye", "wvxyz"]

  /** The example's first near pair is "fghij" and "fguij", sharing "fgij". */
  lemma Part2Example()
    ensures Diff(Example2[1], Example2[4]) == 1 && Common(Example2[1], Example2[4]) == "fgij"
  {
    var a, b := Example2[1], Example2[4];
    assert DiffUpTo(a, b, 1) == 0 && DiffUpTo(a, b, 2) == 0 && DiffUpTo(a, b, 3) == 1;
    assert DiffUpTo(a, b, 4) == 1 && DiffUpTo(a, b, 5) == 1;
    assert CommonUpTo(a, b, 2) == "fg" && CommonUpTo(a, b, 3) == "fg";
    assert CommonUpTo(a, b, 4) == "fgi" && CommonUpTo(a, b, 5) == "fgij";
  }
}
