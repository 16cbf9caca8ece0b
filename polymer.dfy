/**
 * The polymer of 2018 day 5, shared by both versions of `react`
 * (y2018/src/bin/day05.rs and y2018/src/day05.rs): which adjacent units
 * react, what removing reacting pairs can reach, and a reference reduction
 * by a stack against which both versions are shown to compute the same thing.
 */
module Polymer {
  import opened Wrappers

  /** `is_ascii_uppercase`. */
  predicate IsUpper(c: char)
  {
    'A' <= c <= 'Z'
  }

  /** `to_ascii_lowercase`. */
  function ToLower(c: char): char
  {
    if IsUpper(c) then (c as int + 32) as char else c
  }

  /**
   * Two units react when they are the same letter ignoring ASCII case
   * (`eq_ignore_ascii_case`) and exactly one of them is upper case.
   */
  predicate Reacts(a: char, b: char)
  {
    ToLower(a) == ToLower(b) && IsUpper(a) != IsUpper(b)
  }

  lemma ReactsSymmetric(a: char, b: char)
    ensures Reacts(a, b) <==> Reacts(b, a)
  {
  }

  /** A unit reacts with at most one kind of unit: its partner is determined. */
  lemma PartnerUnique(x: char, a: char, b: char)
    requires Reacts(x, a) && Reacts(a, b)
    ensures x == b
  {
  }

  /** No two adjacent units react. */
  predicate Stable(s: string)
  {
    forall i :: 0 <= i && i + 1 < |s| ==> !Reacts(s[i], s[i + 1])
  }

  /** The removal of the pair at p and p + 1. */
  function Remove(s: string, p: nat): (t: string)
    requires p + 1 < |s|
    ensures |t| == |s| - 2
  {
    s[..p] + s[p + 2..]
  }

  /** Removing the reacting pairs at the given positions, one after the other; None if one of them is not a reacting pair. */
  function Apply(s: string, ps: seq<nat>): (r: Option<string>)
    ensures r.Some? ==> |r.value| == |s| - 2 * |ps|
  {
    if ps == [] then Some(s)
    else
      var prev := Apply(s, ps[..|ps| - 1]);
      var p := ps[|ps| - 1];
      if prev.Some? && p + 1 < |prev.value| && Reacts(prev.value[p], prev.value[p + 1]) then
        Some(Remove(prev.value, p))
      else None
  }

  /** t is what some sequence of reactions leaves of s. */
  ghost predicate Reduces(s: string, t: string)
  {
    exists ps :: Apply(s, ps) == Some(t)
  }

  lemma ReducesRefl(s: string)
    ensures Reduces(s, s)
  {
    assert Apply(s, []) == Some(s);
  }

  /** A reduction shortens by an even number of units. */
  lemma ReducesLength(s: string, t: string)
    requires Reduces(s, t)
    ensures |t| <= |s| && (|s| - |t|) % 2 == 0
  {
    var ps :| Apply(s, ps) == Some(t);
  }

  lemma ReducesStep(s: string, t: string, p: nat)
    requires Reduces(s, t) && p + 1 < |t| && Reacts(t[p], t[p + 1])
    ensures Reduces(s, Remove(t, p))
  {
    var ps :| Apply(s, ps) == Some(t);
    assert (ps + [p])[..|ps|] == ps;
    assert Apply(s, ps + [p]) == Some(Remove(t, p));
  }

  lemma {:induction false} ApplyTrans(s: string, t: string, ps: seq<nat>, qs: seq<nat>)
    requires Apply(s, ps) == Some(t)
    ensures Apply(s, ps + qs) == Apply(t, qs)
    decreases |qs|
  {
    if qs == [] {
      assert ps + qs == ps;
    } else {
      var qs' := qs[..|qs| - 1];
      ApplyTrans(s, t, ps, qs');
      assert (ps + qs)[..|ps + qs| - 1] == ps + qs';
      assert (ps + qs)[|ps + qs| - 1] == qs[|qs| - 1];
    }
  }

  lemma ReducesTrans(s: string, t: string, u: string)
    requires Reduces(s, t) && Reduces(t, u)
    ensures Reduces(s, u)
  {
    var ps :| Apply(s, ps) == Some(t);
    var qs :| Apply(t, qs) == Some(u);
    ApplyTrans(s, t, ps, qs);
  }

  function Shift(ps: seq<nat>, k: nat): (qs: seq<nat>)
    ensures |qs| == |ps| && forall i :: 0 <= i < |ps| ==> qs[i] == ps[i] + k
  {
    if ps == [] then [] else Shift(ps[..|ps| - 1], k) + [ps[|ps| - 1] + k]
  }

  lemma {:induction false} ApplyPrefix(w: string, u: string, ps: seq<nat>)
    ensures Apply(u, ps).Some? ==> Apply(w + u, Shift(ps, |w|)) == Some(w + Apply(u, ps).value)
    decreases |ps|
  {
    if ps != [] {
      var ps' := ps[..|ps| - 1];
      ApplyPrefix(w, u, ps');
      var qs := Shift(ps, |w|);
      assert qs[..|qs| - 1] == Shift(ps', |w|);
      var prev := Apply(u, ps');
      if Apply(u, ps).Some? {
        var t, p := prev.value, ps[|ps| - 1];
        RemoveShift(w, t, p);
        assert Apply(w + u, qs) == Some(Remove(w + t, p + |w|));
      }
    }
  }

  lemma RemoveShift(w: string, t: string, p: nat)
    requires p + 1 < |t|
    ensures (w + t)[p + |w|] == t[p] && (w + t)[p + |w| + 1] == t[p + 1]
    ensures Remove(w + t, p + |w|) == w + Remove(t, p)
  {
    assert (w + t)[..p + |w|] == w + t[..p];
    assert (w + t)[p + |w| + 2..] == t[p + 2..];
  }

  /** Reactions inside a suffix are reactions of the whole. */
  lemma ReducesPrefix(w: string, u: string, t: string)
    requires Reduces(u, t)
    ensures Reduces(w + u, w + t)
  {
    var ps :| Apply(u, ps) == Some(t);
    ApplyPrefix(w, u, ps);
  }

  // ---------------------------------------------------------------------
  // The reference reduction: a stack that cancels each unit against the top.

  function Push(st: string, c: char): string
  {
    if st != [] && Reacts(st[|st| - 1], c) then st[..|st| - 1] else st + [c]
  }

  /** The units of v pushed one by one onto st. */
  function PushAll(st: string, v: string): string
    decreases |v|
  {
    if v == [] then st else PushAll(Push(st, v[0]), v[1..])
  }

  function Norm(s: string): string
  {
    PushAll([], s)
  }

  lemma PushStable(st: string, c: char)
    requires Stable(st)
    ensures Stable(Push(st, c))
  {
    if st != [] && Reacts(st[|st| - 1], c) {
      var r := st[..|st| - 1];
      forall i | 0 <= i && i + 1 < |r|
        ensures !Reacts(r[i], r[i + 1])
      {
        assert r[i] == st[i] && r[i + 1] == st[i + 1];
      }
    }
  }

  lemma {:induction false} PushAllStable(st: string, v: string)
    requires Stable(st)
    ensures Stable(PushAll(st, v))
    decreases |v|
  {
    if v != [] {
      PushStable(st, v[0]);
      PushAllStable(Push(st, v[0]), v[1..]);
    }
  }

  /** The stack reduction leaves no reacting pair. */
  lemma NormStable(s: string)
    ensures Stable(Norm(s))
  {
    PushAllStable([], s);
  }

  lemma {:induction false} PushAllAppend(st: string, x: string, y: string)
    ensures PushAll(st, x + y) == PushAll(PushAll(st, x), y)
    decreases |x|
  {
    if x == [] {
      assert x + y == y;
    } else {
      assert (x + y)[0] == x[0] && (x + y)[1..] == x[1..] + y;
      PushAllAppend(Push(st, x[0]), x[1..], y);
    }
  }

  /** Pushing a reacting pair onto a stable stack leaves it as it was. */
  lemma PushPair(st: string, a: char, b: char)
    requires Stable(st) && Reacts(a, b)
    ensures Push(Push(st, a), b) == st
  {
    if st != [] && Reacts(st[|st| - 1], a) {
      var x := st[|st| - 1];
      PartnerUnique(x, a, b);
      var rest := st[..|st| - 1];
      if rest != [] {
        assert rest[|rest| - 1] == st[|st| - 2];
      }
      assert st == rest + [x];
    } else {
      var pushed := st + [a];
      assert pushed[|pushed| - 1] == a && pushed[..|pushed| - 1] == st;
    }
  }

  /** Removing one reacting pair does not change the reference reduction. */
  lemma NormRemove(s: string, p: nat)
    requires p + 1 < |s| && Reacts(s[p], s[p + 1])
    ensures Norm(Remove(s, p)) == Norm(s)
  {
    var u, a, b, v := s[..p], s[p], s[p + 1], s[p + 2..];
    assert s == u + ([a, b] + v);
    assert Remove(s, p) == u + v;
    PushAllAppend([], u, [a, b] + v);
    PushAllAppend(PushAll([], u), [a, b], v);
    PushAllAppend([], u, v);
    var n := PushAll([], u);
    PushAllStable([], u);
    PushPair(n, a, b);
    PushAllPair(n, a, b);
  }

  lemma PushAllPair(st: string, a: char, b: char)
    ensures PushAll(st, [a, b]) == Push(Push(st, a), b)
  {
    assert [a, b][0] == a && [a, b][1..] == [b];
    assert [b][0] == b && [b][1..] == [];
    assert PushAll(Push(st, a), [b]) == PushAll(Push(Push(st, a), b), []);
  }

  lemma {:induction false} ApplyKeepsNorm(s: string, ps: seq<nat>)
    requires Apply(s, ps).Some?
    ensures Norm(Apply(s, ps).value) == Norm(s)
    decreases |ps|
  {
    if ps != [] {
      ApplyKeepsNorm(s, ps[..|ps| - 1]);
      var t := Apply(s, ps[..|ps| - 1]).value;
      NormRemove(t, ps[|ps| - 1]);
    }
  }

  /** Reactions never change the reference reduction. */
  lemma ReducesKeepsNorm(s: string, t: string)
    requires Reduces(s, t)
    ensures Norm(t) == Norm(s)
  {
    var ps :| Apply(s, ps) == Some(t);
    ApplyKeepsNorm(s, ps);
  }

  lemma {:induction false} StablePushAll(s: string, k: nat)
    requires Stable(s) && k <= |s|
    ensures PushAll(s[..k], s[k..]) == s
    decreases |s| - k
  {
    if k < |s| {
      if k > 0 {
        assert s[..k][k - 1] == s[k - 1];
        assert !Reacts(s[k - 1], s[k]);
      }
      assert Push(s[..k], s[k]) == s[..k + 1];
      assert s[k..][1..] == s[k + 1..];
      StablePushAll(s, k + 1);
    } else {
      assert s[..k] == s;
    }
  }

  /** A stable polymer is its own reduction. */
  lemma StableNorm(s: string)
    requires Stable(s)
    ensures Norm(s) == s
  {
    StablePushAll(s, 0);
    assert s[..0] == [] && s[0..] == s;
  }

  /**
   * Whatever order the reactions happen in, a stable result is the
   * reference reduction: there is only one.
   */
  lemma UniqueResult(s: string, t: string)
    requires Reduces(s, t) && Stable(t)
    ensures t == Norm(s)
  {
    ReducesKeepsNorm(s, t);
    StableNorm(t);
  }

  /** `replace(unit, "").replace(unit.to_ascii_uppercase(), "")`: every unit of that type removed. */
  function Strip(s: string, unit: char): (t: string)
    ensures |t| <= |s|
    ensures forall i :: 0 <= i < |t| ==> t[i] != unit && t[i] != ToUpper(unit)
  {
    if s == [] then []
    else if s[0] == unit || s[0] == ToUpper(unit) then Strip(s[1..], unit)
    else [s[0]] + Strip(s[1..], unit)
  }

  /** `to_ascii_uppercase`. */
  function ToUpper(c: char): char
  {
    if 'a' <= c <= 'z' then (c as int - 32) as char else c
  }

  /** The n-th letter from 'a'. */
  function Letter(n: nat): char
    requires n < 26
  {
    ('a' as int + n) as char
  }

  /**
   * The answer of `part2` over the first n letters: the shortest reduction
   * of the polymer with one unit type stripped, or the length itself.
   */
  function Best(s: string, n: nat): (b: nat)
    requires n <= 26
    ensures b <= |s|
    ensures forall k :: 0 <= k < n ==> b <= |Norm(Strip(s, Letter(k)))|
    ensures b == |s| || exists k :: 0 <= k < n && b == |Norm(Strip(s, Letter(k)))|
  {
    if n == 0 then |s| else Min(Best(s, n - 1), |Norm(Strip(s, Letter(n - 1)))|)
  }

  function Min(a: nat, b: nat): nat
  {
    if a <= b then a else b
  }

  // ---------------------------------------------------------------------
  // The example of both versions (y2018/src/bin/day05.rs:43-52 and
  // y2018/src/day05.rs:41-50).  A polymer is passed as a parameter equal to
  // the example, and it is reacted and stripped a chunk of four units at a time.

  /** Stripping a concatenation strips each part. */
  lemma {:induction false} StripAppend(x: string, y: string, unit: char)
    ensures Strip(x + y, unit) == Strip(x, unit) + Strip(y, unit)
    decreases |x|
  {
    if x == [] {
      assert x + y == y;
    } else {
      assert (x + y)[0] == x[0] && (x + y)[1..] == x[1..] + y;
      StripAppend(x[1..], y, unit);
    }
  }

  /** Stripping a unit type the polymer does not hold leaves it as it is. */
  lemma {:induction false} StripAbsent(s: string, unit: char)
    requires forall i :: 0 <= i < |s| ==> s[i] != unit && s[i] != ToUpper(unit)
    ensures Strip(s, unit) == s
  {
    if s != [] {
      StripAbsent(s[1..], unit);
    }
  }

  // Chunks of the example, reacted onto the stack the chunks before them leave.

  lemma Chunk0()
    ensures PushAll("", "dabA") == "dabA"
  {
    assert PushAll("dab", "A") == "dabA";
    assert PushAll("da", "bA") == "dabA";
    assert PushAll("d", "abA") == "dabA";
  }

  lemma Chunk1()
    ensures PushAll("dabA", "cCaC") == "dabC"
  {
    assert PushAll("dab", "C") == "dabC";
    assert PushAll("dabA", "aC") == "dabC";
    assert PushAll("dabAc", "CaC") == "dabC";
  }

  lemma Chunk2()
    ensures PushAll("dabC", "BAcC") == "dabCBA"
  {
    assert PushAll("dabCBAc", "C") == "dabCBA";
    assert PushAll("dabCBA", "cC") == "dabCBA";
    assert PushAll("dabCB", "AcC") == "dabCBA";
  }

  lemma Chunk3()
    ensures PushAll("dabCBA", "caDA") == "dabCBAcaDA"
  {
    assert PushAll("dabCBAcaD", "A") == "dabCBAcaDA";
    assert PushAll("dabCBAca", "DA") == "dabCBAcaDA";
    assert PushAll("dabCBAc", "aDA") == "dabCBAcaDA";
  }

  lemma Chunk4()
    ensures PushAll("", "db") == "db"
  {
    assert PushAll("d", "b") == "db";
  }

  lemma Chunk5()
    ensures PushAll("db", "cCC") == "dbC"
  {
    assert PushAll("db", "C") == "dbC";
    assert PushAll("dbc", "CC") == "dbC";
  }

  lemma Chunk6()
    ensures PushAll("dbC", "BcC") == "dbCB"
  {
    assert PushAll("dbCBc", "C") == "dbCB";
    assert PushAll("dbCB", "cC") == "dbCB";
  }

  lemma Chunk7()
    ensures PushAll("dbCB", "cD") == "dbCBcD"
  {
    assert PushAll("dbCBc", "D") == "dbCBcD";
  }

  lemma Chunk8()
    ensures PushAll("", "daA") == "d"
  {
    assert PushAll("da", "A") == "d";
    assert PushAll("d", "aA") == "d";
  }

  lemma Chunk9()
    ensures PushAll("d", "cCaC") == "daC"
  {
    assert PushAll("da", "C") == "daC";
    assert PushAll("d", "aC") == "daC";
    assert PushAll("dc", "CaC") == "daC";
  }

  lemma Chunk10()
    ensures PushAll("daC", "AcC") == "daCA"
  {
    assert PushAll("daCAc", "C") == "daCA";
    assert PushAll("daCA", "cC") == "daCA";
  }

  lemma Chunk11()
    ensures PushAll("daCA", "caDA") == "daCAcaDA"
  {
    assert PushAll("daCAcaD", "A") == "daCAcaDA";
    assert PushAll("daCAca", "DA") == "daCAcaDA";
    assert PushAll("daCAc", "aDA") == "daCAcaDA";
  }

  lemma Chunk12()
    ensures PushAll("dabA", "a") == "dab"
  {

  }

  lemma Chunk13()
    ensures PushAll("dab", "BA") == "d"
  {
    assert PushAll("da", "A") == "d";
  }

  lemma Chunk14()
    ensures PushAll("d", "aDA") == "daDA"
  {
    assert PushAll("daD", "A") == "daDA";
    assert PushAll("da", "DA") == "daDA";
  }

  lemma Chunk15()
    ensures PushAll("", "abA") == "abA"
  {
    assert PushAll("ab", "A") == "abA";
    assert PushAll("a", "bA") == "abA";
  }

  lemma Chunk16()
    ensures PushAll("abA", "cCaC") == "abC"
  {
    assert PushAll("ab", "C") == "abC";
    assert PushAll("abA", "aC") == "abC";
    assert PushAll("abAc", "CaC") == "abC";
  }

  lemma Chunk17()
    ensures PushAll("abC", "BAcC") == "abCBA"
  {
    assert PushAll("abCBAc", "C") == "abCBA";
    assert PushAll("abCBA", "cC") == "abCBA";
    assert PushAll("abCB", "AcC") == "abCBA";
  }

  lemma Chunk18()
    ensures PushAll("abCBA", "caA") == "abCBAc"
  {
    assert PushAll("abCBAca", "A") == "abCBAc";
    assert PushAll("abCBAc", "aA") == "abCBAc";
  }

  lemma ExampleNorm(s: string)
    requires s == "dabA" + "cCaC" + "BAcC" + "caDA"
    ensures Norm(s) == "dabCBAcaDA"
  {
    Chunk0();
    Chunk1();
    Chunk2();
    Chunk3();
    PushAllAppend([], "dabA" + "cCaC" + "BAcC", "caDA");
    PushAllAppend([], "dabA" + "cCaC", "BAcC");
    PushAllAppend([], "dabA", "cCaC");
  }

  lemma StripANorm(s: string)
    requires s == "db" + "cCC" + "BcC" + "cD"
    ensures Norm(s) == "dbCBcD"
  {
    Chunk4();
    Chunk5();
    Chunk6();
    Chunk7();
    PushAllAppend([], "db" + "cCC" + "BcC", "cD");
    PushAllAppend([], "db" + "cCC", "BcC");
    PushAllAppend([], "db", "cCC");
  }

  lemma StripBNorm(s: string)
    requires s == "daA" + "cCaC" + "AcC" + "caDA"
    ensures Norm(s) == "daCAcaDA"
  {
    Chunk8();
    Chunk9();
    Chunk10();
    Chunk11();
    PushAllAppend([], "daA" + "cCaC" + "AcC", "caDA");
    PushAllAppend([], "daA" + "cCaC", "AcC");
    PushAllAppend([], "daA", "cCaC");
  }

  lemma StripCNorm(s: string)
    requires s == "dabA" + "a" + "BA" + "aDA"
    ensures Norm(s) == "daDA"
  {
    Chunk0();
    Chunk12();
    Chunk13();
    Chunk14();
    PushAllAppend([], "dabA" + "a" + "BA", "aDA");
    PushAllAppend([], "dabA" + "a", "BA");
    PushAllAppend([], "dabA", "a");
  }

  lemma StripDNorm(s: string)
    requires s == "abA" + "cCaC" + "BAcC" + "caA"
    ensures Norm(s) == "abCBAc"
  {
    Chunk15();
    Chunk16();
    Chunk17();
    Chunk18();
    PushAllAppend([], "abA" + "cCaC" + "BAcC", "caA");
    PushAllAppend([], "abA" + "cCaC", "BAcC");
    PushAllAppend([], "abA", "cCaC");
  }

  // The example with each of its four unit types stripped.

  lemma StripA_dabA()
    ensures Strip("dabA", 'a') == "db"
  {
  }

  lemma StripA_cCaC()
    ensures Strip("cCaC", 'a') == "cCC"
  {
  }

  lemma StripA_BAcC()
    ensures Strip("BAcC", 'a') == "BcC"
  {
  }

  lemma StripA_caDA()
    ensures Strip("caDA", 'a') == "cD"
  {
  }

  lemma StripAIs(s: string)
    requires s == "dabAcCaCBAcCcaDA"
    ensures Strip(s, 'a') == "db" + "cCC" + "BcC" + "cD"
  {
    assert s == "dabA" + "cCaC" + "BAcC" + "caDA";
    StripA_dabA();
    StripA_cCaC();
    StripA_BAcC();
    StripA_caDA();
    StripAppend("dabA" + "cCaC" + "BAcC", "caDA", 'a');
    StripAppend("dabA" + "cCaC", "BAcC", 'a');
    StripAppend("dabA", "cCaC", 'a');
  }

  lemma StripB_dabA()
    ensures Strip("dabA", 'b') == "daA"
  {
  }

  lemma StripB_cCaC()
    ensures Strip("cCaC", 'b') == "cCaC"
  {
  }

  lemma StripB_BAcC()
    ensures Strip("BAcC", 'b') == "AcC"
  {
  }

  lemma StripB_caDA()
    ensures Strip("caDA", 'b') == "caDA"
  {
  }

  lemma StripBIs(s: string)
    requires s == "dabAcCaCBAcCcaDA"
    ensures Strip(s, 'b') == "daA" + "cCaC" + "AcC" + "caDA"
  {
    assert s == "dabA" + "cCaC" + "BAcC" + "caDA";
    StripB_dabA();
    StripB_cCaC();
    StripB_BAcC();
    StripB_caDA();
    StripAppend("dabA" + "cCaC" + "BAcC", "caDA", 'b');
    StripAppend("dabA" + "cCaC", "BAcC", 'b');
    StripAppend("dabA", "cCaC", 'b');
  }

  lemma StripC_dabA()
    ensures Strip("dabA", 'c') == "dabA"
  {
  }

  lemma StripC_cCaC()
    ensures Strip("cCaC", 'c') == "a"
  {
  }

  lemma StripC_BAcC()
    ensures Strip("BAcC", 'c') == "BA"
  {
  }

  lemma StripC_caDA()
    ensures Strip("caDA", 'c') == "aDA"
  {
  }

  lemma StripCIs(s: string)
    requires s == "dabAcCaCBAcCcaDA"
    ensures Strip(s, 'c') == "dabA" + "a" + "BA" + "aDA"
  {
    assert s == "dabA" + "cCaC" + "BAcC" + "caDA";
    StripC_dabA();
    StripC_cCaC();
    StripC_BAcC();
    StripC_caDA();
    StripAppend("dabA" + "cCaC" + "BAcC", "caDA", 'c');
    StripAppend("dabA" + "cCaC", "BAcC", 'c');
    StripAppend("dabA", "cCaC", 'c');
  }

  lemma StripD_dabA()
    ensures Strip("dabA", 'd') == "abA"
  {
  }

  lemma StripD_cCaC()
    ensures Strip("cCaC", 'd') == "cCaC"
  {
  }

  lemma StripD_BAcC()
    ensures Strip("BAcC", 'd') == "BAcC"
  {
  }

  lemma StripD_caDA()
    ensures Strip("caDA", 'd') == "caA"
  {
  }

  lemma StripDIs(s: string)
    requires s == "dabAcCaCBAcCcaDA"
    ensures Strip(s, 'd') == "abA" + "cCaC" + "BAcC" + "caA"
  {
    assert s == "dabA" + "cCaC" + "BAcC" + "caDA";
    StripD_dabA();
    StripD_cCaC();
    StripD_BAcC();
    StripD_caDA();
    StripAppend("dabA" + "cCaC" + "BAcC", "caDA", 'd');
    StripAppend("dabA" + "cCaC", "BAcC", 'd');
    StripAppend("dabA", "cCaC", 'd');
  }

  /** The example holds only the letters a to d. */
  lemma ExampleLacks(s: string, u: char)
    requires s == "dabAcCaCBAcCcaDA" && 'e' <= u <= 'z'
    ensures Strip(s, u) == s
  {
    assert 'E' <= ToUpper(u) <= 'Z';
    StripAbsent(s, u);
  }

  /** Past the letters the example holds, no stripped reaction beats the first four. */
  lemma {:induction false} BestPastD(s: string, n: nat)
    requires s == "dabAcCaCBAcCcaDA" && 4 <= n <= 26 && Best(s, 4) <= |Norm(s)|
    ensures Best(s, n) == Best(s, 4)
    decreases n
  {
    if n > 4 {
      BestPastD(s, n - 1);
      ExampleLacks(s, Letter(n - 1));
    }
  }

  /** `part1`'s example: the polymer reacts down to 10 units. */
  lemma Part1Example(s: string)
    requires s == "dabAcCaCBAcCcaDA"
    ensures |Norm(s)| == 10
  {
    assert s == "dabA" + "cCaC" + "BAcC" + "caDA";
    ExampleNorm(s);
  }

  /** `part2`'s example: stripping the c units leaves the shortest reaction, 4 units. */
  lemma Part2Example(s: string)
    requires s == "dabAcCaCBAcCcaDA"
    ensures Best(s, 26) == 4
  {
    assert s == "dabA" + "cCaC" + "BAcC" + "caDA";
    ExampleNorm(s);
    FirstFour(s);
    BestPastD(s, 26);
  }

  /** The reactions with a, b, c or d stripped are 6, 8, 4 and 6 units long. */
  lemma FirstFour(s: string)
    requires s == "dabAcCaCBAcCcaDA"
    ensures Best(s, 4) == 4
  {
    StripAIs(s);
    StripBIs(s);
    StripCIs(s);
    StripDIs(s);
    StripANorm(Strip(s, 'a'));
    StripBNorm(Strip(s, 'b'));
    StripCNorm(Strip(s, 'c'));
    StripDNorm(Strip(s, 'd'));
    assert Letter(0) == 'a' && Letter(1) == 'b' && Letter(2) == 'c' && Letter(3) == 'd';
  }
}
