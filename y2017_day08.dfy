/**
 * 2017 day 8 (src/bin/y2017/day08.rs): lines such as `b inc 5 if a > 1`
 * change one named register when a comparison on another holds.  Every
 * register starts at 0 and comes into being when a line names it, as the
 * target or in the condition.  `part1` is the largest final value and
 * `part2` the largest value seen on the way.
 */
module Y2017Day08 {
  import opened Wrappers
  import opened RustInt
  import opened Strings

  datatype Op = NotEqual | Equal | GreaterThan | GreaterThanEqual | LessThan | LessThanEqual

  /** The comparison of a line and the value it compares with. */
  datatype Condition = Condition(op: Op, value: I64)

  /** What `parse_line` returns: the target, the signed delta, the condition's register and the condition. */
  datatype Line = Line(reg: string, delta: I64, condReg: string, cond: Condition)

  /** `Condition::eval`: the register's value compared with the condition's. */
  function Eval(c: Condition, value: I64): bool
  {
    match c.op
    case Equal => value == c.value
    case NotEqual => value != c.value
    case GreaterThan => value > c.value
    case GreaterThanEqual => value >= c.value
    case LessThan => value < c.value
    case LessThanEqual => value <= c.value
  }

  /** The comparison that holds exactly when op does not. */
  function Negation(op: Op): Op
  {
    match op
    case Equal => NotEqual
    case NotEqual => Equal
    case GreaterThan => LessThanEqual
    case LessThanEqual => GreaterThan
    case GreaterThanEqual => LessThan
    case LessThan => GreaterThanEqual
  }

  /** The six comparisons come in complementary pairs, and the pairing is an involution. */
  lemma NegationComplements(op: Op, v: I64, x: I64)
    ensures Eval(Condition(Negation(op), v), x) == !Eval(Condition(op, v), x)
    ensures Negation(Negation(op)) == op
  {
  }

  /** Exactly one of `<`, `==` and `>` holds. */
  lemma Trichotomy(v: I64, x: I64)
    ensures (if Eval(Condition(LessThan, v), x) then 1 else 0) + (if Eval(Condition(Equal, v), x) then 1 else 0)
          + (if Eval(Condition(GreaterThan, v), x) then 1 else 0) == 1
  {
  }

  // ---------------------------------------------------------------------
  // `parse_line`.

  /** The text of each comparison. */
  function OpText(op: Op): (s: string)
    ensures s != [] && ' ' !in s
  {
    match op
    case Equal => "=="
    case NotEqual => "!="
    case GreaterThan => ">"
    case GreaterThanEqual => ">="
    case LessThan => "<"
    case LessThanEqual => "<="
  }

  /** The `match` on the comparison word; None for the `panic!` arm. */
  function ParseOp(s: string): (o: Option<Op>)
    ensures o.Some? <==> s in ["==", "!=", ">", ">=", "<", "<="]
    ensures o.Some? ==> OpText(o.value) == s
  {
    if s == "==" then Some(Equal)
    else if s == "!=" then Some(NotEqual)
    else if s == ">" then Some(GreaterThan)
    else if s == ">=" then Some(GreaterThanEqual)
    else if s == "<" then Some(LessThan)
    else if s == "<=" then Some(LessThanEqual)
    else None
  }

  /** Every comparison reads back from its text. */
  lemma ParseOpText(op: Op)
    ensures ParseOp(OpText(op)) == Some(op)
  {
  }

  /**
   * `parse_line`: the words between single spaces are the target, `inc`
   * (any other word counts as `dec`), the amount, `if`, the condition's
   * register, the comparison and its value.  A missing word, an amount or
   * value that is not an `i64`, or an unknown comparison panics (None).
   * The sign is multiplied in with `i64` wrap-around.
   */
  function ParseLine(line: string): (r: Option<Line>)
    ensures r.Some? ==> ' ' !in r.value.reg && ' ' !in r.value.condReg
    ensures r.Some? <==> var ws := Split(line, ' ');
      |ws| >= 7 && ParseI64(ws[2]).Some? && ParseOp(ws[5]).Some? && ParseI64(ws[6]).Some?
  {
    ParseWords(Split(line, ' '))
  }

  /** The words of `parse_line`, in order. */
  function ParseWords(ws: seq<string>): (r: Option<Line>)
    ensures r.Some? <==> |ws| >= 7 && ParseI64(ws[2]).Some? && ParseOp(ws[5]).Some? && ParseI64(ws[6]).Some?
    ensures r.Some? ==> r.value.reg == ws[0] && r.value.condReg == ws[4]
  {
    if |ws| < 7 then None
    else
      var sign := if ws[1] == "inc" then 1 else -1;
      match (ParseI64(ws[2]), ParseOp(ws[5]), ParseI64(ws[6]))
      case (Some(n), Some(op), Some(v)) => Some(Line(ws[0], WrapI64(sign * n), ws[4], Condition(op, v)))
      case _ => None
  }

  /** The words of a line in the form `parse_line` reads, with `inc` and the delta as it is. */
  function Words(l: Line): (ws: seq<string>)
    ensures |ws| == 7 && forall k :: 0 <= k < 7 ==> (' ' !in ws[k] <== k != 0 && k != 4)
  {
    [l.reg, "inc", ShowInt(l.delta), "if", l.condReg, OpText(l.cond.op), ShowInt(l.cond.value)]
  }

  /** The line itself: its words joined by single spaces. */
  function Show(l: Line): string
  {
    Join(Words(l), ' ')
  }

  /** Every line whose register names hold no space reads back from its listing. */
  lemma {:induction false} ParseShow(l: Line)
    requires ' ' !in l.reg && ' ' !in l.condReg
    ensures ParseLine(Show(l)) == Some(l)
  {
    SplitJoin(Words(l), ' ');
    ParseShowI64(l.delta);
    ParseShowI64(l.cond.value);
    ParseOpText(l.cond.op);
  }

  /** `dec n` is `inc` of the negated amount: the two lines parse alike, to the delta -n. */
  lemma {:induction false} DecNegates(reg: string, n: I64, rest: seq<string>)
    requires n != MinI64 && ' ' !in reg && forall k :: 0 <= k < |rest| ==> ' ' !in rest[k]
    ensures ParseLine(Join([reg, "dec", ShowInt(n)] + rest, ' ')) == ParseLine(Join([reg, "inc", ShowInt(-n)] + rest, ' '))
    ensures ParseLine(Join([reg, "dec", ShowInt(n)] + rest, ' ')).Some? ==> ParseLine(Join([reg, "dec", ShowInt(n)] + rest, ' ')).value.delta == -n
  {
    var a, b := [reg, "dec", ShowInt(n)] + rest, [reg, "inc", ShowInt(-n)] + rest;
    NoSpaceWords([reg, "dec", ShowInt(n)], rest);
    NoSpaceWords([reg, "inc", ShowInt(-n)], rest);
    forall k | 3 <= k < |a|
      ensures a[k] == b[k]
    {
      assert a[k] == rest[k - 3];
    }
    ParseJoin(a);
    ParseJoin(b);
    DecWords(a, b, n);
  }

  /** A line made of words without spaces reads as those words. */
  lemma {:induction false} ParseJoin(ws: seq<string>)
    requires |ws| >= 1 && forall k :: 0 <= k < |ws| ==> ' ' !in ws[k]
    ensures ParseLine(Join(ws, ' ')) == ParseWords(ws)
  {
    SplitJoin(ws, ' ');
  }

  /** Words without spaces stay so when placed side by side. */
  lemma {:induction false} NoSpaceWords(head: seq<string>, rest: seq<string>)
    requires forall k :: 0 <= k < |head| ==> ' ' !in head[k]
    requires forall k :: 0 <= k < |rest| ==> ' ' !in rest[k]
    ensures forall k :: 0 <= k < |head + rest| ==> ' ' !in (head + rest)[k]
  {
    forall k | 0 <= k < |head + rest|
      ensures ' ' !in (head + rest)[k]
    {
      if k >= |head| {
        assert (head + rest)[k] == rest[k - |head|];
      }
    }
  }

  /** Word lists that differ only in `dec n` against `inc -n` parse alike. */
  lemma {:induction false} DecWords(a: seq<string>, b: seq<string>, n: I64)
    requires n != MinI64 && |a| == |b| >= 3 && a[0] == b[0]
    requires a[1] == "dec" && b[1] == "inc" && a[2] == ShowInt(n) && b[2] == ShowInt(-n)
    requires forall k :: 3 <= k < |a| ==> a[k] == b[k]
    ensures ParseWords(a) == ParseWords(b)
    ensures ParseWords(a).Some? ==> ParseWords(a).value.delta == -n
  {
    ParseShowI64(n);
    ParseShowI64(-n);
  }

  const MinI64: int := -0x8000_0000_0000_0000

  // ---------------------------------------------------------------------
  // The registers and one line.

  /** The `HashMap<&str, i64>` of both parts. */
  type Registers = map<string, I64>

  /** A register's value: 0 until a line names it. */
  function Get(m: Registers, k: string): I64
  {
    if k in m then m[k] else 0
  }

  /**
   * One line: `entry(..).or_insert(0)` for the condition's register and
   * then for the target, and the target gets its delta added (with `i64`
   * wrap-around) when the condition holds.
   */
  function Step(m: Registers, l: Line): (t: Registers)
    ensures t.Keys == m.Keys + {l.reg, l.condReg}
    ensures forall k :: k in t && k != l.reg ==> t[k] == Get(m, k)
    ensures Eval(l.cond, Get(m, l.condReg)) ==> t[l.reg] == WrapI64(Get(m, l.reg) + l.delta)
    ensures !Eval(l.cond, Get(m, l.condReg)) ==> t[l.reg] == Get(m, l.reg)
  {
    var m1 := if l.condReg in m then m else m[l.condReg := 0];
    var m2 := if l.reg in m1 then m1 else m1[l.reg := 0];
    if Eval(l.cond, m1[l.condReg]) then m2[l.reg := WrapI64(m2[l.reg] + l.delta)] else m2
  }

  /** The registers after the lines, or None when one does not parse. */
  function Run(lines: seq<string>): Option<Registers>
  {
    if lines == [] then Some(map[])
    else
      var front, l := Run(lines[..|lines| - 1]), ParseLine(lines[|lines| - 1]);
      if front.Some? && l.Some? then Some(Step(front.value, l.value)) else None
  }

  /** A line that does not parse makes the whole run panic. */
  lemma {:induction false} RunPanics(lines: seq<string>, i: nat)
    requires i < |lines| && ParseLine(lines[i]).None?
    ensures Run(lines).None?
    decreases |lines|
  {
    if i < |lines| - 1 {
      assert lines[..|lines| - 1][i] == lines[i];
      RunPanics(lines[..|lines| - 1], i);
    }
  }

  /** Every register a parsed line names exists afterwards. */
  lemma {:induction false} RunNames(lines: seq<string>, i: nat)
    requires i < |lines| && Run(lines).Some?
    ensures ParseLine(lines[i]).Some?
    ensures ParseLine(lines[i]).value.reg in Run(lines).value && ParseLine(lines[i]).value.condReg in Run(lines).value
    decreases |lines|
  {
    var front := lines[..|lines| - 1];
    if front != [] {
      assert Run(front).Some?;
    }
    if i < |lines| - 1 {
      assert front[i] == lines[i];
      RunNames(front, i);
    }
  }

  // ---------------------------------------------------------------------
  // `part1`.

  /** `map.values().max().unwrap()`: a largest value, or None for an empty map. */
  method MaxValue(m: Registers) returns (r: Option<I64>)
    ensures r.None? <==> m == map[]
    ensures r.Some? ==> r.value in m.Values && forall k :: k in m ==> m[k] <= r.value
  {
    var keys := m.Keys;
    r := None;
    while keys != {}
      invariant keys <= m.Keys
      invariant r.None? <==> keys == m.Keys
      invariant r.Some? ==> r.value in m.Values && forall k :: k in m.Keys - keys ==> m[k] <= r.value
      decreases |keys|
    {
      var k :| k in keys;
      if r.None? || m[k] > r.value {
        r := Some(m[k]);
      }
      keys := keys - {k};
    }
    if r.None? {
      assert m.Keys == {};
    }
  }

  /** `part1`: the largest final value; None when a line panics or there are no lines (the `unwrap` of an empty max). */
  method Part1(lines: seq<string>) returns (r: Option<I64>)
    ensures r.Some? <==> Run(lines).Some? && lines != []
    ensures r.Some? ==> r.value in Run(lines).value.Values
    ensures r.Some? ==> forall k :: k in Run(lines).value ==> Run(lines).value[k] <= r.value
  {
    var m: Registers := map[];
    for n := 0 to |lines|
      invariant Run(lines[..n]) == Some(m)
    {
      assert lines[..n + 1][..n] == lines[..n];
      var l := ParseLine(lines[n]);
      if l.None? {
        RunPanics(lines, n);
        return None;
      }
      m := Step(m, l.value);
    }
    assert lines[..|lines|] == lines;
    if lines != [] {
      RunNames(lines, 0);
    }
    r := MaxValue(m);
  }

  // ---------------------------------------------------------------------
  // `part2`.

  /**
   * What the loop of `part2` as written keeps in `max`: it starts at 0
   * and, whenever a condition holds, takes the target's value BEFORE the
   * delta is added.
   */
  function PeakAsWritten(lines: seq<string>): (r: int)
    requires Run(lines).Some?
    ensures r >= 0
    decreases |lines|
  {
    if lines == [] then 0
    else
      var front := lines[..|lines| - 1];
      var m, l := Run(front).value, ParseLine(lines[|lines| - 1]).value;
      if Eval(l.cond, Get(m, l.condReg)) then Max(Get(m, l.reg), PeakAsWritten(front)) else PeakAsWritten(front)
  }

  function Max(a: int, b: int): int { if a >= b then a else b }

  /** `part2` as written; None when a line panics. */
  method Part2AsWritten(lines: seq<string>) returns (r: Option<I64>)
    ensures r.Some? <==> Run(lines).Some?
    ensures r.Some? ==> r.value == PeakAsWritten(lines)
  {
    var best: I64 := 0;
    var m: Registers := map[];
    for n := 0 to |lines|
      invariant Run(lines[..n]) == Some(m) && best == PeakAsWritten(lines[..n])
    {
      var l := ParseLine(lines[n]);
      if l.None? {
        RunPanics(lines, n);
        return None;
      }
      var line := l.value;
      Extend(lines, n, line, m, Step(m, line), Peak(lines[..n]), best);
      if Eval(line.cond, Get(m, line.condReg)) {
        best := Max(Get(m, line.reg), best);
      }
      m := Step(m, line);
    }
    assert lines[..|lines|] == lines;
    return Some(best);
  }

  /**
   * The intended peak: 0 (every register starts there), raised by the
   * target's value AFTER the delta is added whenever a condition holds.
   * It is the largest value any register holds at any point
   * (`PeakBoundsEveryState`, `PeakIsHeld`).
   */
  function Peak(lines: seq<string>): (r: int)
    requires Run(lines).Some?
    ensures r >= 0
    decreases |lines|
  {
    if lines == [] then 0
    else
      var front := lines[..|lines| - 1];
      var m, l := Run(front).value, ParseLine(lines[|lines| - 1]).value;
      if Eval(l.cond, Get(m, l.condReg)) then Max(Step(m, l)[l.reg], Peak(front)) else Peak(front)
  }

  /** `part2` with the maximum taken after the update. */
  method Part2(lines: seq<string>) returns (r: Option<I64>)
    ensures r.Some? <==> Run(lines).Some?
    ensures r.Some? ==> r.value == Peak(lines)
  {
    var best: I64 := 0;
    var m: Registers := map[];
    for n := 0 to |lines|
      invariant Run(lines[..n]) == Some(m) && best == Peak(lines[..n])
    {
      var l := ParseLine(lines[n]);
      if l.None? {
        RunPanics(lines, n);
        return None;
      }
      var line := l.value;
      var t := Step(m, line);
      Extend(lines, n, line, m, t, best, PeakAsWritten(lines[..n]));
      if Eval(line.cond, Get(m, line.condReg)) {
        best := Max(t[line.reg], best);
      }
      m := t;
    }
    assert lines[..|lines|] == lines;
    return Some(best);
  }

  /** The final registers are all at most the intended peak. */
  lemma {:induction false} PeakBoundsFinal(lines: seq<string>, k: string)
    requires Run(lines).Some? && k in Run(lines).value
    ensures Run(lines).value[k] <= Peak(lines)
    decreases |lines|
  {
    var front := lines[..|lines| - 1];
    var m := Run(front).value;
    var l := ParseLine(lines[|lines| - 1]).value;
    if k in m && (k != l.reg || !Eval(l.cond, Get(m, l.condReg))) {
      PeakBoundsFinal(front, k);
    }
  }

  /** The intended peak never falls, and an earlier prefix that runs is one that the whole run passed. */
  lemma {:induction false} PeakGrows(lines: seq<string>, n: nat)
    requires n <= |lines| && Run(lines).Some?
    ensures Run(lines[..n]).Some? && Peak(lines[..n]) <= Peak(lines)
    decreases |lines|
  {
    if n < |lines| {
      var front := lines[..|lines| - 1];
      assert front[..n] == lines[..n];
      PeakGrows(front, n);
    } else {
      assert lines[..n] == lines;
    }
  }

  /** Every value any register holds after any prefix of the lines is at most the intended peak. */
  lemma {:induction false} PeakBoundsEveryState(lines: seq<string>, n: nat, k: string)
    requires n <= |lines| && Run(lines).Some?
    ensures Run(lines[..n]).Some?
    ensures k in Run(lines[..n]).value ==> Run(lines[..n]).value[k] <= Peak(lines)
  {
    PeakGrows(lines, n);
    if k in Run(lines[..n]).value {
      PeakBoundsFinal(lines[..n], k);
    }
  }

  /** The intended peak is 0, where every register starts, or a value some register holds after some line. */
  lemma {:induction false} PeakIsHeld(lines: seq<string>)
    requires Run(lines).Some?
    ensures Peak(lines) == 0 || exists n, k :: 0 < n <= |lines| && HeldAfter(lines, n, k, Peak(lines))
    decreases |lines|
  {
    if lines != [] {
      var front := lines[..|lines| - 1];
      PeakIsHeld(front);
      if Peak(lines) != Peak(front) {
        PeakIsHeldLast(lines);
      } else if Peak(front) != 0 {
        var n, k :| 0 < n <= |front| && HeldAfter(front, n, k, Peak(front));
        HeldStaysHeld(lines, n, k, Peak(front));
      }
    }
  }

  /** A peak that the last line raised is held by that line's register. */
  lemma {:induction false} PeakIsHeldLast(lines: seq<string>)
    requires Run(lines).Some? && lines != []
    requires Peak(lines) != Peak(lines[..|lines| - 1])
    ensures HeldAfter(lines, |lines|, ParseLine(lines[|lines| - 1]).value.reg, Peak(lines))
  {
    assert lines[..|lines|] == lines;
  }

  /** What a prefix of the front held, the same prefix of the whole holds. */
  lemma {:induction false} HeldStaysHeld(lines: seq<string>, n: nat, k: string, v: int)
    requires lines != [] && 0 < n < |lines| && HeldAfter(lines[..|lines| - 1], n, k, v)
    ensures HeldAfter(lines, n, k, v)
  {
    assert lines[..|lines| - 1][..n] == lines[..n];
  }

  /** After the first n lines, register k holds v. */
  predicate HeldAfter(lines: seq<string>, n: nat, k: string, v: int)
    requires n <= |lines|
  {
    Run(lines[..n]).Some? && k in Run(lines[..n]).value && Run(lines[..n]).value[k] == v
  }

  /**
   * As written, part2 misses a value held only after the last update of
   * its register: for the single line `a inc 5 if a == 0` (see
   * `MissedText`) it reports 0 where a ends at 5.
   */
  lemma MissedPeak(lines: seq<string>)
    requires |lines| == 1 && ParseLine(lines[0]) == Some(Line("a", 5, "a", Condition(Equal, 0)))
    ensures Run(lines) == Some(map["a" := 5])
    ensures PeakAsWritten(lines) == 0 && Peak(lines) == 5
  {
    var l := Line("a", 5, "a", Condition(Equal, 0));
    MissedStep(l);
    assert lines[..0] == [] && lines[..1] == lines;
    Extend(lines, 0, l, map[], map["a" := 5], 0, 0);
  }

  lemma MissedText(l: Line)
    requires l == Line("a", 5, "a", Condition(Equal, 0))
    ensures ParseLine("a inc 5 if a == 0") == Some(l)
  {
    assert ShowInt(5) == "5" && ShowInt(0) == "0";
    ReadsAs(l, "a inc 5 if a == 0");
  }

  lemma MissedStep(l: Line)
    requires l == Line("a", 5, "a", Condition(Equal, 0))
    ensures Step(map[], l) == map["a" := 5] && Eval(l.cond, 0)
  {
  }

  /**
   * Both loops over line n of the lines, from registers m with peaks
   * `best` (intended) and `seen` (as written); t is the registers afterwards.
   */
  lemma {:induction false} Extend(lines: seq<string>, n: nat, l: Line, m: Registers, t: Registers, best: int, seen: int)
    requires n < |lines| && ParseLine(lines[n]) == Some(l) && t == Step(m, l)
    requires Run(lines[..n]) == Some(m) && Peak(lines[..n]) == best && PeakAsWritten(lines[..n]) == seen
    ensures Run(lines[..n + 1]) == Some(t)
    ensures Peak(lines[..n + 1]) == if Eval(l.cond, Get(m, l.condReg)) then Max(t[l.reg], best) else best
    ensures PeakAsWritten(lines[..n + 1]) == if Eval(l.cond, Get(m, l.condReg)) then Max(Get(m, l.reg), seen) else seen
  {
    var whole := lines[..n + 1];
    assert whole[..|whole| - 1] == lines[..n] && whole[|whole| - 1] == lines[n];
    assert Run(whole) == Some(t);
  }

  /** A listing with seven words, spelled out. */
  lemma {:induction false} JoinSeven(ws: seq<string>)
    requires |ws| == 7
    ensures Join(ws, ' ') == ws[0] + " " + ws[1] + " " + ws[2] + " " + ws[3] + " " + ws[4] + " " + ws[5] + " " + ws[6]
  {
    var j6 := ws[6];
    assert ws[6..] == [ws[6]];
    var j5 := ws[5] + " " + j6;
    JoinFrom(ws, 5);
    var j4 := ws[4] + " " + j5;
    JoinFrom(ws, 4);
    var j3 := ws[3] + " " + j4;
    JoinFrom(ws, 3);
    var j2 := ws[2] + " " + j3;
    JoinFrom(ws, 2);
    var j1 := ws[1] + " " + j2;
    JoinFrom(ws, 1);
    JoinFrom(ws, 0);
    assert ws[0..] == ws;
    assert Join(ws, ' ') == ws[0] + " " + j1;
  }

  /** Joining the words from k on: word k, a space, and the rest joined. */
  lemma JoinFrom(ws: seq<string>, k: nat)
    requires k + 1 < |ws|
    ensures Join(ws[k..], ' ') == ws[k] + " " + Join(ws[k + 1..], ' ')
  {
    assert ws[k..][1..] == ws[k + 1..];
  }

  /** A line written the way `Show` lists l reads back as l. */
  lemma {:induction false} ReadsAs(l: Line, text: string)
    requires ' ' !in l.reg && ' ' !in l.condReg
    requires text == l.reg + " " + "inc" + " " + ShowInt(l.delta) + " " + "if" + " " + l.condReg + " " + OpText(l.cond.op) + " " + ShowInt(l.cond.value)
    ensures ParseLine(text) == Some(l)
  {
    ParseShow(l);
    JoinSeven(Words(l));
  }

  // ---------------------------------------------------------------------
  // The example of `part1_1` and `part2_1`.

  const Example: seq<string> := [Example0, Example1, Example2, Example3]
  const Example0 := "b inc 5 if a > 1"
  const Example1 := "a inc 1 if b < 5"
  const Example2 := "c dec -10 if a >= 1"
  const Example3 := "c inc -20 if c == 10"

  /**
   * The example: the registers end as a = 1, b = 0, c = -10, so part 1
   * is 1, and the largest value ever held is c's 10, which part 2 finds
   * both as written and as intended.
   */
  lemma ExampleParts(lines: seq<string>)
    requires |lines| == 4 && ParseLine(lines[0]) == Some(Line("b", 5, "a", Condition(GreaterThan, 1)))
    requires ParseLine(lines[1]) == Some(Line("a", 1, "b", Condition(LessThan, 5)))
    requires ParseLine(lines[2]) == Some(Line("c", 10, "a", Condition(GreaterThanEqual, 1)))
    requires ParseLine(lines[3]) == Some(Line("c", -20, "c", Condition(Equal, 10)))
    ensures Run(lines) == Some(map["a" := 1, "b" := 0, "c" := -10])
    ensures Peak(lines) == 10 && PeakAsWritten(lines) == 10
  {
    var m3, m4 := map["a" := 1, "b" := 0, "c" := 10], map["a" := 1, "b" := 0, "c" := -10];
    ExampleFirstThree(lines, m3);
    ExampleStep3(lines[3], m3, m4);
    Extend(lines, 3, ParseLine(lines[3]).value, m3, m4, 10, 0);
    assert lines[..4] == lines;
  }

  /** Both loops over the first three lines. */
  lemma ExampleFirstThree(lines: seq<string>, m3: Registers)
    requires |lines| == 4 && ParseLine(lines[0]) == Some(Line("b", 5, "a", Condition(GreaterThan, 1)))
    requires ParseLine(lines[1]) == Some(Line("a", 1, "b", Condition(LessThan, 5)))
    requires ParseLine(lines[2]) == Some(Line("c", 10, "a", Condition(GreaterThanEqual, 1)))
    requires m3 == map["a" := 1, "b" := 0, "c" := 10]
    ensures Run(lines[..3]) == Some(m3) && Peak(lines[..3]) == 10 && PeakAsWritten(lines[..3]) == 0
  {
    var m2 := map["a" := 1, "b" := 0];
    ExampleFirstTwo(lines, m2);
    ExampleStep2(lines[2], m2, m3);
    Extend(lines, 2, ParseLine(lines[2]).value, m2, m3, 1, 0);
  }

  /** The four lines of the example parse as `ExampleParts` needs. */
  lemma ExampleParses()
    ensures ParseLine(Example[0]) == Some(Line("b", 5, "a", Condition(GreaterThan, 1)))
    ensures ParseLine(Example[1]) == Some(Line("a", 1, "b", Condition(LessThan, 5)))
    ensures ParseLine(Example[2]) == Some(Line("c", 10, "a", Condition(GreaterThanEqual, 1)))
    ensures ParseLine(Example[3]) == Some(Line("c", -20, "c", Condition(Equal, 10)))
  {
    var l0 := ExampleText0();
    var l1 := ExampleText1();
    var l2 := ExampleText2();
    var l3 := ExampleText3();
  }

  /** Part 1 of the example: the largest final value is a's 1. */
  lemma ExamplePart1(m: Registers)
    requires m == map["a" := 1, "b" := 0, "c" := -10]
    ensures 1 in m.Values && forall k :: k in m ==> m[k] <= 1
  {
    assert m["a"] == 1;
  }

  /** Both loops over the first two lines. */
  lemma ExampleFirstTwo(lines: seq<string>, m2: Registers)
    requires |lines| == 4 && ParseLine(lines[0]) == Some(Line("b", 5, "a", Condition(GreaterThan, 1)))
    requires ParseLine(lines[1]) == Some(Line("a", 1, "b", Condition(LessThan, 5)))
    requires m2 == map["a" := 1, "b" := 0]
    ensures Run(lines[..2]) == Some(m2) && Peak(lines[..2]) == 1 && PeakAsWritten(lines[..2]) == 0
  {
    var m1 := map["a" := 0, "b" := 0];
    ExampleFirstOne(lines, m1);
    ExampleStep1(lines[1], m1, m2);
    assert Get(m1, "b") == 0 && Get(m1, "a") == 0 && m2["a"] == 1;
    Extend(lines, 1, ParseLine(lines[1]).value, m1, m2, 0, 0);
  }

  /** Both loops over the first line. */
  lemma ExampleFirstOne(lines: seq<string>, m1: Registers)
    requires |lines| == 4 && ParseLine(lines[0]) == Some(Line("b", 5, "a", Condition(GreaterThan, 1)))
    requires m1 == map["a" := 0, "b" := 0]
    ensures Run(lines[..1]) == Some(m1) && Peak(lines[..1]) == 0 && PeakAsWritten(lines[..1]) == 0
  {
    ExampleStep0(lines[0], m1);
    assert lines[..0] == [];
    Extend(lines, 0, ParseLine(lines[0]).value, map[], m1, 0, 0);
  }

  lemma ExampleText0() returns (l: Line)
    ensures l == Line("b", 5, "a", Condition(GreaterThan, 1)) && ParseLine(Example0) == Some(l)
  {
    l := Line("b", 5, "a", Condition(GreaterThan, 1));
    assert ShowInt(5) == "5" && ShowInt(1) == "1";
    ReadsAs(l, Example0);
  }

  lemma ExampleText1() returns (l: Line)
    ensures l == Line("a", 1, "b", Condition(LessThan, 5)) && ParseLine(Example1) == Some(l)
  {
    l := Line("a", 1, "b", Condition(LessThan, 5));
    assert ShowInt(5) == "5" && ShowInt(1) == "1";
    ReadsAs(l, Example1);
  }

  /** The `dec` line reads as its `inc` counterpart. */
  lemma ExampleText2() returns (l: Line)
    ensures l == Line("c", 10, "a", Condition(GreaterThanEqual, 1)) && ParseLine(Example2) == Some(l)
  {
    l := Line("c", 10, "a", Condition(GreaterThanEqual, 1));
    var rest := ["if", "a", ">=", "1"];
    DecNegates("c", -10, rest);
    ExampleDecText(rest);
    ExampleIncText(l, rest);
  }

  lemma ExampleDecText(rest: seq<string>)
    requires rest == ["if", "a", ">=", "1"]
    ensures Join(["c", "dec", ShowInt(-10)] + rest, ' ') == Example2
  {
    assert ShowInt(-10) == "-10";
    var ws := ["c", "dec", ShowInt(-10)] + rest;
    assert ws == ["c", "dec", "-10", "if", "a", ">=", "1"];
    JoinSeven(ws);
  }

  lemma ExampleIncText(l: Line, rest: seq<string>)
    requires l == Line("c", 10, "a", Condition(GreaterThanEqual, 1)) && rest == ["if", "a", ">=", "1"]
    ensures ParseLine(Join(["c", "inc", ShowInt(- -10)] + rest, ' ')) == Some(l)
  {
    assert ShowInt(10) == "10" && ShowInt(1) == "1";
    JoinSeven(["c", "inc", ShowInt(10)] + rest);
    ReadsAs(l, Join(["c", "inc", ShowInt(10)] + rest, ' '));
  }

  lemma ExampleText3() returns (l: Line)
    ensures l == Line("c", -20, "c", Condition(Equal, 10)) && ParseLine(Example3) == Some(l)
  {
    l := Line("c", -20, "c", Condition(Equal, 10));
    ShowExample3();
    assert Example3 == "c" + " " + "inc" + " " + "-20" + " " + "if" + " " + "c" + " " + "==" + " " + "10";
    ReadsAs(l, Example3);
  }

  lemma ShowExample3()
    ensures ShowInt(-20) == "-20" && ShowInt(10) == "10"
  {
    assert Numeral(20) == Numeral(2) + "0";
  }

  /** The registers after the first line of the example. */
  lemma ExampleStep0(line0: string, m1: Registers)
    requires ParseLine(line0) == Some(Line("b", 5, "a", Condition(GreaterThan, 1)))
    requires m1 == map["a" := 0, "b" := 0]
    ensures Step(map[], ParseLine(line0).value) == m1 && !Eval(ParseLine(line0).value.cond, 0)
  {
  }

  /** The registers after the second line of the example. */
  lemma ExampleStep1(line1: string, m1: Registers, m2: Registers)
    requires ParseLine(line1) == Some(Line("a", 1, "b", Condition(LessThan, 5)))
    requires m1 == map["a" := 0, "b" := 0] && m2 == map["a" := 1, "b" := 0]
    ensures Step(m1, ParseLine(line1).value) == m2 && Eval(ParseLine(line1).value.cond, 0)
  {
  }

  /** The registers after the third line of the example. */
  lemma ExampleStep2(line2: string, m2: Registers, m3: Registers)
    requires ParseLine(line2) == Some(Line("c", 10, "a", Condition(GreaterThanEqual, 1)))
    requires m2 == map["a" := 1, "b" := 0] && m3 == map["a" := 1, "b" := 0, "c" := 10]
    ensures Step(m2, ParseLine(line2).value) == m3 && Eval(ParseLine(line2).value.cond, 1)
  {
  }

  /** The registers after the last line of the example. */
  lemma ExampleStep3(line3: string, m3: Registers, m4: Registers)
    requires ParseLine(line3) == Some(Line("c", -20, "c", Condition(Equal, 10)))
    requires m3 == map["a" := 1, "b" := 0, "c" := 10] && m4 == map["a" := 1, "b" := 0, "c" := -10]
    ensures Step(m3, ParseLine(line3).value) == m4 && Eval(ParseLine(line3).value.cond, 10)
  {
  }
}
