/**
 * 2017 day 25 (src/bin/y2017/day25.rs): a Turing machine.  `parse` reads
 * the step count and, per state, what to do on a 0 and on a 1; `part1`
 * runs the machine on a tape kept in a `Grid<bool>` (row 0 is the tape) and
 * returns the number of set cells.  The input is taken as its trimmed
 * lines; characters stand for the bytes the source indexes, as the input is
 * ASCII.
 */
module Y2017Day25 {
  import opened Wrappers
  import opened RustInt
  import opened Strings
  import opened Matrices
  import B = BitVectors

  /** `(value, direction, next_state)`: the value written, the move, the next state. */
  datatype Action = Action(write: bool, move: int, next: nat)

  /** What a state does when the current value is 0 and when it is 1. */
  datatype State = State(zero: Action, one: Action)

  /** `State::invalid()`: the placeholder for a state not read yet. */
  const Invalid: State := State(Action(false, 1000, 1000), Action(false, 1000, 1000))

  // ---------------------------------------------------------------------
  // parse

  /** `(b - b'A') as usize` on bytes: u8 subtraction wraps. */
  function LetterIndex(c: char): (n: nat)
    ensures n < 256
    ensures 'A' <= c <= 'Z' ==> n == c as int - 'A' as int
  {
    (c as int - 'A' as int) % 256
  }

  /** `str::parse::<usize>`: an optional `+` and digits, below 2^64. */
  function ParseUsize(w: string): (r: Option<nat>)
    ensures r.Some? ==> r.value < U64
  {
    if w != [] && w[0] == '-' then None
    else match ParseInt(w)
      case Some(v) => if 0 <= v < U64 then Some(v) else None
      case None => None
  }

  lemma ParseUsizeNumeral(n: nat)
    requires n < U64
    ensures ParseUsize(Numeral(n)) == Some(n)
  {
    DecimalOfNumeral(n);
  }

  /** The number on the second line, between "after " and " steps"; None where the source panics. */
  function StepCount(line: string): Option<nat>
  {
    match Find(line, "after")
    case None => None
    case Some(i) =>
      match Find(line, " steps")
      case None => None
      case Some(j) => if i + 6 <= j then ParseUsize(line[i + 6..j]) else None
  }

  /** The reading state of the loop of `parse`: the states pushed, the one being read, which half is read. */
  datatype Reader = Reader(states: seq<State>, cur: State, isZero: bool)

  const Fresh: Reader := Reader([], Invalid, true)

  /** A line starting "In state " pushes the state being read unless it is still the placeholder. */
  function Enter(rd: Reader, line: string): Reader
  {
    if StartsWith(line, "In state ") && rd.cur != Invalid then Reader(rd.states + [rd.cur], Invalid, true) else rd
  }

  /** The half being read. */
  function Half(rd: Reader): Action
  {
    if rd.isZero then rd.cur.zero else rd.cur.one
  }

  function WithHalf(rd: Reader, a: Action): Reader
  {
    if rd.isZero then rd.(cur := rd.cur.(zero := a)) else rd.(cur := rd.cur.(one := a))
  }

  /** The write, move and continue lines fill in their part of the half being read. */
  function Fill(to: Action, line: string): Action
    requires Contains(line, "Write the value") ==> |line| > 22
    requires Contains(line, "Continue with state") ==> |line| > 26
  {
    var to := if Contains(line, "Write the value") then to.(write := line[22] == '1') else to;
    var to := if Contains(line, "Move one slot") then to.(move := if Contains(line, "right") then 1 else -1) else to;
    if Contains(line, "Continue with state") then to.(next := LetterIndex(line[26])) else to
  }

  /**
   * One line of `parse`'s loop: the "current value" lines choose the half
   * to read, the others fill it in.  None where the source indexes past the
   * end of the line.
   */
  function ReadLine(rd: Reader, line: string): Option<Reader>
  {
    var rd := Enter(rd, line);
    if Contains(line, "current value is 0") then Some(rd.(isZero := true))
    else if Contains(line, "current value is 1") then Some(rd.(isZero := false))
    else if (Contains(line, "Write the value") && |line| <= 22) || (Contains(line, "Continue with state") && |line| <= 26) then None
    else Some(WithHalf(rd, Fill(Half(rd), line)))
  }

  function Then(o: Option<Reader>, line: string): Option<Reader>
  {
    if o.None? then None else ReadLine(o.value, line)
  }

  /** The loop of `parse` over the given lines. */
  function Read(o: Option<Reader>, lines: seq<string>): Option<Reader>
  {
    if lines == [] then o else Then(Read(o, lines[..|lines| - 1]), lines[|lines| - 1])
  }

  /** `parse`: the step count and the states, None where the source panics. */
  function Parse(lines: seq<string>): (r: Option<(nat, seq<State>)>)
    ensures r.Some? ==> |lines| >= 3 && lines[0] == "Begin in state A."
    ensures r.Some? ==> StepCount(lines[1]) == Some(r.value.0) && |r.value.1| >= 1
  {
    if |lines| < 3 || lines[0] != "Begin in state A." then None
    else match StepCount(lines[1])
      case None => None
      case Some(till) =>
        match Read(Some(Fresh), lines[3..])
        case None => None
        case Some(rd) => Some((till, rd.states + [rd.cur]))
  }

  /** `parse` as the source writes it: a loop over the lines from the fourth on. */
  method ParseMethod(lines: seq<string>) returns (r: Option<(nat, seq<State>)>)
    ensures r == Parse(lines)
  {
    if |lines| < 3 || lines[0] != "Begin in state A." {
      return None;
    }
    var till := StepCount(lines[1]);
    if till.None? {
      return None;
    }
    var body := lines[3..];
    var rd := Fresh;
    for i := 0 to |body|
      invariant Read(Some(Fresh), body[..i]) == Some(rd)
    {
      PrefixStep(body, i);
      var next := ReadLine(rd, body[i]);
      if next.None? {
        ReadStaysNone(body[..i + 1], body[i + 1..]);
        SplitAt(body, i + 1);
        return None;
      }
      rd := next.value;
    }
    SplitAt(body, |body|);
    r := Some((till.value, rd.states + [rd.cur]));
  }

  lemma PrefixStep<T>(s: seq<T>, i: nat)
    requires i < |s|
    ensures s[..i + 1][..i] == s[..i] && s[..i + 1][i] == s[i] && |s[..i + 1]| == i + 1
  {
  }

  lemma SplitAt<T>(s: seq<T>, k: nat)
    requires k <= |s|
    ensures s[..k] + s[k..] == s && s[..|s|] == s
  {
  }

  lemma {:induction false} ReadNone(lines: seq<string>)
    ensures Read(None, lines) == None
  {
    if lines != [] {
      ReadNone(lines[..|lines| - 1]);
    }
  }

  lemma {:induction false} ReadAppend(o: Option<Reader>, a: seq<string>, b: seq<string>)
    ensures Read(o, a + b) == Read(Read(o, a), b)
    decreases |b|
  {
    if b != [] {
      var n := |b| - 1;
      assert (a + b)[..|a + b| - 1] == a + b[..n];
      assert (a + b)[|a + b| - 1] == b[n];
      ReadAppend(o, a, b[..n]);
      calc {
        Read(o, a + b);
        Then(Read(o, a + b[..n]), b[n]);
        Then(Read(Read(o, a), b[..n]), b[n]);
        Read(Read(o, a), b);
      }
    } else {
      assert a + b == a;
    }
  }

  lemma ReadStaysNone(a: seq<string>, b: seq<string>)
    requires Read(Some(Fresh), a) == None
    ensures Read(Some(Fresh), a + b) == None
  {
    ReadAppend(Some(Fresh), a, b);
    ReadNone(b);
  }

  // ---------------------------------------------------------------------
  // The description a state is read from.

  /** The line does not start with "In state " and holds no "current value" phrase. */
  predicate Body(t: string)
  {
    !StartsWith(t, "In state ") && !Contains(t, "current value is 0") && !Contains(t, "current value is 1")
  }

  /** A line `parse` passes over: none of the phrases it looks for. */
  predicate Plain(t: string)
  {
    Body(t) && !Contains(t, "Write the value") && !Contains(t, "Move one slot") && !Contains(t, "Continue with state")
  }

  /** "In state X:". */
  predicate HeaderLine(t: string)
  {
    StartsWith(t, "In state ") && !Contains(t, "current value is 0") && !Contains(t, "current value is 1") &&
    !Contains(t, "Write the value") && !Contains(t, "Move one slot") && !Contains(t, "Continue with state")
  }

  /** "If the current value is 0:" or "... is 1:". */
  predicate CaseLine(t: string, one: bool)
  {
    !StartsWith(t, "In state ") &&
    if one then !Contains(t, "current value is 0") && Contains(t, "current value is 1")
    else Contains(t, "current value is 0")
  }

  /** "- Write the value V.", with V at index 22. */
  predicate WriteLine(t: string, v: bool)
  {
    Body(t) && Contains(t, "Write the value") && |t| > 22 && (t[22] == '1') == v &&
    !Contains(t, "Move one slot") && !Contains(t, "Continue with state")
  }

  /** "- Move one slot to the right." or "... left.". */
  predicate MoveLine(t: string, move: int)
  {
    Body(t) && Contains(t, "Move one slot") && (move == 1 || move == -1) && (Contains(t, "right") <==> move == 1) &&
    !Contains(t, "Write the value") && !Contains(t, "Continue with state")
  }

  /** "- Continue with state X.", with X at index 26. */
  predicate ContinueLine(t: string, next: nat)
  {
    Body(t) && Contains(t, "Continue with state") && |t| > 26 && LetterIndex(t[26]) == next &&
    !Contains(t, "Write the value") && !Contains(t, "Move one slot")
  }

  /** The four lines describing what a state does on one current value. */
  predicate HalfLines(ls: seq<string>, one: bool, a: Action)
  {
    |ls| == 4 && CaseLine(ls[0], one) && WriteLine(ls[1], a.write) && MoveLine(ls[2], a.move) && ContinueLine(ls[3], a.next)
  }

  /** The nine lines describing one state. */
  predicate Block(ls: seq<string>, st: State)
  {
    |ls| == 9 && HeaderLine(ls[0]) && HalfLines(ls[1..5], false, st.zero) && HalfLines(ls[5..], true, st.one)
  }

  /** The lines after the header: one block per state, a plain line between blocks. */
  predicate Describes(ls: seq<string>, states: seq<State>)
    decreases |states|
  {
    |states| >= 1 && |ls| >= 9 && Block(ls[..9], states[0]) &&
    if |states| == 1 then |ls| == 9 else |ls| >= 10 && Plain(ls[9]) && Describes(ls[10..], states[1..])
  }

  /** What the reader holds when a new state begins. */
  function Pushed(rd: Reader): seq<State>
  {
    if rd.cur != Invalid then rd.states + [rd.cur] else rd.states
  }

  lemma ReadHeader(rd: Reader, t: string)
    requires HeaderLine(t)
    ensures ReadLine(rd, t) == Some(if rd.cur != Invalid then Reader(rd.states + [rd.cur], Invalid, true) else rd)
  {
    var r := Enter(rd, t);
    assert Fill(Half(r), t) == Half(r);
  }

  lemma ReadCase(rd: Reader, t: string, one: bool)
    requires CaseLine(t, one)
    ensures ReadLine(rd, t) == Some(rd.(isZero := !one))
  {
  }

  lemma ReadWrite(rd: Reader, t: string, v: bool)
    requires WriteLine(t, v)
    ensures ReadLine(rd, t) == Some(WithHalf(rd, Half(rd).(write := v)))
  {
  }

  lemma ReadMove(rd: Reader, t: string, move: int)
    requires MoveLine(t, move)
    ensures ReadLine(rd, t) == Some(WithHalf(rd, Half(rd).(move := move)))
  {
  }

  lemma ReadContinue(rd: Reader, t: string, next: nat)
    requires ContinueLine(t, next)
    ensures ReadLine(rd, t) == Some(WithHalf(rd, Half(rd).(next := next)))
  {
  }

  /** A plain line changes nothing. */
  lemma ReadPlain(rd: Reader, t: string)
    requires Plain(t)
    ensures ReadLine(rd, t) == Some(rd)
  {
    assert Fill(Half(rd), t) == Half(rd);
  }

  lemma ReadOne(o: Option<Reader>, t: string)
    ensures Read(o, [t]) == Then(o, t)
  {
    assert [t][..0] == [];
  }

  lemma ReadFour(o: Option<Reader>, ls: seq<string>)
    requires |ls| == 4
    ensures Read(o, ls) == Then(Then(Then(Then(o, ls[0]), ls[1]), ls[2]), ls[3])
  {
    ReadOne(o, ls[0]);
    assert [ls[0], ls[1]][..1] == [ls[0]];
    assert Read(o, [ls[0], ls[1]]) == Then(Then(o, ls[0]), ls[1]);
    assert [ls[0], ls[1], ls[2]][..2] == [ls[0], ls[1]];
    assert Read(o, [ls[0], ls[1], ls[2]]) == Then(Then(Then(o, ls[0]), ls[1]), ls[2]);
    assert ls[..3] == [ls[0], ls[1], ls[2]];
  }

  /** The four lines of one half set that half to the action they describe. */
  lemma ReadAction(rd: Reader, ls: seq<string>, one: bool, a: Action)
    requires HalfLines(ls, one, a)
    ensures Read(Some(rd), ls) == Some(if one then rd.(cur := rd.cur.(one := a), isZero := false) else rd.(cur := rd.cur.(zero := a), isZero := true))
  {
    ReadFour(Some(rd), ls);
    var r1 := rd.(isZero := !one);
    ReadCase(rd, ls[0], one);
    var r2 := WithHalf(r1, Half(r1).(write := a.write));
    ReadWrite(r1, ls[1], a.write);
    var r3 := WithHalf(r2, Half(r2).(move := a.move));
    ReadMove(r2, ls[2], a.move);
    var r4 := WithHalf(r3, Half(r3).(next := a.next));
    ReadContinue(r3, ls[3], a.next);
    assert Then(Then(Then(Then(Some(rd), ls[0]), ls[1]), ls[2]), ls[3]) == Some(r4);
  }

  lemma SplitBlock<T>(ls: seq<T>)
    requires |ls| == 9
    ensures ls == [ls[0]] + ls[1..5] + ls[5..]
  {
  }

  /** A block pushes the state read before it and leaves its own state being read. */
  lemma ReadBlock(rd: Reader, ls: seq<string>, st: State)
    requires Block(ls, st)
    ensures Read(Some(rd), ls) == Some(Reader(Pushed(rd), st, false))
  {
    ReadHeader(rd, ls[0]);
    ReadOne(Some(rd), ls[0]);
    var r0 := if rd.cur != Invalid then Reader(rd.states + [rd.cur], Invalid, true) else rd;
    SplitBlock(ls);
    ReadAppend(Some(rd), [ls[0]] + ls[1..5], ls[5..]);
    ReadAppend(Some(rd), [ls[0]], ls[1..5]);
    ReadAction(r0, ls[1..5], false, st.zero);
    var r1 := r0.(cur := r0.cur.(zero := st.zero), isZero := true);
    ReadAction(r1, ls[5..], true, st.one);
  }

  /** A described state moves one slot, so it is not the placeholder. */
  lemma BlockUnit(ls: seq<string>, st: State)
    requires Block(ls, st)
    ensures Unit(st) && st != Invalid
  {
  }

  lemma PushedPrefix<T>(p: seq<T>, s: seq<T>)
    requires |s| >= 2
    ensures (p + [s[0]]) + s[1..][..|s| - 2] == p + s[..|s| - 1]
  {
  }

  lemma SplitAfterBlock<T>(ls: seq<T>)
    requires |ls| >= 10
    ensures ls == ls[..9] + ([ls[9]] + ls[10..])
  {
  }

  /** What a block does to any reader, apart from its text: it pushes and starts its state. */
  ghost predicate BlockEffect(ls: seq<string>, st: State)
  {
    Unit(st) && forall rd :: Read(Some(rd), ls) == Some(Reader(Pushed(rd), st, false))
  }

  /** What a description does to any reader, block by block. */
  ghost predicate Effects(ls: seq<string>, states: seq<State>)
    decreases |states|
  {
    |states| >= 1 && |ls| >= 9 && BlockEffect(ls[..9], states[0]) &&
    if |states| == 1 then |ls| == 9
    else |ls| >= 10 && (forall rd :: ReadLine(rd, ls[9]) == Some(rd)) && Effects(ls[10..], states[1..])
  }

  lemma {:induction false} DescribesEffects(ls: seq<string>, states: seq<State>)
    requires Describes(ls, states)
    ensures Effects(ls, states)
    decreases |states|
  {
    forall rd
      ensures Read(Some(rd), ls[..9]) == Some(Reader(Pushed(rd), states[0], false))
    {
      ReadBlock(rd, ls[..9], states[0]);
    }
    BlockUnit(ls[..9], states[0]);
    if |states| > 1 {
      forall rd
        ensures ReadLine(rd, ls[9]) == Some(rd)
      {
        ReadPlain(rd, ls[9]);
      }
      DescribesEffects(ls[10..], states[1..]);
    }
  }

  /** Reading a description yields its states, after whatever was pushed before. */
  lemma {:induction false} ReadDescription(rd: Reader, ls: seq<string>, states: seq<State>)
    requires Effects(ls, states)
    ensures Read(Some(rd), ls) == Some(Reader(Pushed(rd) + states[..|states| - 1], states[|states| - 1], false))
    decreases |states|
  {
    var r1 := Reader(Pushed(rd), states[0], false);
    assert Read(Some(rd), ls[..9]) == Some(r1);
    if |states| == 1 {
      assert ls[..9] == ls;
      assert Pushed(rd) + states[..0] == Pushed(rd);
    } else {
      var rest := ls[10..];
      SplitAfterBlock(ls);
      ReadAppend(Some(rd), ls[..9], [ls[9]] + rest);
      ReadAppend(Some(r1), [ls[9]], rest);
      assert ReadLine(r1, ls[9]) == Some(r1);
      ReadOne(Some(r1), ls[9]);
      assert Read(Some(rd), ls) == Read(Some(r1), rest);
      var tail := states[1..];
      ReadDescription(r1, rest, tail);
      var got := Reader(Pushed(r1) + tail[..|tail| - 1], tail[|tail| - 1], false);
      assert Read(Some(r1), rest) == Some(got);
      assert Unit(states[0]);
      assert Pushed(r1) == Pushed(rd) + [states[0]];
      PushedPrefix(Pushed(rd), states);
      assert |tail| - 1 == |states| - 2 && tail[|tail| - 1] == states[|states| - 1];
      assert Pushed(r1) + tail[..|tail| - 1] == Pushed(rd) + states[..|states| - 1];
      assert got == Reader(Pushed(rd) + states[..|states| - 1], states[|states| - 1], false);
    }
  }

  /** The step count line with `till` between "after " and " steps". */
  lemma StepCountOf(line: string, i: nat, j: nat, till: nat)
    requires Find(line, "after") == Some(i) && Find(line, " steps") == Some(j) && i + 6 <= j
    requires line[i + 6..j] == Numeral(till) && till < U64
    ensures StepCount(line) == Some(till)
  {
    assert StepCount(line) == ParseUsize(line[i + 6..j]);
    ParseUsizeNumeral(till);
  }

  /**
   * `parse` reads back any description: the header line, a step count line
   * (StepCountOf says which lines those are) and one block per state.
   */
  lemma ParseDescribed(lines: seq<string>, till: nat, states: seq<State>)
    requires |lines| >= 3 && lines[0] == "Begin in state A."
    requires StepCount(lines[1]) == Some(till)
    requires Describes(lines[3..], states)
    ensures Parse(lines) == Some((till, states))
  {
    DescribesEffects(lines[3..], states);
    ParseEffects(lines, till, states);
  }

  lemma ParseEffects(lines: seq<string>, till: nat, states: seq<State>)
    requires |lines| >= 3 && lines[0] == "Begin in state A."
    requires StepCount(lines[1]) == Some(till)
    requires Effects(lines[3..], states)
    ensures Parse(lines) == Some((till, states))
  {
    ReadDescription(Fresh, lines[3..], states);
    var n := |states| - 1;
    var rd := Reader(Pushed(Fresh) + states[..n], states[n], false);
    assert Pushed(Fresh) == [];
    assert rd.states == states[..n];
    LastSplit(states);
    ParseOf(lines, till, rd);
  }

  /** `parse` once the step count and the loop's reader are known. */
  lemma ParseOf(lines: seq<string>, till: nat, rd: Reader)
    requires |lines| >= 3 && lines[0] == "Begin in state A."
    requires StepCount(lines[1]) == Some(till)
    requires Read(Some(Fresh), lines[3..]) == Some(rd)
    ensures Parse(lines) == Some((till, rd.states + [rd.cur]))
  {
  }

  lemma LastSplit<T>(s: seq<T>)
    requires |s| >= 1
    ensures s[..|s| - 1] + [s[|s| - 1]] == s
  {
  }

  /** Every move of a described state is one slot. */
  lemma DescribedMoves(ls: seq<string>, states: seq<State>)
    requires Describes(ls, states)
    ensures UnitMoves(states)
  {
    DescribesEffects(ls, states);
    EffectsMoves(ls, states);
  }

  lemma {:induction false} EffectsMoves(ls: seq<string>, states: seq<State>)
    requires Effects(ls, states)
    ensures UnitMoves(states)
    decreases |states|
  {
    if |states| > 1 {
      EffectsMoves(ls[10..], states[1..]);
      forall k | 0 <= k < |states|
        ensures Unit(states[k])
      {
        if k > 0 {
          assert states[k] == states[1..][k - 1];
        }
      }
    }
  }

  predicate Unit(st: State)
  {
    (st.zero.move == 1 || st.zero.move == -1) && (st.one.move == 1 || st.one.move == -1)
  }

  predicate UnitMoves(states: seq<State>)
  {
    forall k :: 0 <= k < |states| ==> Unit(states[k])
  }

  // ---------------------------------------------------------------------
  // The machine

  /** The set cells of the tape, the position and the state index. */
  datatype Machine = Machine(ones: set<int>, pos: int, state: nat)

  const Blank: Machine := Machine({}, 0, 0)

  /** One step: write, move, switch state; None where `states[state_idx]` is out of range. */
  function Step(states: seq<State>, m: Machine): Option<Machine>
  {
    if m.state >= |states| then None
    else
      var a := if m.pos in m.ones then states[m.state].one else states[m.state].zero;
      Some(Machine(if a.write then m.ones + {m.pos} else m.ones - {m.pos}, m.pos + a.move, a.next))
  }

  /** n steps from a blank tape.  Each step sets at most one cell, so at most n cells are set. */
  function Run(states: seq<State>, n: nat): (r: Option<Machine>)
    ensures r.Some? ==> |r.value.ones| <= n
  {
    if n == 0 then Some(Blank)
    else match Run(states, n - 1)
      case None => None
      case Some(m) =>
        assert |m.ones + {m.pos}| <= |m.ones| + 1;
        assert |m.ones - {m.pos}| <= |m.ones|;
        Step(states, m)
  }

  /** `part1`: the number of set cells after the step count, None where the source panics. */
  function Checksum(lines: seq<string>): Option<nat>
  {
    match Parse(lines)
    case None => None
    case Some(p) => CountAfter(p.1, p.0)
  }

  /** The number of set cells after n steps, None where a step panics. */
  function CountAfter(states: seq<State>, n: nat): Option<nat>
  {
    match Run(states, n)
    case None => None
    case Some(m) => Some(|m.ones|)
  }

  /** With one-slot moves, after n steps the head is within n of the start and every set cell strictly so. */
  lemma {:induction false} RunStaysNear(states: seq<State>, n: nat)
    requires UnitMoves(states) && Run(states, n).Some?
    ensures -(n as int) <= Run(states, n).value.pos <= n
    ensures forall x :: x in Run(states, n).value.ones ==> -(n as int) < x < n
  {
    if n > 0 {
      RunStaysNear(states, n - 1);
      var m := Run(states, n - 1).value;
      assert Unit(states[m.state]);
    }
  }

  /** Once a step panics, so does every longer run. */
  lemma {:induction false} RunStuck(states: seq<State>, k: nat, n: nat)
    requires k <= n && Run(states, k).None?
    ensures Run(states, n).None?
    decreases n - k
  {
    if k < n {
      RunStuck(states, k + 1, n);
    }
  }

  /** The example's states A and B. */
  const ExampleStates: seq<State> := [
    State(Action(true, 1, 1), Action(false, -1, 1)),
    State(Action(true, -1, 0), Action(true, 1, 0))
  ]

  /** The first three steps of the example. */
  lemma ExampleHalfway()
    ensures Run(ExampleStates, 3) == Some(Machine({1}, -1, 1))
  {
    assert Run(ExampleStates, 1) == Some(Machine({} + {0}, 1, 1));
    assert {} + {0} == {0} && 1 !in {0};
    assert Run(ExampleStates, 2) == Some(Machine({0} + {1}, 0, 0));
    assert {0} + {1} == {0, 1} && 0 in {0, 1};
    assert Run(ExampleStates, 3) == Some(Machine({0, 1} - {0}, -1, 1));
    assert {0, 1} - {0} == {1};
  }

  /** Test `part1_1`: six steps leave three cells set. */
  lemma ExampleChecksum()
    ensures Run(ExampleStates, 6) == Some(Machine({-2, -1, 1}, 0, 0))
    ensures |Run(ExampleStates, 6).value.ones| == 3
  {
    ExampleHalfway();
    assert -1 !in {1};
    assert Run(ExampleStates, 4) == Some(Machine({1} + {-1}, -2, 0));
    assert {1} + {-1} == {-1, 1} && -2 !in {-1, 1};
    assert Run(ExampleStates, 5) == Some(Machine({-1, 1} + {-2}, -1, 1));
    assert {-1, 1} + {-2} == {-2, -1, 1} && -1 in {-2, -1, 1};
    assert {-2, -1, 1} + {-1} == {-2, -1, 1};
    assert Run(ExampleStates, 6) == Some(Machine({-2, -1, 1}, 0, 0));
  }

  // ---------------------------------------------------------------------
  // part1 on the tape grid

  /** The body of `part1`'s loop: one step on the grid, whose row 0 holds exactly the set cells of m. */
  method StepOn(tape: Grid<bool>, states: seq<State>, position: int, stateIdx: nat, ghost m: Machine)
    returns (nextPosition: int, nextIdx: nat)
    modifies tape, tape.matrix
    requires tape.Valid() && stateIdx < |states| && m.pos == position && m.state == stateIdx
    requires forall x, y :: tape.Value(x, y) == (y == 0 && x in m.ones)
    ensures tape.Valid() && Step(states, m).Some?
    ensures nextPosition == Step(states, m).value.pos && nextIdx == Step(states, m).value.state
    ensures forall x, y :: tape.Value(x, y) == (y == 0 && x in Step(states, m).value.ones)
  {
    var state := states[stateIdx];
    var current := tape.Get(position, 0);
    var action := if current then state.one else state.zero;
    tape.Set(position, 0, action.write);
    nextPosition := position + action.move;
    nextIdx := action.next;
  }

  /** `part1`: parse, run the machine on a fresh grid, count the set cells. */
  method Part1(lines: seq<string>) returns (r: Option<nat>)
    ensures r == Checksum(lines)
  {
    var parsed := ParseMethod(lines);
    if parsed.None? {
      return None;
    }
    r := RunOnTape(parsed.value.1, parsed.value.0);
  }

  /** The loop of `part1`: the given number of steps on a fresh grid, then its set cells. */
  method RunOnTape(states: seq<State>, iterations: nat) returns (r: Option<nat>)
    ensures r == CountAfter(states, iterations)
  {
    var tape := new Grid(false);
    var position: int, stateIdx: nat := 0, 0;
    ghost var m := Blank;
    for k := 0 to iterations
      invariant tape.Valid() && tape.matrix.dflt == false
      invariant Run(states, k) == Some(m) && m.pos == position && m.state == stateIdx
      invariant forall x, y :: tape.Value(x, y) == (y == 0 && x in m.ones)
    {
      if stateIdx >= |states| {
        RunStuck(states, k + 1, iterations);
        return None;
      }
      ghost var m' := Step(states, m).value;
      position, stateIdx := StepOn(tape, states, position, stateIdx, m);
      m := m';
    }
    TapeCount(tape, m.ones);
    r := Some(GridCountSet(tape));
  }

  // ---------------------------------------------------------------------
  // `count_set` of the tape grid

  lemma {:induction false} CountAllClear(s: seq<bool>)
    requires forall c :: 0 <= c < |s| ==> !s[c]
    ensures B.Count(s) == 0
  {
    if s != [] {
      CountAllClear(s[..|s| - 1]);
    }
  }

  /** Entry x - k of s is set: s read as cells k, k+1, and so on. */
  predicate SetAt(s: seq<bool>, k: int, x: int)
  {
    k <= x < k + |s| && s[x - k]
  }

  /** The number of set entries of s is the number of cells set when s starts at cell k. */
  lemma {:induction false} CountIsSize(s: seq<bool>, k: int)
    ensures B.Count(s) == |set x | k <= x < k + |s| && SetAt(s, k, x)|
  {
    if s != [] {
      var n := |s| - 1;
      CountIsSize(s[..n], k);
      var front := set x | k <= x < k + n && SetAt(s[..n], k, x);
      var all := set x | k <= x < k + |s| && SetAt(s, k, x);
      forall x
        ensures SetAt(s, k, x) <==> SetAt(s[..n], k, x) || (x == k + n && s[n])
      {
      }
      if s[n] {
        assert all == front + {k + n};
      } else {
        assert all == front;
      }
    }
  }

  /** A grid whose rows other than r0 are clear counts the cells of row r0. */
  lemma {:induction false} GridCountOneRow(g: seq<seq<bool>>, r0: int)
    requires forall r, c :: 0 <= r < |g| && r != r0 && 0 <= c < |g[r]| ==> !g[r][c]
    ensures GridCount(g) == if 0 <= r0 < |g| then B.Count(g[r0]) else 0
  {
    if g != [] {
      var n := |g| - 1;
      GridCountOneRow(g[..n], r0);
      if n != r0 {
        CountAllClear(g[n]);
      }
    }
  }

  /** A lookup whose set cells are row 0 at `ones`: the stored cells say the same, and `ones` lies inside. */
  lemma TapeCells(data: seq<bool>, rows: nat, cols: nat, left: int, top: int, ones: set<int>)
    requires forall x, y :: Lookup(data, false, rows, cols, left, top, x, y) == (y == 0 && x in ones)
    ensures forall r, c :: 0 <= r < rows && 0 <= c < cols ==> CellAt(data, false, cols, r, c) == (r + top == 0 && c + left in ones)
    ensures forall x :: x in ones ==> 0 <= -top < rows && 0 <= x - left < cols
  {
    forall r, c | 0 <= r < rows && 0 <= c < cols
      ensures CellAt(data, false, cols, r, c) == (r + top == 0 && c + left in ones)
    {
      assert Lookup(data, false, rows, cols, left, top, c + left, r + top) == (r + top == 0 && c + left in ones);
    }
    forall x | x in ones
      ensures 0 <= -top < rows && 0 <= x - left < cols
    {
      assert Lookup(data, false, rows, cols, left, top, x, 0);
    }
  }

  /** A grid of rows whose only set cells are those of row -top at `ones`, shifted by left. */
  lemma RowOnly(G: seq<seq<bool>>, left: int, top: int, ones: set<int>)
    requires forall r, c :: 0 <= r < |G| && 0 <= c < |G[r]| ==> G[r][c] == (r + top == 0 && c + left in ones)
    requires forall x :: x in ones ==> 0 <= -top < |G| && 0 <= x - left < |G[-top]|
    ensures GridCount(G) == |ones|
  {
    GridCountOneRow(G, -top);
    if 0 <= -top < |G| {
      var row := G[-top];
      CountIsSize(row, left);
      forall x
        ensures x in ones <==> left <= x < left + |row| && SetAt(row, left, x)
      {
        if left <= x < left + |row| {
          assert row[x - left] == (x in ones);
        }
      }
      assert ones == set x | left <= x < left + |row| && SetAt(row, left, x);
    } else {
      assert forall x :: x !in ones;
      NoneIsEmpty(ones);
    }
  }

  lemma NoneIsEmpty<T>(s: set<T>)
    requires forall x :: x !in s
    ensures s == {}
  {
  }

  /** `count_set` of a boolean grid whose set cells are exactly row 0 at the positions `ones`. */
  lemma TapeCount(g: Grid<bool>, ones: set<int>)
    requires g.Valid() && g.matrix.dflt == false
    requires forall x, y :: g.Value(x, y) == (y == 0 && x in ones)
    ensures GridCountSet(g) == |ones|
  {
    var m := g.matrix;
    CountSetCountsCells(m);
    forall x, y
      ensures Lookup(m.data, false, m.rows, m.cols, g.leftBound, g.topBound, x, y) == (y == 0 && x in ones)
    {
      assert g.Value(x, y) == (y == 0 && x in ones);
    }
    TapeCells(m.data, m.rows, m.cols, g.leftBound, g.topBound, ones);
    RowOnly(m.Grid(), g.leftBound, g.topBound, ones);
  }
}
