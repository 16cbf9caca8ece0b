/**
 * 2016 day 12 (src/bin/y2016/day12.rs): the "assembunny" interpreter.  A
 * program of `cpy`, `inc`, `dec` and `jnz` runs over four `i32` registers
 * until the instruction index leaves the program; the answer is register a.
 */
module Y2016Day12 {
  import opened Wrappers
  import opened RustInt
  import opened Strings

  datatype Register = A | B | C | D

  datatype Value = Reg(reg: Register) | Constant(value: I32)

  datatype Instruction =
    | Copy(from: Value, to: Register)
    | Increment(reg: Register)
    | Decrement(reg: Register)
    | Jump(cond: Value, offset: I32)

  // ---------------------------------------------------------------------
  // Parsing.

  /** The letter that names the register. */
  function Name(r: Register): (c: char)
    ensures !IsWhitespace(c) && !IsDigit(c) && c != '-' && c != '+' && c != ' '
  {
    match r
    case A => 'a'
    case B => 'b'
    case C => 'c'
    case D => 'd'
  }

  /** `Register::parse`: only the first character counts; an empty word or another letter panics (None). */
  function ParseRegister(s: string): (r: Option<Register>)
    ensures r.Some? ==> s != [] && Name(r.value) == s[0]
    ensures s != [] && s[0] in "abcd" ==> r.Some?
  {
    if s == [] then None
    else if s[0] == 'a' then Some(A)
    else if s[0] == 'b' then Some(B)
    else if s[0] == 'c' then Some(C)
    else if s[0] == 'd' then Some(D)
    else None
  }

  /** `Value::parse`: the first word after leading whitespace, a constant when it reads as an `i32`. */
  function ParseValue(s: string): (v: Option<Value>)
    ensures v.Some? && v.value.Constant? ==> ParseI32(Split(TrimStart(s), ' ')[0]) == Some(v.value.value)
    ensures v.Some? && v.value.Reg? ==> ParseI32(Split(TrimStart(s), ' ')[0]).None?
  {
    var word := Split(TrimStart(s), ' ')[0];
    match ParseI32(word)
    case Some(k) => Some(Constant(k))
    case None =>
      match ParseRegister(word)
      case Some(r) => Some(Reg(r))
      case None => None
  }

  /** The four mnemonics `Instruction::parse` knows. */
  datatype Mnemonic = Cpy | Inc | Dec | Jnz

  /** The arm of the `match &s[0..3]`; None for the `unreachable!` arm. */
  function MnemonicOf(m: string): (k: Option<Mnemonic>)
    ensures k == Some(Cpy) <==> m == "cpy"
    ensures k == Some(Inc) <==> m == "inc"
    ensures k == Some(Dec) <==> m == "dec"
    ensures k == Some(Jnz) <==> m == "jnz"
  {
    if m == "cpy" then Some(Cpy)
    else if m == "inc" then Some(Inc)
    else if m == "dec" then Some(Dec)
    else if m == "jnz" then Some(Jnz)
    else None
  }

  /** `Instruction::parse` on a trimmed line: the mnemonic is its first three characters. */
  function ParseInstruction(s: string): Option<Instruction>
  {
    if |s| < 3 then None else ParseOperands(MnemonicOf(s[..3]), s[3..], Split(s, ' '))
  }

  /**
   * The operands of each arm: the value is read from the rest of the line,
   * the register or offset from the second or third word; a missing word
   * panics on `unwrap`.
   */
  function ParseOperands(m: Option<Mnemonic>, rest: string, words: seq<string>): Option<Instruction>
  {
    match m
    case None => None
    case Some(Cpy) =>
      var v := ParseValue(rest);
      var r := if |words| > 2 then ParseRegister(words[2]) else None;
      if v.Some? && r.Some? then Some(Copy(v.value, r.value)) else None
    case Some(Inc) =>
      var r := if |words| > 1 then ParseRegister(words[1]) else None;
      if r.Some? then Some(Increment(r.value)) else None
    case Some(Dec) =>
      var r := if |words| > 1 then ParseRegister(words[1]) else None;
      if r.Some? then Some(Decrement(r.value)) else None
    case Some(Jnz) =>
      var v := ParseValue(rest);
      var k := if |words| > 2 then ParseI32(words[2]) else None;
      if v.Some? && k.Some? then Some(Jump(v.value, k.value)) else None
  }

  /** `str::trim` and then `Instruction::parse`, as `part1` maps each line. */
  function ParseLine(line: string): Option<Instruction>
  {
    ParseInstruction(Trim(line))
  }

  /** The instructions of the lines, or None when a line does not parse (`parse` panics). */
  function ParseProgram(lines: seq<string>): (p: Option<seq<Instruction>>)
    ensures p.Some? ==> |p.value| == |lines|
    ensures p.Some? ==> forall i :: 0 <= i < |lines| ==> ParseLine(lines[i]) == Some(p.value[i])
    ensures p.None? ==> exists i :: 0 <= i < |lines| && ParseLine(lines[i]).None?
  {
    Collect(seq(|lines|, i requires 0 <= i < |lines| => ParseLine(lines[i])))
  }

  // ---------------------------------------------------------------------
  // The listing form of an instruction, and the round trip.

  function ShowValue(v: Value): (s: string)
    ensures s != [] && ' ' !in s && !IsWhitespace(s[0])
  {
    match v
    case Reg(r) => [Name(r)]
    case Constant(k) => ShowInt(k)
  }

  /** A mnemonic and its operand, space-separated. */
  function Unary(m: string, x: string): string
  {
    m + " " + x
  }

  /** A mnemonic and its two operands, space-separated. */
  function Binary(m: string, x: string, y: string): string
  {
    m + " " + x + " " + y
  }

  /** The line that `parse` reads as the instruction. */
  function Show(i: Instruction): (s: string)
    ensures s != [] && !IsWhitespace(s[0]) && !IsWhitespace(s[|s| - 1])
  {
    match i
    case Copy(v, r) => Binary("cpy", ShowValue(v), [Name(r)])
    case Increment(r) => Unary("inc", [Name(r)])
    case Decrement(r) => Unary("dec", [Name(r)])
    case Jump(v, k) => Binary("jnz", ShowValue(v), ShowInt(k))
  }

  /** The value written after the mnemonic reads back as itself. */
  lemma ParseShowValue(v: Value, rest: string)
    requires ' ' !in rest
    ensures ParseValue(" " + ShowValue(v) + " " + rest) == Some(v)
  {
    var w := ShowValue(v);
    var s := " " + w + " " + rest;
    assert s[1..] == w + [' '] + rest;
    assert TrimStart(s) == w + [' '] + rest;
    SplitFirst(w, ' ', rest);
    if v.Constant? {
      ParseShowI32(v.value);
    }
  }

  /** A line with a mnemonic and two operands splits into those three words. */
  lemma SplitThree(m: string, x: string, y: string)
    requires ' ' !in m && ' ' !in x && ' ' !in y
    ensures Split(Binary(m, x, y), ' ') == [m, x, y]
  {
    assert m + " " + x + " " + y == m + [' '] + (x + [' '] + y);
    SplitFirst(m, ' ', x + [' '] + y);
    SplitFirst(x, ' ', y);
    SplitWord(y, ' ');
  }

  /** Every instruction parses back from its listing form. */
  lemma ParseShow(i: Instruction)
    ensures ParseInstruction(Show(i)) == Some(i)
  {
    match i {
      case Copy(v, r) => ParseShowCopy(v, r);
      case Increment(r) => ParseShowCount("inc", r);
      case Decrement(r) => ParseShowCount("dec", r);
      case Jump(v, k) => ParseShowJump(v, k);
    }
  }

  lemma ParseShowCopy(v: Value, r: Register)
    ensures ParseInstruction(Show(Copy(v, r))) == Some(Copy(v, r))
  {
    var x, y := ShowValue(v), [Name(r)];
    assert Show(Copy(v, r)) == Binary("cpy", x, y);
    assert ' ' !in y;
    ParseShowValue(v, y);
    ParseNameRegister(r);
    CopyLine(x, y, v, r);
  }

  /** A register's name reads back as that register. */
  lemma ParseNameRegister(r: Register)
    ensures ParseRegister([Name(r)]) == Some(r)
  {
    match r {
      case A =>
      case B =>
      case C =>
      case D =>
    }
  }

  lemma ParseShowJump(v: Value, k: I32)
    ensures ParseInstruction(Show(Jump(v, k))) == Some(Jump(v, k))
  {
    var x, y := ShowValue(v), ShowInt(k);
    assert Show(Jump(v, k)) == Binary("jnz", x, y);
    ParseShowValue(v, y);
    ParseShowI32(k);
    JumpLine(x, y, v, k);
  }

  /** `cpy x y` with x a value and y a register. */
  lemma CopyLine(x: string, y: string, v: Value, r: Register)
    requires ' ' !in x && ' ' !in y
    requires ParseValue(" " + x + " " + y) == Some(v) && ParseRegister(y) == Some(r)
    ensures ParseInstruction(Binary("cpy", x, y)) == Some(Copy(v, r))
  {
    ParseTwoOperands("cpy", x, y);
    var words := ["cpy", x, y];
    assert words[2] == y;
  }

  /** `jnz x y` with x a value and y an offset. */
  lemma JumpLine(x: string, y: string, v: Value, k: I32)
    requires ' ' !in x && ' ' !in y
    requires ParseValue(" " + x + " " + y) == Some(v) && ParseI32(y) == Some(k)
    ensures ParseInstruction(Binary("jnz", x, y)) == Some(Jump(v, k))
  {
    ParseTwoOperands("jnz", x, y);
    var words := ["jnz", x, y];
    assert words[2] == y;
  }

  /** A line `m x y` dispatches on m with the rest ` x y` and the words m, x, y. */
  lemma ParseTwoOperands(m: string, x: string, y: string)
    requires |m| == 3 && ' ' !in m && ' ' !in x && ' ' !in y
    ensures ParseInstruction(Binary(m, x, y)) == ParseOperands(MnemonicOf(m), " " + x + " " + y, [m, x, y])
  {
    var s := Binary(m, x, y);
    assert s[..3] == m;
    assert s[3..] == " " + x + " " + y;
    SplitThree(m, x, y);
  }

  lemma ParseShowCount(m: string, r: Register)
    requires m == "inc" || m == "dec"
    ensures ParseInstruction(Unary(m, [Name(r)])) == Some(if m == "inc" then Increment(r) else Decrement(r))
  {
    var s := Unary(m, [Name(r)]);
    assert s == m + [' '] + [Name(r)];
    assert s[..3] == m;
    SplitFirst(m, ' ', [Name(r)]);
    SplitWord([Name(r)], ' ');
    assert Split(s, ' ') == [m, [Name(r)]];
    assert ParseInstruction(s) == ParseOperands(MnemonicOf(m), s[3..], Split(s, ' '));
  }

  // ---------------------------------------------------------------------
  // The registers and one instruction.

  /** The four registers of `Memory`. */
  datatype Regs = Regs(a: I32, b: I32, c: I32, d: I32)

  function Get(m: Regs, r: Register): I32
  {
    match r
    case A => m.a
    case B => m.b
    case C => m.c
    case D => m.d
  }

  /** The registers with r set to v. */
  function Set(m: Regs, r: Register, v: I32): (t: Regs)
    ensures Get(t, r) == v
    ensures forall q :: q != r ==> Get(t, q) == Get(m, q)
  {
    match r
    case A => m.(a := v)
    case B => m.(b := v)
    case C => m.(c := v)
    case D => m.(d := v)
  }

  /** `Memory::resolve`. */
  function ValueOf(m: Regs, v: Value): I32
  {
    match v
    case Constant(k) => k
    case Reg(r) => Get(m, r)
  }

  /** The register an instruction writes, if any. */
  function Target(i: Instruction): Option<Register>
  {
    match i
    case Copy(_, r) => Some(r)
    case Increment(r) => Some(r)
    case Decrement(r) => Some(r)
    case Jump(_, _) => None
  }

  /**
   * `Memory::eval`: the registers after the instruction and the offset to
   * the next one.  Counting wraps at the `i32` bounds.
   */
  function Step(m: Regs, i: Instruction): (r: (Regs, I32))
    ensures forall q :: Some(q) != Target(i) ==> Get(r.0, q) == Get(m, q)
    ensures i.Copy? ==> Get(r.0, i.to) == ValueOf(m, i.from)
    ensures i.Increment? ==> Get(r.0, i.reg) == WrapI32(Get(m, i.reg) + 1)
    ensures i.Decrement? ==> Get(r.0, i.reg) == WrapI32(Get(m, i.reg) - 1)
    ensures !i.Jump? ==> r.1 == 1
    ensures i.Jump? ==> r.0 == m && r.1 == if ValueOf(m, i.cond) != 0 then i.offset else 1
  {
    match i
    case Copy(v, to) => (Set(m, to, ValueOf(m, v)), 1)
    case Increment(r) => (Set(m, r, WrapI32(Get(m, r) + 1)), 1)
    case Decrement(r) => (Set(m, r, WrapI32(Get(m, r) - 1)), 1)
    case Jump(v, offset) => (m, if ValueOf(m, v) != 0 then offset else 1)
  }

  /** `inc` then `dec` of the same register restores it. */
  lemma IncDec(m: Regs, r: Register)
    ensures Step(Step(m, Increment(r)).0, Decrement(r)).0 == m
  {
    var t := Step(m, Increment(r)).0;
    var u := Step(t, Decrement(r)).0;
    var x := Get(m, r) as int;
    if x == 0x7fff_ffff {
      assert Get(t, r) == -0x8000_0000;
    }
    assert Get(u, r) == Get(m, r);
    forall q
      ensures Get(u, q) == Get(m, q)
    {
    }
  }

  class Memory {
    var a: I32
    var b: I32
    var c: I32
    var d: I32

    /** The struct literal of `part1` and `part2`. */
    constructor(a: I32, b: I32, c: I32, d: I32)
      ensures State() == Regs(a, b, c, d)
    {
      this.a := a;
      this.b := b;
      this.c := c;
      this.d := d;
    }

    function State(): Regs
      reads this
    {
      Regs(a, b, c, d)
    }

    /** `resolve`: a constant, or the register it names. */
    function Resolve(value: Value): (v: I32)
      reads this
      ensures v == ValueOf(State(), value)
    {
      match value
      case Constant(k) => k
      case Reg(A) => a
      case Reg(B) => b
      case Reg(C) => c
      case Reg(D) => d
    }

    /** `*self.get_mut(to) = v`: the one register written. */
    method Store(to: Register, v: I32)
      modifies this
      ensures State() == Set(old(State()), to, v)
    {
      match to {
        case A => a := v;
        case B => b := v;
        case C => c := v;
        case D => d := v;
      }
    }

    /** `eval`: run the instruction on the registers and return the offset. */
    method Eval(instr: Instruction) returns (offset: I32)
      modifies this
      ensures (State(), offset) == Step(old(State()), instr)
    {
      match instr {
        case Copy(value, to) =>
          Store(to, Resolve(value));
        case Increment(reg) =>
          Store(reg, WrapI32(Resolve(Reg(reg)) + 1));
        case Decrement(reg) =>
          Store(reg, WrapI32(Resolve(Reg(reg)) - 1));
        case Jump(value, k) =>
          if Resolve(value) != 0 {
            return k;
          }
      }
      return 1;
    }
  }

  // ---------------------------------------------------------------------
  // The run loop.

  /** The index still names an instruction: `(idx as usize) < instrs.len()` (a negative index is huge as `usize`). */
  predicate Inside(program: seq<Instruction>, idx: I32)
  {
    0 <= idx < |program|
  }

  /** Some instruction of the program writes register q. */
  predicate Writes(program: seq<Instruction>, q: Register)
  {
    exists k :: 0 <= k < |program| && Target(program[k]) == Some(q)
  }

  /**
   * The registers once the index leaves the program, within fuel steps;
   * None when the fuel runs out first.  A register no instruction writes
   * ends as it started.
   */
  function Run(program: seq<Instruction>, m: Regs, idx: I32, fuel: nat): (r: Option<Regs>)
    ensures !Inside(program, idx) ==> r == Some(m)
    ensures r.Some? ==> forall q :: !Writes(program, q) ==> Get(r.value, q) == Get(m, q)
    decreases fuel
  {
    if !Inside(program, idx) then Some(m)
    else if fuel == 0 then None
    else
      var next := Step(m, program[idx]);
      Run(program, next.0, WrapI32(idx + next.1), fuel - 1)
  }

  /** More fuel never changes a finished run. */
  lemma {:induction false} RunMoreFuel(program: seq<Instruction>, m: Regs, idx: I32, fuel: nat, more: nat)
    requires Run(program, m, idx, fuel).Some? && fuel <= more
    ensures Run(program, m, idx, more) == Run(program, m, idx, fuel)
    decreases fuel
  {
    if Inside(program, idx) {
      var next := Step(m, program[idx]);
      RunMoreFuel(program, next.0, WrapI32(idx + next.1), fuel - 1, more - 1);
    }
  }

  /** The `while` loop of `part1`/`part2`: at most fuel instructions, then register a. */
  method Execute(program: seq<Instruction>, mem: Memory, fuel: nat) returns (done: bool)
    modifies mem
    ensures done <==> Run(program, old(mem.State()), 0, fuel).Some?
    ensures done ==> mem.State() == Run(program, old(mem.State()), 0, fuel).value
  {
    ghost var target := Run(program, mem.State(), 0, fuel);
    var idx: I32 := 0;
    var left := fuel;
    while 0 <= idx < |program|
      invariant Run(program, mem.State(), idx, left) == target
      decreases left
    {
      if left == 0 {
        return false;
      }
      var offset := mem.Eval(program[idx]);
      idx := WrapI32(idx + offset);
      left := left - 1;
    }
    return true;
  }

  /** What the program leaves in register a when run from the registers init. */
  function Answer(lines: seq<string>, init: Regs, fuel: nat): Option<I32>
  {
    match ParseProgram(lines)
    case None => None
    case Some(program) =>
      match Run(program, init, 0, fuel)
      case None => None
      case Some(m) => Some(m.a)
  }

  /** Parse the trimmed lines, then run from the given registers. */
  method Solve(lines: seq<string>, init: Regs, fuel: nat) returns (r: Option<I32>)
    ensures r == Answer(lines, init, fuel)
  {
    var program := ParseProgram(lines);
    if program.None? {
      return None;
    }
    var mem := new Memory(init.a, init.b, init.c, init.d);
    var done := Execute(program.value, mem, fuel);
    if !done {
      return None;
    }
    return Some(mem.a);
  }

  /** `part1`: all registers start at 0. */
  method Part1(lines: seq<string>, fuel: nat) returns (r: Option<I32>)
    ensures r == Answer(lines, Regs(0, 0, 0, 0), fuel)
  {
    r := Solve(lines, Regs(0, 0, 0, 0), fuel);
  }

  /** `part2`: the same, with c starting at 1. */
  method Part2(lines: seq<string>, fuel: nat) returns (r: Option<I32>)
    ensures r == Answer(lines, Regs(0, 0, 1, 0), fuel)
  {
    r := Solve(lines, Regs(0, 0, 1, 0), fuel);
  }

  // ---------------------------------------------------------------------
  // The example of `part1_1`.

  const ExampleLines: seq<string> := ["cpy 41 a", "    inc a", "    inc a", "    dec a", "    jnz a 2", "    dec a"]

  const ExampleProgram: seq<Instruction> :=
    [Copy(Constant(41), A), Increment(A), Increment(A), Decrement(A), Jump(Reg(A), 2), Decrement(A)]

  /** The example's lines are the listings of its instructions, indented. */
  lemma ExampleParses(lines: seq<string>)
    requires lines == ExampleLines
    ensures ParseProgram(lines) == Some(ExampleProgram)
  {
    forall i | 0 <= i < 6
      ensures ParseLine(lines[i]) == Some(ExampleProgram[i])
    {
      ParseShow(ExampleProgram[i]);
      if i == 0 {
        ExampleFirstLine(lines);
      } else {
        ExampleLine(lines, i);
      }
    }
    var p := ParseProgram(lines);
    assert p.Some?;
    assert p.value == ExampleProgram;
  }

  /** Each example line trims to the listing of its instruction. */
  lemma ExampleLine(lines: seq<string>, i: nat)
    requires lines == ExampleLines && 0 < i < 6
    ensures Trim(lines[i]) == Show(ExampleProgram[i])
  {
    var w := Show(ExampleProgram[i]);
    if i == 4 {
      assert ShowInt(2) == "2";
    }
    assert lines[i] == "    " + w;
    TrimPadded("    ", w);
  }

  /** The first line has no indent. */
  lemma ExampleFirstLine(lines: seq<string>)
    requires lines == ExampleLines
    ensures Trim(lines[0]) == Show(ExampleProgram[0])
  {
    assert ShowInt(41) == "41";
    TrimPadded("", lines[0]);
  }

  /** Five instructions run (`jnz a 2` skips the last `dec`) and a ends at 42. */
  lemma ExampleRuns(program: seq<Instruction>)
    requires program == ExampleProgram
    ensures Run(program, Regs(0, 0, 0, 0), 0, 5) == Some(Regs(42, 0, 0, 0))
  {
  }

  /** So `part1` of the example is 42, given fuel for its five steps. */
  lemma ExampleAnswer(lines: seq<string>, fuel: nat)
    requires lines == ExampleLines && fuel >= 5
    ensures Answer(lines, Regs(0, 0, 0, 0), fuel) == Some(42)
  {
    ExampleParses(lines);
    var program := ParseProgram(lines).value;
    ExampleRuns(program);
    RunMoreFuel(program, Regs(0, 0, 0, 0), 0, 5, fuel);
  }
}
