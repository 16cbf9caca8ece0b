/**
 * 2017 day 18 (src/bin/y2017/day18.rs): a small assembly language over 26
 * `i64` registers named a to z.  `part1` reads `snd` as "play a sound" and
 * `rcv` as "recover the last sound"; `part2` runs two copies of the program
 * that send each other values through queues until neither can go on.
 *
 * i64 addition and multiplication wrap (the release-build semantics); `%`
 * by zero and `i64::MIN % -1` panic in every build, and so does indexing
 * past the instructions.  A panic is the `Crashed` outcome (or None).
 */
module Y2017Day18 {
  import opened Wrappers
  import opened RustInt
  import opened Strings

  /** A register number: `to_register` of one of a to z. */
  type Index = r: nat | r < 26

  /** `Value`: a register or an immediate. */
  datatype Value = Register(index: Index) | Constant(value: I64)

  datatype Instruction =
    | Snd(v: Value)
    | Rcv(v: Value)
    | Set(r: Index, v: Value)
    | Add(r: Index, v: Value)
    | Mul(r: Index, v: Value)
    | Mod(r: Index, v: Value)
    | Jgz(cond: Value, offset: Value)

  /** `Out`: what `exec` tells `part1` to do next; `Proceed` is the source's `Out::None`. */
  datatype Out = Send(value: I64) | Receive | Jump(offset: I64) | Proceed

  /** `[i64; 26]`. */
  type Regs = s: seq<I64> | |s| == 26 witness Zeros

  const Zeros: seq<I64> := [0, 0, 0, 0, 0, 0, 0, 0, 0, 0, 0, 0, 0, 0, 0, 0, 0, 0, 0, 0, 0, 0, 0, 0, 0, 0]

  /** The letter that names a register. */
  function Letter(r: Index): (c: char)
    ensures 'a' <= c <= 'z'
  {
    (r + 'a' as int) as char
  }

  /**
   * `to_register`: a to z become 0 to 25.  Any other byte is None: the
   * source's subtraction underflows there, or the register it makes is
   * indexed out of bounds later.
   */
  function ToRegister(c: char): (r: Option<Index>)
    ensures r.Some? <==> 'a' <= c <= 'z'
    ensures r.Some? ==> Letter(r.value) == c
  {
    if 'a' <= c <= 'z' then Some((c as int - 'a' as int) as Index) else None
  }

  /** Letters and register numbers are two names for the same thing. */
  lemma ToRegisterLetter(r: Index)
    ensures ToRegister(Letter(r)) == Some(r)
  {
  }

  /** `registers[r] = x`. */
  function Write(regs: Regs, r: Index, x: I64): (t: Regs)
    ensures t[r] == x && forall j :: 0 <= j < 26 && j != r ==> t[j] == regs[j]
  {
    regs[r := x]
  }

  /** `Value::resolve`. */
  function Resolve(v: Value, regs: Regs): I64
  {
    match v
    case Register(r) => regs[r]
    case Constant(k) => k
  }

  // ---------------------------------------------------------------------
  // Parsing a line.

  /**
   * `Value::parse`: an `i64` when the whole word reads as one, otherwise the
   * register its first byte names; the empty word panics.
   */
  function ParseValue(s: string): (v: Option<Value>)
    ensures v.Some? && v.value.Constant? ==> ParseI64(s) == Some(v.value.value)
    ensures v.Some? && v.value.Register? ==> ParseI64(s).None? && s != [] && s[0] == Letter(v.value.index)
    ensures ParseI64(s).Some? ==> v == Some(Constant(ParseI64(s).value))
  {
    match ParseI64(s)
    case Some(k) => Some(Constant(k))
    case None =>
      if s == [] then None
      else
        match ToRegister(s[0])
        case Some(r) => Some(Register(r))
        case None => None
  }

  /** The three-letter mnemonics `parse` dispatches on. */
  datatype Mnemonic = SndCode | RcvCode | JgzCode | SetCode | AddCode | MulCode | ModCode

  function MnemonicOf(m: string): (k: Option<Mnemonic>)
    ensures k == Some(SndCode) <==> m == "snd"
    ensures k == Some(RcvCode) <==> m == "rcv"
    ensures k == Some(JgzCode) <==> m == "jgz"
    ensures k == Some(SetCode) <==> m == "set"
    ensures k == Some(AddCode) <==> m == "add"
    ensures k == Some(MulCode) <==> m == "mul"
    ensures k == Some(ModCode) <==> m == "mod"
  {
    if m == "snd" then Some(SndCode)
    else if m == "rcv" then Some(RcvCode)
    else if m == "jgz" then Some(JgzCode)
    else if m == "set" then Some(SetCode)
    else if m == "add" then Some(AddCode)
    else if m == "mul" then Some(MulCode)
    else if m == "mod" then Some(ModCode)
    else None
  }

  /**
   * The instruction for a mnemonic, given the value of the one character at
   * byte 4, that character itself, and the text from byte 6 (None when the
   * line is too short to slice there).
   */
  function ParseOperands(m: Mnemonic, arg1: Value, c: char, tail: Option<string>): Option<Instruction>
  {
    match m
    case SndCode => Some(Snd(arg1))
    case RcvCode => Some(Rcv(arg1))
    case JgzCode =>
      if tail.None? then None
      else
        (match ParseValue(tail.value)
         case None => None
         case Some(o) => Some(Jgz(arg1, o)))
    case _ =>
      match ToRegister(c)
      case None => None
      case Some(r) =>
        if tail.None? then None
        else
          match ParseValue(tail.value)
          case None => None
          case Some(v) => Some(Written(m, r, v))
  }

  /** The mnemonics of the instructions that write a register. */
  predicate WriteCode(m: Mnemonic)
  {
    m.SetCode? || m.AddCode? || m.MulCode? || m.ModCode?
  }

  /** The writing instruction a mnemonic names. */
  function Written(m: Mnemonic, r: Index, v: Value): (i: Instruction)
    requires WriteCode(m)
  {
    match m
    case SetCode => Set(r, v)
    case AddCode => Add(r, v)
    case MulCode => Mul(r, v)
    case ModCode => Mod(r, v)
  }

  /** The text of a mnemonic. */
  function Text(m: Mnemonic): (s: string)
    ensures |s| == 3 && MnemonicOf(s) == Some(m)
  {
    match m
    case SndCode => "snd"
    case RcvCode => "rcv"
    case JgzCode => "jgz"
    case SetCode => "set"
    case AddCode => "add"
    case MulCode => "mul"
    case ModCode => "mod"
  }

  /**
   * One line of `parse`: the first operand is the single byte 4 (so `snd 10`
   * sends 1), the second is everything from byte 6; a short line, an unknown
   * mnemonic or an operand that is neither number nor register panics.
   */
  function ParseLine(line: string): (r: Option<Instruction>)
    ensures r.Some? ==> |line| >= 5 && MnemonicOf(line[..3]).Some?
  {
    if |line| < 5 then None
    else
      match ParseValue(line[4..5])
      case None => None
      case Some(arg1) =>
        match MnemonicOf(line[..3])
        case None => None
        case Some(m) => ParseOperands(m, arg1, line[4], if |line| >= 6 then Some(line[6..]) else None)
  }

  /** `parse` of the lines of the trimmed input: every line must parse. */
  function ParseProgram(lines: seq<string>): (p: Option<seq<Instruction>>)
    ensures p.Some? ==> |p.value| == |lines|
    ensures p.Some? ==> forall i :: 0 <= i < |lines| ==> ParseLine(lines[i]) == Some(p.value[i])
    ensures p.None? ==> exists i :: 0 <= i < |lines| && ParseLine(lines[i]).None?
  {
    Collect(seq(|lines|, i requires 0 <= i < |lines| => ParseLine(lines[i])))
  }

  // ---------------------------------------------------------------------
  // The listing form of an instruction, and the round trip.

  function ShowValue(v: Value): (s: string)
    ensures s != [] && ' ' !in s
  {
    match v
    case Register(r) => [Letter(r)]
    case Constant(k) => ShowInt(k)
  }

  function Unary(m: string, x: string): string { m + " " + x }

  function Binary(m: string, x: string, y: string): string { m + " " + x + " " + y }

  function Show(i: Instruction): string
  {
    match i
    case Snd(v) => Unary(Text(SndCode), ShowValue(v))
    case Rcv(v) => Unary(Text(RcvCode), ShowValue(v))
    case Jgz(c, o) => Binary(Text(JgzCode), ShowValue(c), ShowValue(o))
    case Set(r, v) => Binary(Text(SetCode), [Letter(r)], ShowValue(v))
    case Add(r, v) => Binary(Text(AddCode), [Letter(r)], ShowValue(v))
    case Mul(r, v) => Binary(Text(MulCode), [Letter(r)], ShowValue(v))
    case Mod(r, v) => Binary(Text(ModCode), [Letter(r)], ShowValue(v))
  }

  /** A first operand `parse` can read back: a register or a single digit, one byte wide. */
  predicate Narrow(v: Value)
  {
    v.Register? || 0 <= v.value <= 9
  }

  /** The instructions whose listing survives `parse`: snd, rcv and jgz need a narrow first operand. */
  predicate Listable(i: Instruction)
  {
    match i
    case Snd(v) => Narrow(v)
    case Rcv(v) => Narrow(v)
    case Jgz(c, _) => Narrow(c)
    case _ => true
  }

  /** Every value reads back from its listing. */
  lemma ParseShowValue(v: Value)
    ensures ParseValue(ShowValue(v)) == Some(v)
  {
    match v {
      case Register(r) =>
        assert ParseInt([Letter(r)]).None?;
      case Constant(k) =>
        ParseShowI64(k);
    }
  }

  /** A narrow value lists as one character. */
  lemma NarrowIsOneCharacter(v: Value)
    requires Narrow(v)
    ensures |ShowValue(v)| == 1
  {
  }

  /** Where `parse` slices a one-operand line. */
  lemma UnaryParts(m: string, x: string)
    requires |m| == 3 && |x| == 1
    ensures |Unary(m, x)| == 5 && Unary(m, x)[..3] == m && Unary(m, x)[4..5] == x
  {
  }

  /** Where `parse` slices a two-operand line. */
  lemma BinaryParts(m: string, x: string, y: string)
    requires |m| == 3 && |x| == 1
    ensures |Binary(m, x, y)| == 6 + |y| && Binary(m, x, y)[..3] == m
    ensures Binary(m, x, y)[4..5] == x && Binary(m, x, y)[4] == x[0] && Binary(m, x, y)[6..] == y
  {
    var b := Binary(m, x, y);
    assert b == m + " " + x + " " + y;
    assert b[..3] == m;
    assert b[4..5] == x;
    assert b[6..] == y;
  }

  /** Every listable instruction parses back from its listing. */
  lemma ParseShow(i: Instruction)
    requires Listable(i)
    ensures ParseLine(Show(i)) == Some(i)
  {
    match i {
      case Snd(v) => ParseShowUnary(SndCode, v);
      case Rcv(v) => ParseShowUnary(RcvCode, v);
      case Jgz(c, o) =>
        NarrowIsOneCharacter(c);
        ParseShowValue(c);
        ParseShowValue(o);
        BinaryParts(Text(JgzCode), ShowValue(c), ShowValue(o));
      case Set(r, v) => ParseShowWrite(SetCode, r, v);
      case Add(r, v) => ParseShowWrite(AddCode, r, v);
      case Mul(r, v) => ParseShowWrite(MulCode, r, v);
      case Mod(r, v) => ParseShowWrite(ModCode, r, v);
    }
  }

  lemma ParseShowUnary(m: Mnemonic, v: Value)
    requires m.SndCode? || m.RcvCode?
    requires Narrow(v)
    ensures ParseLine(Unary(Text(m), ShowValue(v))) == Some(if m.SndCode? then Snd(v) else Rcv(v))
  {
    NarrowIsOneCharacter(v);
    ParseShowValue(v);
    UnaryParts(Text(m), ShowValue(v));
  }

  lemma ParseShowWrite(m: Mnemonic, r: Index, v: Value)
    requires WriteCode(m)
    ensures ParseLine(Binary(Text(m), [Letter(r)], ShowValue(v))) == Some(Written(m, r, v))
  {
    ParseShowValue(Register(r));
    ParseShowValue(v);
    BinaryParts(Text(m), [Letter(r)], ShowValue(v));
  }

  /** Only byte 4 is the first operand: `snd 10` sends the constant 1. */
  lemma OnlyOneByte(line: string)
    requires line == "snd 10"
    ensures ParseLine(line) == Some(Snd(Constant(1)))
  {
    assert line[4..5] == "1" && line[..3] == "snd";
    assert ParseInt("1") == Some(1);
  }

  // ---------------------------------------------------------------------
  // `exec`.

  /** The instructions that write a register. */
  predicate Writes(i: Instruction)
  {
    i.Set? || i.Add? || i.Mul? || i.Mod?
  }

  const MinI64: int := -0x8000_0000_0000_0000

  /**
   * The new value of the written register: Set copies, Add and Mul wrap in
   * 64 bits, Mod is Rust's truncating remainder and panics for a zero
   * divisor or `i64::MIN % -1`.
   */
  function Arith(i: Instruction, regs: Regs): (x: Option<I64>)
    requires Writes(i)
    ensures x.None? <==> i.Mod? && (Resolve(i.v, regs) == 0 || (regs[i.r] == MinI64 && Resolve(i.v, regs) == -1))
    ensures i.Set? ==> x == Some(Resolve(i.v, regs))
    ensures i.Add? ==> x.Some? && (x.value - (regs[i.r] + Resolve(i.v, regs))) % U64 == 0
    ensures i.Add? && MinI64 <= regs[i.r] + Resolve(i.v, regs) < -MinI64 ==> x == Some(regs[i.r] + Resolve(i.v, regs))
    ensures i.Mul? ==> x.Some? && (x.value - regs[i.r] * Resolve(i.v, regs)) % U64 == 0
    ensures i.Mul? && MinI64 <= regs[i.r] * Resolve(i.v, regs) < -MinI64 ==> x == Some(regs[i.r] * Resolve(i.v, regs))
    ensures i.Mod? && x.Some? ==> x.value == regs[i.r] - TDiv(regs[i.r], Resolve(i.v, regs)) * Resolve(i.v, regs)
    ensures i.Mod? && x.Some? ==> Abs(x.value) < Abs(Resolve(i.v, regs)) && (regs[i.r] >= 0 ==> x.value >= 0)
  {
    var a, b := regs[i.r], Resolve(i.v, regs);
    match i
    case Set(_, _) => Some(b)
    case Add(_, _) => Some(WrapI64(a + b))
    case Mul(_, _) => Some(WrapI64(a * b))
    case Mod(_, _) => if b == 0 || (a == MinI64 && b == -1) then None else Some(TRem(a, b))
  }

  /**
   * `exec`: the registers afterwards and what to do next, or None where it
   * panics.  Only the written register changes; snd, rcv and jgz change none.
   */
  function Exec(i: Instruction, regs: Regs): (r: Option<(Regs, Out)>)
    ensures r.None? <==> Writes(i) && Arith(i, regs).None?
    ensures r.Some? && Writes(i) ==> r.value.0[i.r] == Arith(i, regs).value && r.value.1 == Proceed
    ensures r.Some? && Writes(i) ==> forall j :: 0 <= j < 26 && j != i.r ==> r.value.0[j] == regs[j]
    ensures !Writes(i) ==> r.Some? && r.value.0 == regs
    ensures r.Some? ==> (r.value.1 == Receive <==> i.Rcv? && Resolve(i.v, regs) != 0)
    ensures r.Some? ==> (r.value.1.Jump? <==> i.Jgz? && Resolve(i.cond, regs) > 0)
    ensures r.Some? && r.value.1.Jump? ==> r.value.1.offset == Resolve(i.offset, regs)
    ensures r.Some? ==> (r.value.1.Send? <==> i.Snd?)
    ensures r.Some? && r.value.1.Send? ==> r.value.1.value == Resolve(i.v, regs)
  {
    if Writes(i) then
      match Arith(i, regs)
      case None => None
      case Some(x) =>
        Some((Write(regs, i.r, x), Proceed))
    else
      match i
      case Snd(v) => Some((regs, Send(Resolve(v, regs))))
      case Rcv(v) => Some((regs, if Resolve(v, regs) != 0 then Receive else Proceed))
      case Jgz(c, o) => Some((regs, if Resolve(c, regs) > 0 then Jump(Resolve(o, regs)) else Proceed))
  }

  /** `exec` on `&mut [i64; 26]`: None where it panics. */
  method ExecIn(i: Instruction, registers: array<I64>) returns (out: Option<Out>)
    requires registers.Length == 26
    modifies registers
    ensures out.None? <==> Exec(i, old(registers[..])).None?
    ensures out.Some? ==> (registers[..], out.value) == Exec(i, old(registers[..])).value
  {
    if Writes(i) {
      var x := Arith(i, registers[..]);
      if x.None? {
        return None;
      }
      registers[i.r] := x.value;
      return Some(Proceed);
    }
    var regs: Regs := registers[..];
    match i {
      case Snd(v) => out := Some(Send(Resolve(v, regs)));
      case Rcv(v) => out := Some(if Resolve(v, regs) != 0 then Receive else Proceed);
      case Jgz(c, o) => out := Some(if Resolve(c, regs) > 0 then Jump(Resolve(o, regs)) else Proceed);
    }
  }

  // ---------------------------------------------------------------------
  // `part1`.

  /** How a run ends: with a recovered sound, with a panic, or out of fuel. */
  datatype Halt = Recovered(value: I64) | Crashed | OutOfFuel

  /**
   * The loop of `part1` from position pos with the last sound played: at
   * the first rcv whose operand is nonzero, the last sound (a panic when
   * none was played); a position outside the program panics.
   */
  function Recover(program: seq<Instruction>, regs: Regs, pos: int, last: Option<I64>, fuel: nat): Halt
    decreases fuel
  {
    if fuel == 0 then OutOfFuel
    else if !(0 <= pos < |program|) then Crashed
    else
      match Exec(program[pos], regs)
      case None => Crashed
      case Some(step) =>
        match step.1
        case Proceed => Recover(program, step.0, pos + 1, last, fuel - 1)
        case Send(x) => Recover(program, step.0, pos + 1, Some(x), fuel - 1)
        case Jump(off) => Recover(program, step.0, pos + off, last, fuel - 1)
        case Receive => if last.None? then Crashed else Recovered(last.value)
  }

  /** A run that ends with fuel to spare ends the same way with more. */
  lemma {:induction false} RecoverMoreFuel(program: seq<Instruction>, regs: Regs, pos: int, last: Option<I64>, fuel: nat, more: nat)
    requires fuel <= more && !Recover(program, regs, pos, last, fuel).OutOfFuel?
    ensures Recover(program, regs, pos, last, more) == Recover(program, regs, pos, last, fuel)
    decreases fuel
  {
    assert fuel > 0;
    if 0 <= pos < |program| && Exec(program[pos], regs).Some? {
      var (next, out) := Exec(program[pos], regs).value;
      match out {
        case Proceed => RecoverMoreFuel(program, next, pos + 1, last, fuel - 1, more - 1);
        case Send(x) => RecoverMoreFuel(program, next, pos + 1, Some(x), fuel - 1, more - 1);
        case Jump(off) => RecoverMoreFuel(program, next, pos + off, last, fuel - 1, more - 1);
        case Receive =>
      }
    }
  }

  /** A recovered value was played: it is the last sound, or one a later snd resolved. */
  lemma {:induction false} RecoveredWasSent(program: seq<Instruction>, regs: Regs, pos: int, last: Option<I64>, fuel: nat)
    requires Recover(program, regs, pos, last, fuel).Recovered?
    ensures last == Some(Recover(program, regs, pos, last, fuel).value)
         || exists k :: 0 <= k < |program| && program[k].Snd?
    decreases fuel
  {
    var (next, out) := Exec(program[pos], regs).value;
    match out {
      case Proceed => RecoveredWasSent(program, next, pos + 1, last, fuel - 1);
      case Send(x) => assert program[pos].Snd?;
      case Jump(off) => RecoveredWasSent(program, next, pos + off, last, fuel - 1);
      case Receive =>
    }
  }

  /** `part1` of the input lines. */
  function Answer1(lines: seq<string>, fuel: nat): Halt
  {
    match ParseProgram(lines)
    case None => Crashed
    case Some(program) => Recover(program, Zeros, 0, None, fuel)
  }

  /** `part1`: registers in an array, run until the first effective rcv. */
  method Part1(lines: seq<string>, fuel: nat) returns (r: Halt)
    ensures r == Answer1(lines, fuel)
  {
    var parsed := ParseProgram(lines);
    if parsed.None? {
      return Crashed;
    }
    r := Run1(parsed.value, fuel);
  }

  /** The loop of `part1` over the parsed instructions, registers in an array. */
  method Run1(instructions: seq<Instruction>, fuel: nat) returns (r: Halt)
    ensures r == Recover(instructions, Zeros, 0, None, fuel)
  {
    var registers := new I64[26](_ => 0);
    assert registers[..] == Zeros;
    var lastSound: Option<I64> := None;
    var pos: int := 0;
    var left := fuel;
    while true
      invariant registers.Length == 26
      invariant Recover(instructions, registers[..], pos, lastSound, left) == Recover(instructions, Zeros, 0, None, fuel)
      decreases left
    {
      if left == 0 {
        return OutOfFuel;
      }
      if !(0 <= pos < |instructions|) {
        return Crashed;
      }
      var done;
      done, pos, lastSound := Step1(instructions, registers, pos, lastSound, left);
      if done.Some? {
        return done.value;
      }
      left := left - 1;
    }
  }

  /** One turn of the loop of `part1`: the outcome when it ends here, or the next position and last sound. */
  method Step1(instructions: seq<Instruction>, registers: array<I64>, pos: int, lastSound: Option<I64>, left: nat)
    returns (done: Option<Halt>, next: int, last: Option<I64>)
    requires registers.Length == 26 && left > 0 && 0 <= pos < |instructions|
    modifies registers
    ensures done.Some? ==> done.value == Recover(instructions, old(registers[..]), pos, lastSound, left)
    ensures done.None? ==> Recover(instructions, registers[..], next, last, left - 1) == Recover(instructions, old(registers[..]), pos, lastSound, left)
  {
    var instr := instructions[pos];
    next, last := pos + 1, lastSound;
    var out := ExecIn(instr, registers);
    match out {
      case None => return Some(Crashed), next, last;
      case Some(Proceed) =>
      case Some(Receive) =>
        if lastSound.None? {
          return Some(Crashed), next, last;
        }
        return Some(Recovered(lastSound.value)), next, last;
      case Some(Send(x)) => last := Some(x);
      case Some(Jump(off)) => next := next + off - 1;
    }
    done := None;
  }

  // ---------------------------------------------------------------------
  // `Program::execute`.

  /** The state of one `Program`: registers, position, own queue and the count of sends. */
  datatype Proc = Proc(regs: Regs, pos: nat, queue: seq<I64>, sent: nat)

  /**
   * The loop of `execute`, from the current state and the other program's
   * queue: it runs until a snd (queued, counted, then stop) or a rcv of a
   * register (take the front of the input, or wait at the rcv when it is
   * empty).  A rcv of a constant does nothing.  None where it panics or
   * the fuel runs out.
   */
  function Loop(program: seq<Instruction>, p: Proc, input: seq<I64>, fuel: nat): (r: Option<(Proc, seq<I64>)>)
    ensures r.Some? ==>
      (Sent(program, p, input, r.value.0, r.value.1) || Took(program, p, input, r.value.0, r.value.1)
       || Waits(program, p, input, r.value.0, r.value.1))
    decreases fuel
  {
    if fuel == 0 || p.pos >= |program| then None
    else
      var next := p.pos + 1;
      match program[p.pos]
      case Snd(v) => Some((p.(pos := next, queue := p.queue + [Resolve(v, p.regs)], sent := p.sent + 1), input))
      case Rcv(Register(r)) =>
        if input != [] then Some((p.(pos := next, regs := Write(p.regs, r, input[0])), input[1..]))
        else Some((p, input))
      case Rcv(Constant(_)) => Loop(program, p.(pos := next), input, fuel - 1)
      case Jgz(c, o) =>
        if Resolve(c, p.regs) > 0 then
          var t := p.pos + Resolve(o, p.regs);
          if t < 0 then None else Loop(program, p.(pos := t), input, fuel - 1)
        else Loop(program, p.(pos := next), input, fuel - 1)
      case _ =>
        var i := program[p.pos];
        match Arith(i, p.regs)
        case None => None
        case Some(x) => Loop(program, p.(pos := next, regs := Write(p.regs, i.r, x)), input, fuel - 1)
  }

  /** The burst stopped right after a snd: its value is queued, the count is up by one, the input untouched. */
  predicate Sent(program: seq<Instruction>, p: Proc, input: seq<I64>, q: Proc, rest: seq<I64>)
  {
    0 < q.pos <= |program| && program[q.pos - 1].Snd?
    && q.queue == p.queue + [Resolve(program[q.pos - 1].v, q.regs)]
    && q.sent == p.sent + 1 && rest == input
  }

  /** The burst stopped right after a rcv that took the front of the input. */
  predicate Took(program: seq<Instruction>, p: Proc, input: seq<I64>, q: Proc, rest: seq<I64>)
  {
    0 < q.pos <= |program| && program[q.pos - 1].Rcv? && program[q.pos - 1].v.Register?
    && input != [] && rest == input[1..] && q.regs[program[q.pos - 1].v.index] == input[0]
    && q.queue == p.queue && q.sent == p.sent
  }

  /** The burst stopped at a rcv of a register with the input empty. */
  predicate Waits(program: seq<Instruction>, p: Proc, input: seq<I64>, q: Proc, rest: seq<I64>)
  {
    q.pos < |program| && program[q.pos].Rcv? && program[q.pos].v.Register?
    && input == [] && rest == [] && q.queue == p.queue && q.sent == p.sent
  }

  /** `execute`: nothing happens at the end of the program; otherwise the loop. */
  function Burst(program: seq<Instruction>, p: Proc, input: seq<I64>, fuel: nat): Option<(Proc, seq<I64>)>
  {
    if p.pos == |program| then Some((p, input)) else Loop(program, p, input, fuel)
  }

  /** A program waiting at a rcv with nothing to receive changes nothing and does not move. */
  lemma WaitingStays(program: seq<Instruction>, p: Proc, fuel: nat)
    requires p.pos < |program| && program[p.pos].Rcv? && program[p.pos].v.Register? && fuel > 0
    ensures Burst(program, p, [], fuel) == Some((p, []))
  {
  }

  class Program {
    const instructions: seq<Instruction>
    const registers: array<I64>
    var position: nat
    var queue: seq<I64>
    var sent: nat

    predicate Valid()
      reads this
    {
      registers.Length == 26
    }

    function State(): Proc
      requires Valid()
      reads this, registers
    {
      Proc(registers[..], position, queue, sent)
    }

    /** `Program::new`: registers 0 but p, which holds the id; nothing queued or sent. */
    constructor(instructions: seq<Instruction>, id: I64)
      ensures Valid() && fresh(registers) && this.instructions == instructions
      ensures State() == Proc(Zeros[15 := id], 0, [], 0)
    {
      this.instructions := instructions;
      var regs := new I64[26](_ => 0);
      var p := ToRegister('p').value;
      assert p == 15;
      regs[p] := id;
      registers := regs;
      position := 0;
      queue := [];
      sent := 0;
      assert regs[..] == Zeros[15 := id];
    }

    /**
     * `execute` with the other program's queue as input (handed back as
     * `rest`): whether the position moved, or None where it panics or the
     * fuel for its inner loop runs out.
     */
    method Execute(input: seq<I64>, fuel: nat) returns (progress: Option<bool>, rest: seq<I64>)
      requires Valid()
      modifies this, registers
      ensures Valid()
      ensures progress.Some? <==> Burst(instructions, old(State()), input, fuel).Some?
      ensures progress.Some? ==> State() == Burst(instructions, old(State()), input, fuel).value.0
      ensures progress.Some? ==> rest == Burst(instructions, old(State()), input, fuel).value.1
      ensures progress.Some? ==> progress.value == (position != old(position))
    {
      var start := position;
      rest := input;
      if position == |instructions| {
        return Some(false), rest;
      }
      var left := fuel;
      while true
        invariant Valid()
        invariant Loop(instructions, State(), rest, left) == Burst(instructions, old(State()), input, fuel)
        invariant start == old(position)
        decreases left
      {
        if left == 0 || position >= |instructions| {
          return None, rest;
        }
        ghost var s := State();
        var regs: Regs := registers[..];
        var instr := instructions[position];
        position := position + 1;
        match instr {
          case Snd(v) =>
            queue := queue + [Resolve(v, regs)];
            sent := sent + 1;
            return Some(start != position), rest;
          case Rcv(Register(r)) =>
            if rest != [] {
              registers[r] := rest[0];
              rest := rest[1..];
            } else {
              position := position - 1;
            }
            return Some(start != position), rest;
          case Rcv(Constant(_)) =>
          case Jgz(c, o) =>
            if Resolve(c, regs) > 0 {
              var t := position - 1 + Resolve(o, regs);
              if t < 0 {
                return None, rest;
              }
              position := t;
            }
          case _ =>
            var x := Arith(instr, regs);
            if x.None? {
              return None, rest;
            }
            registers[instr.r] := x.value;
            assert registers[..] == s.regs[instr.r := x.value];
        }
        left := left - 1;
      }
    }

    /**
     * `execute` with the progress flag corrected: whether the burst changed
     * the state or took input, which is whether the program was blocked.
     */
    method Progressing(input: seq<I64>, fuel: nat) returns (progress: Option<bool>, rest: seq<I64>)
      requires Valid()
      modifies this, registers
      ensures Valid()
      ensures progress.Some? <==> Burst(instructions, old(State()), input, fuel).Some?
      ensures progress.Some? ==> State() == Burst(instructions, old(State()), input, fuel).value.0
      ensures progress.Some? ==> rest == Burst(instructions, old(State()), input, fuel).value.1
      ensures progress.Some? ==> progress.value == Progressed(Corrected, old(State()), input, State(), rest)
      ensures progress.Some? ==> progress.value == !Blocked(instructions, old(State()), input)
    {
      ghost var s := State();
      var regs, pos, q, n := registers[..], position, queue, sent;
      var moved;
      moved, rest := Execute(input, fuel);
      if moved.None? {
        return None, rest;
      }
      progress := Some(registers[..] != regs || position != pos || queue != q || sent != n || rest != input);
      ProgressIffNotBlocked(instructions, s, input, fuel);
    }
  }

  // ---------------------------------------------------------------------
  // What `execute`'s answer means.

  /** Nothing can happen: at the end of the program, or at a rcv of a register with no input. */
  predicate Blocked(program: seq<Instruction>, p: Proc, input: seq<I64>)
  {
    p.pos == |program| || (p.pos < |program| && program[p.pos].Rcv? && program[p.pos].v.Register? && input == [])
  }

  /** A burst changes nothing exactly when the program is blocked. */
  lemma UnchangedIffBlocked(program: seq<Instruction>, p: Proc, input: seq<I64>, fuel: nat)
    requires fuel > 0
    ensures Burst(program, p, input, fuel) == Some((p, input)) <==> Blocked(program, p, input)
  {
    if p.pos != |program| && Burst(program, p, input, fuel) == Some((p, input)) {
      assert !Sent(program, p, input, p, input) && !Took(program, p, input, p, input);
    }
  }

  /**
   * `execute` reports no progress after taking a value: in `rcv a` /
   * `jgz a -1` the burst from the jgz jumps back to the rcv, takes the
   * input and stops where it started.
   */
  lemma TakenWithoutProgress(program: seq<Instruction>, p: Proc)
    requires program == [Rcv(Register(0)), Jgz(Register(0), Constant(-1))]
    requires p == Proc(Zeros[0 := 5], 1, [], 0)
    ensures Burst(program, p, [7], 2) == Some((p.(regs := Zeros[0 := 7]), []))
    ensures !Blocked(program, p, [7])
    ensures !Progressed(AsWritten, p, [7], p.(regs := Zeros[0 := 7]), []) && Progressed(Corrected, p, [7], p.(regs := Zeros[0 := 7]), [])
  {
    var q := p.(pos := 0);
    assert Resolve(Register(0), p.regs) == 5;
    assert Loop(program, p, [7], 2) == Loop(program, q, [7], 1);
    assert program[q.pos] == Rcv(Register(0));
    assert [7][1..] == [];
    assert Loop(program, q, [7], 1) == Some((q.(pos := 1, regs := Write(q.regs, 0, 7)), [7][1..]));
    assert Write(Zeros[0 := 5], 0, 7) == Zeros[0 := 7];
  }

  // ---------------------------------------------------------------------
  // `part2`.

  /** Which inner loop of `part2` is running. */
  datatype Phase = RunA | RunB

  /**
   * What counts as progress in a burst from (p, input) to (q, rest).  As
   * written, `execute` answers whether the position moved, which misses a
   * burst that takes a value and stops at the rcv it started from (see
   * `TakenWithoutProgress`); corrected, a burst progresses when it changed
   * anything at all.
   */
  datatype Rule = AsWritten | Corrected

  predicate Progressed(rule: Rule, p: Proc, input: seq<I64>, q: Proc, rest: seq<I64>)
  {
    match rule
    case AsWritten => q.pos != p.pos
    case Corrected => (q, rest) != (p, input)
  }

  /** Under the corrected rule a burst progresses exactly when the program was not blocked. */
  lemma ProgressIffNotBlocked(program: seq<Instruction>, p: Proc, input: seq<I64>, fuel: nat)
    requires Burst(program, p, input, fuel).Some?
    ensures var (q, rest) := Burst(program, p, input, fuel).value;
      Progressed(Corrected, p, input, q, rest) <==> !Blocked(program, p, input)
  {
    if p.pos != |program| {
      UnchangedIffBlocked(program, p, input, fuel);
    }
  }

  /** Progress as written implies the program was not blocked; `TakenWithoutProgress` shows the converse fails. */
  lemma MovedNotBlocked(program: seq<Instruction>, p: Proc, input: seq<I64>, fuel: nat)
    requires Burst(program, p, input, fuel).Some?
    ensures var (q, rest) := Burst(program, p, input, fuel).value;
      Progressed(AsWritten, p, input, q, rest) ==> !Blocked(program, p, input)
  {
    ProgressIffNotBlocked(program, p, input, fuel);
  }

  /**
   * The loops of `part2`: a runs while it progresses, then b; the round
   * repeats while either progressed, and the answer is b's count of sends.
   * A burst of b takes a's queue and the other way round.  `rounds` bounds
   * the number of bursts and `fuel` each burst's inner loop.
   */
  function Duet(program: seq<Instruction>, rule: Rule, a: Proc, b: Proc, phase: Phase, progress: bool, rounds: nat, fuel: nat): Option<nat>
    decreases rounds
  {
    if rounds == 0 then None
    else
      match phase
      case RunA =>
        (match Burst(program, a, b.queue, fuel)
         case None => None
         case Some((a', rest)) =>
           var b' := b.(queue := rest);
           if Progressed(rule, a, b.queue, a', rest) then Duet(program, rule, a', b', RunA, true, rounds - 1, fuel)
           else Duet(program, rule, a', b', RunB, progress, rounds - 1, fuel))
      case RunB =>
        match Burst(program, b, a.queue, fuel)
        case None => None
        case Some((b', rest)) =>
          var a' := a.(queue := rest);
          if Progressed(rule, b, a.queue, b', rest) then Duet(program, rule, a', b', RunB, true, rounds - 1, fuel)
          else if progress then Duet(program, rule, a', b', RunA, false, rounds - 1, fuel)
          else Some(b'.sent)
  }

  /** One burst of a. */
  lemma DuetA(program: seq<Instruction>, rule: Rule, a: Proc, b: Proc, progress: bool, rounds: nat, fuel: nat)
    requires rounds > 0 && Burst(program, a, b.queue, fuel).Some?
    ensures var (a', rest) := Burst(program, a, b.queue, fuel).value;
      Duet(program, rule, a, b, RunA, progress, rounds, fuel)
      == if Progressed(rule, a, b.queue, a', rest) then Duet(program, rule, a', b.(queue := rest), RunA, true, rounds - 1, fuel)
         else Duet(program, rule, a', b.(queue := rest), RunB, progress, rounds - 1, fuel)
  {
  }

  /** One burst of b. */
  lemma DuetB(program: seq<Instruction>, rule: Rule, a: Proc, b: Proc, progress: bool, rounds: nat, fuel: nat)
    requires rounds > 0 && Burst(program, b, a.queue, fuel).Some?
    ensures var (b', rest) := Burst(program, b, a.queue, fuel).value;
      Duet(program, rule, a, b, RunB, progress, rounds, fuel)
      == if Progressed(rule, b, a.queue, b', rest) then Duet(program, rule, a.(queue := rest), b', RunB, true, rounds - 1, fuel)
         else if progress then Duet(program, rule, a.(queue := rest), b', RunA, false, rounds - 1, fuel)
         else Some(b'.sent)
  {
  }

  /** `part2` of the input lines: programs 0 and 1 from their initial state. */
  function Answer2(lines: seq<string>, rule: Rule, rounds: nat, fuel: nat): Option<nat>
  {
    match ParseProgram(lines)
    case None => None
    case Some(program) =>
      Duet(program, rule, Proc(Zeros[15 := 0], 0, [], 0), Proc(Zeros[15 := 1], 0, [], 0), RunA, false, rounds, fuel)
  }

  /** `x.execute(&mut y.queue)`: x runs one burst on y's queue, and the rule decides what counts as progress. */
  method Turn(x: Program, y: Program, rule: Rule, fuel: nat) returns (progress: Option<bool>)
    requires x.Valid() && y.Valid() && x != y && x.registers != y.registers
    modifies x, x.registers, y
    ensures x.Valid() && y.Valid()
    ensures progress.Some? <==> Burst(x.instructions, old(x.State()), old(y.queue), fuel).Some?
    ensures progress.Some? ==> x.State() == Burst(x.instructions, old(x.State()), old(y.queue), fuel).value.0
    ensures progress.Some? ==> y.State() == old(y.State()).(queue := Burst(x.instructions, old(x.State()), old(y.queue), fuel).value.1)
    ensures progress.Some? ==> progress.value == Progressed(rule, old(x.State()), old(y.queue), x.State(), y.queue)
  {
    var rest;
    if rule == AsWritten {
      progress, rest := x.Execute(y.queue, fuel);
    } else {
      progress, rest := x.Progressing(y.queue, fuel);
    }
    y.queue := rest;
  }

  /** `part2` with the corrected progress flag: the two programs as objects, the nested loops as in the source. */
  method Part2(lines: seq<string>, rounds: nat, fuel: nat) returns (r: Option<nat>)
    ensures r == Answer2(lines, Corrected, rounds, fuel)
  {
    var parsed := ParseProgram(lines);
    if parsed.None? {
      return None;
    }
    r := Run2(parsed.value, Corrected, rounds, fuel);
  }

  /** `part2` as written: a burst whose position did not move counts as no progress. */
  method Part2AsWritten(lines: seq<string>, rounds: nat, fuel: nat) returns (r: Option<nat>)
    ensures r == Answer2(lines, AsWritten, rounds, fuel)
  {
    var parsed := ParseProgram(lines);
    if parsed.None? {
      return None;
    }
    r := Run2(parsed.value, AsWritten, rounds, fuel);
  }

  /** The loops of `part2` over the parsed instructions. */
  method Run2(program: seq<Instruction>, rule: Rule, rounds: nat, fuel: nat) returns (r: Option<nat>)
    ensures r == Duet(program, rule, Proc(Zeros[15 := 0], 0, [], 0), Proc(Zeros[15 := 1], 0, [], 0), RunA, false, rounds, fuel)
  {
    var a := new Program(program, 0);
    var b := new Program(program, 1);
    ghost var target := Duet(program, rule, a.State(), b.State(), RunA, false, rounds, fuel);
    var left: nat := rounds;
    var progress := true;
    while progress
      invariant a.Valid() && b.Valid() && a != b && a.registers != b.registers
      invariant a.instructions == program && b.instructions == program
      invariant progress ==> Duet(program, rule, a.State(), b.State(), RunA, false, left, fuel) == target
      invariant !progress ==> target == Some(b.sent)
      decreases left
    {
      var ok;
      ok, left, progress := InnerA(program, rule, a, b, left, fuel, target);
      if !ok {
        return None;
      }
      ok, left, progress := InnerB(program, rule, a, b, left, progress, fuel, target);
      if !ok {
        return None;
      }
    }
    return Some(b.sent);
  }

  /** `while a.execute(&mut b.queue) { progress = true; }`, after `progress = false`; false where the run stops short. */
  method InnerA(program: seq<Instruction>, rule: Rule, a: Program, b: Program, left0: nat, fuel: nat, ghost target: Option<nat>)
    returns (ok: bool, left: nat, progress: bool)
    requires a.Valid() && b.Valid() && a != b && a.registers != b.registers
    requires a.instructions == program && b.instructions == program
    requires Duet(program, rule, a.State(), b.State(), RunA, false, left0, fuel) == target
    modifies a, a.registers, b
    ensures a.Valid() && b.Valid()
    ensures !ok ==> target == None
    ensures ok ==> left < left0 && Duet(program, rule, a.State(), b.State(), RunB, progress, left, fuel) == target
  {
    left, progress := left0, false;
    var moved := true;
    while moved
      invariant a.Valid() && b.Valid()
      invariant left <= left0 && (moved || left < left0)
      invariant moved ==> Duet(program, rule, a.State(), b.State(), RunA, progress, left, fuel) == target
      invariant !moved ==> Duet(program, rule, a.State(), b.State(), RunB, progress, left, fuel) == target
      decreases left
    {
      if left == 0 {
        return false, left, progress;
      }
      ghost var sa, sb := a.State(), b.State();
      var step := Turn(a, b, rule, fuel);
      if step.None? {
        return false, left, progress;
      }
      DuetA(program, rule, sa, sb, progress, left, fuel);
      ghost var next := Burst(program, sa, sb.queue, fuel).value;
      assert a.State() == next.0 && b.State() == sb.(queue := next.1);
      left := left - 1;
      moved := step.value;
      if moved {
        progress := true;
      }
    }
    return true, left, progress;
  }

  /** `while b.execute(&mut a.queue) { progress = true; }`; after it the outer loop stops unless a round progressed. */
  method InnerB(program: seq<Instruction>, rule: Rule, a: Program, b: Program, left0: nat, progress0: bool, fuel: nat, ghost target: Option<nat>)
    returns (ok: bool, left: nat, progress: bool)
    requires a.Valid() && b.Valid() && a != b && a.registers != b.registers
    requires a.instructions == program && b.instructions == program
    requires Duet(program, rule, a.State(), b.State(), RunB, progress0, left0, fuel) == target
    modifies a, b, b.registers
    ensures a.Valid() && b.Valid()
    ensures !ok ==> target == None
    ensures ok ==> left <= left0
    ensures ok && progress ==> Duet(program, rule, a.State(), b.State(), RunA, false, left, fuel) == target
    ensures ok && !progress ==> target == Some(b.sent)
  {
    left, progress := left0, progress0;
    var moved := true;
    while moved
      invariant a.Valid() && b.Valid()
      invariant left <= left0
      invariant moved ==> Duet(program, rule, a.State(), b.State(), RunB, progress, left, fuel) == target
      invariant !moved && progress ==> Duet(program, rule, a.State(), b.State(), RunA, false, left, fuel) == target
      invariant !moved && !progress ==> target == Some(b.sent)
      decreases left
    {
      if left == 0 {
        return false, left, progress;
      }
      ghost var sa, sb := a.State(), b.State();
      var step := Turn(b, a, rule, fuel);
      if step.None? {
        return false, left, progress;
      }
      DuetB(program, rule, sa, sb, progress, left, fuel);
      ghost var next := Burst(program, sb, sa.queue, fuel).value;
      assert b.State() == next.0 && a.State() == sa.(queue := next.1);
      left := left - 1;
      moved := step.value;
      if moved {
        progress := true;
      }
    }
    return true, left, progress;
  }

  // ---------------------------------------------------------------------
  // More fuel and more rounds.

  /** A burst that ends within its fuel ends the same way with more. */
  lemma {:induction false} LoopMoreFuel(program: seq<Instruction>, p: Proc, input: seq<I64>, fuel: nat, more: nat)
    requires fuel <= more && Loop(program, p, input, fuel).Some?
    ensures Loop(program, p, input, more) == Loop(program, p, input, fuel)
    decreases fuel
  {
    var next := p.pos + 1;
    match program[p.pos] {
      case Snd(_) =>
      case Rcv(Register(_)) =>
      case Rcv(Constant(_)) => LoopMoreFuel(program, p.(pos := next), input, fuel - 1, more - 1);
      case Jgz(c, o) =>
        if Resolve(c, p.regs) > 0 {
          LoopMoreFuel(program, p.(pos := p.pos + Resolve(o, p.regs)), input, fuel - 1, more - 1);
        } else {
          LoopMoreFuel(program, p.(pos := next), input, fuel - 1, more - 1);
        }
      case _ =>
        var i := program[p.pos];
        var x := Arith(i, p.regs).value;
        LoopMoreFuel(program, p.(pos := next, regs := Write(p.regs, i.r, x)), input, fuel - 1, more - 1);
    }
  }

  /** A duet that ends within its bounds ends the same way with larger ones. */
  lemma {:induction false} DuetMore(program: seq<Instruction>, rule: Rule, a: Proc, b: Proc, phase: Phase, progress: bool,
                                    rounds: nat, fuel: nat, moreRounds: nat, moreFuel: nat)
    requires rounds <= moreRounds && fuel <= moreFuel
    requires Duet(program, rule, a, b, phase, progress, rounds, fuel).Some?
    ensures Duet(program, rule, a, b, phase, progress, moreRounds, moreFuel) == Duet(program, rule, a, b, phase, progress, rounds, fuel)
    decreases rounds, 1
  {
    if phase.RunA? {
      DuetMoreA(program, rule, a, b, progress, rounds, fuel, moreRounds, moreFuel);
    } else {
      DuetMoreB(program, rule, a, b, progress, rounds, fuel, moreRounds, moreFuel);
    }
  }

  /** The same, for a burst of a. */
  lemma {:induction false} DuetMoreA(program: seq<Instruction>, rule: Rule, a: Proc, b: Proc, progress: bool,
                                     rounds: nat, fuel: nat, moreRounds: nat, moreFuel: nat)
    requires rounds <= moreRounds && fuel <= moreFuel
    requires Duet(program, rule, a, b, RunA, progress, rounds, fuel).Some?
    ensures Duet(program, rule, a, b, RunA, progress, moreRounds, moreFuel) == Duet(program, rule, a, b, RunA, progress, rounds, fuel)
    decreases rounds, 0
  {
    if a.pos != |program| {
      LoopMoreFuel(program, a, b.queue, fuel, moreFuel);
    }
    var (a', rest) := Burst(program, a, b.queue, fuel).value;
    DuetA(program, rule, a, b, progress, rounds, fuel);
    DuetA(program, rule, a, b, progress, moreRounds, moreFuel);
    if Progressed(rule, a, b.queue, a', rest) {
      DuetMore(program, rule, a', b.(queue := rest), RunA, true, rounds - 1, fuel, moreRounds - 1, moreFuel);
    } else {
      DuetMore(program, rule, a', b.(queue := rest), RunB, progress, rounds - 1, fuel, moreRounds - 1, moreFuel);
    }
  }

  /** The same, for a burst of b. */
  lemma {:induction false} DuetMoreB(program: seq<Instruction>, rule: Rule, a: Proc, b: Proc, progress: bool,
                                     rounds: nat, fuel: nat, moreRounds: nat, moreFuel: nat)
    requires rounds <= moreRounds && fuel <= moreFuel
    requires Duet(program, rule, a, b, RunB, progress, rounds, fuel).Some?
    ensures Duet(program, rule, a, b, RunB, progress, moreRounds, moreFuel) == Duet(program, rule, a, b, RunB, progress, rounds, fuel)
    decreases rounds, 0
  {
    if b.pos != |program| {
      LoopMoreFuel(program, b, a.queue, fuel, moreFuel);
    }
    var (b', rest) := Burst(program, b, a.queue, fuel).value;
    DuetB(program, rule, a, b, progress, rounds, fuel);
    DuetB(program, rule, a, b, progress, moreRounds, moreFuel);
    if Progressed(rule, b, a.queue, b', rest) {
      DuetMore(program, rule, a.(queue := rest), b', RunB, true, rounds - 1, fuel, moreRounds - 1, moreFuel);
    } else if progress {
      DuetMore(program, rule, a.(queue := rest), b', RunA, false, rounds - 1, fuel, moreRounds - 1, moreFuel);
    }
  }

  // ---------------------------------------------------------------------
  // The examples of `part1_1` and `part2_1`.

  const Example1: seq<string> :=
    ["set a 1", "add a 2", "mul a a", "mod a 5", "snd a", "set a 0", "rcv a", "jgz a -1", "set a 1", "jgz a -2"]

  const ExampleProgram1: seq<Instruction> :=
    [Set(0, Constant(1)), Add(0, Constant(2)), Mul(0, Register(0)), Mod(0, Constant(5)), Snd(Register(0)),
     Set(0, Constant(0)), Rcv(Register(0)), Jgz(Register(0), Constant(-1)), Set(0, Constant(1)), Jgz(Register(0), Constant(-2))]

  /** The first `rcv a` sees 0 and is skipped; the loop back reaches it with a = 1 and recovers the 4 played. */
  lemma Example1Recovers(program: seq<Instruction>, fuel: nat)
    requires program == ExampleProgram1 && fuel >= 12
    ensures Recover(program, Zeros, 0, None, fuel) == Recovered(4)
  {
    Example1Counts(program);
    Example1Plays(program);
    Example1Loops(program);
    RecoverMoreFuel(program, Zeros, 0, None, 12, fuel);
  }

  /** The first three steps: a becomes 1, then 3, then 9. */
  lemma Example1Counts(program: seq<Instruction>)
    requires program == ExampleProgram1
    ensures Recover(program, Zeros, 0, None, 12) == Recover(program, Zeros[0 := 9], 3, None, 9)
  {
    assert Exec(program[0], Zeros) == Some((Zeros[0 := 1], Proceed));
    assert Arith(program[1], Zeros[0 := 1]) == Some(3) && Zeros[0 := 1][0 := 3] == Zeros[0 := 3];
    assert Exec(program[1], Zeros[0 := 1]) == Some((Zeros[0 := 3], Proceed));
    assert Arith(program[2], Zeros[0 := 3]) == Some(9) && Zeros[0 := 3][0 := 9] == Zeros[0 := 9];
    assert Exec(program[2], Zeros[0 := 3]) == Some((Zeros[0 := 9], Proceed));
  }

  /** The next three: a becomes 4, is played, and is reset to 0. */
  lemma Example1Plays(program: seq<Instruction>)
    requires program == ExampleProgram1
    ensures Recover(program, Zeros[0 := 9], 3, None, 9) == Recover(program, Zeros, 6, Some(4), 6)
  {
    assert TRem(9, 5) == 4 && Zeros[0 := 9][0 := 4] == Zeros[0 := 4];
    assert Exec(program[3], Zeros[0 := 9]) == Some((Zeros[0 := 4], Proceed));
    assert Exec(program[4], Zeros[0 := 4]) == Some((Zeros[0 := 4], Send(4)));
    assert Zeros[0 := 4][0 := 0] == Zeros;
    assert Exec(program[5], Zeros[0 := 4]) == Some((Zeros, Proceed));
  }

  /** The last six: the skipped `rcv a`, the loop back with a = 1, and the recovery of 4. */
  lemma Example1Loops(program: seq<Instruction>)
    requires program == ExampleProgram1
    ensures Recover(program, Zeros, 6, Some(4), 6) == Recovered(4)
  {
    assert Exec(program[6], Zeros) == Some((Zeros, Proceed));
    assert Exec(program[7], Zeros) == Some((Zeros, Proceed));
    assert Exec(program[8], Zeros) == Some((Zeros[0 := 1], Proceed));
    assert Exec(program[9], Zeros[0 := 1]) == Some((Zeros[0 := 1], Jump(-2)));
    assert Exec(program[7], Zeros[0 := 1]) == Some((Zeros[0 := 1], Jump(-1)));
    assert Exec(program[6], Zeros[0 := 1]) == Some((Zeros[0 := 1], Receive));
  }

  const Example2: seq<string> := ["snd 1", "snd 2", "snd p", "rcv a", "rcv b", "rcv c", "rcv d"]

  const ExampleProgram2: seq<Instruction> :=
    [Snd(Constant(1)), Snd(Constant(2)), Snd(Register(15)), Rcv(Register(0)), Rcv(Register(1)), Rcv(Register(2)), Rcv(Register(3))]

  /** A burst that starts at a snd sends once and stops. */
  lemma SendStep(program: seq<Instruction>, p: Proc, input: seq<I64>, fuel: nat)
    requires p.pos < |program| && program[p.pos].Snd? && fuel > 0
    ensures Burst(program, p, input, fuel)
      == Some((p.(pos := p.pos + 1, queue := p.queue + [Resolve(program[p.pos].v, p.regs)], sent := p.sent + 1), input))
  {
  }

  /** A burst that starts at a rcv of a register, with input waiting, takes its front and stops. */
  lemma TakeStep(program: seq<Instruction>, p: Proc, input: seq<I64>, fuel: nat)
    requires p.pos < |program| && program[p.pos].Rcv? && program[p.pos].v.Register? && input != [] && fuel > 0
    ensures Burst(program, p, input, fuel)
      == Some((p.(pos := p.pos + 1, regs := Write(p.regs, program[p.pos].v.index, input[0])), input[1..]))
  {
  }

  /** The states the example passes through: both at the start, a waiting at `rcv a`, b waiting at `rcv d`, both waiting. */
  const A0 := Proc(Zeros[15 := 0], 0, [], 0)
  const B0 := Proc(Zeros[15 := 1], 0, [], 0)
  const A3 := Proc(Zeros[15 := 0], 3, [1, 2, 0], 3)
  const B3 := Proc(Zeros[15 := 1], 3, [1, 2, 1], 3)
  const B6 := Proc(Zeros[15 := 1][0 := 1][1 := 2][2 := 0], 6, [1, 2, 1], 3)
  const A9 := Proc(Zeros[15 := 0][0 := 1][1 := 2][2 := 1], 6, [], 3)

  /** A round of a that starts at a snd: a sends once and keeps the turn. */
  lemma SendA(program: seq<Instruction>, rule: Rule, a: Proc, b: Proc, progress: bool, rounds: nat, fuel: nat, a': Proc)
    requires rounds > 0 && fuel > 0 && a.pos < |program| && program[a.pos].Snd?
    requires a' == a.(pos := a.pos + 1, queue := a.queue + [Resolve(program[a.pos].v, a.regs)], sent := a.sent + 1)
    ensures Duet(program, rule, a, b, RunA, progress, rounds, fuel) == Duet(program, rule, a', b, RunA, true, rounds - 1, fuel)
  {
    SendStep(program, a, b.queue, fuel);
    DuetA(program, rule, a, b, progress, rounds, fuel);
  }

  /** A round of b that starts at a snd: b sends once and keeps the turn. */
  lemma SendB(program: seq<Instruction>, rule: Rule, a: Proc, b: Proc, progress: bool, rounds: nat, fuel: nat, b': Proc)
    requires rounds > 0 && fuel > 0 && b.pos < |program| && program[b.pos].Snd?
    requires b' == b.(pos := b.pos + 1, queue := b.queue + [Resolve(program[b.pos].v, b.regs)], sent := b.sent + 1)
    ensures Duet(program, rule, a, b, RunB, progress, rounds, fuel) == Duet(program, rule, a, b', RunB, true, rounds - 1, fuel)
  {
    SendStep(program, b, a.queue, fuel);
    DuetB(program, rule, a, b, progress, rounds, fuel);
  }

  /** A round of a that starts at a rcv of a register with b's queue non-empty: a takes its front. */
  lemma TakeA(program: seq<Instruction>, rule: Rule, a: Proc, b: Proc, progress: bool, rounds: nat, fuel: nat, a': Proc)
    requires rounds > 0 && fuel > 0 && a.pos < |program| && program[a.pos].Rcv? && program[a.pos].v.Register?
    requires b.queue != [] && a' == a.(pos := a.pos + 1, regs := Write(a.regs, program[a.pos].v.index, b.queue[0]))
    ensures Duet(program, rule, a, b, RunA, progress, rounds, fuel) == Duet(program, rule, a', b.(queue := b.queue[1..]), RunA, true, rounds - 1, fuel)
  {
    TakeStep(program, a, b.queue, fuel);
    DuetA(program, rule, a, b, progress, rounds, fuel);
  }

  /** A round of b that starts at a rcv of a register with a's queue non-empty: b takes its front. */
  lemma TakeB(program: seq<Instruction>, rule: Rule, a: Proc, b: Proc, progress: bool, rounds: nat, fuel: nat, b': Proc)
    requires rounds > 0 && fuel > 0 && b.pos < |program| && program[b.pos].Rcv? && program[b.pos].v.Register?
    requires a.queue != [] && b' == b.(pos := b.pos + 1, regs := Write(b.regs, program[b.pos].v.index, a.queue[0]))
    ensures Duet(program, rule, a, b, RunB, progress, rounds, fuel) == Duet(program, rule, a.(queue := a.queue[1..]), b', RunB, true, rounds - 1, fuel)
  {
    TakeStep(program, b, a.queue, fuel);
    DuetB(program, rule, a, b, progress, rounds, fuel);
  }

  /** a waiting with b's queue empty hands the turn to b. */
  lemma WaitA(program: seq<Instruction>, rule: Rule, a: Proc, b: Proc, progress: bool, rounds: nat, fuel: nat)
    requires rounds > 0 && fuel > 0 && a.pos < |program| && program[a.pos].Rcv? && program[a.pos].v.Register?
    requires b.queue == []
    ensures Duet(program, rule, a, b, RunA, progress, rounds, fuel) == Duet(program, rule, a, b, RunB, progress, rounds - 1, fuel)
  {
    WaitingStays(program, a, fuel);
    DuetA(program, rule, a, b, progress, rounds, fuel);
  }

  /** b waiting with a's queue empty ends the round: another one if either progressed, else b's count. */
  lemma WaitB(program: seq<Instruction>, rule: Rule, a: Proc, b: Proc, progress: bool, rounds: nat, fuel: nat)
    requires rounds > 0 && fuel > 0 && b.pos < |program| && program[b.pos].Rcv? && program[b.pos].v.Register?
    requires a.queue == []
    ensures Duet(program, rule, a, b, RunB, progress, rounds, fuel)
      == if progress then Duet(program, rule, a, b, RunA, false, rounds - 1, fuel) else Some(b.sent)
  {
    WaitingStays(program, b, fuel);
    DuetB(program, rule, a, b, progress, rounds, fuel);
  }

  /** a sends 1, 2 and its id 0, then waits at `rcv a`. */
  lemma Example2Sends(program: seq<Instruction>, rule: Rule)
    requires program == ExampleProgram2
    ensures Duet(program, rule, A0, B0, RunA, false, 18, 1) == Duet(program, rule, A3, B0, RunB, true, 14, 1)
  {
    var a2 := A0.(pos := 2, queue := [1, 2], sent := 2);
    Example2SendsTwo(program, rule, a2);
    Example2SendsId(program, rule, a2);
  }

  /** a sends its id 0, then waits at `rcv a`. */
  lemma Example2SendsId(program: seq<Instruction>, rule: Rule, a2: Proc)
    requires program == ExampleProgram2 && a2 == A0.(pos := 2, queue := [1, 2], sent := 2)
    ensures Duet(program, rule, a2, B0, RunA, true, 16, 1) == Duet(program, rule, A3, B0, RunB, true, 14, 1)
  {
    SendA(program, rule, a2, B0, true, 16, 1, A3);
    WaitA(program, rule, A3, B0, true, 15, 1);
  }

  /** a sends 1 and 2. */
  lemma Example2SendsTwo(program: seq<Instruction>, rule: Rule, a2: Proc)
    requires program == ExampleProgram2 && a2 == A0.(pos := 2, queue := [1, 2], sent := 2)
    ensures Duet(program, rule, A0, B0, RunA, false, 18, 1) == Duet(program, rule, a2, B0, RunA, true, 16, 1)
  {
    var a1 := A0.(pos := 1, queue := [1], sent := 1);
    assert Resolve(program[0].v, A0.regs) == 1 && A0.queue + [1] == [1];
    SendA(program, rule, A0, B0, false, 18, 1, a1);
    assert Resolve(program[1].v, a1.regs) == 2 && a1.queue + [2] == [1, 2];
    SendA(program, rule, a1, B0, true, 17, 1, a2);
  }

  /** b sends 1, 2 and its id 1. */
  lemma Example2Replies(program: seq<Instruction>, rule: Rule)
    requires program == ExampleProgram2
    ensures Duet(program, rule, A3, B0, RunB, true, 14, 1) == Duet(program, rule, A3, B3, RunB, true, 11, 1)
  {
    var b1 := B0.(pos := 1, queue := [1], sent := 1);
    var b2 := B0.(pos := 2, queue := [1, 2], sent := 2);
    SendB(program, rule, A3, B0, true, 14, 1, b1);
    SendB(program, rule, A3, b1, true, 13, 1, b2);
    SendB(program, rule, A3, b2, true, 12, 1, B3);
  }

  /** b takes a's three values into a, b and c, then waits at `rcv d`; a takes b's three. */
  lemma Example2Receives(program: seq<Instruction>, rule: Rule)
    requires program == ExampleProgram2
    ensures Duet(program, rule, A3, B3, RunB, true, 11, 1) == Duet(program, rule, A9, B6.(queue := []), RunA, true, 4, 1)
  {
    var b4 := B3.(pos := 4, regs := Zeros[15 := 1][0 := 1]);
    var b5 := B3.(pos := 5, regs := Zeros[15 := 1][0 := 1][1 := 2]);
    TakeB(program, rule, A3, B3, true, 11, 1, b4);
    TakeB(program, rule, A3.(queue := [2, 0]), b4, true, 10, 1, b5);
    TakeB(program, rule, A3.(queue := [0]), b5, true, 9, 1, B6);
    WaitB(program, rule, A3.(queue := []), B6, true, 8, 1);
    var a6 := A3.(queue := []);
    var a7 := a6.(pos := 4, regs := Zeros[15 := 0][0 := 1]);
    var a8 := a6.(pos := 5, regs := Zeros[15 := 0][0 := 1][1 := 2]);
    TakeA(program, rule, a6, B6, false, 7, 1, a7);
    TakeA(program, rule, a7, B6.(queue := [2, 1]), true, 6, 1, a8);
    TakeA(program, rule, a8, B6.(queue := [1]), true, 5, 1, A9);
  }

  /** Both wait: one more round of each finds no progress, and b has sent three values. */
  lemma Example2Stops(program: seq<Instruction>, rule: Rule)
    requires program == ExampleProgram2
    ensures Duet(program, rule, A9, B6.(queue := []), RunA, true, 4, 1) == Some(3)
  {
    var b9 := B6.(queue := []);
    WaitA(program, rule, A9, b9, true, 4, 1);
    WaitB(program, rule, A9, b9, true, 3, 1);
    WaitA(program, rule, A9, b9, false, 2, 1);
    WaitB(program, rule, A9, b9, false, 1, 1);
  }

  /** Each program sends three values, takes the other's three, and both end waiting at `rcv d`. */
  lemma Example2Duet(program: seq<Instruction>, rule: Rule, rounds: nat, fuel: nat)
    requires program == ExampleProgram2 && rounds >= 18 && fuel >= 1
    ensures Duet(program, rule, A0, B0, RunA, false, rounds, fuel) == Some(3)
  {
    Example2Sends(program, rule);
    Example2Replies(program, rule);
    Example2Receives(program, rule);
    Example2Stops(program, rule);
    DuetMore(program, rule, A0, B0, RunA, false, 18, 1, rounds, fuel);
  }
}
