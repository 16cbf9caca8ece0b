/**
 * The 2018 device (y2018/src/device.rs): a program of opcodes with an
 * instruction pointer bound to one register.  `step` copies the pointer
 * into that register, runs the instruction and reads the pointer back,
 * plus one; `load` reads a program listing.
 */
module Y2018Device {
  import opened Wrappers
  import opened RustInt
  import opened Y2018Registers
  import opened Y2018OpCodes

  /** `Instruction`: the opcode `load` chose and the raw numbers it was given. */
  datatype Instruction = Instruction(op: Opcode, inputs: RawOp)

  /** Every register the listing names exists, the pointer's register included: no step can panic. */
  predicate Runnable(ipReg: nat, instructions: seq<Instruction>)
  {
    ipReg < 6 && forall i :: 0 <= i < |instructions| ==> Fits(instructions[i].op, instructions[i].inputs)
  }

  /** The registers after running the instruction at ip: the pointer is written to its register first. */
  function StepRegs(ins: Instruction, ipReg: nat, ip: nat, r: Regs): Regs
    requires ipReg < 6 && Fits(ins.op, ins.inputs)
  {
    Exec(ins.op, ins.inputs, r[ipReg := WrapU32(ip)])
  }

  class Device {
    var ip: nat
    var ipReg: Word
    var instructions: seq<Instruction>

    /** The device `load` builds: the pointer starts at 0. */
    constructor(ipReg: Word, instructions: seq<Instruction>)
      ensures ip == 0 && this.ipReg == ipReg && this.instructions == instructions
    {
      ip := 0;
      this.ipReg := ipReg;
      this.instructions := instructions;
    }

    /**
     * `step`: false, with nothing changed, once the pointer has left the
     * program; otherwise run the instruction and set the pointer to its
     * register plus one.
     */
    method Step(registers: array<Word>) returns (ran: bool)
      requires registers.Length == 6 && Runnable(ipReg, instructions)
      modifies this, registers
      ensures ipReg == old(ipReg) && instructions == old(instructions)
      ensures ran <==> old(ip) < |instructions|
      ensures !ran ==> ip == old(ip) && registers[..] == old(registers[..])
      ensures ran ==> registers[..] == StepRegs(instructions[old(ip)], ipReg, old(ip), old(registers[..]))
      ensures ran ==> ip == registers[ipReg] as nat + 1
    {
      if ip < |instructions| {
        var instr := instructions[ip];
        registers[ipReg] := WrapU32(ip);
        Apply(instr.op, instr.inputs, registers);
        ip := registers[ipReg];
        ip := ip + 1;
        return true;
      }
      return false;
    }
  }

  /** An instruction that does not write the pointer's register moves on to the next one. */
  lemma StepFallsThrough(ins: Instruction, ipReg: nat, ip: nat, r: Regs)
    requires ipReg < 6 && Fits(ins.op, ins.inputs) && ins.inputs.c != ipReg && ip < U32
    ensures StepRegs(ins, ipReg, ip, r)[ipReg] as nat + 1 == ip + 1
  {
  }

  /** `seti n _ ip` is a jump: the next instruction is n + 1. */
  lemma StepJumps(ins: Instruction, ipReg: nat, ip: nat, r: Regs)
    requires ipReg < 6 && ins.op == Seti && ins.inputs.c == ipReg
    ensures StepRegs(ins, ipReg, ip, r)[ipReg] as nat + 1 == ins.inputs.a + 1
  {
  }

  /** `addr ip k ip` with register k holding 1 skips the next instruction. */
  lemma StepSkips(ins: Instruction, ipReg: nat, ip: nat, r: Regs)
    requires ipReg < 6 && ins.op == Addr && ins.inputs.a == ipReg && ins.inputs.c == ipReg
    requires ins.inputs.b < 6 && ins.inputs.b != ipReg && r[ins.inputs.b] == 1 && ip + 1 < U32
    ensures StepRegs(ins, ipReg, ip, r)[ipReg] as nat + 1 == ip + 2
  {
  }

  // ---------------------------------------------------------------------
  // `load`.

  /** A line of the listing, already split into its fields. */
  datatype Line = IpDirective(reg: Word) | Op(mnemonic: string, a: Word, b: Word, c: Word)

  /** The mnemonics `load` knows, in the order of its table: the index is the code it records. */
  const Mnemonics: seq<string> := ["addi", "addr", "eqir", "eqri", "eqrr", "gtir", "gtri", "gtrr", "muli", "mulr", "seti", "setr", "bani", "bori"]

  /** The opcode the table pairs with each mnemonic. */
  const TableOps: seq<Opcode> := [Addi, Addr, Eqir, Eqri, Eqrr, Gtir, Gtri, Gtrr, Muli, Mulr, Seti, Setr, Bani, Bori]

  /** The opcode's own name. */
  function Name(op: Opcode): string
  {
    match op
    case Addr => "addr" case Addi => "addi" case Mulr => "mulr" case Muli => "muli"
    case Banr => "banr" case Bani => "bani" case Borr => "borr" case Bori => "bori"
    case Setr => "setr" case Seti => "seti" case Gtir => "gtir" case Gtri => "gtri"
    case Gtrr => "gtrr" case Eqir => "eqir" case Eqri => "eqri" case Eqrr => "eqrr"
  }

  /** The table pairs every mnemonic with the opcode of that name, and no opcode twice. */
  lemma TableNamesItsOps()
    ensures |Mnemonics| == |TableOps| == 14
    ensures forall i :: 0 <= i < 14 ==> Name(TableOps[i]) == Mnemonics[i]
    ensures forall i, j :: 0 <= i < j < 14 ==> TableOps[i] != TableOps[j]
  {
  }

  /** The code of a mnemonic: its place in the table. */
  function Code(m: string): (k: Option<nat>)
    ensures k.Some? ==> k.value < 14 && Mnemonics[k.value] == m
    ensures k.None? ==> m !in Mnemonics
  {
    if m == "addi" then Some(0) else if m == "addr" then Some(1)
    else if m == "eqir" then Some(2) else if m == "eqri" then Some(3)
    else if m == "eqrr" then Some(4) else if m == "gtir" then Some(5)
    else if m == "gtri" then Some(6) else if m == "gtrr" then Some(7)
    else if m == "muli" then Some(8) else if m == "mulr" then Some(9)
    else if m == "seti" then Some(10) else if m == "setr" then Some(11)
    else if m == "bani" then Some(12) else if m == "bori" then Some(13)
    else None
  }

  /** The instruction lines of the listing, in order. */
  function OpLines(lines: seq<Line>): (ops: seq<Line>)
    ensures forall i :: 0 <= i < |ops| ==> ops[i].Op?
  {
    if lines == [] then []
    else if lines[|lines| - 1].Op? then OpLines(lines[..|lines| - 1]) + [lines[|lines| - 1]]
    else OpLines(lines[..|lines| - 1])
  }

  /** The register of the last `#ip` line, if any. */
  function LastIp(lines: seq<Line>): Option<Word>
  {
    if lines == [] then None
    else if lines[|lines| - 1].IpDirective? then Some(lines[|lines| - 1].reg)
    else LastIp(lines[..|lines| - 1])
  }

  /** Every instruction line names a mnemonic of the table. */
  predicate Known(ops: seq<Line>)
    requires forall i :: 0 <= i < |ops| ==> ops[i].Op?
  {
    forall i :: 0 <= i < |ops| ==> Code(ops[i].mnemonic).Some?
  }

  /** The instruction `load` makes of a known instruction line. */
  function Assemble(line: Line): Instruction
    requires line.Op? && Code(line.mnemonic).Some?
  {
    var k := Code(line.mnemonic).value;
    Instruction(TableOps[k], RawOp(k, line.a, line.b, line.c))
  }

  /** The loop of `load`: the pointer register and the instructions, or None where it panics. */
  method ParseListing(lines: seq<Line>) returns (r: Option<(Word, seq<Instruction>)>)
    ensures r.Some? <==> LastIp(lines).Some? && Known(OpLines(lines))
    ensures r.Some? ==> r.value.0 == LastIp(lines).value
    ensures r.Some? ==> |r.value.1| == |OpLines(lines)|
    ensures r.Some? ==> forall i :: 0 <= i < |r.value.1| ==> r.value.1[i] == Assemble(OpLines(lines)[i])
  {
    var ipReg: Option<Word> := None;
    var instructions: seq<Instruction> := [];
    for n := 0 to |lines|
      invariant ipReg == LastIp(lines[..n]) && Known(OpLines(lines[..n]))
      invariant |instructions| == |OpLines(lines[..n])|
      invariant forall i :: 0 <= i < |instructions| ==> instructions[i] == Assemble(OpLines(lines[..n])[i])
    {
      assert lines[..n + 1][..n] == lines[..n];
      var line := lines[n];
      if line.IpDirective? {
        ipReg := Some(line.reg);
        continue;
      }
      var code := Code(line.mnemonic);
      if code.None? {
        UnknownStaysUnknown(lines, n);
        return None;
      }
      instructions := instructions + [Instruction(TableOps[code.value], RawOp(code.value, line.a, line.b, line.c))];
    }
    assert lines[..|lines|] == lines;
    if ipReg.None? {
      return None;
    }
    return Some((ipReg.value, instructions));
  }

  /** An unknown mnemonic at line n makes the whole listing unknown. */
  lemma {:induction false} UnknownStaysUnknown(lines: seq<Line>, n: nat)
    requires n < |lines| && lines[n].Op? && Code(lines[n].mnemonic).None?
    ensures !Known(OpLines(lines))
    decreases |lines|
  {
    if n < |lines| - 1 {
      assert lines[..|lines| - 1][n] == lines[n];
      UnknownStaysUnknown(lines[..|lines| - 1], n);
      var p := OpLines(lines[..|lines| - 1]);
      var i :| 0 <= i < |p| && Code(p[i].mnemonic).None?;
      assert OpLines(lines)[i] == p[i];
    } else {
      assert OpLines(lines)[|OpLines(lines)| - 1] == lines[n];
    }
  }

  /** `load`: the device at pointer 0, or None where `load` panics (an unknown mnemonic or no `#ip`). */
  method Load(lines: seq<Line>) returns (d: Option<Device>)
    ensures d.Some? <==> LastIp(lines).Some? && Known(OpLines(lines))
    ensures d.Some? ==> fresh(d.value) && d.value.ip == 0 && d.value.ipReg == LastIp(lines).value
    ensures d.Some? ==> |d.value.instructions| == |OpLines(lines)|
    ensures d.Some? ==> forall i :: 0 <= i < |d.value.instructions| ==> d.value.instructions[i] == Assemble(OpLines(lines)[i])
  {
    var listing := ParseListing(lines);
    if listing.None? {
      return None;
    }
    var device := new Device(listing.value.0, listing.value.1);
    return Some(device);
  }
}
