/**
 * The sixteen register opcodes of the 2018 device
 * (y2018/src/device/op_codes.rs).  Each writes one register, `c`, from
 * registers or immediates named by `a` and `b`.  Arithmetic is on `u32`
 * and wraps (the release-build semantics); a register operand of 6 or
 * more panics, which the contracts turn into a precondition.
 */
module Y2018OpCodes {
  import opened RustInt
  import opened Y2018Registers

  /** The functions the source passes around as `fn(RawOp, &mut Registers)`. */
  datatype Opcode =
    | Addr | Addi | Mulr | Muli | Banr | Bani | Borr | Bori
    | Setr | Seti | Gtir | Gtri | Gtrr | Eqir | Eqri | Eqrr

  /** The opcode reads `a` as a register number. */
  predicate ReadsA(op: Opcode)
  {
    !(op.Seti? || op.Gtir? || op.Eqir?)
  }

  /** The opcode reads `b` as a register number. */
  predicate ReadsB(op: Opcode)
  {
    op.Addr? || op.Mulr? || op.Banr? || op.Borr? || op.Gtir? || op.Gtrr? || op.Eqir? || op.Eqrr?
  }

  /** The register numbers the opcode reads or writes. */
  function Touched(op: Opcode, raw: RawOp): set<nat>
  {
    {raw.c} + (if ReadsA(op) then {raw.a} else {}) + (if ReadsB(op) then {raw.b} else {})
  }

  /** Every register the opcode touches exists: otherwise `Registers` indexing panics. */
  predicate Fits(op: Opcode, raw: RawOp): (ok: bool)
    ensures ok <==> forall r :: r in Touched(op, raw) ==> r < 6
  {
    assert raw.c in Touched(op, raw);
    assert ReadsA(op) ==> raw.a in Touched(op, raw);
    assert ReadsB(op) ==> raw.b in Touched(op, raw);
    raw.c < 6 && (ReadsA(op) ==> raw.a < 6) && (ReadsB(op) ==> raw.b < 6)
  }

  /** `&` and `|` on `u32`. */
  function And(x: Word, y: Word): Word
  {
    ((x as bv32) & (y as bv32)) as nat
  }

  function Or(x: Word, y: Word): Word
  {
    ((x as bv32) | (y as bv32)) as nat
  }

  /** `cond as u32`. */
  function Flag(cond: bool): (w: Word)
    ensures w == 0 || w == 1
  {
    if cond then 1 else 0
  }

  /** The value the opcode writes into register `c`. */
  function Result(op: Opcode, raw: RawOp, r: Regs): Word
    requires Fits(op, raw)
  {
    match op
    case Addr => WrapU32(r[raw.a] as nat + r[raw.b])
    case Addi => WrapU32(r[raw.a] + raw.b)
    case Mulr => WrapU32(r[raw.a] as nat * r[raw.b])
    case Muli => WrapU32(r[raw.a] * raw.b)
    case Banr => And(r[raw.a], r[raw.b])
    case Bani => And(r[raw.a], raw.b)
    case Borr => Or(r[raw.a], r[raw.b])
    case Bori => Or(r[raw.a], raw.b)
    case Setr => r[raw.a]
    case Seti => raw.a
    case Gtir => Flag(raw.a > r[raw.b])
    case Gtri => Flag(r[raw.a] > raw.b)
    case Gtrr => Flag(r[raw.a] > r[raw.b])
    case Eqir => Flag(raw.a == r[raw.b])
    case Eqri => Flag(r[raw.a] == raw.b)
    case Eqrr => Flag(r[raw.a] == r[raw.b])
  }

  /** The registers after the opcode: register c holds the result, every other register is unchanged. */
  function Exec(op: Opcode, raw: RawOp, r: Regs): (t: Regs)
    requires Fits(op, raw)
    ensures t[raw.c] == Result(op, raw, r)
    ensures forall i :: 0 <= i < 6 && i != raw.c ==> t[i] == r[i]
  {
    r[raw.c := Result(op, raw, r)]
  }

  /** Each opcode through `&mut Registers`: one write to register c. */
  method Apply(op: Opcode, raw: RawOp, regs: array<Word>)
    requires regs.Length == 6 && Fits(op, raw)
    modifies regs
    ensures regs[..] == Exec(op, raw, old(regs[..]))
  {
    var v: Word;
    if op.Addr? || op.Addi? || op.Mulr? || op.Muli? || op.Banr? || op.Bani? || op.Borr? || op.Bori? {
      v := Arithmetic(op, raw, regs);
    } else {
      v := Comparison(op, raw, regs);
    }
    regs[raw.c] := v;
  }

  /** The right-hand sides of the arithmetic and bitwise opcodes. */
  method Arithmetic(op: Opcode, raw: RawOp, regs: array<Word>) returns (v: Word)
    requires regs.Length == 6 && Fits(op, raw)
    requires op.Addr? || op.Addi? || op.Mulr? || op.Muli? || op.Banr? || op.Bani? || op.Borr? || op.Bori?
    ensures v == Result(op, raw, regs[..])
  {
    match op {
      case Addr => v := WrapU32(regs[raw.a] as nat + regs[raw.b]);
      case Addi => v := WrapU32(regs[raw.a] + raw.b);
      case Mulr => v := WrapU32(regs[raw.a] as nat * regs[raw.b]);
      case Muli => v := WrapU32(regs[raw.a] * raw.b);
      case Banr => v := And(regs[raw.a], regs[raw.b]);
      case Bani => v := And(regs[raw.a], raw.b);
      case Borr => v := Or(regs[raw.a], regs[raw.b]);
      case Bori => v := Or(regs[raw.a], raw.b);
    }
  }

  /** The right-hand sides of the copies and comparisons. */
  method Comparison(op: Opcode, raw: RawOp, regs: array<Word>) returns (v: Word)
    requires regs.Length == 6 && Fits(op, raw)
    requires !(op.Addr? || op.Addi? || op.Mulr? || op.Muli? || op.Banr? || op.Bani? || op.Borr? || op.Bori?)
    ensures v == Result(op, raw, regs[..])
  {
    match op {
      case Setr => v := regs[raw.a];
      case Seti => v := raw.a;
      case Gtir => v := Flag(raw.a > regs[raw.b]);
      case Gtri => v := Flag(regs[raw.a] > raw.b);
      case Gtrr => v := Flag(regs[raw.a] > regs[raw.b]);
      case Eqir => v := Flag(raw.a == regs[raw.b]);
      case Eqri => v := Flag(regs[raw.a] == raw.b);
      case Eqrr => v := Flag(regs[raw.a] == regs[raw.b]);
    }
  }

  // ---------------------------------------------------------------------
  // What the opcodes mean.

  /** The comparisons write exactly 1 when their test holds and 0 otherwise. */
  lemma ComparisonsAreFlags(op: Opcode, raw: RawOp, r: Regs)
    requires Fits(op, raw) && (op.Gtir? || op.Gtri? || op.Gtrr? || op.Eqir? || op.Eqri? || op.Eqrr?)
    ensures Exec(op, raw, r)[raw.c] == 1 <==> Result(op, raw, r) != 0
    ensures Exec(op, raw, r)[raw.c] <= 1
  {
  }
}
