/**
 * The register file of the 2018 "device" (y2018/src/device.rs): six
 * `u32` registers, and the raw four-number instruction the opcodes decode.
 */
module Y2018Registers {

  /** `u32`. */
  type Word = x: nat | x < 0x1_0000_0000

  /** `RawOp`: an opcode number and its three operands. */
  datatype RawOp = RawOp(code: Word, a: Word, b: Word, c: Word)

  /** `Registers`: exactly six of them; indexing beyond the sixth panics. */
  type Regs = s: seq<Word> | |s| == 6 witness [0, 0, 0, 0, 0, 0]

  /** `Registers::default()`. */
  function Zero(): (r: Regs)
    ensures forall i :: 0 <= i < 6 ==> r[i] == 0
  {
    [0, 0, 0, 0, 0, 0]
  }

  /** `Registers::from`: the first six items in order, registers past the last item left 0. */
  function FromItems(items: seq<Word>): (r: Regs)
    ensures forall i :: 0 <= i < |items| && i < 6 ==> r[i] == items[i]
    ensures forall i :: |items| <= i < 6 ==> r[i] == 0
  {
    seq(6, i requires 0 <= i < 6 => if i < |items| then items[i] else 0)
  }

  /** Six items are taken as they are. */
  lemma FromSix(items: seq<Word>)
    requires |items| == 6
    ensures FromItems(items) == items
  {
  }

  /** Items after the sixth are never read. */
  lemma FromIgnoresExtra(items: seq<Word>, more: seq<Word>)
    requires |items| >= 6
    ensures FromItems(items + more) == FromItems(items)
  {
  }

  /** Four items, as in a sample line, leave the last two registers 0. */
  lemma FromFour(items: seq<Word>)
    requires |items| == 4
    ensures FromItems(items) == items + [0, 0]
  {
  }
}
