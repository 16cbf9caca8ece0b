/**
 * The packed, growable bit vector of src/bitvec.rs.
 *
 * The source stores the bits in a small vector of u64 cells; bit k of cell c
 * holds index 64*c + k.  The model keeps the same cells laid out one after the
 * other as a sequence of booleans (64 entries per cell), so that cell c is
 * bits[64*c .. 64*c + 64] and the mask-and-shift operations on one cell become
 * slices of that range.
 */
module BitVectors {

  const BITS_PER_CELL: nat := 64

  function Zeros(n: nat): (z: seq<bool>)
    ensures |z| == n && forall j :: 0 <= j < n ==> !z[j]
  {
    seq(n, _ => false)
  }

  function Max(a: nat, b: nat): nat { if a >= b then a else b }

  /** Bit j of the cells; zero past the last cell. */
  function At(bits: seq<bool>, j: nat): bool
  {
    if j < |bits| then bits[j] else false
  }

  /** Number of set entries of a sequence of bits (a cell's `count_ones`). */
  function Count(s: seq<bool>): nat
  {
    if s == [] then 0 else Count(s[..|s| - 1]) + (if s[|s| - 1] then 1 else 0)
  }

  lemma {:induction false} CountAppend(a: seq<bool>, b: seq<bool>)
    ensures Count(a + b) == Count(a) + Count(b)
    decreases |b|
  {
    if b == [] {
      assert a + b == a;
    } else {
      assert (a + b)[..|a + b| - 1] == a + b[..|b| - 1];
      CountAppend(a, b[..|b| - 1]);
    }
  }

  lemma CountOfZeros(n: nat)
    ensures Count(Zeros(n)) == 0
  {
    if n > 0 {
      assert Zeros(n)[..n - 1] == Zeros(n - 1);
      CountOfZeros(n - 1);
    }
  }

  lemma CountBound(s: seq<bool>)
    ensures Count(s) <= |s|
  {
    if s != [] {
      CountBound(s[..|s| - 1]);
    }
  }

  /** Sum over the cells of the popcount of each cell, as `count_ones` computes it. */
  function CellPopCounts(bits: seq<bool>): nat
    requires |bits| % BITS_PER_CELL == 0
  {
    if bits == [] then 0
    else Count(bits[..BITS_PER_CELL]) + CellPopCounts(bits[BITS_PER_CELL..])
  }

  /** Summing the cells' popcounts counts every set bit exactly once. */
  lemma {:induction false} CellPopCountsIsCount(bits: seq<bool>)
    requires |bits| % BITS_PER_CELL == 0
    ensures CellPopCounts(bits) == Count(bits)
    decreases |bits|
  {
    if bits != [] {
      CellPopCountsIsCount(bits[BITS_PER_CELL..]);
      assert bits == bits[..BITS_PER_CELL] + bits[BITS_PER_CELL..];
      CountAppend(bits[..BITS_PER_CELL], bits[BITS_PER_CELL..]);
    }
  }

  /** Number of clear entries of a sequence of bits. */
  function CountClear(s: seq<bool>): nat
  {
    if s == [] then 0 else CountClear(s[..|s| - 1]) + (if s[|s| - 1] then 0 else 1)
  }

  lemma {:induction false} CountSplit(s: seq<bool>)
    ensures Count(s) + CountClear(s) == |s|
    decreases |s|
  {
    if s != [] {
      CountSplit(s[..|s| - 1]);
    }
  }

  /** The first n bits of the cells, reading zero past the last cell (the `iter` view). */
  function View(bits: seq<bool>, n: nat): (v: seq<bool>)
    ensures |v| == n
  {
    seq(n, j => if 0 <= j then At(bits, j) else false)
  }

  /** Reading past the last cell only adds clear bits. */
  lemma CountViewBeyond(bits: seq<bool>, n: nat)
    requires |bits| <= n
    ensures Count(View(bits, n)) == Count(bits)
  {
    var z := Zeros(n - |bits|);
    assert View(bits, n) == bits + z;
    CountAppend(bits, z);
    CountOfZeros(n - |bits|);
  }

  /** Cutting off clear bits does not change the number of set ones. */
  lemma CountViewPrefix(bits: seq<bool>, n: nat)
    requires n <= |bits|
    requires forall j :: n <= j < |bits| ==> !bits[j]
    ensures Count(View(bits, n)) == Count(bits)
  {
    var z := Zeros(|bits| - n);
    assert bits == View(bits, n) + z;
    CountAppend(View(bits, n), z);
    CountOfZeros(|bits| - n);
  }

  /**
   * When no bit past max_idx is set, `count_ones` counts the set bits among
   * the first len() bits, so `count_zeros` (len minus that) is the number of
   * clear bits among them and cannot underflow.
   */
  lemma CountZerosCountsClearBits(bits: seq<bool>, maxIdx: nat)
    requires forall j :: maxIdx < j < |bits| ==> !bits[j]
    ensures Count(bits) <= maxIdx + 1
    ensures maxIdx + 1 - Count(bits) == CountClear(View(bits, maxIdx + 1))
  {
    var v := View(bits, maxIdx + 1);
    if |bits| <= maxIdx + 1 {
      CountViewBeyond(bits, maxIdx + 1);
    } else {
      CountViewPrefix(bits, maxIdx + 1);
    }
    CountSplit(v);
  }

  /** Number of cells an insertion at index i leaves behind, given n cells whose top bit is `top`. */
  function CellsAfterInsert(n: nat, i: nat, top: bool): nat
  {
    if i / BITS_PER_CELL >= n then i / BITS_PER_CELL + 1
    else if top then n + 1
    else n
  }

  /**
   * The largest index `make_space_at(i)` hands to the recursive `insert`s
   * that carry bits up into the following cells, if any.
   */
  function CarryIndex(n: nat, i: nat, top: bool): CarryEnd
  {
    if i / BITS_PER_CELL >= n then NoCarry
    else if top then Carry(BITS_PER_CELL * n)
    else if i / BITS_PER_CELL + 1 < n then Carry(BITS_PER_CELL * (n - 1))
    else NoCarry
  }

  /** Where the chain of carries started by an insertion ends, if it starts at all. */
  datatype CarryEnd = NoCarry | Carry(index: nat)

  function MaxWithCarry(m: nat, c: CarryEnd): nat
  {
    if c.Carry? then Max(m, c.index) else m
  }

  /**
   * Bits written by `fill` for the given elements when `cells` cells have
   * been stored: element k at index k, zero up to the end of the last cell.
   */
  function Packed(elems: seq<bool>, cells: nat): (p: seq<bool>)
    ensures |p| == BITS_PER_CELL * cells
  {
    seq(BITS_PER_CELL * cells, j => 0 <= j < |elems| && elems[j])
  }

  /** The bits after the first |p| bits of `bits` have been overwritten by p (growing as needed). */
  function Overlay(bits: seq<bool>, p: seq<bool>): (r: seq<bool>)
    ensures |r| == Max(|bits|, |p|)
    ensures forall j :: 0 <= j < |p| ==> r[j] == p[j]
    ensures forall j :: |p| <= j < |bits| ==> r[j] == bits[j]
  {
    if |bits| >= |p| then p + bits[|p|..] else p
  }

  /** Cells `fill` stores as written: the final cell is skipped when the last element opened it. */
  function CellsFilledAsWritten(len: nat): nat
  {
    if len == 0 then 0
    else if (len - 1) % BITS_PER_CELL == 0 && len > 1 then (len - 1) / BITS_PER_CELL
    else (len - 1) / BITS_PER_CELL + 1
  }

  /** Cells `fill` is meant to store: every cell holding at least one element. */
  function CellsFilled(len: nat): nat
  {
    if len == 0 then 0 else (len - 1) / BITS_PER_CELL + 1
  }

  /** The corrected fill stores every element at its own index. */
  lemma FillKeepsEveryElement(bits: seq<bool>, elems: seq<bool>)
    ensures var r := Overlay(bits, Packed(elems, CellsFilled(|elems|)));
      |r| >= |elems| && forall j :: 0 <= j < |elems| ==> r[j] == elems[j]
  {
    var w := CellsFilled(|elems|);
    if |elems| > 0 {
      assert BITS_PER_CELL * w >= |elems| by {
        var q := (|elems| - 1) / BITS_PER_CELL;
        assert |elems| - 1 == BITS_PER_CELL * q + (|elems| - 1) % BITS_PER_CELL;
      }
    }
  }

  /**
   * As written, filling a fresh vector with 65 set bits loses the last one:
   * bit 64 lies in a second cell, which is never stored.
   */
  lemma FillAsWrittenDropsLastElement()
    ensures var elems := seq(65, _ => true);
      var r := Overlay(Zeros(BITS_PER_CELL), Packed(elems, CellsFilledAsWritten(|elems|)));
      elems[64] && |r| == 64
  {
  }

  /** Cell c of the packed elements, holding only the elements below `upto`. */
  function CellOf(elems: seq<bool>, c: nat, upto: nat): (cell: seq<bool>)
    ensures |cell| == BITS_PER_CELL
  {
    seq(BITS_PER_CELL, k => 0 <= k && BITS_PER_CELL * c + k < upto && BITS_PER_CELL * c + k < |elems| && elems[BITS_PER_CELL * c + k])
  }

  /** The cells after cell c has been overwritten by `cell`, pushing zero cells first if needed. */
  function WriteCell(bits: seq<bool>, c: nat, cell: seq<bool>): (r: seq<bool>)
    requires |bits| % BITS_PER_CELL == 0 && |cell| == BITS_PER_CELL
    ensures |r| == Max(|bits|, BITS_PER_CELL * (c + 1)) && |r| % BITS_PER_CELL == 0
  {
    var g := if |bits| >= BITS_PER_CELL * (c + 1) then bits else bits + Zeros(BITS_PER_CELL * (c + 1) - |bits|);
    g[..BITS_PER_CELL * c] + cell + g[BITS_PER_CELL * c + BITS_PER_CELL..]
  }

  /** Storing the next complete cell extends the packed prefix by one cell. */
  lemma StoreNextCell(bits: seq<bool>, elems: seq<bool>, c: nat, upto: nat)
    requires |bits| % BITS_PER_CELL == 0
    requires upto >= BITS_PER_CELL * c + BITS_PER_CELL || upto >= |elems|
    ensures |Overlay(bits, Packed(elems, c))| % BITS_PER_CELL == 0
    ensures WriteCell(Overlay(bits, Packed(elems, c)), c, CellOf(elems, c, upto)) == Overlay(bits, Packed(elems, c + 1))
  {
    var o := Overlay(bits, Packed(elems, c));
    var w := WriteCell(o, c, CellOf(elems, c, upto));
    var t := Overlay(bits, Packed(elems, c + 1));
    assert |w| == |t|;
    forall j | 0 <= j < |w|
      ensures w[j] == t[j]
    {
      if j < BITS_PER_CELL * c {
      } else if j < BITS_PER_CELL * c + BITS_PER_CELL {
        assert w[j] == CellOf(elems, c, upto)[j - BITS_PER_CELL * c];
      } else {
      }
    }
  }

  /** Adding element idx to the cell being packed. */
  lemma PackOneMore(elems: seq<bool>, c: nat, idx: nat)
    requires BITS_PER_CELL * c <= idx < BITS_PER_CELL * c + BITS_PER_CELL && idx < |elems|
    ensures CellOf(elems, c, idx)[idx % BITS_PER_CELL := elems[idx]] == CellOf(elems, c, idx + 1)
  {
    assert idx % BITS_PER_CELL == idx - BITS_PER_CELL * c;
  }

  /**
   * `(left << 1) | right` on the cell holding index i: the bits of the cell
   * below i stay, the ones from i up move one place towards the top and the
   * top bit of the cell falls out.
   */
  function ShiftCellUp(bits: seq<bool>, i: nat): (r: seq<bool>)
    requires |bits| >= BITS_PER_CELL * (i / BITS_PER_CELL) + BITS_PER_CELL
    ensures |r| == |bits|
  {
    var start := BITS_PER_CELL * (i / BITS_PER_CELL);
    bits[..i] + [false] + bits[i..start + BITS_PER_CELL - 1] + bits[start + BITS_PER_CELL..]
  }

  lemma ShiftCellUpAt(bits: seq<bool>, i: nat, j: nat)
    requires |bits| >= BITS_PER_CELL * (i / BITS_PER_CELL) + BITS_PER_CELL
    ensures var start := BITS_PER_CELL * (i / BITS_PER_CELL);
      At(ShiftCellUp(bits, i), j) ==
        if j < i then At(bits, j) else if j == i then false
        else if j < start + BITS_PER_CELL then At(bits, j - 1) else At(bits, j)
  {
    var start := BITS_PER_CELL * (i / BITS_PER_CELL);
    var r := ShiftCellUp(bits, i);
    if j < i {
      assert r[j] == bits[j];
    } else if j == i {
    } else if j < start + BITS_PER_CELL {
      assert r[j] == bits[j - 1];
    } else if j < |bits| {
      assert r[j] == bits[j];
    }
  }

  /**
   * Carrying the cell's top bit into the rest of the vector (b0 to b1), then
   * growing the cells (b1 to b2, which reads the same) and shifting the cell,
   * moves every bit from index i up by one.
   */
  lemma MakeSpaceComposed(b0: seq<bool>, b1: seq<bool>, b2: seq<bool>, i: nat)
    requires |b2| >= BITS_PER_CELL * (i / BITS_PER_CELL) + BITS_PER_CELL
    requires forall j: nat :: At(b2, j) == At(b1, j)
    requires forall j: nat {:trigger At(b1, j)} ::
               At(b1, j) == if j < BITS_PER_CELL * (i / BITS_PER_CELL) + BITS_PER_CELL then At(b0, j) else At(b0, j - 1)
    ensures forall j: nat {:trigger At(ShiftCellUp(b2, i), j)} ::
              At(ShiftCellUp(b2, i), j) == if j < i then At(b0, j) else if j == i then false else At(b0, j - 1)
  {
    assert i < BITS_PER_CELL * (i / BITS_PER_CELL) + BITS_PER_CELL;
    forall j: nat {:trigger At(ShiftCellUp(b2, i), j)}
      ensures At(ShiftCellUp(b2, i), j) == if j < i then At(b0, j) else if j == i then false else At(b0, j - 1)
    {
      ShiftCellUpAt(b2, i, j);
      var start := BITS_PER_CELL * (i / BITS_PER_CELL);
      assert At(b2, j) == At(b1, j);
      if j < i {
        assert At(b1, j) == At(b0, j);
      } else if j == i {
      } else if j < start + BITS_PER_CELL {
        assert At(b2, j - 1) == At(b1, j - 1);
        assert At(b1, j - 1) == At(b0, j - 1);
      } else {
        assert At(b1, j) == At(b0, j - 1);
      }
    }
  }

  class BitVec {
    /** The cells, 64 bits each, in order. */
    var bits: seq<bool>
    var maxIdx: nat

    /** The flat sequence is whole cells: bit k of cell c sits at index 64c + k. */
    ghost predicate Valid()
      reads this
      ensures Valid() ==> |bits| == BITS_PER_CELL * CellCount()
    {
      |bits| % BITS_PER_CELL == 0
    }

    function CellCount(): nat
      reads this
    {
      |bits| / BITS_PER_CELL
    }

    /** `new`: a single zero cell. */
    constructor New()
      ensures Valid() && bits == Zeros(BITS_PER_CELL) && maxIdx == 0
    {
      bits := Zeros(BITS_PER_CELL);
      maxIdx := 0;
    }

    /** `with_capacity(n)`: n/64 zero cells (none at all for n < 64). */
    constructor WithCapacity(n: nat)
      ensures Valid() && bits == Zeros(n / BITS_PER_CELL * BITS_PER_CELL) && maxIdx == 0
      ensures Capacity() == n / BITS_PER_CELL * BITS_PER_CELL && Capacity() <= n
    {
      bits := Zeros(n / BITS_PER_CELL * BITS_PER_CELL);
      maxIdx := 0;
    }

    /** `get`: bits past the allocated cells read as false; never fails. */
    function Get(i: nat): (b: bool)
      reads this
      ensures b ==> i < Capacity()
      ensures i < |bits| ==> b == bits[i]
    {
      At(bits, i)
    }

    /** Bit 63 of the last cell (false when there is no cell). */
    function TopBit(): bool
      reads this
    {
      |bits| > 0 && bits[|bits| - 1]
    }

    function Len(): (n: nat)
      reads this
      ensures n == maxIdx + 1 && n > 0
    {
      maxIdx + 1
    }

    function Capacity(): (n: nat)
      reads this
      ensures n == CellCount() * BITS_PER_CELL || !Valid()
    {
      |bits|
    }

    /** `count_ones`: the popcount of every cell, summed; it counts all set bits. */
    function CountOnes(): (n: nat)
      reads this
      requires Valid()
      ensures n == Count(bits) && n <= Capacity()
    {
      CellPopCountsIsCount(bits);
      CountBound(bits);
      CellPopCounts(bits)
    }

    /**
     * `count_zeros`: len() minus count_ones.  The subtraction is on usize in
     * the source; it is modelled on int, so it is negative exactly when the
     * usize subtraction would underflow.
     */
    function CountZeros(): (n: int)
      reads this
      requires Valid()
      ensures n == Len() - Count(bits)
    {
      Len() - CountOnes()
    }

    /** `get_cell_idx_mut`: pushes zero cells until cell `index` exists. */
    method GrowTo(index: nat)
      modifies this
      requires Valid()
      ensures Valid() && maxIdx == old(maxIdx)
      ensures |bits| == BITS_PER_CELL * Max(old(CellCount()), index + 1)
      ensures bits[..|old(bits)|] == old(bits)
      ensures forall j :: |old(bits)| <= j < |bits| ==> !bits[j]
    {
      while index >= |bits| / BITS_PER_CELL
        invariant Valid() && maxIdx == old(maxIdx)
        invariant |bits| == BITS_PER_CELL * Max(old(CellCount()), |bits| / BITS_PER_CELL)
        invariant |bits| / BITS_PER_CELL <= Max(old(CellCount()), index + 1)
        invariant |bits| >= |old(bits)| && bits[..|old(bits)|] == old(bits)
        invariant forall j :: |old(bits)| <= j < |bits| ==> !bits[j]
        decreases index + 1 - |bits| / BITS_PER_CELL
      {
        bits := bits + Zeros(BITS_PER_CELL);
      }
    }

    /** `set`: grows the cells as needed, records the index, then writes the bit. */
    method Set(i: nat, v: bool)
      modifies this
      requires Valid()
      ensures Valid()
      ensures maxIdx == Max(i, old(maxIdx))
      ensures CellCount() == Max(old(CellCount()), i / BITS_PER_CELL + 1)
      ensures Get(i) == v
      ensures forall j: nat :: j != i ==> Get(j) == old(Get(j))
    {
      maxIdx := Max(i, maxIdx);
      GrowTo(i / BITS_PER_CELL);
      bits := bits[i := v];
    }

    /**
     * `make_space_at`: shifts every bit at index >= i up by one, carrying the
     * top bit of each cell into the next cell through a recursive `insert`.
     * The carry goes on while a cell's top bit is set or a further cell exists.
     */
    method MakeSpaceAt(i: nat)
      modifies this
      requires Valid()
      ensures Valid()
      ensures forall j: nat :: Get(j) == if j < i then old(Get(j)) else if j == i then false else old(Get(j - 1))
      ensures CellCount() == CellsAfterInsert(old(CellCount()), i, old(TopBit()))
      ensures maxIdx == MaxWithCarry(old(maxIdx), CarryIndex(old(CellCount()), i, old(TopBit())))
      decreases if i / BITS_PER_CELL <= CellCount() then CellCount() + 1 - i / BITS_PER_CELL else 0, 0
    {
      var bit := i % BITS_PER_CELL;
      var cellIdx := i / BITS_PER_CELL;
      var n := CellCount();
      var lastBitInCell := Get(cellIdx * BITS_PER_CELL + (BITS_PER_CELL - 1));
      ghost var b0 := bits;
      var start := BITS_PER_CELL * cellIdx;
      if lastBitInCell || cellIdx + 2 <= n {
        var lastIdx := i - bit + (BITS_PER_CELL - 1);
        assert lastIdx + 1 == start + BITS_PER_CELL;
        Insert(lastIdx + 1, lastBitInCell);
        forall j: nat {:trigger At(bits, j)}
          ensures At(bits, j) == if j < start + BITS_PER_CELL then At(b0, j) else At(b0, j - 1)
        {
          assert Get(j) == if j < lastIdx + 1 then At(b0, j) else if j == lastIdx + 1 then lastBitInCell else At(b0, j - 1);
        }
      } else {
        assert |b0| == BITS_PER_CELL * n && |b0| <= start + BITS_PER_CELL;
        assert !At(b0, start + BITS_PER_CELL - 1);
        forall j: nat | j >= start + BITS_PER_CELL
          ensures At(b0, j) == At(b0, j - 1)
        {
        }
      }
      ghost var b1 := bits;
      GrowTo(cellIdx);
      ghost var b2 := bits;
      assert forall j: nat :: At(b2, j) == At(b1, j);
      // The bits of the cell below `bit` stay; the ones from `bit` up move one place left.
      bits := ShiftCellUp(bits, i);
      MakeSpaceComposed(b0, b1, b2, i);
    }

    /** `insert`: make room at i, then set it. */
    method Insert(i: nat, v: bool)
      modifies this
      requires Valid()
      ensures Valid()
      ensures forall j: nat :: Get(j) == if j < i then old(Get(j)) else if j == i then v else old(Get(j - 1))
      ensures CellCount() == CellsAfterInsert(old(CellCount()), i, old(TopBit()))
      ensures maxIdx == Max(i, MaxWithCarry(old(maxIdx), CarryIndex(old(CellCount()), i, old(TopBit()))))
      decreases if i / BITS_PER_CELL <= CellCount() then CellCount() + 1 - i / BITS_PER_CELL else 0, 1
    {
      MakeSpaceAt(i);
      Set(i, v);
    }

    /**
     * One round of `fill`'s loop: when element idx opens a new cell, the
     * finished cell is stored; then element idx goes into the open cell.
     */
    method PackElement(ghost start: seq<bool>, elems: seq<bool>, cellIdx: nat, value: seq<bool>, idx: nat)
      returns (nextIdx: nat, nextValue: seq<bool>)
      modifies this
      requires Valid() && |start| % BITS_PER_CELL == 0 && idx < |elems|
      requires cellIdx == if idx == 0 then 0 else (idx - 1) / BITS_PER_CELL
      requires bits == Overlay(start, Packed(elems, cellIdx))
      requires value == CellOf(elems, cellIdx, idx)
      ensures Valid() && maxIdx == idx
      ensures nextIdx == idx / BITS_PER_CELL
      ensures bits == Overlay(start, Packed(elems, nextIdx))
      ensures nextValue == CellOf(elems, nextIdx, idx + 1)
    {
      nextIdx, nextValue := cellIdx, value;
      if idx / BITS_PER_CELL != cellIdx {
        StoreNextCell(start, elems, cellIdx, idx);
        StoreCell(cellIdx, value);
        nextIdx := cellIdx + 1;
        nextValue := Zeros(BITS_PER_CELL);
        assert nextValue == CellOf(elems, nextIdx, idx);
      }
      PackOneMore(elems, nextIdx, idx);
      nextValue := nextValue[idx % BITS_PER_CELL := elems[idx]];
      maxIdx := idx;
    }

    /** `fill` exactly as written: the cell opened by the last element can be left unstored. */
    method FillAsWritten(elems: seq<bool>)
      modifies this
      requires Valid()
      ensures Valid()
      ensures bits == Overlay(old(bits), Packed(elems, CellsFilledAsWritten(|elems|)))
      ensures maxIdx == if elems == [] then old(maxIdx) else |elems| - 1
    {
      var cellIdx := 0;
      var value := Zeros(BITS_PER_CELL);
      var cleared := true;
      for idx := 0 to |elems|
        invariant Valid()
        invariant cellIdx == if idx == 0 then 0 else (idx - 1) / BITS_PER_CELL
        invariant bits == Overlay(old(bits), Packed(elems, cellIdx))
        invariant value == CellOf(elems, cellIdx, idx)
        invariant cleared == if idx == 0 then true else (idx - 1) % BITS_PER_CELL == 0 && idx > 1
        invariant maxIdx == if idx == 0 then old(maxIdx) else idx - 1
      {
        cleared := idx / BITS_PER_CELL != cellIdx;
        cellIdx, value := PackElement(old(bits), elems, cellIdx, value, idx);
      }
      if !cleared {
        StoreNextCell(old(bits), elems, cellIdx, |elems|);
        StoreCell(cellIdx, value);
      }
    }

    /** The corrected `fill`: the final cell is stored whenever any element was seen. */
    method Fill(elems: seq<bool>)
      modifies this
      requires Valid()
      ensures Valid()
      ensures bits == Overlay(old(bits), Packed(elems, CellsFilled(|elems|)))
      ensures forall j :: 0 <= j < |elems| ==> Get(j) == elems[j]
      ensures maxIdx == if elems == [] then old(maxIdx) else |elems| - 1
    {
      var cellIdx := 0;
      var value := Zeros(BITS_PER_CELL);
      for idx := 0 to |elems|
        invariant Valid()
        invariant cellIdx == if idx == 0 then 0 else (idx - 1) / BITS_PER_CELL
        invariant bits == Overlay(old(bits), Packed(elems, cellIdx))
        invariant value == CellOf(elems, cellIdx, idx)
        invariant maxIdx == if idx == 0 then old(maxIdx) else idx - 1
      {
        cellIdx, value := PackElement(old(bits), elems, cellIdx, value, idx);
      }
      if elems != [] {
        StoreNextCell(old(bits), elems, cellIdx, |elems|);
        StoreCell(cellIdx, value);
        cellIdx := cellIdx + 1;
      }
      assert cellIdx == CellsFilled(|elems|);
      FillKeepsEveryElement(old(bits), elems);
      forall j | 0 <= j < |elems|
        ensures Get(j) == elems[j]
      {
        assert j < |bits|;
      }
    }

    /** Writes one whole cell, the store `fill` does through `get_cell_idx_mut`. */
    method StoreCell(c: nat, cell: seq<bool>)
      modifies this
      requires Valid() && |cell| == BITS_PER_CELL
      ensures Valid() && maxIdx == old(maxIdx)
      ensures bits == WriteCell(old(bits), c, cell)
    {
      GrowTo(c);
      ghost var g := if |old(bits)| >= BITS_PER_CELL * (c + 1) then old(bits)
        else old(bits) + Zeros(BITS_PER_CELL * (c + 1) - |old(bits)|);
      assert bits == g;
      var start := BITS_PER_CELL * c;
      bits := bits[..start] + cell + bits[start + BITS_PER_CELL..];
    }

    /** `clear`: zeroes every cell without dropping any. */
    method Clear()
      modifies this
      requires Valid()
      ensures Valid() && |bits| == |old(bits)| && maxIdx == old(maxIdx)
      ensures forall j: nat :: !Get(j)
      ensures CountOnes() == 0
    {
      var n := CellCount();
      for c := 0 to n
        invariant |bits| == |old(bits)| && Valid() && maxIdx == old(maxIdx)
        invariant forall j :: 0 <= j < BITS_PER_CELL * c ==> !bits[j]
      {
        var start := BITS_PER_CELL * c;
        bits := bits[..start] + Zeros(BITS_PER_CELL) + bits[start + BITS_PER_CELL..];
      }
      assert bits == Zeros(|bits|);
      CountOfZeros(|bits|);
    }
  }

  /** A sequence whose first two entries are set counts at least two. */
  lemma CountFirstTwo(s: seq<bool>)
    requires |s| >= 2 && s[0] && s[1]
    ensures Count(s) >= 2
  {
    assert s == s[..2] + s[2..];
    CountAppend(s[..2], s[2..]);
    assert s[..2][..1] == [s[0]];
  }

  /**
   * `insert` shifts bits up without growing `len()`: setting bit 0 and then
   * inserting a set bit at 0 leaves two set bits in a vector of length one,
   * where the `usize` subtraction of `count_zeros` underflows.
   */
  method InsertOutgrowsLen() returns (zeros: int)
    ensures zeros < 0
  {
    var v := new BitVec.New();
    assert !v.Get(BITS_PER_CELL - 1);
    v.Set(0, true);
    assert |v.bits| == BITS_PER_CELL && !v.Get(BITS_PER_CELL - 1);
    assert !v.TopBit();
    v.Insert(0, true);
    assert v.maxIdx == 0;
    assert v.Get(0) && v.Get(1);
    CountFirstTwo(v.bits);
    zeros := v.CountZeros();
  }
}
