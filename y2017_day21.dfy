/**
 * 2017 day 21 (src/bin/y2017/day21.rs): fractal art.  A square picture of
 * on/off pixels is kept row-major in the file's own small bit vector, a
 * sequence of 64-bit cells; here the cells are one sequence of booleans,
 * entry j being bit j % 64 of cell j / 64.  A `Grid` is such a vector and a
 * side length.  One `step` cuts the picture into n x n blocks, looks each
 * block up among the enhancement rules under the eight rotations and
 * flips, widens the picture by one pixel per block and writes the rules'
 * (n+1) x (n+1) outputs into it.
 */
module Y2017Day21 {
  import opened Wrappers
  import opened Strings
  import B = BitVectors
  import M = Matrices

  // ---------------------------------------------------------------------
  // The file's bit vector (lines 12-73), on values.

  /** The bits after `get_cell_mut(i)`: zero cells pushed until bit i's cell exists. */
  function Grown(bits: seq<bool>, i: nat): (r: seq<bool>)
    ensures |r| == B.Max(|bits|, 64 * (i / 64 + 1))
    ensures |bits| % 64 == 0 ==> |r| % 64 == 0
    ensures forall j :: B.At(r, j) == B.At(bits, j)
  {
    if |bits| >= 64 * (i / 64 + 1) then bits else bits + B.Zeros(64 * (i / 64 + 1) - |bits|)
  }

  /** `set(i, v)`: bit i becomes v, the vector growing to bit i's cell. */
  function SetBit(bits: seq<bool>, i: nat, v: bool): (r: seq<bool>)
    ensures |r| == B.Max(|bits|, 64 * (i / 64 + 1))
    ensures |bits| % 64 == 0 ==> |r| % 64 == 0
    ensures forall j :: B.At(r, j) == if j == i then v else B.At(bits, j)
  {
    Grown(bits, i)[i := v]
  }

  /**
   * The first cell from c on whose top bit is clear: how far the carry of
   * `make_space_at` runs.  A cell past the end has a clear top bit.
   */
  function ChainEnd(bits: seq<bool>, c: nat): (k: nat)
    ensures c <= k
    decreases |bits| - 64 * c
  {
    if B.At(bits, 64 * c + 63) then ChainEnd(bits, c + 1) else c
  }

  /** The measure `make_space_at` and `insert` recurse on. */
  function Room(bits: seq<bool>, i: nat): nat
  {
    if 64 * (i / 64) <= |bits| then |bits| - 64 * (i / 64) else 0
  }

  /** The top bit of i's cell, as `make_space_at` computes it, and the cell after it. */
  lemma CellTop(bits: seq<bool>, i: nat)
    ensures (i / 64 + 1) * 64 - 1 == 64 * (i / 64) + 63
    ensures (64 * (i / 64) + 64) / 64 == i / 64 + 1
    ensures B.At(bits, 64 * (i / 64) + 63) ==> Room(bits, 64 * (i / 64) + 64) < Room(bits, i)
  {
  }

  /**
   * `make_space_at(i)` as written: when the top bit of i's cell is set it is
   * first inserted at the start of the next cell; then the bits of i's cell
   * from i up move one place up, the top one falling out, and bit i is clear.
   */
  function MakeSpaced(bits: seq<bool>, i: nat): (r: seq<bool>)
    ensures |bits| <= |r| && (|bits| % 64 == 0 ==> |r| % 64 == 0)
    decreases Room(bits, i), 1
  {
    B.ShiftCellUp(Grown(Carried(bits, i), i), i)
  }

  /**
   * The carry of `make_space_at(i)`: when the top bit of i's cell, bit
   * (i / 64 + 1) * 64 - 1, is set, it is inserted at the start of the next cell.
   */
  function Carried(bits: seq<bool>, i: nat): (r: seq<bool>)
    ensures |bits| <= |r| && (|bits| % 64 == 0 ==> |r| % 64 == 0)
    decreases Room(bits, i), 0
  {
    if B.At(bits, 64 * (i / 64) + 63) then Inserted(bits, 64 * (i / 64) + 64, true) else bits
  }

  /** `insert(i, v)`: make_space_at(i), then set(i, v). */
  function Inserted(bits: seq<bool>, i: nat, v: bool): (r: seq<bool>)
    ensures |bits| <= |r| && (|bits| % 64 == 0 ==> |r| % 64 == 0)
    decreases Room(bits, i), 2
  {
    SetBit(MakeSpaced(bits, i), i, v)
  }

  /**
   * Bit j after opening a gap at bit i that is then filled with v, when the
   * carry stops in cell e: bits below i stay, the bits from i up to the top
   * of cell e come from one place lower, every later bit stays.
   */
  function Shifted(bits: seq<bool>, i: nat, v: bool, e: nat, j: nat): bool
  {
    if j < i then B.At(bits, j) else if j == i then v
    else if j < 64 * (e + 1) then B.At(bits, j - 1) else B.At(bits, j)
  }

  /** The last step of `make_space_at`: the shift within bit i's cell, read through `At`. */
  lemma ShiftAt(carried: seq<bool>, i: nat, j: nat)
    ensures B.At(B.ShiftCellUp(Grown(carried, i), i), j) == Shifted(carried, i, false, i / 64, j)
  {
    B.ShiftCellUpAt(Grown(carried, i), i, j);
  }

  /** With the top bit carried into the next cell first, the shift reaches as far as that carry did. */
  lemma ShiftedCarry(bits: seq<bool>, carried: seq<bool>, i: nat, c: nat, e: nat, j: nat)
    requires c == i / 64 && B.At(bits, 64 * c + 63) && c + 1 <= e
    requires B.At(carried, j) == Shifted(bits, 64 * c + 64, true, e, j)
    requires j > 0 ==> B.At(carried, j - 1) == Shifted(bits, 64 * c + 64, true, e, j - 1)
    ensures Shifted(carried, i, false, c, j) == Shifted(bits, i, false, e, j)
  {
  }

  lemma ChainCarries(bits: seq<bool>, c: nat)
    requires B.At(bits, 64 * c + 63)
    ensures ChainEnd(bits, c) == ChainEnd(bits, c + 1)
  {
  }

  /**
   * What `make_space_at(i)` leaves at bit j: bit i is clear and the bits up
   * to the top of the cell where the carry stops move up by one.
   */
  lemma {:induction false} MakeSpacedAt(bits: seq<bool>, i: nat, j: nat)
    ensures B.At(MakeSpaced(bits, i), j) == Shifted(bits, i, false, ChainEnd(bits, i / 64), j)
    decreases Room(bits, i), 1
  {
    var c := i / 64;
    ShiftAt(Carried(bits, i), i, j);
    if B.At(bits, 64 * c + 63) {
      CellTop(bits, i);
      var carried := Inserted(bits, 64 * c + 64, true);
      assert Carried(bits, i) == carried;
      if j > 0 {
        CarriedAt(bits, c, j - 1);
      }
      CarriedAt(bits, c, j);
      ChainCarries(bits, c);
      ShiftedCarry(bits, carried, i, c, ChainEnd(bits, c + 1), j);
    }
  }

  /** The carry of `make_space_at`: the top bit of cell c inserted at the start of cell c + 1. */
  lemma {:induction false} CarriedAt(bits: seq<bool>, c: nat, j: nat)
    ensures B.At(Inserted(bits, 64 * c + 64, true), j) == Shifted(bits, 64 * c + 64, true, ChainEnd(bits, c + 1), j)
    decreases Room(bits, 64 * c + 64), 3
  {
    assert (64 * c + 64) / 64 == c + 1;
    InsertedAt(bits, 64 * c + 64, true, j);
  }

  /** What `insert(i, v)` leaves at bit j: as make_space_at, with v at bit i. */
  lemma {:induction false} InsertedAt(bits: seq<bool>, i: nat, v: bool, j: nat)
    ensures B.At(Inserted(bits, i, v), j) == Shifted(bits, i, v, ChainEnd(bits, i / 64), j)
    decreases Room(bits, i), 2
  {
    MakeSpacedAt(bits, i, j);
  }

  /** Inserting a clear bit keeps a vector clear from bit L on clear from bit L + 1 on. */
  lemma InsertedClearAbove(bits: seq<bool>, i: nat, L: nat, j: nat)
    requires forall k: nat :: L <= k ==> !B.At(bits, k)
    requires L + 1 <= j
    ensures !B.At(Inserted(bits, i, false), j)
  {
    InsertedAt(bits, i, false, j);
    assert L <= j - 1;
  }

  /**
   * `make_space_at` moves the later cells only while top bits carry: with
   * the top bit of cell 0 clear, inserting at bit 0 leaves bit 64 where it
   * is instead of moving it to bit 65, as an insert into the whole vector
   * (BitVectors.BitVec.Insert) does.
   */
  lemma InsertLeavesLaterCells()
    ensures var bits := B.Zeros(64) + [true] + B.Zeros(63);
      B.At(bits, 64) && !B.At(bits, 63) &&
      B.At(Inserted(bits, 0, false), 64) && !B.At(Inserted(bits, 0, false), 65)
  {
    var bits := B.Zeros(64) + [true] + B.Zeros(63);
    assert !B.At(bits, 63) && B.At(bits, 64) && !B.At(bits, 65);
    assert ChainEnd(bits, 0) == 0;
    InsertedAt(bits, 0, false, 64);
    InsertedAt(bits, 0, false, 65);
  }

  /** Test `bitvec_insert`: bits {0, 2}, insert(1, true) gives bits {0, 1, 3}. */
  lemma InsertExample()
    ensures var r := Inserted(SetBit(SetBit(B.Zeros(64), 0, true), 2, true), 1, true);
      |r| == 64 && forall j: nat :: B.At(r, j) == (j == 0 || j == 1 || j == 3)
  {
    var bits := SetBit(SetBit(B.Zeros(64), 0, true), 2, true);
    assert !B.At(bits, 63);
    assert ChainEnd(bits, 0) == 0;
    var r := Inserted(bits, 1, true);
    forall j: nat
      ensures B.At(r, j) == (j == 0 || j == 1 || j == 3)
    {
      InsertedAt(bits, 1, true, j);
    }
    assert B.At(r, 63) == false;
    assert |MakeSpaced(bits, 1)| == 64;
  }

  /** Test `bitvec_insert_at_end`: bits {0, 2}, insert(63, true) twice gives bits {0, 2, 63, 64}. */
  lemma InsertAtEndExample()
    ensures var r := Inserted(Inserted(SetBit(SetBit(B.Zeros(64), 0, true), 2, true), 63, true), 63, true);
      |r| == 128 && forall j: nat :: B.At(r, j) == (j == 0 || j == 2 || j == 63 || j == 64)
  {
    var bits := SetBit(SetBit(B.Zeros(64), 0, true), 2, true);
    assert !B.At(bits, 63);
    assert ChainEnd(bits, 0) == 0;
    var once := Inserted(bits, 63, true);
    forall j: nat
      ensures B.At(once, j) == (j == 0 || j == 2 || j == 63)
    {
      InsertedAt(bits, 63, true, j);
    }
    assert |MakeSpaced(bits, 63)| == 64;
    assert !B.At(once, 127);
    assert ChainEnd(once, 1) == 1;
    assert ChainEnd(once, 0) == 1;
    var r := Inserted(once, 63, true);
    forall j: nat
      ensures B.At(r, j) == (j == 0 || j == 2 || j == 63 || j == 64)
    {
      InsertedAt(once, 63, true, j);
    }
  }

  /** The file's `BitVec`: bit j of the vector is entry j of `cells`. */
  class BitVec {
    var cells: seq<bool>

    /** Whole cells, at least one. */
    ghost predicate Valid()
      reads this
    {
      |cells| % 64 == 0 && 64 <= |cells|
    }

    /** `BitVec::new`: one clear cell. */
    constructor ()
      ensures Valid() && cells == B.Zeros(64)
    {
      cells := B.Zeros(64);
    }

    /** `clone`. */
    constructor Copy(other: BitVec)
      requires other.Valid()
      ensures Valid() && cells == other.cells
    {
      cells := other.cells;
    }

    /** `get(i)`: bit i, clear past the last cell. */
    function Get(i: nat): bool
      reads this
    {
      B.At(cells, i)
    }

    /** `count_ones`: the cells' popcounts summed, which counts every set bit once. */
    function CountOnes(): (n: nat)
      reads this
      requires Valid()
      ensures n == B.Count(cells)
    {
      B.CellPopCountsIsCount(cells);
      B.CellPopCounts(cells)
    }

    /** `get_cell_mut(i)`: pushes clear cells until bit i's cell exists. */
    method GrowCell(i: nat)
      modifies this
      requires Valid()
      ensures Valid() && cells == Grown(old(cells), i)
    {
      while i / 64 >= |cells| / 64
        invariant Valid() && |old(cells)| <= |cells| <= B.Max(|old(cells)|, 64 * (i / 64 + 1))
        invariant cells == old(cells) + B.Zeros(|cells| - |old(cells)|)
        decreases 64 * (i / 64 + 1) - |cells|
      {
        cells := cells + B.Zeros(64);
      }
      assert |cells| == B.Max(|old(cells)|, 64 * (i / 64 + 1));
    }

    /** `set(i, v)`. */
    method Set(i: nat, v: bool)
      modifies this
      requires Valid()
      ensures Valid() && cells == SetBit(old(cells), i, v)
    {
      GrowCell(i);
      cells := cells[i := v];
    }

    /**
     * `make_space_at(i)`: a set top bit of i's cell is inserted at the
     * start of the next cell, then i's cell is shifted up from bit i (what
     * `(left << 1) | right` computes with the mask of the bits below i).
     */
    method MakeSpaceAt(i: nat)
      modifies this
      requires Valid()
      ensures Valid() && cells == MakeSpaced(old(cells), i)
      decreases Room(cells, i), 1
    {
      ghost var before := cells;
      var last := (i / 64 + 1) * 64 - 1;
      CellTop(cells, i);
      if Get(last) {
        Insert(last + 1, true);
      }
      ghost var carried := cells;
      GrowCell(i);
      cells := B.ShiftCellUp(cells, i);
      assert carried == Carried(before, i);
    }

    /** `insert(i, v)`. */
    method Insert(i: nat, v: bool)
      modifies this
      requires Valid()
      ensures Valid() && cells == Inserted(old(cells), i, v)
      decreases Room(cells, i), 2
    {
      MakeSpaceAt(i);
      Set(i, v);
    }
  }

  // ---------------------------------------------------------------------
  // A run of `set` calls, and which write each bit ends with.

  /** The bits after setting each (index, value) of ws in turn. */
  function Writes(bits: seq<bool>, ws: seq<(nat, bool)>): (r: seq<bool>)
    ensures |bits| <= |r|
  {
    if ws == [] then bits else SetBit(Writes(bits, ws[..|ws| - 1]), ws[|ws| - 1].0, ws[|ws| - 1].1)
  }

  /** The value of the last write to j in ws, or d when nothing writes j. */
  function LastWrite<T>(ws: seq<(nat, T)>, j: nat, d: T): T
  {
    if ws == [] then d
    else if ws[|ws| - 1].0 == j then ws[|ws| - 1].1
    else LastWrite(ws[..|ws| - 1], j, d)
  }

  lemma {:induction false} WritesAt(bits: seq<bool>, ws: seq<(nat, bool)>, j: nat)
    ensures B.At(Writes(bits, ws), j) == LastWrite(ws, j, B.At(bits, j))
  {
    if ws != [] {
      WritesAt(bits, ws[..|ws| - 1], j);
    }
  }

  lemma {:induction false} WritesAppend(bits: seq<bool>, a: seq<(nat, bool)>, b: seq<(nat, bool)>)
    ensures Writes(bits, a + b) == Writes(Writes(bits, a), b)
    decreases |b|
  {
    if b == [] {
      assert a + b == a;
    } else {
      assert (a + b)[..|a + b| - 1] == a + b[..|b| - 1];
      WritesAppend(bits, a, b[..|b| - 1]);
    }
  }

  /** Writes below the first cell's end keep a one-cell vector one cell long. */
  lemma {:induction false} WritesOneCell(bits: seq<bool>, ws: seq<(nat, bool)>)
    requires |bits| == 64
    requires forall k :: 0 <= k < |ws| ==> ws[k].0 < 64
    ensures |Writes(bits, ws)| == 64
  {
    if ws != [] {
      WritesOneCell(bits, ws[..|ws| - 1]);
    }
  }

  lemma {:induction false} LastWriteAppend<T>(a: seq<(nat, T)>, b: seq<(nat, T)>, j: nat, d: T)
    ensures LastWrite(a + b, j, d) == LastWrite(b, j, LastWrite(a, j, d))
    decreases |b|
  {
    if b == [] {
      assert a + b == a;
    } else {
      assert (a + b)[..|a + b| - 1] == a + b[..|b| - 1];
      LastWriteAppend(a, b[..|b| - 1], j, d);
    }
  }

  lemma {:induction false} LastWriteMissing<T>(ws: seq<(nat, T)>, j: nat, d: T)
    requires forall k :: 0 <= k < |ws| ==> ws[k].0 != j
    ensures LastWrite(ws, j, d) == d
  {
    if ws != [] {
      LastWriteMissing(ws[..|ws| - 1], j, d);
    }
  }

  lemma {:induction false} LastWriteOnce<T>(ws: seq<(nat, T)>, k: nat, d: T)
    requires k < |ws|
    requires forall k' :: 0 <= k' < |ws| && k' != k ==> ws[k'].0 != ws[k].0
    ensures LastWrite(ws, ws[k].0, d) == ws[k].1
  {
    if k < |ws| - 1 {
      LastWriteOnce(ws[..|ws| - 1], k, d);
    }
  }

  lemma WritesNext(bits: seq<bool>, done: seq<(nat, bool)>, row: seq<(nat, bool)>, col: nat, j: nat, v: bool)
    requires col < |row| && row[col] == (j, v)
    ensures Writes(bits, done + row[..col + 1]) == SetBit(Writes(bits, done + row[..col]), j, v)
  {
    assert (done + row[..col + 1])[..|done + row[..col + 1]| - 1] == done + row[..col];
  }

  /** The writes of a row-by-row loop: none of row `row` yet, and all of it. */
  lemma FlattenNext<T>(g: seq<seq<T>>, row: nat)
    requires row < |g|
    ensures M.Flatten(g[..row]) + g[row][..0] == M.Flatten(g[..row])
    ensures M.Flatten(g[..row]) + g[row][..|g[row]|] == M.Flatten(g[..row + 1])
  {
    assert g[..row + 1][..row] == g[..row];
    assert g[row][..|g[row]|] == g[row];
    assert M.Flatten(g[..row]) + g[row][..0] == M.Flatten(g[..row]);
  }

  lemma {:induction false} FlatMissing<T>(g: seq<seq<(nat, T)>>, j: nat, d: T)
    requires forall r, c :: 0 <= r < |g| && 0 <= c < |g[r]| ==> g[r][c].0 != j
    ensures LastWrite(M.Flatten(g), j, d) == d
  {
    if g != [] {
      var last := |g| - 1;
      FlatMissing(g[..last], j, d);
      LastWriteAppend(M.Flatten(g[..last]), g[last], j, d);
      LastWriteMissing(g[last], j, d);
    }
  }

  lemma {:induction false} FlatOnce<T>(g: seq<seq<(nat, T)>>, r: nat, c: nat, d: T)
    requires r < |g| && c < |g[r]|
    requires forall r', c' :: 0 <= r' < |g| && 0 <= c' < |g[r']| && (r', c') != (r, c) ==> g[r'][c'].0 != g[r][c].0
    ensures LastWrite(M.Flatten(g), g[r][c].0, d) == g[r][c].1
  {
    var last := |g| - 1;
    var j := g[r][c].0;
    LastWriteAppend(M.Flatten(g[..last]), g[last], j, d);
    if r == last {
      LastWriteOnce(g[last], c, LastWrite(M.Flatten(g[..last]), j, d));
    } else {
      FlatOnce(g[..last], r, c, d);
      LastWriteMissing(g[last], j, LastWrite(M.Flatten(g[..last]), j, d));
    }
  }

  /** Writes all below the first cell's end keep a one-cell vector one cell long. */
  lemma {:induction false} FlatOneCell(bits: seq<bool>, g: seq<seq<(nat, bool)>>)
    requires |bits| == 64
    requires forall r, c :: 0 <= r < |g| && 0 <= c < |g[r]| ==> g[r][c].0 < 64
    ensures |Writes(bits, M.Flatten(g))| == 64
  {
    if g != [] {
      var last := |g| - 1;
      FlatOneCell(bits, g[..last]);
      WritesAppend(bits, M.Flatten(g[..last]), g[last]);
      WritesOneCell(Writes(bits, M.Flatten(g[..last])), g[last]);
    }
  }

  // ---------------------------------------------------------------------
  // Grids as values: what `==` on `Grid` compares, and the picture.

  /** The value of a `Grid`: the derived `PartialEq` compares the cells and the side. */
  datatype Pattern = Pattern(cells: seq<bool>, size: nat)

  /** The picture: pixel (r, c) is bit r*size + c (M.Idx). */
  function Pic(p: Pattern): (g: seq<seq<bool>>)
    ensures M.Shaped(g, p.size, p.size)
  {
    M.Cells(p.cells, false, p.size, p.size)
  }

  /**
   * A grid of side at most 8 in one cell with nothing set past its pixels,
   * as `new`, `interpret` and every operation below give for sides 2 and 3.
   */
  ghost predicate Tidy(p: Pattern)
  {
    p.size * p.size <= 64 && |p.cells| == 64 && forall k :: p.size * p.size <= k < 64 ==> !p.cells[k]
  }

  /** The writes of `transpose`: row by row, pixel (r, c) of p goes to bit c*size + r of a new grid. */
  function TransposeWrites(p: Pattern): seq<seq<(nat, bool)>>
  {
    var n := p.size;
    seq(n, r requires 0 <= r < n => seq(n, c requires 0 <= c < n => (M.Idx(c, r, n), B.At(p.cells, M.Idx(r, c, n)))))
  }

  /** One more pixel of `transpose` written. */
  lemma TransposeNext(p: Pattern, ws: seq<seq<(nat, bool)>>, row: nat, col: nat)
    requires ws == TransposeWrites(p) && row < p.size && col < p.size
    ensures Writes(B.Zeros(64), M.Flatten(ws[..row]) + ws[row][..col + 1]) ==
      SetBit(Writes(B.Zeros(64), M.Flatten(ws[..row]) + ws[row][..col]), M.Idx(col, row, p.size), B.At(p.cells, M.Idx(row, col, p.size)))
  {
    WritesNext(B.Zeros(64), M.Flatten(ws[..row]), ws[row], col, M.Idx(col, row, p.size), B.At(p.cells, M.Idx(row, col, p.size)));
  }

  /** One more pixel of `reverse_rows` written. */
  lemma ReverseNext(p: Pattern, ws: seq<seq<(nat, bool)>>, row: nat, i: nat)
    requires ws == ReverseWrites(p) && row < p.size && i < p.size
    ensures Writes(p.cells, M.Flatten(ws[..row]) + ws[row][..i + 1]) ==
      SetBit(Writes(p.cells, M.Flatten(ws[..row]) + ws[row][..i]), M.Idx(row, i, p.size), Mirror(p, row, i))
  {
    WritesNext(p.cells, M.Flatten(ws[..row]), ws[row], i, M.Idx(row, i, p.size), Mirror(p, row, i));
  }

  /** Write (r, c) of `load_from`. */
  lemma LoadWriteAt(n: nat, start: nat, other: Pattern, r: nat, c: nat)
    requires r < n && c < n
    ensures var ws := LoadWrites(n, start, other);
      r < |ws| && c < |ws[r]| && ws[r][c] == (M.Idx(r, c, n), Fetched(other, start, r, c))
  {
  }

  /** Write (r, c) of `reverse_rows`. */
  lemma ReverseWriteAt(p: Pattern, r: nat, c: nat)
    requires r < p.size && c < p.size
    ensures var ws := ReverseWrites(p);
      r < |ws| && c < |ws[r]| && ws[r][c] == (M.Idx(r, c, p.size), Mirror(p, r, c))
  {
  }

  /** Write (r, c) of `set_from`. */
  lemma PasteWriteAt(w: nat, start: nat, other: Pattern, r: nat, c: nat)
    requires r < other.size && c < other.size
    ensures var ws := PasteWrites(w, start, other);
      r < |ws| && c < |ws[r]| && ws[r][c] == (start + M.Idx(r, c, w), B.At(other.cells, M.Idx(r, c, other.size)))
  {
  }

  /** One more pixel of `load_from` written. */
  lemma LoadNext(p: Pattern, start: nat, other: Pattern, ws: seq<seq<(nat, bool)>>, row: nat, col: nat)
    requires ws == LoadWrites(p.size, start, other) && row < p.size && col < p.size
    ensures Writes(p.cells, M.Flatten(ws[..row]) + ws[row][..col + 1]) ==
      SetBit(Writes(p.cells, M.Flatten(ws[..row]) + ws[row][..col]), M.Idx(row, col, p.size), Fetched(other, start, row, col))
  {
    LoadWriteAt(p.size, start, other, row, col);
    WritesNext(p.cells, M.Flatten(ws[..row]), ws[row], col, M.Idx(row, col, p.size), Fetched(other, start, row, col));
  }

  /** The first col pixels of row `row` of `set_from` written, over the earlier rows. */
  ghost predicate PasteState(bits: seq<bool>, p: Pattern, start: nat, other: Pattern, row: nat, col: nat)
  {
    var ws := PasteWrites(p.size, start, other);
    row < other.size && col <= other.size && bits == Writes(p.cells, M.Flatten(ws[..row]) + ws[row][..col])
  }

  /** One more pixel of `set_from` written. */
  lemma PasteStep(bits: seq<bool>, next: seq<bool>, p: Pattern, start: nat, other: Pattern, row: nat, col: nat, j: nat, v: bool)
    requires PasteState(bits, p, start, other, row, col) && col < other.size
    requires j == start + M.Idx(row, col, p.size) && v == B.At(other.cells, M.Idx(row, col, other.size))
    requires next == SetBit(bits, j, v)
    ensures PasteState(next, p, start, other, row, col + 1)
  {
    var ws := PasteWrites(p.size, start, other);
    var done := M.Flatten(ws[..row]);
    PasteWriteAt(p.size, start, other, row, col);
    WritesNext(p.cells, done, ws[row], col, j, v);
    assert bits == Writes(p.cells, done + ws[row][..col]);
    assert next == Writes(p.cells, done + ws[row][..col + 1]);
  }

  /** `reverse_rows` reads row `row` before writing it, and the earlier rows' writes miss it. */
  lemma ReverseUnread(p: Pattern, ws: seq<seq<(nat, bool)>>, row: nat, k: nat)
    requires ws == ReverseWrites(p) && row < p.size && k < p.size
    ensures B.At(Writes(p.cells, M.Flatten(ws[..row])), M.Idx(row, k, p.size)) == B.At(p.cells, M.Idx(row, k, p.size))
  {
    var n := p.size;
    var j := M.Idx(row, k, n);
    forall r, c | 0 <= r < |ws[..row]| && 0 <= c < |ws[..row][r]|
      ensures ws[..row][r][c].0 != j
    {
      M.RowMajorInjective(r, c, row, k, n);
    }
    FlatMissing(ws[..row], j, B.At(p.cells, j));
    WritesAt(p.cells, M.Flatten(ws[..row]), j);
  }

  /** Row `row` of `cells` is still row `row` of `p`. */
  ghost predicate RowIntact(cells: seq<bool>, p: Pattern, row: nat)
  {
    forall k {:trigger M.Idx(row, k, p.size)} :: 0 <= k < p.size ==> B.At(cells, M.Idx(row, k, p.size)) == B.At(p.cells, M.Idx(row, k, p.size))
  }

  lemma ReverseRowUnread(p: Pattern, ws: seq<seq<(nat, bool)>>, row: nat)
    requires ws == ReverseWrites(p) && row < p.size
    ensures RowIntact(Writes(p.cells, M.Flatten(ws[..row])), p, row)
  {
    forall k | 0 <= k < p.size
      ensures B.At(Writes(p.cells, M.Flatten(ws[..row])), M.Idx(row, k, p.size)) == B.At(p.cells, M.Idx(row, k, p.size))
    {
      ReverseUnread(p, ws, row, k);
    }
  }

  /** Pixel (row, n-1-i) of `p`: what `reverse_rows` writes at (row, i). */
  function Mirror(p: Pattern, row: nat, i: nat): bool
    requires i < p.size
  {
    B.At(p.cells, M.Idx(row, p.size - 1 - i, p.size))
  }

  /** The writes of `reverse_rows`: pixel (r, c) gets pixel (r, n-1-c). */
  function ReverseWrites(p: Pattern): seq<seq<(nat, bool)>>
  {
    var n := p.size;
    seq(n, r requires 0 <= r < n => seq(n, c requires 0 <= c < n => (M.Idx(r, c, n), Mirror(p, r, c))))
  }

  /** What `load_from` reads for pixel (r, c): bit start + r*other.size + c of other. */
  function Fetched(other: Pattern, start: nat, r: nat, c: nat): bool
  {
    B.At(other.cells, start + M.Idx(r, c, other.size))
  }

  /** The writes of `load_from(start, other)` on a grid of side n: pixel (r, c) gets bit start + r*other.size + c of other. */
  function LoadWrites(n: nat, start: nat, other: Pattern): seq<seq<(nat, bool)>>
  {
    seq(n, r requires 0 <= r < n => seq(n, c requires 0 <= c < n => (M.Idx(r, c, n), Fetched(other, start, r, c))))
  }

  /** The writes of `set_from(start, other)` on a grid of side w: bit start + r*w + c gets pixel (r, c) of other. */
  function PasteWrites(w: nat, start: nat, other: Pattern): seq<seq<(nat, bool)>>
  {
    var m := other.size;
    seq(m, r requires 0 <= r < m => seq(m, c requires 0 <= c < m => (start + M.Idx(r, c, w), B.At(other.cells, M.Idx(r, c, m)))))
  }

  function TransposedGrid(p: Pattern): Pattern
  {
    Pattern(Writes(B.Zeros(64), M.Flatten(TransposeWrites(p))), p.size)
  }

  function ReversedGrid(p: Pattern): Pattern
  {
    Pattern(Writes(p.cells, M.Flatten(ReverseWrites(p))), p.size)
  }

  /** `rotate_90`: transpose, then reverse the rows. */
  function RotatedGrid(p: Pattern): Pattern
  {
    ReversedGrid(TransposedGrid(p))
  }

  function LoadedGrid(p: Pattern, start: nat, other: Pattern): Pattern
  {
    Pattern(Writes(p.cells, M.Flatten(LoadWrites(p.size, start, other))), p.size)
  }

  function PastedGrid(p: Pattern, start: nat, other: Pattern): Pattern
  {
    Pattern(Writes(p.cells, M.Flatten(PasteWrites(p.size, start, other))), p.size)
  }

  // ---------------------------------------------------------------------
  // What the write families do to the picture.

  /** No two writes of g go to the same bit. */
  ghost predicate Distinct<T>(g: seq<seq<(nat, T)>>)
  {
    forall r, c, r', c' :: 0 <= r < |g| && 0 <= c < |g[r]| && 0 <= r' < |g| && 0 <= c' < |g[r']| && (r, c) != (r', c') ==> g[r][c].0 != g[r'][c'].0
  }

  /** A bit written exactly once ends with that write's value. */
  lemma FamilyHit(bits: seq<bool>, g: seq<seq<(nat, bool)>>, r: nat, c: nat)
    requires Distinct(g) && r < |g| && c < |g[r]|
    ensures B.At(Writes(bits, M.Flatten(g)), g[r][c].0) == g[r][c].1
  {
    WritesAt(bits, M.Flatten(g), g[r][c].0);
    FlatOnce(g, r, c, B.At(bits, g[r][c].0));
  }

  /** A bit no write goes to keeps its value. */
  lemma FamilyMiss(bits: seq<bool>, g: seq<seq<(nat, bool)>>, j: nat)
    requires forall r, c :: 0 <= r < |g| && 0 <= c < |g[r]| ==> g[r][c].0 != j
    ensures B.At(Writes(bits, M.Flatten(g)), j) == B.At(bits, j)
  {
    WritesAt(bits, M.Flatten(g), j);
    FlatMissing(g, j, B.At(bits, j));
  }

  lemma TransposeDistinct(p: Pattern)
    ensures Distinct(TransposeWrites(p))
  {
    var ws: seq<seq<(nat, bool)>> := TransposeWrites(p);
    forall r, c, r', c' | 0 <= r < |ws| && 0 <= c < |ws[r]| && 0 <= r' < |ws| && 0 <= c' < |ws[r']| && (r, c) != (r', c')
      ensures ws[r][c].0 != ws[r'][c'].0
    {
      M.RowMajorInjective(c, r, c', r', p.size);
    }
  }

  lemma ReverseDistinct(p: Pattern)
    ensures Distinct(ReverseWrites(p))
  {
    var ws: seq<seq<(nat, bool)>> := ReverseWrites(p);
    forall r, c, r', c' | 0 <= r < |ws| && 0 <= c < |ws[r]| && 0 <= r' < |ws| && 0 <= c' < |ws[r']| && (r, c) != (r', c')
      ensures ws[r][c].0 != ws[r'][c'].0
    {
      M.RowMajorInjective(r, c, r', c', p.size);
    }
  }

  /** Pixels of a square picture lie below size * size. */
  lemma PixelBelow(r: nat, c: nat, n: nat, k: nat)
    requires r < n && c < n && n * n <= k
    ensures M.Idx(r, c, n) < k
  {
    M.IdxInRows(r, c, n, n);
  }

  /** The pixels agree one by one: the pictures are the same. */
  lemma PicEq(p: Pattern, g: seq<seq<bool>>)
    requires M.Shaped(g, p.size, p.size)
    requires forall r: nat, c: nat :: r < p.size && c < p.size ==> B.At(p.cells, M.Idx(r, c, p.size)) == g[r][c]
    ensures Pic(p) == g
  {
    M.CellsEq(p.cells, false, p.size, p.size, g);
  }

  /** `transpose` transposes the picture. */
  lemma TransposedPic(p: Pattern)
    ensures Pic(TransposedGrid(p)) == M.Transposed(Pic(p), p.size)
  {
    var n := p.size;
    var ws: seq<seq<(nat, bool)>> := TransposeWrites(p);
    TransposeDistinct(p);
    forall r: nat, c: nat | r < n && c < n
      ensures B.At(TransposedGrid(p).cells, M.Idx(r, c, n)) == M.Transposed(Pic(p), n)[r][c]
    {
      FamilyHit(B.Zeros(64), ws, c, r);
    }
    PicEq(TransposedGrid(p), M.Transposed(Pic(p), n));
  }

  /** `transpose` of a grid of side at most 8 gives a tidy grid. */
  lemma TransposedTidy(p: Pattern)
    requires p.size * p.size <= 64
    ensures Tidy(TransposedGrid(p))
  {
    var n := p.size;
    var ws: seq<seq<(nat, bool)>> := TransposeWrites(p);
    forall r, c | 0 <= r < |ws| && 0 <= c < |ws[r]|
      ensures ws[r][c].0 < 64
    {
      PixelBelow(c, r, n, 64);
    }
    FlatOneCell(B.Zeros(64), ws);
    forall k | n * n <= k < 64
      ensures !TransposedGrid(p).cells[k]
    {
      forall r, c | 0 <= r < |ws| && 0 <= c < |ws[r]|
        ensures ws[r][c].0 != k
      {
        PixelBelow(c, r, n, n * n);
      }
      FamilyMiss(B.Zeros(64), ws, k);
    }
  }

  /** `reverse_rows` mirrors every row of the picture. */
  lemma ReversedPic(p: Pattern)
    ensures Pic(ReversedGrid(p)) == M.MirrorRows(Pic(p))
  {
    var n := p.size;
    forall r: nat, c: nat | r < n && c < n
      ensures B.At(ReversedGrid(p).cells, M.Idx(r, c, n)) == M.MirrorRows(Pic(p))[r][c]
    {
      ReversedPixel(p, r, c);
    }
    PicEq(ReversedGrid(p), M.MirrorRows(Pic(p)));
  }

  /** Pixel (r, c) after `reverse_rows` is pixel (r, n-1-c) before. */
  lemma ReversedPixel(p: Pattern, r: nat, c: nat)
    requires r < p.size && c < p.size
    ensures B.At(ReversedGrid(p).cells, M.Idx(r, c, p.size)) == M.MirrorRows(Pic(p))[r][c]
  {
    var n := p.size;
    var ws: seq<seq<(nat, bool)>> := ReverseWrites(p);
    ReverseDistinct(p);
    ReverseWriteAt(p, r, c);
    FamilyHit(p.cells, ws, r, c);
    assert M.MirrorRows(Pic(p))[r][c] == Pic(p)[r][n - 1 - c];
    PicAt(p, r, n - 1 - c);
  }

  /** `reverse_rows` keeps a grid tidy. */
  lemma ReversedTidy(p: Pattern)
    requires Tidy(p)
    ensures Tidy(ReversedGrid(p))
  {
    var n := p.size;
    var ws: seq<seq<(nat, bool)>> := ReverseWrites(p);
    forall r, c | 0 <= r < |ws| && 0 <= c < |ws[r]|
      ensures ws[r][c].0 < 64
    {
      PixelBelow(r, c, n, 64);
    }
    FlatOneCell(p.cells, ws);
    forall k | n * n <= k < 64
      ensures !ReversedGrid(p).cells[k]
    {
      forall r, c | 0 <= r < |ws| && 0 <= c < |ws[r]|
        ensures ws[r][c].0 != k
      {
        PixelBelow(r, c, n, n * n);
      }
      FamilyMiss(p.cells, ws, k);
    }
  }

  /** `rotate_90` turns the picture a quarter clockwise and keeps it tidy. */
  lemma RotatedPic(p: Pattern)
    requires p.size * p.size <= 64
    ensures Pic(RotatedGrid(p)) == M.Rotated(Pic(p), p.size)
    ensures Tidy(RotatedGrid(p))
  {
    TransposedPic(p);
    ReversedPic(TransposedGrid(p));
    TransposedTidy(p);
    ReversedTidy(TransposedGrid(p));
  }

  /** Two tidy grids of one side are equal exactly when their pictures are. */
  lemma TidyEq(p: Pattern, q: Pattern)
    requires Tidy(p) && Tidy(q) && p.size == q.size
    ensures p == q <==> Pic(p) == Pic(q)
  {
    if Pic(p) == Pic(q) {
      var n := p.size;
      forall k | 0 <= k < 64
        ensures p.cells[k] == q.cells[k]
      {
        if k < n * n {
          var r, c := PixelOf(k, n);
          assert Pic(p)[r][c] == Pic(q)[r][c];
        }
      }
      assert p.cells == q.cells;
    }
  }

  /** The pixel a bit below size * size belongs to. */
  lemma PixelOf(k: nat, n: nat) returns (r: nat, c: nat)
    requires k < n * n
    ensures r < n && c < n && M.Idx(r, c, n) == k
  {
    r, c := k / n, k % n;
    if n <= r {
      M.MulMono(n, r, n);
    }
  }

  // ---------------------------------------------------------------------
  // The eight symmetries of a square picture, and `matches`.

  /**
   * The pixel of g that view k shows at (i, j): k = 0 the picture, 1 its
   * rows mirrored, 2 a quarter turn clockwise, 3 the transpose, 4 a half
   * turn, 5 its columns mirrored, 6 three quarter turns, 7 the transpose
   * along the other diagonal.
   */
  function Source(n: nat, k: nat, i: nat, j: nat): (s: (nat, nat))
    requires i < n && j < n
    ensures s.0 < n && s.1 < n
  {
    var i': nat := n - 1 - i;
    var j': nat := n - 1 - j;
    if k == 0 then (i, j)
    else if k == 1 then (i, j')
    else if k == 2 then (j', i)
    else if k == 3 then (j, i)
    else if k == 4 then (i', j')
    else if k == 5 then (i', j)
    else if k == 6 then (j, i')
    else (j', i')
  }

  /** View k of a square picture g. */
  function View(g: seq<seq<bool>>, n: nat, k: nat): (h: seq<seq<bool>>)
    requires M.Shaped(g, n, n)
    ensures M.Shaped(h, n, n)
    ensures forall i, j :: 0 <= i < n && 0 <= j < n ==> h[i][j] == g[Source(n, k, i, j).0][Source(n, k, i, j).1]
  {
    seq(n, i requires 0 <= i < n => seq(n, j requires 0 <= j < n => g[Source(n, k, i, j).0][Source(n, k, i, j).1]))
  }

  /** Whether h is one of the eight views of g. */
  ghost predicate ViewOf(h: seq<seq<bool>>, g: seq<seq<bool>>, n: nat)
    requires M.Shaped(g, n, n)
  {
    exists k :: 0 <= k < 8 && h == View(g, n, k)
  }

  /** Square pictures agreeing pixel by pixel are equal. */
  lemma SquareEq(g: seq<seq<bool>>, h: seq<seq<bool>>, n: nat)
    requires M.Shaped(g, n, n) && M.Shaped(h, n, n)
    requires forall i, j :: 0 <= i < n && 0 <= j < n ==> g[i][j] == h[i][j]
    ensures g == h
  {
    forall i | 0 <= i < n
      ensures g[i] == h[i]
    {
      assert forall j :: 0 <= j < n ==> g[i][j] == h[i][j];
    }
  }

  lemma ViewZero(g: seq<seq<bool>>, n: nat)
    requires M.Shaped(g, n, n)
    ensures View(g, n, 0) == g
  {
    SquareEq(View(g, n, 0), g, n);
  }

  /** Mirroring the rows of an even view gives the next view. */
  lemma MirrorView(g: seq<seq<bool>>, n: nat, k: nat)
    requires M.Shaped(g, n, n) && k in {0, 2, 4, 6}
    ensures M.MirrorRows(View(g, n, k)) == View(g, n, k + 1)
  {
    var h := M.MirrorRows(View(g, n, k));
    forall i, j | 0 <= i < n && 0 <= j < n
      ensures h[i][j] == View(g, n, k + 1)[i][j]
    {
      assert h[i][j] == View(g, n, k)[i][n - 1 - j];
    }
    SquareEq(h, View(g, n, k + 1), n);
  }

  /** A quarter turn of an even view gives the view two further on. */
  lemma RotateView(g: seq<seq<bool>>, n: nat, k: nat)
    requires M.Shaped(g, n, n) && k in {0, 2, 4}
    ensures M.Rotated(View(g, n, k), n) == View(g, n, k + 2)
  {
    var h := M.Rotated(View(g, n, k), n);
    forall i, j | 0 <= i < n && 0 <= j < n
      ensures h[i][j] == View(g, n, k + 2)[i][j]
    {
      assert h[i][j] == View(g, n, k)[n - 1 - j][i];
    }
    SquareEq(h, View(g, n, k + 2), n);
  }

  /** View k of a quarter-turned picture is view k + 2 (mod 8) of the picture. */
  lemma ViewOfRotated(g: seq<seq<bool>>, n: nat, k: nat)
    requires M.Shaped(g, n, n) && k < 8
    ensures View(M.Rotated(g, n), n, k) == View(g, n, (k + 2) % 8)
  {
    var h := View(M.Rotated(g, n), n, k);
    forall i, j | 0 <= i < n && 0 <= j < n
      ensures h[i][j] == View(g, n, (k + 2) % 8)[i][j]
    {
      var s := Source(n, k, i, j);
      assert h[i][j] == g[n - 1 - s.1][s.0];
    }
    SquareEq(h, View(g, n, (k + 2) % 8), n);
  }

  /** A quarter turn has the same eight views. */
  lemma RotatedViewOf(h: seq<seq<bool>>, g: seq<seq<bool>>, n: nat)
    requires M.Shaped(g, n, n)
    ensures ViewOf(h, M.Rotated(g, n), n) <==> ViewOf(h, g, n)
  {
    if ViewOf(h, M.Rotated(g, n), n) {
      var k :| 0 <= k < 8 && h == View(M.Rotated(g, n), n, k);
      ViewOfRotated(g, n, k);
    }
    if ViewOf(h, g, n) {
      var k :| 0 <= k < 8 && h == View(g, n, k);
      ViewOfRotated(g, n, (k + 6) % 8);
      assert h == View(M.Rotated(g, n), n, (k + 6) % 8);
    }
  }

  /** The even views are the quarter turns: they have the same eight views. */
  lemma {:induction false} EvenViewOf(h: seq<seq<bool>>, g: seq<seq<bool>>, n: nat, u: nat)
    requires M.Shaped(g, n, n) && u <= 3
    ensures ViewOf(h, View(g, n, 2 * u), n) <==> ViewOf(h, g, n)
  {
    if u == 0 {
      ViewZero(g, n);
    } else {
      EvenViewOf(h, g, n, u - 1);
      RotateView(g, n, 2 * (u - 1));
      RotatedViewOf(h, View(g, n, 2 * (u - 1)), n);
    }
  }

  /**
   * `matches(other)` from its t-th quarter turn on: compare with the grid
   * and its reversal, and turn once more unless this was the third turn.
   * The result says whether one compared equal, and which grid is left.
   */
  function MatchFrom(q: Pattern, other: Pattern, t: nat): (r: (bool, Pattern))
    requires t <= 3
    ensures r.1.size == q.size
    decreases 3 - t
  {
    if q == other || ReversedGrid(q) == other then (true, q)
    else if t == 3 then (false, q)
    else MatchFrom(RotatedGrid(q), other, t + 1)
  }

  function MatchedGrid(p: Pattern, other: Pattern): (bool, Pattern)
  {
    MatchFrom(p, other, 0)
  }

  /** Whether h is one of views lo to 7 of g. */
  ghost predicate ViewFrom(h: seq<seq<bool>>, g: seq<seq<bool>>, n: nat, lo: nat)
    requires M.Shaped(g, n, n)
  {
    exists k :: lo <= k < 8 && h == View(g, n, k)
  }

  lemma ViewFromStep(h: seq<seq<bool>>, g: seq<seq<bool>>, n: nat, lo: nat)
    requires M.Shaped(g, n, n) && lo + 2 <= 8
    ensures ViewFrom(h, g, n, lo) <==> h == View(g, n, lo) || h == View(g, n, lo + 1) || ViewFrom(h, g, n, lo + 2)
  {
    if ViewFrom(h, g, n, lo) {
      var k :| lo <= k < 8 && h == View(g, n, k);
      if lo + 2 <= k {
        assert ViewFrom(h, g, n, lo + 2);
      }
    }
  }

  lemma SameAsView(q: Pattern, other: Pattern, g: seq<seq<bool>>, k: nat)
    requires Tidy(q) && Tidy(other) && other.size == q.size && M.Shaped(g, q.size, q.size)
    requires Pic(q) == View(g, q.size, k)
    ensures q == other <==> Pic(other) == View(g, q.size, k)
  {
    TidyEq(other, q);
  }

  lemma ReversedAsView(q: Pattern, other: Pattern, g: seq<seq<bool>>, k: nat)
    requires Tidy(q) && Tidy(other) && other.size == q.size && M.Shaped(g, q.size, q.size) && k in {0, 2, 4, 6}
    requires Pic(q) == View(g, q.size, k)
    ensures ReversedGrid(q) == other <==> Pic(other) == View(g, q.size, k + 1)
  {
    ReversedTidy(q);
    ReversedPic(q);
    MirrorView(g, q.size, k);
    TidyEq(other, ReversedGrid(q));
  }

  /** A quarter turn of a grid showing view 2t shows view 2t + 2. */
  lemma TurnedView(q: Pattern, g: seq<seq<bool>>, t: nat)
    requires Tidy(q) && M.Shaped(g, q.size, q.size) && t < 3
    requires Pic(q) == View(g, q.size, 2 * t)
    ensures Tidy(RotatedGrid(q)) && RotatedGrid(q).size == q.size
    ensures Pic(RotatedGrid(q)) == View(g, q.size, 2 * (t + 1))
  {
    RotatedPic(q);
    RotateView(g, q.size, 2 * t);
  }

  /** One turn of `matches`: this turn's two comparisons, then the later turns. */
  lemma MatchTurnIff(q: Pattern, other: Pattern, g: seq<seq<bool>>, t: nat)
    requires Tidy(q) && Tidy(other) && other.size == q.size && M.Shaped(g, q.size, q.size) && t <= 3
    requires Pic(q) == View(g, q.size, 2 * t)
    requires t < 3 ==> (MatchFrom(RotatedGrid(q), other, t + 1).0 <==> ViewFrom(Pic(other), g, q.size, 2 * t + 2))
    ensures MatchFrom(q, other, t).0 <==> ViewFrom(Pic(other), g, q.size, 2 * t)
  {
    SameAsView(q, other, g, 2 * t);
    ReversedAsView(q, other, g, 2 * t);
    ViewFromStep(Pic(other), g, q.size, 2 * t);
    if t == 3 {
      assert !ViewFrom(Pic(other), g, q.size, 2 * t + 2);
    }
  }

  /** From turn t on, `matches` succeeds exactly when `other` shows one of views 2t to 7 of g. */
  lemma {:induction false} MatchFromIff(q: Pattern, other: Pattern, g: seq<seq<bool>>, t: nat)
    requires Tidy(q) && Tidy(other) && other.size == q.size && M.Shaped(g, q.size, q.size) && t <= 3
    requires Pic(q) == View(g, q.size, 2 * t)
    ensures MatchFrom(q, other, t).0 <==> ViewFrom(Pic(other), g, q.size, 2 * t)
    decreases 3 - t
  {
    if t < 3 {
      TurnedView(q, g, t);
      MatchFromIff(RotatedGrid(q), other, g, t + 1);
    }
    MatchTurnIff(q, other, g, t);
  }

  /** The turn at which `matches`, started at turn t, stops. */
  function TurnsTaken(q: Pattern, other: Pattern, t: nat): (u: nat)
    requires t <= 3
    ensures t <= u <= 3
    decreases 3 - t
  {
    if q == other || ReversedGrid(q) == other || t == 3 then t
    else TurnsTaken(RotatedGrid(q), other, t + 1)
  }

  /** From turn t on, `matches` leaves a tidy grid of the same side showing the view of g of the turn it stops at. */
  lemma {:induction false} MatchFromLeaves(q: Pattern, other: Pattern, g: seq<seq<bool>>, t: nat)
    requires Tidy(q) && M.Shaped(g, q.size, q.size) && t <= 3
    requires Pic(q) == View(g, q.size, 2 * t)
    ensures Tidy(MatchFrom(q, other, t).1) && MatchFrom(q, other, t).1.size == q.size
    ensures Pic(MatchFrom(q, other, t).1) == View(g, q.size, 2 * TurnsTaken(q, other, t))
    decreases 3 - t
  {
    if q == other || ReversedGrid(q) == other || t == 3 {
      assert MatchFrom(q, other, t).1 == q;
    } else {
      var r := RotatedGrid(q);
      assert MatchFrom(q, other, t) == MatchFrom(r, other, t + 1);
      assert TurnsTaken(q, other, t) == TurnsTaken(r, other, t + 1);
      TurnedView(q, g, t);
      MatchFromLeaves(r, other, g, t + 1);
    }
  }

  /** `matches` is true exactly when `other`'s picture is one of the eight views of this one. */
  lemma MatchIffView(p: Pattern, other: Pattern)
    requires Tidy(p) && Tidy(other) && other.size == p.size
    ensures MatchedGrid(p, other).0 <==> ViewOf(Pic(other), Pic(p), p.size)
  {
    ViewZero(Pic(p), p.size);
    MatchFromIff(p, other, Pic(p), 0);
    assert ViewOf(Pic(other), Pic(p), p.size) == ViewFrom(Pic(other), Pic(p), p.size, 0);
  }

  /** `matches` leaves a tidy grid of the same side with the same eight views. */
  lemma MatchKeepsViews(p: Pattern, other: Pattern, h: seq<seq<bool>>)
    requires Tidy(p)
    ensures var q := MatchedGrid(p, other).1;
      Tidy(q) && q.size == p.size && (ViewOf(h, Pic(q), q.size) <==> ViewOf(h, Pic(p), p.size))
  {
    ViewZero(Pic(p), p.size);
    MatchFromLeaves(p, other, Pic(p), 0);
    EvenViewOf(h, Pic(p), p.size, TurnsTaken(p, other, 0));
  }

  // ---------------------------------------------------------------------
  // Looking a block up among the rules.

  /** The outputs `step` pushes for block b: each rule in turn is matched against the block, which `matches` keeps turning. */
  function ScanOuts(b: Pattern, rules: seq<(Pattern, Pattern)>): seq<Pattern>
    decreases |rules|
  {
    if rules == [] then []
    else
      var m := MatchedGrid(b, rules[0].0);
      (if m.0 then [rules[0].1] else []) + ScanOuts(m.1, rules[1..])
  }

  /** One rule of the scan. */
  lemma ScanStep(b: Pattern, rules: seq<(Pattern, Pattern)>, i: nat)
    requires i < |rules|
    ensures var m := MatchedGrid(b, rules[i].0);
      ScanOuts(b, rules[i..]) == (if m.0 then [rules[i].1] else []) + ScanOuts(m.1, rules[i + 1..])
  {
    assert rules[i..][0] == rules[i];
    assert rules[i..][1..] == rules[i + 1..];
  }

  lemma SeqAssoc<T>(a: seq<T>, b: seq<T>, c: seq<T>)
    ensures (a + b) + c == a + (b + c)
  {
  }

  /** The outputs of the rules whose pattern is one of the eight views of b, in rule order. */
  ghost function Matching(b: Pattern, rules: seq<(Pattern, Pattern)>): seq<Pattern>
    requires forall k :: 0 <= k < |rules| ==> rules[k].0.size == b.size
  {
    if rules == [] then []
    else (if ViewOf(Pic(rules[0].0), Pic(b), b.size) then [rules[0].1] else []) + Matching(b, rules[1..])
  }

  /** Rules `matches` may compare a block of side n with: tidy patterns of that side. */
  ghost predicate RulesFor(rules: seq<(Pattern, Pattern)>, n: nat)
  {
    forall k :: 0 <= k < |rules| ==> Tidy(rules[k].0) && rules[k].0.size == n
  }

  lemma {:induction false} ScanFrom(b: Pattern, b0: Pattern, rules: seq<(Pattern, Pattern)>)
    requires Tidy(b) && b0.size == b.size && RulesFor(rules, b.size)
    requires forall k :: 0 <= k < |rules| ==> (ViewOf(Pic(rules[k].0), Pic(b), b.size) <==> ViewOf(Pic(rules[k].0), Pic(b0), b.size))
    ensures ScanOuts(b, rules) == Matching(b0, rules)
    decreases |rules|
  {
    if rules != [] {
      var m := MatchedGrid(b, rules[0].0);
      MatchIffView(b, rules[0].0);
      forall k | 0 <= k < |rules[1..]|
        ensures ViewOf(Pic(rules[1..][k].0), Pic(m.1), b.size) <==> ViewOf(Pic(rules[1..][k].0), Pic(b0), b.size)
      {
        MatchKeepsViews(b, rules[0].0, Pic(rules[1..][k].0));
        assert rules[1..][k] == rules[k + 1];
      }
      MatchKeepsViews(b, rules[0].0, Pic(rules[0].0));
      ScanFrom(m.1, b0, rules[1..]);
    }
  }

  /**
   * Although `matches` turns the block as it goes, the outputs pushed for a
   * block are exactly the rules whose pattern is a rotation or flip of it.
   */
  lemma ScanMatching(b: Pattern, rules: seq<(Pattern, Pattern)>)
    requires Tidy(b) && RulesFor(rules, b.size)
    ensures ScanOuts(b, rules) == Matching(b, rules)
  {
    ScanFrom(b, b, rules);
  }

  /** The block of side n at block row bi, block column bj, as `step` loads it into a new grid. */
  function BlockAt(p: Pattern, n: nat, bi: nat, bj: nat): Pattern
  {
    LoadedGrid(Pattern(B.Zeros(64), n), M.Idx(Scaled(bi, n), Scaled(bj, n), p.size), p)
  }

  /** The outputs pushed for the first j blocks of block row bi. */
  function RowOuts(p: Pattern, n: nat, rules: seq<(Pattern, Pattern)>, bi: nat, j: nat): seq<Pattern>
  {
    if j == 0 then [] else RowOuts(p, n, rules, bi, j - 1) + ScanOuts(BlockAt(p, n, bi, j - 1), rules)
  }

  /** The outputs pushed for the first i block rows. */
  function AllOuts(p: Pattern, n: nat, rules: seq<(Pattern, Pattern)>, i: nat): seq<Pattern>
    requires n > 0
  {
    if i == 0 then [] else AllOuts(p, n, rules, i - 1) + RowOuts(p, n, rules, i - 1, Quot(p.size, n))
  }

  // ---------------------------------------------------------------------
  // `bump_size` and pasting the outputs.

  function Quot(a: nat, b: nat): nat
    requires b > 0
  {
    a / b
  }


  /** i * m, known to be a natural number without the solver multiplying. */
  function Scaled(i: nat, m: nat): nat
  {
    M.NatMul(i, m);
    i * m
  }

  /** Where `bump_size(d)` inserts in round i: increased_by + i*d + 1, increased_by being i. */
  function BumpAt(i: nat, d: nat): nat
  {
    i + i * d + 1
  }

  /** The bits after k rounds of `bump_size(d)`. */
  function Bumped(bits: seq<bool>, d: nat, k: nat): seq<bool>
  {
    if k == 0 then bits else Inserted(Bumped(bits, d, k - 1), BumpAt(k - 1, d), false)
  }

  /** `bump_size(d)`: size/d clear bits inserted, the side grown by size/d. */
  function BumpedGrid(p: Pattern, d: nat): Pattern
    requires d > 0
  {
    Pattern(Bumped(p.cells, d, Quot(p.size, d)), p.size + Quot(p.size, d))
  }

  /** Each round of `bump_size` moves the clear tail of the vector up by at most one bit. */
  lemma {:induction false} BumpedClear(bits: seq<bool>, d: nat, k: nat, L: nat)
    requires forall j: nat :: L <= j ==> !B.At(bits, j)
    ensures forall j: nat :: L + k <= j ==> !B.At(Bumped(bits, d, k), j)
  {
    if k > 0 {
      BumpedClear(bits, d, k - 1, L);
      forall j: nat | L + k <= j
        ensures !B.At(Bumped(bits, d, k), j)
      {
        InsertedClearAbove(Bumped(bits, d, k - 1), BumpAt(k - 1, d), L + k - 1, j);
      }
    }
  }

  /** The outputs used by the first i rows of b blocks each: i*b, written as a sum so that it stays linear. */
  function Offset(i: nat, b: nat): nat
  {
    if i == 0 then 0 else Offset(i - 1, b) + b
  }

  lemma {:induction false} OffsetIsProduct(i: nat, b: nat)
    ensures Offset(i, b) == i * b
  {
    if i > 0 {
      OffsetIsProduct(i - 1, b);
    }
  }

  /** The first j pastes of block row i, outputs taken from outs in order (`outs.remove(0)`). */
  function PasteCols(q: Pattern, m: nat, b: nat, outs: seq<Pattern>, i: nat, j: nat): (r: Pattern)
    requires Offset(i, b) + j <= |outs|
    ensures r.size == q.size
  {
    if j == 0 then q
    else PastedGrid(PasteCols(q, m, b, outs, i, j - 1), M.Idx(Scaled(i, m), Scaled(j - 1, m), q.size), outs[Offset(i, b) + j - 1])
  }

  /** The (j+1)-th paste of block row i puts output Offset(i, b) + j at pixel (i*m, j*m). */
  lemma PasteColsNext(q: Pattern, m: nat, b: nat, outs: seq<Pattern>, i: nat, j: nat)
    requires Offset(i, b) + j < |outs|
    ensures PasteCols(q, m, b, outs, i, j + 1) == PastedGrid(PasteCols(q, m, b, outs, i, j), M.Idx(Scaled(i, m), Scaled(j, m), q.size), outs[Offset(i, b) + j])
  {
  }

  /** The pastes of the first i block rows. */
  function PasteRows(q: Pattern, m: nat, b: nat, outs: seq<Pattern>, i: nat): (r: Pattern)
    requires Offset(i, b) <= |outs|
    ensures r.size == q.size
  {
    if i == 0 then q else PasteCols(PasteRows(q, m, b, outs, i - 1), m, b, outs, i - 1, b)
  }

  /** Block row i pasted after the first i, its outputs the b after the first Offset(i, b). */
  lemma PasteRowsNext(q: Pattern, m: nat, b: nat, outs: seq<Pattern>, i: nat)
    requires Offset(i, b) + b <= |outs|
    ensures Offset(i + 1, b) == Offset(i, b) + b
    ensures PasteRows(q, m, b, outs, i + 1) == PasteCols(PasteRows(q, m, b, outs, i), m, b, outs, i, b)
  {
  }

  /** The first j pastes of block row i done, `rest` the outputs not yet taken. */
  ghost predicate ColsDone(v: Pattern, base: Pattern, m: nat, b: nat, outs: seq<Pattern>, i: nat, j: nat, rest: seq<Pattern>)
  {
    Offset(i, b) + j <= |outs| && rest == outs[Offset(i, b) + j..] && v == PasteCols(base, m, b, outs, i, j)
  }

  /** The first i block rows pasted, `rest` the outputs not yet taken. */
  ghost predicate RowsDone(v: Pattern, q: Pattern, m: nat, b: nat, outs: seq<Pattern>, i: nat, rest: seq<Pattern>)
  {
    Offset(i, b) <= |outs| && rest == outs[Offset(i, b)..] && v == PasteRows(q, m, b, outs, i)
  }

  /**
   * The second half of `step` on the bumped grid q: the outputs pasted in
   * order onto its blocks of side m, None where the source panics because
   * there is not exactly one output per block.
   */
  function Assemble(q: Pattern, m: nat, outs: seq<Pattern>): Option<Pattern>
    requires m > 0
  {
    var b := Quot(q.size, m);
    if |outs| != Offset(b, b) then None else Some(PasteRows(q, m, b, outs, b))
  }

  /** One `step` on blocks of side n: the outputs of every block, then `bump_size(n)`, then the pastes. */
  function StepP(p: Pattern, n: nat, rules: seq<(Pattern, Pattern)>): Option<Pattern>
    requires n > 0
  {
    Assemble(BumpedGrid(p, n), n + 1, AllOuts(p, n, rules, Quot(p.size, n)))
  }

  lemma StepIsAssemble(p: Pattern, n: nat, rules: seq<(Pattern, Pattern)>, outs: seq<Pattern>)
    requires n > 0 && outs == AllOuts(p, n, rules, Quot(p.size, n))
    ensures StepP(p, n, rules) == Assemble(BumpedGrid(p, n), n + 1, outs)
  {
  }

  lemma {:induction false} OffsetMono(i: nat, k: nat, b: nat)
    requires i <= k
    ensures Offset(i, b) <= Offset(k, b)
  {
    if i < k {
      OffsetMono(i, k - 1, b);
    }
  }

  // ---------------------------------------------------------------------
  // What `step` does to the picture: blocks out, outputs tiled back in.

  lemma LoadDistinct(n: nat, start: nat, other: Pattern)
    ensures Distinct(LoadWrites(n, start, other))
  {
    var ws: seq<seq<(nat, bool)>> := LoadWrites(n, start, other);
    forall r, c, r', c' | 0 <= r < |ws| && 0 <= c < |ws[r]| && 0 <= r' < |ws| && 0 <= c' < |ws[r']| && (r, c) != (r', c')
      ensures ws[r][c].0 != ws[r'][c'].0
    {
      M.RowMajorInjective(r, c, r', c', n);
    }
  }

  /** `load_from(start, other)` gives pixel (r, c) bit start + r*other.size + c of other. */
  lemma LoadedBit(p: Pattern, start: nat, other: Pattern, r: nat, c: nat)
    requires r < p.size && c < p.size
    ensures B.At(LoadedGrid(p, start, other).cells, M.Idx(r, c, p.size)) == Fetched(other, start, r, c)
  {
    LoadDistinct(p.size, start, other);
    FamilyHit(p.cells, LoadWrites(p.size, start, other), r, c);
  }

  /** `load_from` of a grid of side at most 8 keeps it tidy. */
  lemma LoadedTidy(p: Pattern, start: nat, other: Pattern)
    requires Tidy(p)
    ensures Tidy(LoadedGrid(p, start, other))
  {
    var n := p.size;
    var ws: seq<seq<(nat, bool)>> := LoadWrites(n, start, other);
    forall r, c | 0 <= r < |ws| && 0 <= c < |ws[r]|
      ensures ws[r][c].0 < 64
    {
      PixelBelow(r, c, n, 64);
    }
    FlatOneCell(p.cells, ws);
    forall k | n * n <= k < 64
      ensures !LoadedGrid(p, start, other).cells[k]
    {
      forall r, c | 0 <= r < |ws| && 0 <= c < |ws[r]|
        ensures ws[r][c].0 != k
      {
        PixelBelow(r, c, n, n * n);
      }
      FamilyMiss(p.cells, ws, k);
    }
  }

  /** The n by n square of g with its top-left pixel at (top, left). */
  function Window(g: seq<seq<bool>>, top: nat, left: nat, n: nat): (h: seq<seq<bool>>)
    requires top + n <= |g| && forall r :: top <= r < top + n ==> left + n <= |g[r]|
    ensures M.Shaped(h, n, n)
  {
    seq(n, r requires 0 <= r < n => seq(n, c requires 0 <= c < n => g[top + r][left + c]))
  }

  /** The block `step` loads at block (bi, bj) shows that square of the picture. */
  lemma BlockPic(p: Pattern, n: nat, bi: nat, bj: nat)
    requires Scaled(bi, n) + n <= p.size && Scaled(bj, n) + n <= p.size
    ensures Pic(BlockAt(p, n, bi, bj)) == Window(Pic(p), Scaled(bi, n), Scaled(bj, n), n)
  {
    var blank := Pattern(B.Zeros(64), n);
    var start := M.Idx(Scaled(bi, n), Scaled(bj, n), p.size);
    var g := Window(Pic(p), Scaled(bi, n), Scaled(bj, n), n);
    forall r: nat, c: nat | r < n && c < n
      ensures B.At(BlockAt(p, n, bi, bj).cells, M.Idx(r, c, n)) == g[r][c]
    {
      LoadedBit(blank, start, p, r, c);
      M.IdxShift(Scaled(bi, n), Scaled(bj, n), r, c, p.size);
    }
    PicEq(BlockAt(p, n, bi, bj), g);
  }

  /** Blocks of side 2 or 3 are tidy, so `matches` may compare them. */
  lemma BlockTidy(p: Pattern, n: nat, bi: nat, bj: nat)
    requires n * n <= 64
    ensures Tidy(BlockAt(p, n, bi, bj))
  {
    LoadedTidy(Pattern(B.Zeros(64), n), M.Idx(Scaled(bi, n), Scaled(bj, n), p.size), p);
  }

  lemma PicAt(p: Pattern, r: nat, c: nat)
    requires r < p.size && c < p.size
    ensures Pic(p)[r][c] == B.At(p.cells, M.Idx(r, c, p.size))
  {
  }

  lemma PasteDistinct(w: nat, start: nat, other: Pattern)
    requires other.size <= w
    ensures Distinct(PasteWrites(w, start, other))
  {
    var ws: seq<seq<(nat, bool)>> := PasteWrites(w, start, other);
    forall r, c, r', c' | 0 <= r < |ws| && 0 <= c < |ws[r]| && 0 <= r' < |ws| && 0 <= c' < |ws[r']| && (r, c) != (r', c')
      ensures ws[r][c].0 != ws[r'][c'].0
    {
      M.RowMajorInjective(r, c, r', c', w);
    }
  }

  /** `set_from` at the bit of pixel (top, left) puts pixel (r, c) of other at (top + r, left + c). */
  lemma PastedInside(q: Pattern, top: nat, left: nat, other: Pattern, r: nat, c: nat)
    requires top + other.size <= q.size && left + other.size <= q.size && r < other.size && c < other.size
    ensures Pic(PastedGrid(q, M.Idx(top, left, q.size), other))[top + r][left + c] == Pic(other)[r][c]
  {
    var w := q.size;
    var start := M.Idx(top, left, w);
    var ws: seq<seq<(nat, bool)>> := PasteWrites(w, start, other);
    var v := B.At(other.cells, M.Idx(r, c, other.size));
    M.IdxShift(top, left, r, c, w);
    PasteWriteAt(w, start, other, r, c);
    assert ws[r][c] == (M.Idx(top + r, left + c, w), v);
    PasteDistinct(w, start, other);
    FamilyHit(q.cells, ws, r, c);
    assert B.At(PastedGrid(q, start, other).cells, M.Idx(top + r, left + c, w)) == v;
    PicAt(PastedGrid(q, start, other), top + r, left + c);
    PicAt(other, r, c);
  }

  /** ... and leaves every pixel outside that square as it was. */
  lemma PastedOutside(q: Pattern, top: nat, left: nat, other: Pattern, row: nat, col: nat)
    requires row < q.size && col < q.size && left + other.size <= q.size
    requires !(top <= row < top + other.size && left <= col < left + other.size)
    ensures Pic(PastedGrid(q, M.Idx(top, left, q.size), other))[row][col] == Pic(q)[row][col]
  {
    var w := q.size;
    var start := M.Idx(top, left, w);
    var ws: seq<seq<(nat, bool)>> := PasteWrites(w, start, other);
    PicAt(PastedGrid(q, start, other), row, col);
    PicAt(q, row, col);
    forall r, c | 0 <= r < |ws| && 0 <= c < |ws[r]|
      ensures ws[r][c].0 != M.Idx(row, col, w)
    {
      PasteWriteAt(w, start, other, r, c);
      M.IdxShift(top, left, r, c, w);
      M.RowMajorInjective(top + r, left + c, row, col, w);
    }
    FamilyMiss(q.cells, ws, M.Idx(row, col, w));
  }

  /**
   * `step` on a side s divisible by n: `bump_size` makes the side s/n*(n+1),
   * and the step goes through exactly when one output was pushed per block.
   */
  lemma StepSize(p: Pattern, n: nat, rules: seq<(Pattern, Pattern)>)
    requires n > 0 && p.size % n == 0
    ensures BumpedGrid(p, n).size == Quot(p.size, n) * (n + 1)
    ensures Quot(BumpedGrid(p, n).size, n + 1) == Quot(p.size, n)
    ensures StepP(p, n, rules).Some? <==> |AllOuts(p, n, rules, Quot(p.size, n))| == Quot(p.size, n) * Quot(p.size, n)
    ensures StepP(p, n, rules).Some? ==> StepP(p, n, rules).value.size == Quot(p.size, n) * (n + 1)
  {
    var k := Quot(p.size, n);
    OffsetIsProduct(k, k);
    assert p.size == k * n;
    assert k * n + k == k * (n + 1);
    M.DivWindow(k * (n + 1), n + 1, k);
  }

  // ---------------------------------------------------------------------
  // `interpret` and `Debug`: a pattern read from text and written back.

  /** The writes of `interpret`: the k-th cell value to bit k. */
  function Numbered(vals: seq<bool>): (ws: seq<(nat, bool)>)
    ensures |ws| == |vals|
    ensures forall k :: 0 <= k < |ws| ==> ws[k] == (k, vals[k])
  {
    seq(|vals|, k requires 0 <= k < |vals| => (k, vals[k]))
  }

  /**
   * `Grid::interpret(pattern)`: the cells of the trimmed pattern in reading
   * order, '#' set, written into a new vector of one cell; the side is the
   * position of the first separator.  None where `interpret` panics: a byte
   * that is neither a cell nor a separator, or no separator after byte 0.
   */
  ghost function InterpretP(pattern: string): (r: Option<Pattern>)
    ensures r.Some? ==> r.value.size > 0 && |r.value.cells| >= 64
  {
    var t := Trim(pattern);
    if !M.Legal(t) || M.FirstCols(t) == 0 then None
    else Some(Pattern(Writes(B.Zeros(64), Numbered(M.CellValues(t, false, true))), M.FirstCols(t)))
  }

  /** `Debug` of a grid: each row's pixels as '#' or '.', rows joined by "/". */
  function Debug(p: Pattern): string
  {
    M.Render(Pic(p), '/')
  }

  /** After `interpret`'s writes bit k holds the k-th cell, and every later bit is clear. */
  lemma NumberedAt(vals: seq<bool>, k: nat)
    ensures B.At(Writes(B.Zeros(64), Numbered(vals)), k) == (k < |vals| && vals[k])
  {
    var ws := Numbered(vals);
    WritesAt(B.Zeros(64), ws, k);
    if k < |vals| {
      LastWriteOnce(ws, k, B.At(B.Zeros(64), k));
    } else {
      LastWriteMissing(ws, k, B.At(B.Zeros(64), k));
    }
  }

  /** One more cell read by `interpret` is one more `set`, at the next index. */
  lemma NumberedNext(vals: seq<bool>, v: bool)
    ensures Writes(B.Zeros(64), Numbered(vals + [v])) == SetBit(Writes(B.Zeros(64), Numbered(vals)), |vals|, v)
  {
    var ws := Numbered(vals + [v]);
    assert ws[..|ws| - 1] == Numbered(vals);
  }

  /** At most 64 cells keep `interpret`'s vector one cell long. */
  lemma NumberedOneCell(vals: seq<bool>)
    requires |vals| <= 64
    ensures |Writes(B.Zeros(64), Numbered(vals))| == 64
  {
    WritesOneCell(B.Zeros(64), Numbered(vals));
  }

  /**
   * `interpret` reads the rendering of an n-by-n picture, n at least 2,
   * back as a grid of side n with that picture, tidy when it fits one cell;
   * so `Debug` of what it reads is the rendering again.
   */
  lemma InterpretRendering(g: seq<seq<bool>>, n: nat)
    requires M.Shaped(g, n, n) && n >= 2
    ensures InterpretP(M.Render(g, '/')).Some?
    ensures InterpretP(M.Render(g, '/')).value.size == n
    ensures Pic(InterpretP(M.Render(g, '/')).value) == g
    ensures Debug(InterpretP(M.Render(g, '/')).value) == M.Render(g, '/')
    ensures n * n <= 64 ==> Tidy(InterpretP(M.Render(g, '/')).value)
  {
    var s := M.Render(g, '/');
    M.InterpretReadsRendering(g, n, n);
    var vals := M.CellValues(s, false, true);
    var p := InterpretP(s).value;
    assert p.cells == Writes(B.Zeros(64), Numbered(vals)) && p.size == n;
    forall r: nat, c: nat | r < n && c < n
      ensures B.At(p.cells, M.Idx(r, c, n)) == g[r][c]
    {
      PixelBelow(r, c, n, n * n);
      NumberedAt(vals, M.Idx(r, c, n));
      assert g[r][c] == M.Cells(vals, false, n, n)[r][c];
    }
    PicEq(p, g);
    if n * n <= 64 {
      NumberedOneCell(vals);
      forall k | n * n <= k < 64
        ensures !p.cells[k]
      {
        NumberedAt(vals, k);
      }
    }
  }

  /** `interpret` of `Debug` of a tidy grid of side at least 2 is that grid. */
  lemma InterpretDebug(p: Pattern)
    requires Tidy(p) && p.size >= 2
    ensures InterpretP(Debug(p)) == Some(p)
  {
    InterpretRendering(Pic(p), p.size);
    TidyEq(InterpretP(Debug(p)).value, p);
  }

  /** The grid ".#/.#" of the tests: bits 1 and 3 of one cell (0b1010), side 2. */
  function ExampleGrid(): (p: Pattern)
    ensures p.size == 2 && |p.cells| == 64
  {
    Pattern(B.Zeros(64)[1 := true][3 := true], 2)
  }

  lemma ExampleGridPic()
    ensures Pic(ExampleGrid()) == [[false, true], [false, true]] && Tidy(ExampleGrid())
  {
    PicEq(ExampleGrid(), [[false, true], [false, true]]);
  }

  /** Two rows rendered: the first, "/", the second. */
  lemma RenderTwo(a: seq<bool>, b: seq<bool>)
    ensures M.Render([a, b], '/') == M.RowText(a) + "/" + M.RowText(b)
  {
    assert [a, b][..1] == [a];
  }

  /** Three rows rendered, joined by "/". */
  lemma RenderThree(a: seq<bool>, b: seq<bool>, c: seq<bool>)
    ensures M.Render([a, b, c], '/') == M.RowText(a) + "/" + M.RowText(b) + "/" + M.RowText(c)
  {
    assert [a, b, c][..2] == [a, b];
    RenderTwo(a, b);
  }

  /** A tidy grid of side at least 2 whose picture renders as s is what `interpret(s)` reads. */
  lemma ReadsAs(s: string, p: Pattern, g: seq<seq<bool>>)
    requires Tidy(p) && p.size >= 2 && Pic(p) == g && M.Render(g, '/') == s
    ensures InterpretP(s) == Some(p)
  {
    InterpretDebug(p);
  }

  /** Test `grid_interpret`: ".#/.#" sets bits 1 and 3 of one cell (0b1010), side 2. */
  lemma InterpretExample()
    ensures InterpretP(".#/.#") == Some(ExampleGrid())
  {
    ExampleGridPic();
    M.TransposeExample();
    ReadsAs(".#/.#", ExampleGrid(), [[false, true], [false, true]]);
  }

  /** Test `grid_dbg_1`: "../.." reads and prints back. */
  lemma DebugExample1()
    ensures InterpretP("../..").Some? && Debug(InterpretP("../..").value) == "../.."
  {
    var g := [[false, false], [false, false]];
    RenderTwo(g[0], g[1]);
    assert M.RowText([false, false]) == "..";
    assert M.Render(g, '/') == "../..";
    InterpretRendering(g, 2);
  }

  /** Test `grid_dbg_2`: ".#/#." reads and prints back. */
  lemma DebugExample2()
    ensures InterpretP(".#/#.").Some? && Debug(InterpretP(".#/#.").value) == ".#/#."
  {
    var g := [[false, true], [true, false]];
    RenderTwo(g[0], g[1]);
    assert M.RowText([false, true]) == ".#";
    assert M.RowText([true, false]) == "#.";
    assert M.Render(g, '/') == ".#/#.";
    InterpretRendering(g, 2);
  }

  /** Test `grid_dbg_3`: ".#./..#/..." reads and prints back. */
  lemma DebugExample3()
    ensures InterpretP(".#./..#/...").Some? && Debug(InterpretP(".#./..#/...").value) == ".#./..#/..."
  {
    var g := [[false, true, false], [false, false, true], [false, false, false]];
    RenderThree(g[0], g[1], g[2]);
    assert M.RowText([false, true, false]) == ".#.";
    assert M.RowText([false, false, true]) == "..#";
    assert M.RowText([false, false, false]) == "...";
    assert M.Render(g, '/') == ".#./..#/...";
    InterpretRendering(g, 3);
  }

  /** Test `grid_transpose`: the transpose of ".#/.#" is "../##". */
  lemma TransposeExample()
    ensures InterpretP("../##").Some? && TransposedGrid(ExampleGrid()) == InterpretP("../##").value
  {
    var p := ExampleGrid();
    ExampleGridPic();
    TransposedPic(p);
    TransposedTidy(p);
    M.TransposeExample();
    ReadsAs("../##", TransposedGrid(p), [[false, false], [true, true]]);
  }

  /** Test `grid_rotate90`: a quarter turn of ".#/.#" is "../##". */
  lemma RotateExample()
    ensures InterpretP("../##").Some? && RotatedGrid(ExampleGrid()) == InterpretP("../##").value
  {
    var p := ExampleGrid();
    ExampleGridPic();
    RotatedPic(p);
    M.TransposeExample();
    ReadsAs("../##", RotatedGrid(p), [[false, false], [true, true]]);
  }

  /** Test `grid_reverse_rows`: ".#/.#" with its rows mirrored is "#./#.". */
  lemma ReverseExample()
    ensures InterpretP("#./#.").Some? && ReversedGrid(ExampleGrid()) == InterpretP("#./#.").value
  {
    var p := ExampleGrid();
    ExampleGridPic();
    ReversedPic(p);
    ReversedTidy(p);
    M.ReverseRowsExample();
    ReadsAs("#./#.", ReversedGrid(p), [[true, false], [true, false]]);
  }

  /** The one insert of `bump_size(2)` on "../.#": a clear bit at 1 moves bit 3 to bit 4. */
  lemma BumpExampleCells()
    ensures Inserted(B.Zeros(64)[3 := true], 1, false) == B.Zeros(64)[4 := true]
  {
    var c := B.Zeros(64)[3 := true];
    var r := Inserted(c, 1, false);
    assert !B.At(c, 63) && ChainEnd(c, 0) == 0;
    assert Carried(c, 1) == c;
    assert |MakeSpaced(c, 1)| == |Grown(c, 1)| == 64;
    assert |r| == 64;
    forall j | 0 <= j < 64
      ensures r[j] == B.Zeros(64)[4 := true][j]
    {
      InsertedAt(c, 1, false, j);
    }
  }

  /** "../.#" read: bit 3 set, side 2. */
  lemma BumpBefore()
    ensures InterpretP("../.#") == Some(Pattern(B.Zeros(64)[3 := true], 2))
  {
    var p := Pattern(B.Zeros(64)[3 := true], 2);
    var g := [[false, false], [false, true]];
    PicEq(p, g);
    assert Tidy(p);
    RenderTwo(g[0], g[1]);
    assert M.RowText([false, false]) == "..";
    assert M.RowText([false, true]) == ".#";
    ReadsAs("../.#", p, g);
  }

  lemma BumpAfterGrid()
    ensures var q := Pattern(B.Zeros(64)[4 := true], 3);
      Tidy(q) && Pic(q) == [[false, false, false], [false, true, false], [false, false, false]]
  {
    var q := Pattern(B.Zeros(64)[4 := true], 3);
    PicEq(q, [[false, false, false], [false, true, false], [false, false, false]]);
  }

  /** ".../.#./..." read: bit 4 set, side 3. */
  lemma BumpAfter()
    ensures InterpretP(".../.#./...") == Some(Pattern(B.Zeros(64)[4 := true], 3))
  {
    var q := Pattern(B.Zeros(64)[4 := true], 3);
    var h := [[false, false, false], [false, true, false], [false, false, false]];
    BumpAfterGrid();
    RenderThree(h[0], h[1], h[2]);
    assert M.RowText([false, true, false]) == ".#.";
    assert M.RowText([false, false, false]) == "...";
    assert M.Render(h, '/') == ".../.#./...";
    ReadsAs(".../.#./...", q, h);
  }

  /** Test `grid_bump_size_1`: `bump_size(2)` of "../.#" is ".../.#./...". */
  lemma BumpExample()
    ensures InterpretP("../.#").Some? && InterpretP(".../.#./...").Some?
    ensures BumpedGrid(InterpretP("../.#").value, 2) == InterpretP(".../.#./...").value
  {
    var p := Pattern(B.Zeros(64)[3 := true], 2);
    var q := Pattern(B.Zeros(64)[4 := true], 3);
    BumpBefore();
    BumpAfter();
    BumpExampleCells();
    assert Quot(2, 2) == 1 && BumpAt(0, 2) == 1;
    assert Bumped(p.cells, 2, 0) == p.cells;
    assert Bumped(p.cells, 2, 1) == q.cells;
  }

  // ---------------------------------------------------------------------
  // The `Grid` object.

  class Grid {
    var grid: BitVec
    var size: nat

    ghost predicate Valid()
      reads this, grid
    {
      grid.Valid()
    }

    function Value(): Pattern
      reads this, grid
    {
      Pattern(grid.cells, size)
    }

    /** `Grid::new(size)`: an empty vector. */
    constructor (size: nat)
      ensures Valid() && fresh(grid) && Value() == Pattern(B.Zeros(64), size)
    {
      grid := new BitVec();
      this.size := size;
    }

    /** `get(row, col)`. */
    function Get(row: nat, col: nat): bool
      reads this, grid
    {
      grid.Get(M.Idx(row, col, size))
    }

    /** `set(row, col, v)`. */
    method Set(row: nat, col: nat, v: bool)
      modifies grid
      requires Valid()
      ensures Valid() && grid.cells == SetBit(old(grid.cells), M.Idx(row, col, size), v)
    {
      grid.Set(M.Idx(row, col, size), v);
    }

    /** `transpose`: writes every pixel into a new grid, which then replaces this one. */
    method Transpose()
      modifies this
      requires Valid()
      ensures Valid() && fresh(grid) && Value() == TransposedGrid(old(Value()))
    {
      var g := new Grid(size);
      ghost var p := Value();
      ghost var ws := TransposeWrites(p);
      for row := 0 to size
        invariant g.Valid() && fresh(g.grid) && g.grid != grid && g.size == size && Value() == p
        invariant g.grid.cells == Writes(B.Zeros(64), M.Flatten(ws[..row]))
      {
        FlattenNext(ws, row);
        for col := 0 to size
          invariant g.Valid() && fresh(g.grid) && g.grid != grid && g.size == size && Value() == p
          invariant g.grid.cells == Writes(B.Zeros(64), M.Flatten(ws[..row]) + ws[row][..col])
        {
          TransposeNext(p, ws, row, col);
          g.Set(col, row, Get(row, col));
        }
      }
      assert ws[..size] == ws;
      grid := g.grid;
    }

    /** `reverse_rows`: each row is read out back to front, then written over itself. */
    method ReverseRows()
      modifies grid
      requires Valid()
      ensures Valid() && Value() == ReversedGrid(old(Value()))
    {
      ghost var p := Value();
      ghost var ws := ReverseWrites(p);
      for row := 0 to size
        invariant Valid() && Value().size == p.size
        invariant grid.cells == Writes(p.cells, M.Flatten(ws[..row]))
      {
        ReverseRowUnread(p, ws, row);
        var x := ReadRowBackwards(row, p);
        WriteRow(row, x, p, ws);
      }
      assert ws[..size] == ws;
    }

    /** The first half of one `reverse_rows` round: row `row` read from its last pixel to its first. */
    method ReadRowBackwards(row: nat, ghost p: Pattern) returns (x: seq<bool>)
      requires Valid() && p.size == size && row < size
      requires RowIntact(grid.cells, p, row)
      ensures |x| == size && forall i :: 0 <= i < size ==> x[i] == Mirror(p, row, i)
    {
      x := [];
      for c := 0 to size
        invariant |x| == c && forall i :: 0 <= i < c ==> x[i] == Mirror(p, row, i)
      {
        x := x + [Get(row, size - 1 - c)];
      }
    }

    /** The second half of one `reverse_rows` round: `x` written over row `row`, left to right. */
    method WriteRow(row: nat, x: seq<bool>, ghost p: Pattern, ghost ws: seq<seq<(nat, bool)>>)
      modifies grid
      requires Valid() && p.size == size && ws == ReverseWrites(p) && row < size
      requires grid.cells == Writes(p.cells, M.Flatten(ws[..row]))
      requires |x| == size && forall i :: 0 <= i < size ==> x[i] == Mirror(p, row, i)
      ensures Valid() && grid.cells == Writes(p.cells, M.Flatten(ws[..row + 1]))
    {
      FlattenNext(ws, row);
      for i := 0 to size
        invariant Valid()
        invariant grid.cells == Writes(p.cells, M.Flatten(ws[..row]) + ws[row][..i])
      {
        ReverseNext(p, ws, row, i);
        Set(row, i, x[i]);
      }
    }

    /** `rotate_90`: a quarter turn clockwise. */
    method Rotate90()
      modifies this
      requires Valid()
      ensures Valid() && fresh(grid) && Value() == RotatedGrid(old(Value()))
    {
      Transpose();
      ReverseRows();
    }

    /** `clone`: a grid of its own with the same value. */
    constructor Clone(other: Grid)
      requires other.Valid()
      ensures Valid() && fresh(grid) && Value() == other.Value()
    {
      grid := new BitVec.Copy(other.grid);
      size := other.size;
    }

    /** A grid over a vector already built. */
    constructor FromBits(bits: BitVec, size: nat)
      requires bits.Valid()
      ensures Valid() && grid == bits && Value() == Pattern(bits.cells, size)
    {
      grid := bits;
      this.size := size;
    }

    /** `Grid::interpret(pattern)`; None where it panics. */
    static method Interpret(pattern: string) returns (g: Option<Grid>)
      ensures g.None? <==> InterpretP(pattern).None?
      ensures g.Some? ==> fresh(g.value) && g.value.Valid() && g.value.Value() == InterpretP(pattern).value
    {
      var t := Trim(pattern);
      var bits := new BitVec();
      var size := 0;
      var idx := 0;
      for i := 0 to |t|
        invariant fresh(bits) && bits.Valid()
        invariant idx == |M.CellValues(t[..i], false, true)|
        invariant bits.cells == Writes(B.Zeros(64), Numbered(M.CellValues(t[..i], false, true)))
        invariant size == M.FirstCols(t[..i]) && M.Legal(t[..i])
      {
        M.InterpretStep(t, i, false, true);
        ghost var vals := M.CellValues(t[..i], false, true);
        if M.IsSeparator(t[i]) {
          assert M.CellValues(t[..i + 1], false, true) == vals + [] == vals;
          if size == 0 {
            size := i;
          }
          continue;
        }
        if t[i] != M.ON && t[i] != M.OFF {
          assert !M.Legal(t);
          return None;
        }
        assert M.CellValues(t[..i + 1], false, true) == vals + [t[i] == M.ON];
        NumberedNext(vals, t[i] == M.ON);
        bits.Set(idx, t[i] == M.ON);
        idx := idx + 1;
      }
      assert t[..|t|] == t;
      if size == 0 {
        return None;
      }
      var r := new Grid.FromBits(bits, size);
      g := Some(r);
    }

    /** `reversed_rows`: a reversed copy, this grid unchanged. */
    method ReversedRows() returns (a: Grid)
      requires Valid()
      ensures fresh(a) && fresh(a.grid) && a.Valid() && a.Value() == ReversedGrid(Value())
    {
      a := new Grid.Clone(this);
      a.ReverseRows();
    }

    /** `load_from(start, other)`: pixel (r, c) set from bit start + r*other.size + c of other. */
    method LoadFrom(start: nat, other: Pattern)
      modifies grid
      requires Valid()
      ensures Valid() && Value() == LoadedGrid(old(Value()), start, other)
    {
      ghost var p := Value();
      ghost var ws := LoadWrites(size, start, other);
      for row := 0 to size
        invariant Valid() && size == p.size && grid.cells == Writes(p.cells, M.Flatten(ws[..row]))
      {
        FlattenNext(ws, row);
        for col := 0 to size
          invariant Valid() && size == p.size && grid.cells == Writes(p.cells, M.Flatten(ws[..row]) + ws[row][..col])
        {
          LoadNext(p, start, other, ws, row, col);
          LoadPixel(start, other, row, col);
        }
      }
      assert ws[..size] == ws;
    }

    /** One pixel of `load_from`. */
    method LoadPixel(start: nat, other: Pattern, row: nat, col: nat)
      modifies grid
      requires Valid() && row < size && col < size
      ensures Valid() && grid.cells == SetBit(old(grid.cells), M.Idx(row, col, size), Fetched(other, start, row, col))
    {
      var o := B.At(other.cells, start + M.Idx(row, col, other.size));
      Set(row, col, o);
    }

    /** `set_from(start, other)`: bit start + r*size + c set from pixel (r, c) of other. */
    method SetFrom(start: nat, other: Pattern)
      modifies grid
      requires Valid()
      ensures Valid() && Value() == PastedGrid(old(Value()), start, other)
    {
      ghost var p := Value();
      ghost var ws := PasteWrites(size, start, other);
      for row := 0 to other.size
        invariant Valid() && size == p.size && grid.cells == Writes(p.cells, M.Flatten(ws[..row]))
      {
        FlattenNext(ws, row);
        for col := 0 to other.size
          invariant Valid() && size == p.size && PasteState(grid.cells, p, start, other, row, col)
        {
          PastePixel(start, other, row, col, p);
        }
      }
      assert ws[..other.size] == ws;
    }

    /** One pixel of `set_from`. */
    method PastePixel(start: nat, other: Pattern, row: nat, col: nat, ghost p: Pattern)
      modifies grid
      requires Valid() && size == p.size && col < other.size && PasteState(grid.cells, p, start, other, row, col)
      ensures Valid() && PasteState(grid.cells, p, start, other, row, col + 1)
    {
      var o := B.At(other.cells, M.Idx(row, col, other.size));
      var idx := start + M.Idx(row, col, size);
      ghost var before := grid.cells;
      grid.Set(idx, o);
      PasteStep(before, grid.cells, p, start, other, row, col, idx, o);
    }

    /** `bump_size(d)`: a clear bit inserted at increased_by + i*d + 1 for each i below size/d. */
    method BumpSize(d: nat)
      modifies this, grid
      requires Valid() && d > 0 && size % d == 0
      ensures grid == old(grid) && Valid() && Value() == BumpedGrid(old(Value()), d)
    {
      ghost var p := Value();
      var rounds := size / d;
      assert rounds == Quot(size, d);
      var increasedBy := 0;
      for i := 0 to rounds
        invariant grid == old(grid) && size == p.size && Valid()
        invariant increasedBy == i && grid.cells == Bumped(p.cells, d, i)
      {
        BumpRound(p, d, i, increasedBy);
        increasedBy := increasedBy + 1;
      }
      size := size + rounds;
    }

    /** Round i of `bump_size(d)`: a clear bit inserted at increased_by + i*d + 1. */
    method BumpRound(ghost p: Pattern, d: nat, i: nat, increasedBy: nat)
      modifies grid
      requires Valid() && increasedBy == i && grid.cells == Bumped(p.cells, d, i)
      ensures Valid() && grid.cells == Bumped(p.cells, d, i + 1)
    {
      var at := increasedBy + i * d + 1;
      assert at == BumpAt(i, d);
      grid.Insert(at, false);
    }

    /** The rules loop of `step`: every rule matched against this block, the matching outputs collected. */
    method Scan(rules: seq<(Pattern, Pattern)>) returns (outs: seq<Pattern>)
      modifies this
      requires Valid() && (size == 2 || size == 3)
      requires forall k :: 0 <= k < |rules| ==> rules[k].0.size == size
      ensures Valid() && outs == ScanOuts(old(Value()), rules)
    {
      ghost var goal := ScanOuts(Value(), rules);
      assert rules[0..] == rules;
      outs := [];
      assert outs + ScanOuts(Value(), rules[0..]) == goal;
      for i := 0 to |rules|
        invariant Valid() && size == old(size)
        invariant outs + ScanOuts(Value(), rules[i..]) == goal
      {
        ScanStep(Value(), rules, i);
        ghost var rest := ScanOuts(Value(), rules[i..]);
        var found := MatchRule(rules[i]);
        ghost var tail := ScanOuts(Value(), rules[i + 1..]);
        SeqAssoc(outs, found, tail);
        outs := outs + found;
      }
      assert rules[|rules|..] == [];
      assert outs + [] == outs;
    }

    /** One rule of the rules loop: its output if `matches` says so. */
    method MatchRule(rule: (Pattern, Pattern)) returns (found: seq<Pattern>)
      modifies this
      requires Valid() && (size == 2 || size == 3) && rule.0.size == size
      ensures Valid() && size == old(size)
      ensures var m := MatchedGrid(old(Value()), rule.0); found == (if m.0 then [rule.1] else []) && Value() == m.1
    {
      var m := Matches(rule.0);
      found := if m then [rule.1] else [];
    }

    /** `step(n, rules)`: false where the source panics, the number of outputs not being one per block. */
    method Step(n: nat, rules: seq<(Pattern, Pattern)>) returns (ok: bool)
      modifies this, grid
      requires Valid() && (n == 2 || n == 3) && size % n == 0
      requires forall k :: 0 <= k < |rules| ==> rules[k].0.size == n
      ensures ok == StepP(old(Value()), n, rules).Some?
      ensures ok ==> Valid() && Value() == StepP(old(Value()), n, rules).value
    {
      ghost var p := Value();
      var outs := ScanBlocks(n, rules);
      StepIsAssemble(p, n, rules, outs);
      ok := Rebuild(n, outs);
    }

    /** The second half of `step`: `bump_size(n)`, then the outputs pasted onto blocks of side n+1. */
    method Rebuild(n: nat, outs: seq<Pattern>) returns (ok: bool)
      modifies this, grid
      requires Valid() && n > 0 && size % n == 0
      ensures ok == Assemble(BumpedGrid(old(Value()), n), n + 1, outs).Some?
      ensures ok ==> Valid() && Value() == Assemble(BumpedGrid(old(Value()), n), n + 1, outs).value
    {
      BumpSize(n);
      ok := PasteBlocks(outs, n + 1);
    }

    /** The first half of `step`: every block, row of blocks by row of blocks, through the rules loop. */
    method ScanBlocks(n: nat, rules: seq<(Pattern, Pattern)>) returns (outs: seq<Pattern>)
      requires Valid() && (n == 2 || n == 3)
      requires forall k :: 0 <= k < |rules| ==> rules[k].0.size == n
      ensures outs == AllOuts(Value(), n, rules, Quot(size, n))
    {
      outs := [];
      for col := 0 to Quot(size, n)
        invariant outs == AllOuts(Value(), n, rules, col)
      {
        var found := ScanRow(n, col, rules);
        outs := outs + found;
      }
    }

    /** The inner loop of the first half of `step`: the blocks of block row col, left to right. */
    method ScanRow(n: nat, col: nat, rules: seq<(Pattern, Pattern)>) returns (outs: seq<Pattern>)
      requires Valid() && (n == 2 || n == 3)
      requires forall k :: 0 <= k < |rules| ==> rules[k].0.size == n
      ensures outs == RowOuts(Value(), n, rules, col, Quot(size, n))
    {
      outs := [];
      for row := 0 to Quot(size, n)
        invariant outs == RowOuts(Value(), n, rules, col, row)
      {
        var found := BlockOutputs(n, col, row, rules);
        outs := outs + found;
      }
    }

    /** The second half of `step`: the outputs, in order, onto the blocks of side m; false when they do not fit. */
    method PasteBlocks(outs: seq<Pattern>, m: nat) returns (ok: bool)
      modifies grid
      requires Valid() && m > 0
      ensures ok == Assemble(old(Value()), m, outs).Some?
      ensures ok ==> Valid() && Value() == Assemble(old(Value()), m, outs).value
    {
      ghost var q := Value();
      var b := Quot(size, m);
      var rest, full := PasteAll(q, outs, m, b);
      if !full {
        return false;
      }
      ok := rest == [];
    }

    /** The block rows of `step`'s second half in turn; false when the outputs run out on the way. */
    method PasteAll(ghost q: Pattern, outs: seq<Pattern>, m: nat, b: nat) returns (rest: seq<Pattern>, full: bool)
      modifies grid
      requires Valid() && q == Value()
      ensures full == (Offset(b, b) <= |outs|)
      ensures full ==> Valid() && RowsDone(Value(), q, m, b, outs, b, rest)
    {
      rest := outs;
      assert RowsDone(Value(), q, m, b, outs, 0, rest);
      for i := 0 to b
        invariant Valid() && q.size == size && RowsDone(Value(), q, m, b, outs, i, rest)
      {
        rest, full := PasteRow(q, outs, m, b, i, rest);
        if !full {
          OffsetMono(i + 1, b, b);
          return rest, false;
        }
      }
      full := true;
    }

    /** One row of blocks of `step`'s second half; false when the outputs run out on the way. */
    method PasteRow(ghost q: Pattern, ghost outs: seq<Pattern>, m: nat, b: nat, i: nat, rest0: seq<Pattern>)
        returns (rest: seq<Pattern>, full: bool)
      modifies grid
      requires Valid() && q.size == size && RowsDone(Value(), q, m, b, outs, i, rest0)
      ensures full == (Offset(i + 1, b) <= |outs|)
      ensures full ==> Valid() && RowsDone(Value(), q, m, b, outs, i + 1, rest)
    {
      ghost var base := PasteRows(q, m, b, outs, i);
      rest := rest0;
      assert ColsDone(Value(), base, m, b, outs, i, 0, rest);
      for j := 0 to b
        invariant Valid() && base.size == size && ColsDone(Value(), base, m, b, outs, i, j, rest)
      {
        var got;
        rest, got := PasteNextBlock(base, outs, m, b, i, j, rest);
        if !got {
          return rest, false;
        }
      }
      PasteRowsNext(q, m, b, outs, i);
      full := true;
    }

    /** The next output onto block (i, j), unless none is left (where `outs.remove(0)` panics). */
    method PasteNextBlock(ghost base: Pattern, ghost outs: seq<Pattern>, m: nat, ghost b: nat, i: nat, j: nat, rest0: seq<Pattern>)
        returns (rest: seq<Pattern>, got: bool)
      modifies grid
      requires Valid() && base.size == size && ColsDone(Value(), base, m, b, outs, i, j, rest0)
      ensures got == (Offset(i, b) + j < |outs|)
      ensures got ==> Valid() && ColsDone(Value(), base, m, b, outs, i, j + 1, rest)
    {
      if rest0 == [] {
        return rest0, false;
      }
      PasteBlock(base, outs, m, b, i, j, rest0[0]);
      rest := rest0[1..];
      got := true;
    }

    /** One block of `step`'s second half: `next` onto block (i, j), its top-left bit at (i*m)*size + j*m. */
    method PasteBlock(ghost base: Pattern, ghost outs: seq<Pattern>, m: nat, ghost b: nat, i: nat, j: nat, next: Pattern)
      modifies grid
      requires Valid() && base.size == size && Offset(i, b) + j < |outs| && next == outs[Offset(i, b) + j]
      requires Value() == PasteCols(base, m, b, outs, i, j)
      ensures Valid() && Value() == PasteCols(base, m, b, outs, i, j + 1)
    {
      ghost var before := Value();
      var start := M.Idx(Scaled(i, m), Scaled(j, m), size);
      PasteColsNext(base, m, b, outs, i, j);
      SetFrom(start, next);
      assert Value() == PastedGrid(before, start, next);
    }

    /** The outputs pushed for one block: a new grid loaded from the block, then the rules loop. */
    method BlockOutputs(n: nat, col: nat, row: nat, rules: seq<(Pattern, Pattern)>) returns (found: seq<Pattern>)
      requires Valid() && (n == 2 || n == 3)
      requires forall k :: 0 <= k < |rules| ==> rules[k].0.size == n
      ensures found == ScanOuts(BlockAt(Value(), n, col, row), rules)
    {
      var v := Value();
      var idx := col * n * size + row * n;
      assert idx == M.Idx(Scaled(col, n), Scaled(row, n), v.size);
      var g := new Grid(n);
      g.LoadFrom(idx, v);
      assert g.Value() == BlockAt(v, n, col, row);
      found := g.Scan(rules);
    }

    /** `matches(other)`: the eight comparisons, turning this grid between them. */
    method Matches(other: Pattern) returns (r: bool)
      modifies this
      requires Valid() && (size == 2 || size == 3) && other.size == size
      ensures Valid() && (r, Value()) == MatchedGrid(old(Value()), other)
    {
      ghost var goal := MatchedGrid(Value(), other);
      var a := ReversedRows();
      if Value() == other || a.Value() == other {
        return true;
      }
      assert goal == MatchFrom(RotatedGrid(Value()), other, 1);
      Rotate90();
      a := ReversedRows();
      if Value() == other || a.Value() == other {
        return true;
      }
      assert goal == MatchFrom(RotatedGrid(Value()), other, 2);
      Rotate90();
      a := ReversedRows();
      if Value() == other || a.Value() == other {
        return true;
      }
      assert goal == MatchFrom(RotatedGrid(Value()), other, 3);
      Rotate90();
      a := ReversedRows();
      r := Value() == other || a.Value() == other;
    }
  }
}
