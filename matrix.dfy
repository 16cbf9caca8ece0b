/**
 * The row-major `Matrix` and the signed-coordinate, auto-growing `Grid` of
 * src/matrix.rs.  The storage is a `VecLike` sequence read with the element
 * type's default past its end; slot r*cols + c holds cell (r, c).
 */
module Matrices {
  import opened Wrappers
  import opened Strings
  import V = VecLike
  import B = BitVectors

  function Max(a: nat, b: nat): nat { if a >= b then a else b }

  /** Storage slot of cell (r, c) in a row-major layout of width w. */
  function Idx(r: nat, c: nat, w: nat): nat { r * w + c }

  /** Cell (r, c) of a row-major storage of width w. */
  function CellAt<T>(data: seq<T>, d: T, w: nat, r: nat, c: nat): T
  {
    V.Get(data, Idx(r, c, w), d)
  }

  /** Storage from slot n onwards holds only the default. */
  ghost predicate TailDefault<T>(data: seq<T>, n: nat, d: T)
  {
    forall k :: n <= k < |data| ==> data[k] == d
  }

  lemma TailGet<T>(data: seq<T>, n: nat, d: T, k: nat)
    requires TailDefault(data, n, d) && n <= k
    ensures V.Get(data, k, d) == d
  {
  }

  lemma MulMono(a: nat, b: nat, w: nat)
    requires a <= b
    ensures a * w <= b * w
  {
  }

  lemma NatMul(a: nat, b: nat)
    ensures a * b >= 0
  {
  }

  /** One more row of width w fits below a lower row count. */
  lemma MulStep(a: nat, b: nat, w: nat)
    ensures a < b ==> a * w + w <= b * w
  {
    if a < b {
      MulMono(a + 1, b, w);
    }
  }

  /** A place below k runs of m lies in one of the first k runs. */
  lemma DivBelow(x: nat, m: nat, k: nat)
    requires m > 0 && x < k * m
    ensures x / m < k
  {
    var q := x / m;
    assert x == q * m + x % m;
    MulStep(k - 1, q, m);
    assert (k - 1) * m + m == k * m;
  }

  /** Offsets add: the cell (r, c) of the window at (a, b). */
  lemma IdxShift(a: nat, b: nat, r: nat, c: nat, w: nat)
    ensures Idx(a, b, w) + Idx(r, c, w) == Idx(a + r, b + c, w)
  {
    assert (a + r) * w == a * w + r * w;
  }

  /** x lies in the t-th run of m exactly when x / m is t, and then x % m is its place in the run. */
  lemma DivWindow(x: nat, m: nat, t: nat)
    requires m > 0
    ensures (t * m <= x < t * m + m) <==> x / m == t
    ensures x / m == t ==> x % m == x - t * m
  {
    var q := x / m;
    assert x == q * m + x % m;
    MulStep(q, t, m);
    MulStep(t, q, m);
  }

  lemma WiderRows(a: nat, cols: nat, w: nat)
    requires w == cols + 1
    ensures a * w == a * cols + a
  {
  }

  lemma IdxInRows(r: nat, c: nat, w: nat, k: nat)
    requires r < k && c < w
    ensures Idx(r, c, w) < k * w
  {
    MulMono(r + 1, k, w);
  }

  lemma IdxBeyondRows(r: nat, c: nat, w: nat, k: nat)
    requires k <= r
    ensures k * w <= Idx(r, c, w)
  {
    MulMono(k, r, w);
  }

  lemma BeyondRowsDefault<T>(data: seq<T>, d: T, rows: nat, cols: nat, i: nat, j: nat)
    requires TailDefault(data, rows * cols, d) && rows <= i
    ensures CellAt(data, d, cols, i, j) == d
  {
    IdxBeyondRows(i, j, cols, rows);
  }

  lemma RowMajorInjective(i: nat, j: nat, r: nat, c: nat, w: nat)
    requires j < w && c < w && (i, j) != (r, c)
    ensures Idx(i, j, w) != Idx(r, c, w)
  {
    if i < r {
      IdxInRows(i, j, w, r);
      IdxBeyondRows(r, c, w, r);
    } else if r < i {
      IdxInRows(r, c, w, i);
      IdxBeyondRows(i, j, w, i);
    }
  }

  /** The rows x cols cells of a storage, as a grid of rows. */
  function Cells<T>(data: seq<T>, d: T, rows: nat, cols: nat): (g: seq<seq<T>>)
    ensures |g| == rows
    ensures forall r :: 0 <= r < rows ==> |g[r]| == cols
    ensures forall r, c :: 0 <= r < rows && 0 <= c < cols ==> g[r][c] == CellAt(data, d, cols, r, c)
  {
    seq(rows, r requires 0 <= r => seq(cols, c requires 0 <= c => CellAt(data, d, cols, r, c)))
  }

  /** Whether g has `rows` rows of `cols` cells each. */
  ghost predicate Shaped<T>(g: seq<seq<T>>, rows: nat, cols: nat)
  {
    |g| == rows && forall r :: 0 <= r < rows ==> |g[r]| == cols
  }

  // ---------------------------------------------------------------------
  // The matrix as a grid of rows, and what each operation does to it.

  /** Cells agreeing one by one make the same grid. */
  lemma CellsEq<T>(data: seq<T>, d: T, rows: nat, cols: nat, g: seq<seq<T>>)
    requires Shaped(g, rows, cols)
    requires forall r: nat, c: nat :: r < rows && c < cols ==> CellAt(data, d, cols, r, c) == g[r][c]
    ensures Cells(data, d, rows, cols) == g
  {
    var h := Cells(data, d, rows, cols);
    forall r | 0 <= r < rows
      ensures h[r] == g[r]
    {
      assert forall c :: 0 <= c < cols ==> h[r][c] == g[r][c];
    }
  }

  lemma MirroredCells<T>(s0: seq<T>, s: seq<T>, d: T, rows: nat, cols: nat)
    requires forall i: nat, j: nat :: i < rows && j < cols ==> CellAt(s, d, cols, i, j) == CellAt(s0, d, cols, i, cols - 1 - j)
    ensures Cells(s, d, rows, cols) == MirrorRows(Cells(s0, d, rows, cols))
  {
    CellsEq(s, d, rows, cols, MirrorRows(Cells(s0, d, rows, cols)));
  }

  /** A default row in front (insert_row_top). */
  function WithRowTop<T>(g: seq<seq<T>>, cols: nat, d: T): (h: seq<seq<T>>)
    ensures |h| == |g| + 1 && h[0] == V.Repeat(d, cols)
    ensures forall r :: 0 < r < |h| ==> h[r] == g[r - 1]
  {
    [V.Repeat(d, cols)] + g
  }

  /** A default row at the end (insert_row_bottom). */
  function WithRowBottom<T>(g: seq<seq<T>>, cols: nat, d: T): (h: seq<seq<T>>)
    ensures |h| == |g| + 1 && h[|g|] == V.Repeat(d, cols)
    ensures forall r :: 0 <= r < |g| ==> h[r] == g[r]
  {
    g + [V.Repeat(d, cols)]
  }

  /** A default cell inserted at position `at` of every row (insert_column_left/right). */
  function WithColumn<T>(g: seq<seq<T>>, at: nat, d: T): (h: seq<seq<T>>)
    requires forall r :: 0 <= r < |g| ==> at <= |g[r]|
    ensures |h| == |g|
    ensures forall r :: 0 <= r < |g| ==> |h[r]| == |g[r]| + 1 && h[r][at] == d
    ensures forall r, c :: 0 <= r < |g| && 0 <= c < at ==> h[r][c] == g[r][c]
    ensures forall r, c :: 0 <= r < |g| && at < c <= |g[r]| ==> h[r][c] == g[r][c - 1]
  {
    seq(|g|, r requires 0 <= r < |g| => g[r][..at] + [d] + g[r][at..])
  }

  /** Every row mirrored (reverse_rows). */
  function MirrorRows<T>(g: seq<seq<T>>): (h: seq<seq<T>>)
    ensures |h| == |g| && forall r :: 0 <= r < |g| ==> h[r] == V.Reversed(g[r])
  {
    seq(|g|, r requires 0 <= r < |g| => V.Reversed(g[r]))
  }

  /** The transpose of a square grid. */
  function Transposed<T>(g: seq<seq<T>>, n: nat): (h: seq<seq<T>>)
    requires Shaped(g, n, n)
    ensures Shaped(h, n, n)
    ensures forall i, j :: 0 <= i < n && 0 <= j < n ==> h[i][j] == g[j][i]
  {
    seq(n, i requires 0 <= i < n => seq(n, j requires 0 <= j < n => g[j][i]))
  }

  /** A clockwise quarter turn of a square grid (rotate_90). */
  function Rotated<T>(g: seq<seq<T>>, n: nat): (h: seq<seq<T>>)
    requires Shaped(g, n, n)
    ensures Shaped(h, n, n)
    ensures forall i, j :: 0 <= i < n && 0 <= j < n ==> h[i][j] == g[n - 1 - j][i]
  {
    MirrorRows(Transposed(g, n))
  }

  /** Mirroring twice gives the grid back (reverse_rows applied twice is the identity). */
  lemma MirrorRowsTwice<T>(g: seq<seq<T>>)
    ensures MirrorRows(MirrorRows(g)) == g
  {
    var h := MirrorRows(MirrorRows(g));
    forall r | 0 <= r < |g|
      ensures h[r] == g[r]
    {
      assert V.Reversed(V.Reversed(g[r])) == g[r];
    }
  }

  /** Transposing twice gives a square grid back. */
  lemma TransposedTwice<T>(g: seq<seq<T>>, n: nat)
    requires Shaped(g, n, n)
    ensures Transposed(Transposed(g, n), n) == g
  {
    var h := Transposed(Transposed(g, n), n);
    forall r | 0 <= r < n
      ensures h[r] == g[r]
    {
      assert forall c :: 0 <= c < n ==> h[r][c] == g[r][c];
    }
  }

  /** Four quarter turns give a square grid back. */
  lemma RotatedFourTimes<T>(g: seq<seq<T>>, n: nat)
    requires Shaped(g, n, n)
    ensures Rotated(Rotated(Rotated(Rotated(g, n), n), n), n) == g
  {
    var g1 := Rotated(g, n);
    var g2 := Rotated(g1, n);
    var g4 := Rotated(Rotated(g2, n), n);
    assert forall i, j :: 0 <= i < n && 0 <= j < n ==> g2[i][j] == g[n - 1 - i][n - 1 - j];
    forall r | 0 <= r < n
      ensures g4[r] == g[r]
    {
      assert forall c :: 0 <= c < n ==> g4[r][c] == g[r][c];
    }
  }

  // ---------------------------------------------------------------------
  // The storage rewrites of the insert_* operations, and what they do to cells.

  /** insert_row_top's storage: `cols` defaults in front. */
  lemma RowTopCells<T>(s: seq<T>, t: seq<T>, d: T, rows: nat, cols: nat)
    requires t == V.Repeat(d, cols) + s && TailDefault(s, rows * cols, d)
    ensures TailDefault(t, (rows + 1) * cols, d)
    ensures forall r: nat, c: nat :: c < cols ==>
              CellAt(t, d, cols, r, c) == if r == 0 then d else CellAt(s, d, cols, r - 1, c)
  {
    forall r: nat, c: nat | c < cols
      ensures CellAt(t, d, cols, r, c) == if r == 0 then d else CellAt(s, d, cols, r - 1, c)
    {
      V.GetAfterPrefix(s, cols, d, Idx(r, c, cols));
      if r > 0 {
        assert Idx(r, c, cols) == Idx(r - 1, c, cols) + cols;
      }
    }
    forall k | (rows + 1) * cols <= k < |t|
      ensures t[k] == d
    {
      V.GetAfterPrefix(s, cols, d, k);
    }
  }

  /** insert_row_bottom's storage: defaults written to slots start .. start+n-1, in order. */
  function WriteDefaults<T>(s: seq<T>, start: nat, n: nat, d: T): seq<T>
  {
    if n == 0 then s else V.Set(WriteDefaults(s, start, n - 1, d), start + n - 1, d, d)
  }

  /** Writing defaults over a default tail leaves every slot reading as before. */
  lemma {:induction false} WriteDefaultsReads<T>(s: seq<T>, start: nat, n: nat, d: T)
    requires TailDefault(s, start, d)
    ensures forall k: nat :: V.Get(WriteDefaults(s, start, n, d), k, d) == V.Get(s, k, d)
  {
    if n > 0 {
      WriteDefaultsReads(s, start, n - 1, d);
      forall k: nat
        ensures V.Get(WriteDefaults(s, start, n, d), k, d) == V.Get(s, k, d)
      {
        V.GetAfterSet(WriteDefaults(s, start, n - 1, d), start + n - 1, d, d, k);
      }
    }
  }

  lemma RowBottomCells<T>(s: seq<T>, d: T, rows: nat, cols: nat)
    requires TailDefault(s, rows * cols, d)
    ensures TailDefault(WriteDefaults(s, (rows + 1) * cols, cols, d), rows * cols, d)
    ensures forall r: nat, c: nat ::
              CellAt(WriteDefaults(s, (rows + 1) * cols, cols, d), d, cols, r, c) == CellAt(s, d, cols, r, c)
  {
    var t := WriteDefaults(s, (rows + 1) * cols, cols, d);
    MulMono(rows, rows + 1, cols);
    WriteDefaultsReads(s, (rows + 1) * cols, cols, d);
    forall k | rows * cols <= k < |t|
      ensures t[k] == d
    {
      assert V.Get(t, k, d) == V.Get(s, k, d);
    }
  }

  /**
   * The storage of insert_column_left (at == 0) and insert_column_right
   * (at == cols) after k rows: a default inserted at slot i*(cols+1) + at
   * for each row i < k, one row after the other.
   */
  function ColumnInserted<T>(s: seq<T>, d: T, w: nat, at: nat, k: nat): seq<T>
  {
    if k == 0 then s else V.InsertPadded(ColumnInserted(s, d, w, at, k - 1), Idx(k - 1, at, w), d, d)
  }

  /** Column of the old storage that column c of the widened one came from. */
  function FromColumn(c: nat, at: nat): nat
    requires c != at
  {
    if c < at then c else c - 1
  }

  /** Slots past the first k widened rows are the old slots, moved up by k. */
  lemma {:induction false} ColumnInsertedTail<T>(s: seq<T>, d: T, cols: nat, w: nat, at: nat, k: nat, j: nat)
    requires w == cols + 1 && at <= cols && k * w <= j
    ensures V.Get(ColumnInserted(s, d, w, at, k), j, d) == V.Get(s, j - k, d)
  {
    if k > 0 {
      assert k * w == (k - 1) * w + w;
      V.GetAfterInsert(ColumnInserted(s, d, w, at, k - 1), Idx(k - 1, at, w), d, d, j);
      ColumnInsertedTail(s, d, cols, w, at, k - 1, j - 1);
    }
  }

  /** Widening row k - 1 leaves the cells of the rows above it alone. */
  lemma ColumnInsertedEarlierRow<T>(s: seq<T>, d: T, w: nat, at: nat, k: nat, r: nat, c: nat)
    requires at < w && r + 1 < k && c < w
    ensures CellAt(ColumnInserted(s, d, w, at, k), d, w, r, c) == CellAt(ColumnInserted(s, d, w, at, k - 1), d, w, r, c)
  {
    var prev := ColumnInserted(s, d, w, at, k - 1);
    IdxInRows(r, c, w, k - 1);
    RowSpan(k - 1, w, at);
    V.GetAfterInsert(prev, Idx(k - 1, at, w), d, d, Idx(r, c, w));
  }

  /** The cells of the last widened row: the new default, or the old cell it came from. */
  lemma ColumnInsertedLastRow<T>(s: seq<T>, d: T, cols: nat, w: nat, at: nat, r: nat, c: nat)
    requires w == cols + 1 && at <= cols && c < w
    ensures CellAt(ColumnInserted(s, d, w, at, r + 1), d, w, r, c) ==
              if c == at then d else CellAt(s, d, cols, r, FromColumn(c, at))
  {
    var prev := ColumnInserted(s, d, w, at, r);
    var b := r * w;
    var p, j := b + at, b + c;
    assert Idx(r, at, w) == p && Idx(r, c, w) == j;
    V.GetAfterInsert(prev, p, d, d, j);
    if c != at {
      WiderRows(r, cols, w);
      var f := FromColumn(c, at);
      var i := b + f;
      ColumnInsertedTail(s, d, cols, w, at, r, i);
      assert i - r == Idx(r, f, cols);
    }
  }

  /** A cell of the first k widened rows: the new default, or the old cell it came from. */
  lemma {:induction false} ColumnInsertedCell<T>(s: seq<T>, d: T, cols: nat, w: nat, at: nat, k: nat, r: nat, c: nat)
    requires w == cols + 1 && at <= cols && r < k && c < w
    ensures CellAt(ColumnInserted(s, d, w, at, k), d, w, r, c) ==
              if c == at then d else CellAt(s, d, cols, r, FromColumn(c, at))
  {
    if r + 1 < k {
      ColumnInsertedEarlierRow(s, d, w, at, k, r, c);
      ColumnInsertedCell(s, d, cols, w, at, k - 1, r, c);
    } else {
      ColumnInsertedLastRow(s, d, cols, w, at, r, c);
    }
  }

  /** Past the widened rows the storage still holds only defaults. */
  lemma ColumnInsertedTailDefault<T>(s: seq<T>, d: T, rows: nat, cols: nat, w: nat, at: nat)
    requires w == cols + 1 && at <= cols && TailDefault(s, rows * cols, d)
    ensures TailDefault(ColumnInserted(s, d, w, at, rows), rows * w, d)
  {
    var t := ColumnInserted(s, d, w, at, rows);
    var n, m := rows * w, rows * cols;
    WiderRows(rows, cols, w);
    forall k | n <= k < |t|
      ensures t[k] == d
    {
      ColumnInsertedTailAt(s, d, rows, cols, w, at, n, m, k);
    }
  }

  /** One slot past the widened rows: it came from past the old rows, so it is a default. */
  lemma ColumnInsertedTailAt<T>(s: seq<T>, d: T, rows: nat, cols: nat, w: nat, at: nat, n: nat, m: nat, k: nat)
    requires w == cols + 1 && at <= cols && n == rows * w && m == rows * cols && n == m + rows
    requires TailDefault(s, m, d) && n <= k
    ensures V.Get(ColumnInserted(s, d, w, at, rows), k, d) == d
  {
    ColumnInsertedTail(s, d, cols, w, at, rows, k);
    TailGet(s, m, d, k - rows);
  }

  lemma BeyondWiderRows(r: nat, c: nat, w: nat, cols: nat, rows: nat)
    requires w == cols + 1 && rows <= r
    ensures rows * w <= Idx(r, c, w) && rows * cols + rows <= Idx(r, c, w)
    ensures 0 <= rows * cols && rows <= Idx(r, c, w)
  {
    IdxBeyondRows(r, c, w, rows);
    WiderRows(rows, cols, w);
  }

  /** A cell below the widened rows reads as default. */
  lemma ColumnInsertedBeyond<T>(s: seq<T>, d: T, rows: nat, cols: nat, w: nat, at: nat, r: nat, c: nat)
    requires w == cols + 1 && at <= cols && TailDefault(s, rows * cols, d)
    requires rows <= r && c < w
    ensures CellAt(ColumnInserted(s, d, w, at, rows), d, w, r, c) == d
  {
    var j, m := Idx(r, c, w), rows * cols;
    BeyondWiderRows(r, c, w, cols, rows);
    ColumnInsertedTail(s, d, cols, w, at, rows, j);
    TailGet(s, m, d, j - rows);
  }

  lemma ColumnInsertedCells<T>(s: seq<T>, d: T, rows: nat, cols: nat, w: nat, at: nat)
    requires w == cols + 1 && at <= cols && TailDefault(s, rows * cols, d)
    ensures TailDefault(ColumnInserted(s, d, w, at, rows), rows * w, d)
    ensures forall r: nat, c: nat :: c < w ==>
              CellAt(ColumnInserted(s, d, w, at, rows), d, w, r, c) ==
                if c == at then d else CellAt(s, d, cols, r, FromColumn(c, at))
    ensures Cells(ColumnInserted(s, d, w, at, rows), d, rows, w) == WithColumn(Cells(s, d, rows, cols), at, d)
  {
    var t := ColumnInserted(s, d, w, at, rows);
    ColumnInsertedTailDefault(s, d, rows, cols, w, at);
    forall r: nat, c: nat | c < w
      ensures CellAt(t, d, w, r, c) == if c == at then d else CellAt(s, d, cols, r, FromColumn(c, at))
    {
      if r < rows {
        ColumnInsertedCell(s, d, cols, w, at, rows, r, c);
      } else {
        ColumnInsertedBeyond(s, d, rows, cols, w, at, r, c);
        if c != at {
          BeyondRowsDefault(s, d, rows, cols, r, FromColumn(c, at));
        }
      }
    }
    CellsEq(t, d, rows, w, WithColumn(Cells(s, d, rows, cols), at, d));
  }

  // ---------------------------------------------------------------------
  // What set_from does to the storage.

  /**
   * After `set_from` has written the first `row` rows of a block (source
   * storage src of width sw) at slot `start` of a width-w storage s that was
   * s0: slots before start are untouched; and when the block is no wider
   * than w, the written cells hold the source cells while the rest of each
   * written row and everything after the written rows is untouched.
   */
  ghost predicate BlockWritten<T>(s0: seq<T>, s: seq<T>, d: T, start: nat, w: nat, src: seq<T>, sd: T, sw: nat, row: nat)
  {
    (forall k: nat :: k < start ==> V.Get(s, k, d) == V.Get(s0, k, d)) &&
    (sw <= w ==>
      (forall i: nat, j: nat :: i < row && j < sw ==>
        V.Get(s, start + Idx(i, j, w), d) == CellAt(src, sd, sw, i, j)) &&
      (forall i: nat, j: nat :: i < row && sw <= j < w ==>
        V.Get(s, start + Idx(i, j, w), d) == V.Get(s0, start + Idx(i, j, w), d)) &&
      (forall k: nat :: start + row * w <= k ==> V.Get(s, k, d) == V.Get(s0, k, d)))
  }

  /** One more row of the block written: its cells, nothing before it, nothing after its last cell. */
  ghost predicate RowWritten<T>(s0: seq<T>, s: seq<T>, d: T, start: nat, w: nat, src: seq<T>, sd: T, sw: nat, row: nat)
  {
    (forall k: nat :: k < start + row * w ==> V.Get(s, k, d) == V.Get(s0, k, d)) &&
    (sw <= w ==>
      (forall j: nat :: j < sw ==> V.Get(s, start + Idx(row, j, w), d) == CellAt(src, sd, sw, row, j)) &&
      (forall k: nat :: start + Idx(row, sw, w) <= k ==> V.Get(s, k, d) == V.Get(s0, k, d)))
  }

  /** Where row `row` of a width-w layout starts and ends. */
  lemma RowSpan(row: nat, w: nat, j: nat)
    requires j <= w
    ensures row * w <= Idx(row, j, w) <= (row + 1) * w == row * w + w
  {
  }

  lemma BlockWrittenStep<T>(s0: seq<T>, s1: seq<T>, s2: seq<T>, d: T, start: nat, w: nat,
                            src: seq<T>, sd: T, sw: nat, row: nat)
    requires BlockWritten(s0, s1, d, start, w, src, sd, sw, row)
    requires RowWritten(s1, s2, d, start, w, src, sd, sw, row)
    ensures BlockWritten(s0, s2, d, start, w, src, sd, sw, row + 1)
  {
    RowSpan(row, 0, 0);
    forall k: nat | k < start
      ensures V.Get(s2, k, d) == V.Get(s0, k, d)
    {
      assert k < start + row * w;
    }
    if sw <= w {
      RowSpan(row, w, sw);
      var mid, hi := start + Idx(row, sw, w), start + (row + 1) * w;
      forall i: nat, j: nat | i < row + 1 && j < sw
        ensures V.Get(s2, start + Idx(i, j, w), d) == CellAt(src, sd, sw, i, j)
      {
        if i < row {
          IdxInRows(i, j, w, row);
        }
      }
      forall i: nat, j: nat | i < row + 1 && sw <= j < w
        ensures V.Get(s2, start + Idx(i, j, w), d) == V.Get(s0, start + Idx(i, j, w), d)
      {
        if i < row {
          IdxInRows(i, j, w, row);
        } else {
          RowSpan(row, w, j);
          assert mid <= start + Idx(i, j, w);
        }
      }
      forall k: nat | hi <= k
        ensures V.Get(s2, k, d) == V.Get(s0, k, d)
      {
        assert mid <= k;
      }
    }
  }

  // ---------------------------------------------------------------------
  // Boolean matrices: `Debug` renders a grid with '#' for set and '.' for
  // clear cells, and `interpret` reads such a rendering back.

  const ON: char := '#'
  const OFF: char := '.'

  /** The bytes `interpret` treats as row separators. */
  predicate IsSeparator(b: char) { b == '/' || b == '\n' }

  /** One row in '#'/'.' form. */
  function RowText(row: seq<bool>): (t: string)
    ensures |t| == |row| && forall j :: 0 <= j < |row| ==> t[j] == if row[j] then ON else OFF
  {
    seq(|row|, j requires 0 <= j < |row| => if row[j] then ON else OFF)
  }

  /** `Debug`: the rows in '#'/'.' form, with `sep` between consecutive rows. */
  function Render(g: seq<seq<bool>>, sep: char): string
  {
    if |g| == 0 then ""
    else if |g| == 1 then RowText(g[0])
    else Render(g[..|g| - 1], sep) + [sep] + RowText(g[|g| - 1])
  }

  /** Whether every byte is a cell or a separator; any other byte makes `interpret` panic. */
  ghost predicate Legal(p: string)
  {
    forall i :: 0 <= i < |p| ==> p[i] == ON || p[i] == OFF || IsSeparator(p[i])
  }

  /** Number of separators: `interpret` counts one row more than that. */
  function SepCount(p: string): nat
  {
    if p == [] then 0 else SepCount(p[..|p| - 1]) + (if IsSeparator(p[|p| - 1]) then 1 else 0)
  }

  /** The cells in reading order, '#' read as `present` and anything else as `empty`. */
  function CellValues<T>(p: string, empty: T, present: T): seq<T>
  {
    if p == [] then []
    else CellValues(p[..|p| - 1], empty, present) +
         (if IsSeparator(p[|p| - 1]) then [] else [if p[|p| - 1] == ON then present else empty])
  }

  /** `interpret`'s column count: the position of the first separator after position 0, or 0 if none. */
  function FirstCols(p: string): nat
  {
    if p == [] then 0
    else
      var c := FirstCols(p[..|p| - 1]);
      if c == 0 && IsSeparator(p[|p| - 1]) then |p| - 1 else c
  }

  lemma {:induction false} SepCountAppend(a: string, b: string)
    ensures SepCount(a + b) == SepCount(a) + SepCount(b)
    decreases |b|
  {
    if b != [] {
      assert (a + b)[..|a + b| - 1] == a + b[..|b| - 1];
      SepCountAppend(a, b[..|b| - 1]);
    } else {
      assert a + b == a;
    }
  }

  lemma {:induction false} CellValuesAppend<T>(a: string, b: string, empty: T, present: T)
    ensures CellValues(a + b, empty, present) == CellValues(a, empty, present) + CellValues(b, empty, present)
    decreases |b|
  {
    if b != [] {
      assert (a + b)[..|a + b| - 1] == a + b[..|b| - 1];
      CellValuesAppend(a, b[..|b| - 1], empty, present);
    } else {
      assert a + b == a;
    }
  }

  /** Once the column count is fixed, later bytes do not change it. */
  lemma {:induction false} FirstColsAppend(a: string, b: string)
    requires FirstCols(a) != 0
    ensures FirstCols(a + b) == FirstCols(a)
    decreases |b|
  {
    if b != [] {
      assert (a + b)[..|a + b| - 1] == a + b[..|b| - 1];
      FirstColsAppend(a, b[..|b| - 1]);
    } else {
      assert a + b == a;
    }
  }

  /** A row's text has no separator, and reads back as the row. */
  lemma {:induction false} RowTextReads(row: seq<bool>)
    ensures SepCount(RowText(row)) == 0 && FirstCols(RowText(row)) == 0
    ensures CellValues(RowText(row), false, true) == row
    ensures FirstCols(RowText(row) + ['/']) == |row|
  {
    if row != [] {
      var n := |row| - 1;
      assert RowText(row)[..n] == RowText(row[..n]);
      RowTextReads(row[..n]);
      assert row == row[..n] + [row[n]];
    }
    assert (RowText(row) + ['/'])[..|row|] == RowText(row);
  }

  /** The rows one after another (row-major storage of a grid). */
  function Flatten<T>(g: seq<seq<T>>): seq<T>
  {
    if g == [] then [] else Flatten(g[..|g| - 1]) + g[|g| - 1]
  }

  /** A rendered grid holds only '#', '.' and '/': it is legal and has no whitespace to trim. */
  lemma {:induction false} RenderLegal(g: seq<seq<bool>>)
    ensures Legal(Render(g, '/'))
    ensures forall i :: 0 <= i < |Render(g, '/')| ==> !IsWhitespace(Render(g, '/')[i])
  {
    if |g| >= 2 {
      RenderLegal(g[..|g| - 1]);
    }
  }

  /** A grid of n rows renders with n - 1 separators. */
  lemma {:induction false} RenderSepCount(g: seq<seq<bool>>)
    requires |g| >= 1
    ensures SepCount(Render(g, '/')) == |g| - 1
  {
    var last := g[|g| - 1];
    RowTextReads(last);
    if |g| >= 2 {
      var a := Render(g[..|g| - 1], '/');
      RenderSepCount(g[..|g| - 1]);
      SepCountAppend(a + ['/'], RowText(last));
      SepCountAppend(a, ['/']);
      assert ['/'][..0] == [];
    }
  }

  /** The cells of a rendered grid, in reading order, are its rows one after another. */
  lemma {:induction false} RenderCells(g: seq<seq<bool>>)
    requires |g| >= 1
    ensures CellValues(Render(g, '/'), false, true) == Flatten(g)
  {
    var last := g[|g| - 1];
    RowTextReads(last);
    if |g| == 1 {
      assert g[..0] == [];
      assert Flatten(g) == Flatten(g[..0]) + last;
    } else {
      var a := Render(g[..|g| - 1], '/');
      RenderCells(g[..|g| - 1]);
      CellValuesAppend(a + ['/'], RowText(last), false, true);
      CellValuesAppend(a, ['/'], false, true);
      assert ['/'][..0] == [];
    }
  }

  /** A rendered grid of at least two rows of w cells has its first separator at w. */
  lemma {:induction false} RenderFirstCols(g: seq<seq<bool>>, n: nat, w: nat)
    requires Shaped(g, n, w) && n >= 2 && w >= 1
    ensures FirstCols(Render(g, '/')) == w
  {
    var last := g[n - 1];
    var p := g[..n - 1];
    var a := Render(p, '/');
    if n == 2 {
      assert a == RowText(g[0]);
      RowTextReads(g[0]);
    } else {
      RenderFirstCols(p, n - 1, w);
      FirstColsAppend(a, ['/']);
    }
    FirstColsAppend(a + ['/'], RowText(last));
  }

  /** What `interpret` reads from a rendered grid of at least two rows. */
  lemma RenderReads(g: seq<seq<bool>>, n: nat, w: nat)
    requires Shaped(g, n, w) && n >= 1 && w >= 1
    ensures Legal(Render(g, '/'))
    ensures forall i :: 0 <= i < |Render(g, '/')| ==> !IsWhitespace(Render(g, '/')[i])
    ensures SepCount(Render(g, '/')) == n - 1
    ensures CellValues(Render(g, '/'), false, true) == Flatten(g)
    ensures n >= 2 ==> FirstCols(Render(g, '/')) == w
  {
    RenderLegal(g);
    RenderSepCount(g);
    RenderCells(g);
    if n >= 2 {
      RenderFirstCols(g, n, w);
    }
  }

  /** The row-major storage of a grid holds cell (r, c) at slot r*w + c. */
  lemma {:induction false} FlattenCells<T>(g: seq<seq<T>>, n: nat, w: nat, d: T)
    requires Shaped(g, n, w)
    ensures |Flatten(g)| == n * w
    ensures Cells(Flatten(g), d, n, w) == g
  {
    if n > 0 {
      var p := g[..n - 1];
      FlattenCells(p, n - 1, w, d);
      assert (n - 1) * w + w == n * w;
      var fp := Flatten(p);
      assert Flatten(g) == fp + g[n - 1];
      forall r: nat, c: nat | r < n && c < w
        ensures CellAt(Flatten(g), d, w, r, c) == g[r][c]
      {
        FlattenCell(g, fp, n, w, d, r, c);
      }
      CellsEq(Flatten(g), d, n, w, g);
    }
  }

  /** One cell of FlattenCells' step: an earlier row's cell is in the prefix, the last row's in g[n-1]. */
  lemma FlattenCell<T>(g: seq<seq<T>>, fp: seq<T>, n: nat, w: nat, d: T, r: nat, c: nat)
    requires Shaped(g, n, w) && n > 0 && r < n && c < w
    requires |fp| == (n - 1) * w && Cells(fp, d, n - 1, w) == g[..n - 1]
    ensures CellAt(fp + g[n - 1], d, w, r, c) == g[r][c]
  {
    var i := Idx(r, c, w);
    assert (n - 1) * w + w == n * w;
    if r < n - 1 {
      IdxInRows(r, c, w, n - 1);
      assert CellAt(fp, d, w, r, c) == Cells(fp, d, n - 1, w)[r][c];
    } else {
      assert i - |fp| == c;
    }
  }

  class Matrix<T> {
    var data: seq<T>
    var rows: nat
    var cols: nat
    /** `T::default()`. */
    const dflt: T

    /** Storage past the rows*cols logical slots holds only defaults. */
    ghost predicate Valid()
      reads this
    {
      TailDefault(data, rows * cols, dflt)
    }

    /** The value stored for cell (r, c), whether or not it is in bounds. */
    function At(r: nat, c: nat): T
      reads this
    {
      CellAt(data, dflt, cols, r, c)
    }

    /** The matrix as a grid of rows. */
    function Grid(): seq<seq<T>>
      reads this
    {
      Cells(data, dflt, rows, cols)
    }

    /** `new(rows, cols)`: an empty storage of the given shape; every cell reads as default. */
    constructor (rows: nat, cols: nat, dflt: T)
      ensures Valid() && this.rows == rows && this.cols == cols && this.dflt == dflt
      ensures forall r: nat, c: nat :: At(r, c) == dflt
    {
      data := [];
      this.rows := rows;
      this.cols := cols;
      this.dflt := dflt;
    }

    /** A matrix with the given storage and shape (what `interpret` builds). */
    constructor FromStorage(data: seq<T>, rows: nat, cols: nat, dflt: T)
      ensures this.data == data && this.rows == rows && this.cols == cols && this.dflt == dflt
    {
      this.data := data;
      this.rows := rows;
      this.cols := cols;
      this.dflt := dflt;
    }

    /** `get`: None outside [0, rows) x [0, cols), the stored cell inside. */
    function Get(r: nat, c: nat): (o: Option<T>)
      reads this
      ensures o.Some? <==> r < rows && c < cols
      ensures o.Some? ==> o.value == At(r, c) && o.value == Grid()[r][c]
    {
      if c < cols && r < rows then Some(V.Get(data, r * cols + c, dflt)) else None
    }

    /** `insert_row_top`: inserts `cols` defaults at the front, so every row moves down by one. */
    method InsertRowTop()
      modifies this
      requires Valid()
      ensures Valid() && rows == old(rows) + 1 && cols == old(cols)
      ensures forall r: nat, c: nat :: c < cols ==>
                At(r, c) == if r == 0 then dflt else old(At(r - 1, c))
      ensures Grid() == WithRowTop(old(Grid()), cols, dflt)
    {
      PushRowTop();
      CellsEq(data, dflt, rows, cols, WithRowTop(old(Grid()), cols, dflt));
    }

    /** The storage update of `insert_row_top`, cell by cell: cols defaults in front. */
    method PushRowTop()
      modifies this
      requires Valid()
      ensures Valid() && rows == old(rows) + 1 && cols == old(cols)
      ensures forall r: nat, c: nat :: c < cols ==>
                CellAt(data, dflt, cols, r, c) == if r == 0 then dflt else CellAt(old(data), dflt, cols, r - 1, c)
    {
      for k := 0 to cols
        invariant data == V.Repeat(dflt, k) + old(data) && rows == old(rows) && cols == old(cols)
      {
        assert V.Repeat(dflt, k + 1) + old(data) == [dflt] + (V.Repeat(dflt, k) + old(data));
        data := V.InsertPadded(data, 0, dflt, dflt);
      }
      RowTopCells(old(data), data, dflt, rows, cols);
      rows := rows + 1;
    }

    /**
     * `insert_row_bottom`.  It writes defaults to the slots of the row after
     * the new one, ((rows+1)*cols ..); the new row itself reads as default
     * because storage past rows*cols only ever holds defaults.
     */
    method InsertRowBottom()
      modifies this
      requires Valid()
      ensures Valid() && rows == old(rows) + 1 && cols == old(cols)
      ensures forall r: nat, c: nat :: At(r, c) == old(At(r, c))
      ensures forall c: nat :: c < cols ==> At(old(rows), c) == dflt
      ensures Grid() == WithRowBottom(old(Grid()), cols, dflt)
    {
      var start := (rows + 1) * cols;
      for i := 0 to cols
        invariant data == WriteDefaults(old(data), start, i, dflt) && rows == old(rows) && cols == old(cols)
      {
        data := V.Set(data, start + i, dflt, dflt);
      }
      RowBottomCells(old(data), dflt, rows, cols);
      forall c: nat
        ensures CellAt(old(data), dflt, cols, rows, c) == dflt
      {
        IdxBeyondRows(rows, c, cols, rows);
      }
      MulMono(rows, rows + 1, cols);
      rows := rows + 1;
      CellsEq(data, dflt, rows, cols, WithRowBottom(old(Grid()), cols, dflt));
    }

    /** `insert_column_left`: a default at the start of every row; every cell moves one column right. */
    method InsertColumnLeft()
      modifies this
      requires Valid()
      ensures Valid() && rows == old(rows) && cols == old(cols) + 1
      ensures forall r: nat, c: nat :: c < cols ==>
                At(r, c) == if c == 0 then dflt else old(At(r, c - 1))
      ensures Grid() == WithColumn(old(Grid()), 0, dflt)
    {
      PushColumnLeft();
      ColumnInsertedCells(old(data), dflt, rows, old(cols), cols, 0);
    }

    /** The storage update of `insert_column_left`, cell by cell: a default in front of every row. */
    method PushColumnLeft()
      modifies this
      requires Valid()
      ensures Valid() && rows == old(rows) && cols == old(cols) + 1
      ensures data == ColumnInserted(old(data), dflt, cols, 0, rows)
      ensures forall r: nat, c: nat :: c < cols ==>
                CellAt(data, dflt, cols, r, c) == if c == 0 then dflt else CellAt(old(data), dflt, old(cols), r, c - 1)
    {
      var inserted := 0;
      ghost var w := cols + 1;
      for row := 0 to rows
        invariant inserted == row && rows == old(rows) && cols == old(cols)
        invariant data == ColumnInserted(old(data), dflt, w, 0, row)
      {
        WiderRows(row, cols, w);
        assert row * cols + inserted == Idx(row, 0, w);
        data := V.InsertPadded(data, row * cols + inserted, dflt, dflt);
        inserted := inserted + 1;
      }
      ColumnInsertedCells(old(data), dflt, rows, cols, w, 0);
      cols := cols + 1;
    }

    /** `insert_column_right`: a default at the end of every row; every cell keeps its place. */
    method InsertColumnRight()
      modifies this
      requires Valid()
      ensures Valid() && rows == old(rows) && cols == old(cols) + 1
      ensures forall r: nat, c: nat :: c < cols ==>
                At(r, c) == if c == old(cols) then dflt else old(At(r, c))
      ensures Grid() == WithColumn(old(Grid()), old(cols), dflt)
    {
      var inserted := 0;
      ghost var w := cols + 1;
      for row := 0 to rows
        invariant inserted == row && rows == old(rows) && cols == old(cols)
        invariant data == ColumnInserted(old(data), dflt, w, cols, row)
      {
        var idx := row * cols + cols + inserted;
        WiderRows(row, cols, w);
        assert idx == Idx(row, cols, w);
        inserted := inserted + 1;
        data := V.InsertPadded(data, idx, dflt, dflt);
      }
      ColumnInsertedCells(old(data), dflt, rows, cols, w, cols);
      cols := cols + 1;
    }

    /**
     * `set`: adds rows at the bottom and columns at the right until (r, c) is
     * in bounds, then writes; afterwards `get(r, c)` is `Some(v)`.
     */
    method Set(r: nat, c: nat, v: T)
      modifies this
      requires Valid()
      ensures Valid()
      ensures rows == Max(old(rows), r + 1) && cols == Max(old(cols), c + 1)
      ensures Get(r, c) == Some(v)
      ensures forall i: nat, j: nat :: j < cols && (i, j) != (r, c) ==>
                At(i, j) == if i < old(rows) && j < old(cols) then old(At(i, j)) else dflt
    {
      forall i: nat, j: nat | rows <= i && j < cols
        ensures At(i, j) == dflt
      {
        BeyondRowsDefault(data, dflt, rows, cols, i, j);
      }
      while r >= rows
        invariant Valid() && cols == old(cols) && old(rows) <= rows <= Max(old(rows), r + 1)
        invariant forall i: nat, j: nat :: j < cols ==> At(i, j) == if i < old(rows) then old(At(i, j)) else dflt
        decreases r + 1 - rows
      {
        InsertRowBottom();
      }
      while c >= cols
        invariant Valid() && rows == Max(old(rows), r + 1) && old(cols) <= cols <= Max(old(cols), c + 1)
        invariant forall i: nat, j: nat :: j < cols ==>
                    At(i, j) == if i < old(rows) && j < old(cols) then old(At(i, j)) else dflt
        decreases c + 1 - cols
      {
        InsertColumnRight();
      }
      IdxInRows(r, c, cols, rows);
      ghost var before := data;
      data := V.Set(data, r * cols + c, v, dflt);
      forall i: nat, j: nat | j < cols
        ensures At(i, j) == if (i, j) == (r, c) then v else CellAt(before, dflt, cols, i, j)
      {
        V.GetAfterSet(before, r * cols + c, v, dflt, Idx(i, j, cols));
        if (i, j) != (r, c) {
          RowMajorInjective(i, j, r, c, cols);
        }
      }
      assert forall k :: rows * cols <= k < |data| ==> data[k] == V.Get(before, k, dflt);
    }

    /** The cells of row r, last column first. */
    function ReversedRow(r: nat): (x: seq<T>)
      reads this
      ensures |x| == cols && forall c :: 0 <= c < cols ==> x[c] == At(r, cols - 1 - c)
    {
      seq(cols, c reads this requires 0 <= c < cols => At(r, cols - 1 - c))
    }

    /** One row of `transpose`: copies our row `row` into column `row` of m. */
    method CopyRowToColumn(m: Matrix<T>, row: nat)
      modifies m
      requires m != this && m.Valid() && m.dflt == dflt
      ensures m.Valid()
      ensures m.rows == if cols == 0 then old(m.rows) else Max(old(m.rows), cols)
      ensures m.cols == if cols == 0 then old(m.cols) else Max(old(m.cols), row + 1)
      ensures forall i: nat, j: nat :: i < m.rows && j < m.cols ==>
                m.At(i, j) == if i < cols && j == row then At(row, i)
                              else if i < old(m.rows) && j < old(m.cols) then old(m.At(i, j)) else dflt
    {
      for col := 0 to cols
        invariant m.Valid()
        invariant m.rows == Max(old(m.rows), col)
        invariant m.cols == if col == 0 then old(m.cols) else Max(old(m.cols), row + 1)
        invariant forall i: nat, j: nat :: i < m.rows && j < m.cols ==>
                    m.At(i, j) == if i < col && j == row then At(row, i)
                                  else if i < old(m.rows) && j < old(m.cols) then old(m.At(i, j)) else dflt
      {
        m.Set(col, row, At(row, col));
      }
    }

    /**
     * `transpose`: builds a new matrix of the same (rows, cols) shape and sets
     * its (c, r) to our (r, c).  On a square matrix this is the transpose; on
     * a non-square one the growing `set` makes the result max(rows, cols)
     * square, padded with defaults.
     */
    method Transpose()
      modifies this
      requires Valid()
      ensures Valid()
      ensures rows == (if old(rows) == 0 || old(cols) == 0 then old(rows) else Max(old(rows), old(cols)))
      ensures cols == (if old(rows) == 0 || old(cols) == 0 then old(cols) else Max(old(rows), old(cols)))
      ensures forall i: nat, j: nat :: i < rows && j < cols ==>
                At(i, j) == if i < old(cols) && j < old(rows) then old(At(j, i)) else dflt
      ensures old(rows) == old(cols) ==> Grid() == Transposed(old(Grid()), old(rows))
    {
      var m := new Matrix(rows, cols, dflt);
      for row := 0 to rows
        invariant fresh(m) && m.Valid() && m.dflt == dflt
        invariant data == old(data) && rows == old(rows) && cols == old(cols)
        invariant m.rows == (if row == 0 || cols == 0 then rows else Max(rows, cols))
        invariant m.cols == (if row == 0 || cols == 0 then cols else Max(cols, row))
        invariant forall i: nat, j: nat :: i < m.rows && j < m.cols ==>
                    m.At(i, j) == if i < cols && j < row then CellAt(old(data), dflt, old(cols), j, i) else dflt
      {
        CopyRowToColumn(m, row);
      }
      data, rows, cols := m.data, m.rows, m.cols;
      assert forall i: nat, j: nat :: At(i, j) == m.At(i, j);
      if old(rows) == old(cols) {
        CellsEq(data, dflt, rows, cols, Transposed(old(Grid()), old(rows)));
      }
    }

    /** `reverse_rows`: mirrors every row left to right. */
    method ReverseRows()
      modifies this
      requires Valid()
      ensures Valid() && rows == old(rows) && cols == old(cols)
      ensures forall i: nat, j: nat :: i < rows && j < cols ==> At(i, j) == old(At(i, cols - 1 - j))
      ensures Grid() == MirrorRows(old(Grid()))
    {
      for row := 0 to rows
        invariant Valid() && rows == old(rows) && cols == old(cols)
        invariant forall i: nat, j: nat :: i < rows && j < cols ==>
                    At(i, j) == if i < row then old(At(i, cols - 1 - j)) else old(At(i, j))
      {
        ReverseRow(row);
      }
      forall i: nat, j: nat | i < rows && j < cols
        ensures CellAt(data, dflt, cols, i, j) == CellAt(old(data), dflt, cols, i, cols - 1 - j)
      {
        assert At(i, j) == old(At(i, cols - 1 - j));
      }
      MirroredCells(old(data), data, dflt, rows, cols);
    }

    /** One row of `reverse_rows`: the row's cells are read first, then written back in reverse. */
    method ReverseRow(row: nat)
      modifies this
      requires Valid() && row < rows
      ensures Valid() && rows == old(rows) && cols == old(cols)
      ensures forall a: nat, b: nat :: a < rows && b < cols ==>
                At(a, b) == if a == row then old(At(a, cols - 1 - b)) else old(At(a, b))
    {
      var x := ReversedRow(row);
      for i := 0 to cols
        invariant Valid() && rows == old(rows) && cols == old(cols)
        invariant forall a: nat, b: nat :: a < rows && b < cols ==>
                    At(a, b) == if a == row && b < i then old(At(a, cols - 1 - b)) else old(At(a, b))
      {
        Set(row, i, x[i]);
      }
    }

    /** `rotate_90`: transpose, then mirror the rows; a clockwise quarter turn of a square matrix. */
    method Rotate90()
      modifies this
      requires Valid()
      ensures Valid()
      ensures old(rows) == old(cols) ==> rows == old(rows) && cols == old(cols)
      ensures old(rows) == old(cols) ==> Grid() == Rotated(old(Grid()), old(rows))
    {
      Transpose();
      ReverseRows();
    }

    /**
     * `load_from(start, other)`: fills every one of our cells (r, c) with the
     * slot start + r*other.cols + c of the other matrix's storage.
     */
    method LoadFrom(start: nat, other: Matrix<T>)
      modifies this
      requires Valid() && other != this
      ensures Valid() && rows == old(rows) && cols == old(cols)
      ensures forall i: nat, j: nat :: i < rows && j < cols ==>
                At(i, j) == V.Get(other.data, start + Idx(i, j, other.cols), other.dflt)
    {
      for row := 0 to rows
        invariant Valid() && rows == old(rows) && cols == old(cols)
        invariant forall i: nat, j: nat :: i < row && j < cols ==>
                    At(i, j) == V.Get(other.data, start + Idx(i, j, other.cols), other.dflt)
      {
        for col := 0 to cols
          invariant Valid() && rows == old(rows) && cols == old(cols)
          invariant forall i: nat, j: nat :: (i < row || (i == row && j < col)) && j < cols ==>
                      At(i, j) == V.Get(other.data, start + Idx(i, j, other.cols), other.dflt)
        {
          var o := V.Get(other.data, start + row * other.cols + col, other.dflt);
          Set(row, col, o);
        }
      }
    }

    /**
     * `set_from(start, other)`: writes every cell (r, c) of the other matrix
     * to our storage slot start + r*cols + c, growing the storage as needed.
     * When the other matrix is no wider than we are, the written slots are
     * distinct and no other slot changes; when the block also ends inside our
     * rows*cols slots, the matrix stays well formed.
     */
    method SetFrom(start: nat, other: Matrix<T>)
      modifies this
      requires Valid() && other != this
      ensures rows == old(rows) && cols == old(cols)
      ensures BlockWritten(old(data), data, dflt, start, cols, other.data, other.dflt, other.cols, other.rows)
      ensures other.cols <= cols && start + other.rows * cols <= rows * cols ==> Valid()
    {
      for row := 0 to other.rows
        invariant rows == old(rows) && cols == old(cols)
        invariant BlockWritten(old(data), data, dflt, start, cols, other.data, other.dflt, other.cols, row)
      {
        ghost var before := data;
        SetRowFrom(start, other, row);
        BlockWrittenStep(old(data), before, data, dflt, start, cols, other.data, other.dflt, other.cols, row);
      }
      if other.cols <= cols && start + other.rows * cols <= rows * cols {
        forall k | rows * cols <= k < |data|
          ensures data[k] == dflt
        {
          assert V.Get(data, k, dflt) == V.Get(old(data), k, dflt);
        }
      }
    }

    /** One row of `set_from`. */
    method SetRowFrom(start: nat, other: Matrix<T>, row: nat)
      modifies this
      requires other != this
      ensures rows == old(rows) && cols == old(cols)
      ensures RowWritten(old(data), data, dflt, start, cols, other.data, other.dflt, other.cols, row)
    {
      for col := 0 to other.cols
        invariant rows == old(rows) && cols == old(cols)
        invariant forall k: nat :: k < start + row * cols ==> V.Get(data, k, dflt) == V.Get(old(data), k, dflt)
        invariant other.cols <= cols ==>
                    forall j: nat :: j < col ==> V.Get(data, start + Idx(row, j, cols), dflt) == other.At(row, j)
        invariant other.cols <= cols ==>
                    forall k: nat :: start + Idx(row, col, cols) <= k ==> V.Get(data, k, dflt) == V.Get(old(data), k, dflt)
      {
        var o := V.Get(other.data, row * other.cols + col, other.dflt);
        var idx := start + row * cols + col;
        ghost var before := data;
        data := V.Set(data, idx, o, dflt);
        forall k: nat
          ensures V.Get(data, k, dflt) == if k == idx then o else V.Get(before, k, dflt)
        {
          V.GetAfterSet(before, idx, o, dflt, k);
        }
      }
    }
  }

  /** What one more byte of the pattern does to the counts `interpret` keeps. */
  lemma InterpretStep<T>(t: string, i: nat, empty: T, present: T)
    requires i < |t|
    ensures SepCount(t[..i + 1]) == SepCount(t[..i]) + (if IsSeparator(t[i]) then 1 else 0)
    ensures CellValues(t[..i + 1], empty, present) ==
      CellValues(t[..i], empty, present) + (if IsSeparator(t[i]) then [] else [if t[i] == ON then present else empty])
    ensures FirstCols(t[..i + 1]) == if FirstCols(t[..i]) == 0 && IsSeparator(t[i]) then i else FirstCols(t[..i])
    ensures Legal(t[..i + 1]) <==> Legal(t[..i]) && (t[i] == ON || t[i] == OFF || IsSeparator(t[i]))
  {
    assert t[..i + 1][..i] == t[..i];
    var p := t[..i + 1];
    assert p[i] == t[i];
  }

  /**
   * `interpret(pattern, empty, present)`: reads the trimmed pattern byte by
   * byte; a separator ends a row (the first one after position 0 fixes the
   * column count), '#' stores `present` and '.' stores `empty` in the next
   * slot.  The source panics on any other byte and when no column count was
   * fixed; both give None here.
   */
  method Interpret<T>(pattern: string, empty: T, present: T, dflt: T) returns (m: Option<Matrix<T>>)
    ensures m.None? <==> !Legal(Trim(pattern)) || FirstCols(Trim(pattern)) == 0
    ensures m.Some? ==> fresh(m.value) && m.value.dflt == dflt
    ensures m.Some? ==> m.value.data == CellValues(Trim(pattern), empty, present)
    ensures m.Some? ==> m.value.rows == 1 + SepCount(Trim(pattern)) && m.value.cols == FirstCols(Trim(pattern))
  {
    var t := Trim(pattern);
    var data: seq<T> := [];
    var cols := 0;
    var rows := 1;
    var idx := 0;
    for i := 0 to |t|
      invariant data == CellValues(t[..i], empty, present) && idx == |data|
      invariant cols == FirstCols(t[..i]) && rows == 1 + SepCount(t[..i])
      invariant Legal(t[..i])
    {
      InterpretStep(t, i, empty, present);
      var b := t[i];
      if IsSeparator(b) {
        if cols == 0 {
          cols := i;
        }
        rows := rows + 1;
        continue;
      }
      if !(b == ON || b == OFF) {
        assert !Legal(t) by {
          assert !(t[i] == ON || t[i] == OFF || IsSeparator(t[i]));
        }
        return None;
      }
      var v := if b == ON then present else empty;
      V.SetAtEnd(data, v, dflt);
      data := V.Set(data, idx, v, dflt);
      idx := idx + 1;
    }
    assert t[..|t|] == t;
    if cols == 0 {
      return None;
    }
    var r := new Matrix.FromStorage(data, rows, cols, dflt);
    return Some(r);
  }

  /** `Debug` of a boolean matrix: its rows joined by '/' ('\n' in the alternate form). */
  function Debug(m: Matrix<bool>, alternate: bool): (s: string)
    reads m
  {
    Render(m.Grid(), if alternate then '\n' else '/')
  }

  /**
   * `interpret` reads a rendered grid of at least two rows and one column
   * back as that grid (shape, cells, and a storage with nothing past
   * rows*cols), so `Debug` of the result is the rendering again.  A single
   * row has no separator, leaves the column count at 0 and panics.
   */
  lemma InterpretReadsRendering(g: seq<seq<bool>>, n: nat, w: nat)
    requires Shaped(g, n, w) && n >= 2 && w >= 1
    ensures Trim(Render(g, '/')) == Render(g, '/')
    ensures Legal(Render(g, '/')) && FirstCols(Render(g, '/')) == w && 1 + SepCount(Render(g, '/')) == n
    ensures |CellValues(Render(g, '/'), false, true)| == n * w
    ensures Cells(CellValues(Render(g, '/'), false, true), false, n, w) == g
  {
    RenderReads(g, n, w);
    TrimNoWhitespace(Render(g, '/'));
    FlattenCells(g, n, w, false);
  }

  // ---------------------------------------------------------------------
  // `count_set` of a boolean matrix: `count_ones` of its storage.

  function CountSet(m: Matrix<bool>): nat
    reads m
  {
    B.Count(m.data)
  }

  /** Set cells of a grid, row by row. */
  function GridCount(g: seq<seq<bool>>): nat
  {
    if g == [] then 0 else GridCount(g[..|g| - 1]) + B.Count(g[|g| - 1])
  }

  /** The first n storage slots, read with the default past the end. */
  function Slots<T>(data: seq<T>, d: T, n: nat): (s: seq<T>)
    ensures |s| == n && forall k :: 0 <= k < n ==> s[k] == V.Get(data, k, d)
  {
    seq(n, k requires 0 <= k => V.Get(data, k, d))
  }

  lemma {:induction false} FlattenOfCells<T>(data: seq<T>, d: T, n: nat, w: nat)
    ensures Flatten(Cells(data, d, n, w)) == Slots(data, d, n * w)
  {
    if n > 0 {
      var g := Cells(data, d, n, w);
      assert g[..n - 1] == Cells(data, d, n - 1, w);
      FlattenOfCells(data, d, n - 1, w);
      assert n * w == (n - 1) * w + w;
      assert Slots(data, d, n * w) == Slots(data, d, (n - 1) * w) + g[n - 1];
    }
  }

  lemma {:induction false} CountFlatten(g: seq<seq<bool>>)
    ensures B.Count(Flatten(g)) == GridCount(g)
  {
    if g != [] {
      CountFlatten(g[..|g| - 1]);
      B.CountAppend(Flatten(g[..|g| - 1]), g[|g| - 1]);
    }
  }

  lemma CountSlots(data: seq<bool>, n: nat)
    requires TailDefault(data, n, false)
    ensures B.Count(Slots(data, false, n)) == B.Count(data)
  {
    if |data| <= n {
      assert Slots(data, false, n) == data + B.Zeros(n - |data|);
      B.CountAppend(data, B.Zeros(n - |data|));
      B.CountOfZeros(n - |data|);
    } else {
      assert data == Slots(data, false, n) + B.Zeros(|data| - n);
      B.CountAppend(Slots(data, false, n), B.Zeros(|data| - n));
      B.CountOfZeros(|data| - n);
    }
  }

  /** `count_set` counts exactly the set cells, since the storage past rows*cols is clear. */
  lemma CountSetCountsCells(m: Matrix<bool>)
    requires m.Valid() && m.dflt == false
    ensures CountSet(m) == GridCount(m.Grid())
  {
    FlattenOfCells(m.data, false, m.rows, m.cols);
    CountFlatten(m.Grid());
    CountSlots(m.data, m.rows * m.cols);
  }

  // ---------------------------------------------------------------------
  // Grid

  function Min(a: int, b: int): int { if a <= b then a else b }

  /**
   * `Grid`: a matrix addressed by signed (x, y) coordinates.  Cell (0, 0) of
   * the matrix is at (leftBound, topBound); the matrix grows to the left and
   * to the top when coordinates below the bounds are used, and to the right
   * and bottom through `Matrix.set`.
   */
  /** The value at (x, y) of a grid whose rows x cols matrix `data` has its top-left cell at (left, top). */
  function Lookup<T>(data: seq<T>, d: T, rows: nat, cols: nat, left: int, top: int, x: int, y: int): T
  {
    if x < left || y < top then d
    else if y - top < rows && x - left < cols then CellAt(data, d, cols, y - top, x - left)
    else d
  }

  /** A default column put in front, with the left bound moved one place, keeps every value. */
  lemma LeftColumnKeeps<T>(d0: seq<T>, d1: seq<T>, d: T, rows: nat, cols: nat, w: nat, left: int, top: int)
    requires w == cols + 1
    requires forall r: nat, c: nat :: c < w ==>
      CellAt(d1, d, w, r, c) == if c == 0 then d else CellAt(d0, d, cols, r, c - 1)
    ensures forall a, b :: Lookup(d1, d, rows, w, left - 1, top, a, b) == Lookup(d0, d, rows, cols, left, top, a, b)
  {
    forall a, b
      ensures Lookup(d1, d, rows, w, left - 1, top, a, b) == Lookup(d0, d, rows, cols, left, top, a, b)
    {
      if a >= left && b >= top && a - left < cols {
        var r, c: nat := b - top, a - left + 1;
        assert CellAt(d1, d, w, r, c) == CellAt(d0, d, cols, r, c - 1);
      }
    }
  }

  /** A default row put on top, with the top bound moved one place, keeps every value. */
  lemma TopRowKeeps<T>(d0: seq<T>, d1: seq<T>, d: T, rows: nat, cols: nat, left: int, top: int)
    requires forall r: nat, c: nat :: c < cols ==>
      CellAt(d1, d, cols, r, c) == if r == 0 then d else CellAt(d0, d, cols, r - 1, c)
    ensures forall a, b :: Lookup(d1, d, rows + 1, cols, left, top - 1, a, b) == Lookup(d0, d, rows, cols, left, top, a, b)
  {
    forall a, b
      ensures Lookup(d1, d, rows + 1, cols, left, top - 1, a, b) == Lookup(d0, d, rows, cols, left, top, a, b)
    {
      if a >= left && b >= top && a - left < cols {
        var r, c: nat := b - top + 1, a - left;
        assert CellAt(d1, d, cols, r, c) == CellAt(d0, d, cols, r - 1, c);
      }
    }
  }

  class Grid<T> {
    var leftBound: int
    var topBound: int
    const matrix: Matrix<T>

    ghost predicate Valid()
      reads this, matrix
    {
      matrix.Valid()
    }

    /** What `get(x, y)` returns: the cell at (x, y), or the default outside the matrix. */
    function Value(x: int, y: int): T
      reads this, matrix
    {
      Lookup(matrix.data, matrix.dflt, matrix.rows, matrix.cols, leftBound, topBound, x, y)
    }

    /** `new()`: a 3x3 matrix whose top-left cell is (-1, -1); every cell is default. */
    constructor (dflt: T)
      ensures Valid() && fresh(matrix) && matrix.dflt == dflt
      ensures leftBound == -1 && topBound == -1 && matrix.rows == 3 && matrix.cols == 3
      ensures forall x, y :: Value(x, y) == dflt
    {
      matrix := new Matrix(3, 3, dflt);
      leftBound := -1;
      topBound := -1;
      new;
      forall x, y
        ensures Value(x, y) == dflt
      {
        if x >= -1 && y >= -1 {
          assert matrix.At(y + 1, x + 1) == dflt;
        }
      }
    }

    /** `from_matrix(matrix, top_left)`: the given matrix with its top-left cell at `top_left`. */
    constructor FromMatrix(m: Matrix<T>, left: int, top: int)
      requires m.Valid()
      ensures Valid() && matrix == m && leftBound == left && topBound == top
    {
      matrix := m;
      leftBound := left;
      topBound := top;
    }

    /**
     * `to_matrix(x, y)`: inserts columns on the left and rows on the top
     * until (x, y) is not above or left of the matrix, and returns its
     * (row, col).  No coordinate changes its value.
     */
    method ToMatrix(x: int, y: int) returns (row: nat, col: nat)
      modifies this, matrix
      requires Valid()
      ensures Valid()
      ensures leftBound == Min(old(leftBound), x) && topBound == Min(old(topBound), y)
      ensures row == y - topBound && col == x - leftBound
      ensures matrix.rows == old(matrix.rows) + (old(topBound) - topBound)
      ensures matrix.cols == old(matrix.cols) + (old(leftBound) - leftBound)
      ensures forall a, b :: Value(a, b) == old(Value(a, b))
    {
      while x < leftBound
        invariant Valid() && Min(old(leftBound), x) <= leftBound <= old(leftBound) && topBound == old(topBound)
        invariant matrix.rows == old(matrix.rows) && matrix.cols == old(matrix.cols) + (old(leftBound) - leftBound)
        invariant forall a, b :: Value(a, b) == old(Value(a, b))
        decreases leftBound - x
      {
        GrowLeft();
      }
      while y < topBound
        invariant Valid() && leftBound == Min(old(leftBound), x) && Min(old(topBound), y) <= topBound <= old(topBound)
        invariant matrix.cols == old(matrix.cols) + (old(leftBound) - leftBound)
        invariant matrix.rows == old(matrix.rows) + (old(topBound) - topBound)
        invariant forall a, b :: Value(a, b) == old(Value(a, b))
        decreases topBound - y
      {
        GrowUp();
      }
      col := x - leftBound;
      row := y - topBound;
    }

    /** One column more on the left, with the left bound moved one place: no coordinate changes its value. */
    method GrowLeft()
      modifies this, matrix
      requires Valid()
      ensures Valid() && leftBound == old(leftBound) - 1 && topBound == old(topBound)
      ensures matrix.rows == old(matrix.rows) && matrix.cols == old(matrix.cols) + 1
      ensures forall a, b :: Value(a, b) == old(Value(a, b))
    {
      ghost var d0, rows0, cols0 := matrix.data, matrix.rows, matrix.cols;
      var left0 := leftBound;
      matrix.PushColumnLeft();
      LeftColumnKeeps(d0, matrix.data, matrix.dflt, rows0, cols0, matrix.cols, left0, topBound);
      leftBound := left0 - 1;
    }

    /** One row more on the top, with the top bound moved one place: no coordinate changes its value. */
    method GrowUp()
      modifies this, matrix
      requires Valid()
      ensures Valid() && topBound == old(topBound) - 1 && leftBound == old(leftBound)
      ensures matrix.cols == old(matrix.cols) && matrix.rows == old(matrix.rows) + 1
      ensures forall a, b :: Value(a, b) == old(Value(a, b))
    {
      ghost var d0, rows0, cols0 := matrix.data, matrix.rows, matrix.cols;
      var top0 := topBound;
      matrix.PushRowTop();
      TopRowKeeps(d0, matrix.data, matrix.dflt, rows0, cols0, leftBound, top0);
      topBound := top0 - 1;
    }

    /** `get(x, y)`: the value at (x, y), default where nothing was written. */
    method Get(x: int, y: int) returns (v: T)
      modifies this, matrix
      requires Valid()
      ensures Valid() && v == old(Value(x, y))
      ensures forall a, b :: Value(a, b) == old(Value(a, b))
    {
      var row, col := ToMatrix(x, y);
      var o := matrix.Get(row, col);
      v := if o.Some? then o.value else matrix.dflt;
    }

    /** `set(x, y, v)`: afterwards (x, y) holds v and every other coordinate reads as before. */
    method Set(x: int, y: int, v: T)
      modifies this, matrix
      requires Valid()
      ensures Valid() && Value(x, y) == v
      ensures forall a, b :: (a, b) != (x, y) ==> Value(a, b) == old(Value(a, b))
    {
      var row, col := ToMatrix(x, y);
      label grown:
      matrix.Set(row, col, v);
      forall a, b | (a, b) != (x, y)
        ensures Value(a, b) == old@grown(Value(a, b))
      {
        if a >= leftBound && b >= topBound {
          var i, j := b - topBound, a - leftBound;
          assert (i, j) != (row, col);
        }
      }
    }
  }

  /** `Grid::count_set`. */
  function GridCountSet(g: Grid<bool>): nat
    reads g, g.matrix
  {
    CountSet(g.matrix)
  }

  /** Test `matrix_transpose` and `matrix_rotate90`: ".#/.#" becomes "../##". */
  lemma TransposeExample()
    ensures Render([[false, true], [false, true]], '/') == ".#/.#"
    ensures Render([[false, false], [true, true]], '/') == "../##"
    ensures Transposed([[false, true], [false, true]], 2) == [[false, false], [true, true]]
    ensures Rotated([[false, true], [false, true]], 2) == [[false, false], [true, true]]
  {
    var t := Transposed([[false, true], [false, true]], 2);
    assert t[0] == [false, false] && t[1] == [true, true];
    assert V.Reversed([false, false]) == [false, false];
    assert V.Reversed([true, true]) == [true, true];
    assert RowText([false, true]) == ".#";
    assert RowText([false, false]) == "..";
    assert RowText([true, true]) == "##";
  }

  /** Test `matrix_reverse_rows`: ".#/.#" becomes "#./#.". */
  lemma ReverseRowsExample()
    ensures MirrorRows([[false, true], [false, true]]) == [[true, false], [true, false]]
    ensures Render([[true, false], [true, false]], '/') == "#./#."
  {
    assert V.Reversed([false, true]) == [true, false];
    assert RowText([true, false]) == "#.";
  }

  /** The grid ".#/##" of the insert tests. */
  lemma InsertExampleGrid()
    ensures Render([[false, true], [true, true]], '/') == ".#/##"
  {
    assert RowText([false, true]) == ".#";
    assert RowText([true, true]) == "##";
  }

  /** Test `matrix_insert_left`: ".#/##" becomes "..#/.##". */
  lemma InsertLeftExample()
    ensures WithColumn([[false, true], [true, true]], 0, false) == [[false, false, true], [false, true, true]]
    ensures Render([[false, false, true], [false, true, true]], '/') == "..#/.##"
  {
    var l := WithColumn([[false, true], [true, true]], 0, false);
    assert l[0] == [false, false, true] && l[1] == [false, true, true];
    assert RowText([false, false, true]) == "..#";
    assert RowText([false, true, true]) == ".##";
  }

  /** Test `matrix_insert_right`: ".#/##" becomes ".#./##.". */
  lemma InsertRightExample()
    ensures WithColumn([[false, true], [true, true]], 2, false) == [[false, true, false], [true, true, false]]
    ensures Render([[false, true, false], [true, true, false]], '/') == ".#./##."
  {
    var r := WithColumn([[false, true], [true, true]], 2, false);
    assert r[0] == [false, true, false] && r[1] == [true, true, false];
    assert RowText([false, true, false]) == ".#.";
    assert RowText([true, true, false]) == "##.";
  }

  /** Test `matrix_insert_row_top`: ".#/##" becomes "../.#/##". */
  lemma InsertTopExample()
    ensures WithRowTop([[false, true], [true, true]], 2, false) == [[false, false], [false, true], [true, true]]
    ensures Render([[false, false], [false, true], [true, true]], '/') == "../.#/##"
  {
    assert V.Repeat(false, 2) == [false, false];
    var g3: seq<seq<bool>> := [[false, false], [false, true], [true, true]];
    assert g3[..2] == [[false, false], [false, true]];
    assert g3[..2][..1] == [[false, false]];
    assert RowText([false, false]) == "..";
    assert RowText([false, true]) == ".#";
    assert RowText([true, true]) == "##";
  }
}
