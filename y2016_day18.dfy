/**
 * 2016 day 18 (src/bin/y2016/day18.rs): rows of safe tiles and traps, each
 * row computed from the one above.  A row is the sequence of bits its
 * `BitVec` holds, true for a trap.
 */
module Y2016Day18 {
  import opened Wrappers
  import opened BitVectors

  /** `parse`: '.' is safe and '^' a trap; any other character is the source's `unreachable!`, None here. */
  function Parse(s: string): (r: Option<seq<bool>>)
    ensures r.Some? <==> forall i :: 0 <= i < |s| ==> s[i] == '.' || s[i] == '^'
    ensures r.Some? ==> |r.value| == |s| && forall i :: 0 <= i < |s| ==> (r.value[i] <==> s[i] == '^')
  {
    if s == [] then Some([])
    else if s[0] != '.' && s[0] != '^' then None
    else
      var rest := Parse(s[1..]);
      if rest.None? then
        assert !(s[1..][0] == '.' || s[1..][0] == '^') || exists i :: 0 <= i < |s[1..]| && !(s[1..][i] == '.' || s[1..][i] == '^');
        None
      else Some([s[0] == '^'] + rest.value)
  }

  /**
   * The bits a `BitVec` collected from a row yields: `len()` is
   * `max_idx + 1`, so an empty row reads as one safe tile.
   */
  function Tiles(row: seq<bool>): (t: seq<bool>)
    ensures |t| > 0
  {
    if row == [] then [false] else row
  }

  /** The `match` of `to_next_row` on a tile's left, centre and right. */
  function Rule(a: bool, b: bool, c: bool): bool
  {
    match (a, b, c)
    case (true, true, false) => true
    case (false, true, true) => true
    case (true, false, false) => true
    case (false, false, true) => true
    case _ => false
  }

  /** The four trap patterns are exactly those whose outer tiles differ: the centre does not matter. */
  lemma RuleIsXor(a: bool, b: bool, c: bool)
    ensures Rule(a, b, c) <==> a != c
  {
  }

  /** A tile's left neighbour, safe beyond the row's start. */
  function LeftOf(row: seq<bool>, i: nat): bool
    requires i < |row|
  {
    i > 0 && row[i - 1]
  }

  /** A tile's right neighbour, safe beyond the row's end. */
  function RightOf(row: seq<bool>, i: nat): bool
    requires i < |row|
  {
    i + 1 < |row| && row[i + 1]
  }

  /** The window of three centred on tile i of the row padded with a safe tile on each side. */
  function Window(prev: seq<bool>, i: nat): bool
    requires i < |prev|
  {
    Rule(i > 0 && prev[i - 1], prev[i], i + 1 < |prev| && prev[i + 1])
  }

  /** `to_next_row`: the rule applied to every window. */
  function NextRow(prev: seq<bool>): (next: seq<bool>)
    ensures |next| == |prev|
  {
    seq(|prev|, i requires 0 <= i < |prev| => Window(prev, i))
  }

  /** A tile of the next row is a trap exactly when one of its two neighbours above is. */
  lemma NextRowTraps(prev: seq<bool>)
    ensures forall i :: 0 <= i < |prev| ==> (NextRow(prev)[i] <==> LeftOf(prev, i) != RightOf(prev, i))
  {
    forall i | 0 <= i < |prev|
      ensures NextRow(prev)[i] <==> LeftOf(prev, i) != RightOf(prev, i)
    {
      RuleIsXor(LeftOf(prev, i), prev[i], RightOf(prev, i));
    }
  }

  function Reverse(s: seq<bool>): (r: seq<bool>)
    ensures |r| == |s| && forall i :: 0 <= i < |s| ==> r[i] == s[|s| - 1 - i]
  {
    if s == [] then [] else [s[|s| - 1]] + Reverse(s[..|s| - 1])
  }

  /** The rule is symmetric: the next row of the mirrored row is the mirrored next row. */
  lemma NextRowMirror(row: seq<bool>)
    ensures NextRow(Reverse(row)) == Reverse(NextRow(row))
  {
    var r, n := Reverse(row), NextRow(row);
    var a, b := NextRow(r), Reverse(n);
    NextRowTraps(row);
    NextRowTraps(r);
    forall i | 0 <= i < |row|
      ensures a[i] == b[i]
    {
      var j := |row| - 1 - i;
      assert b[i] == n[j];
      assert LeftOf(r, i) == RightOf(row, j);
      assert RightOf(r, i) == LeftOf(row, j);
    }
  }

  /** A row without traps is followed by a row without traps. */
  lemma SafeRowStaysSafe(row: seq<bool>)
    requires forall i :: 0 <= i < |row| ==> !row[i]
    ensures forall i :: 0 <= i < |row| ==> !NextRow(row)[i]
  {
    NextRowTraps(row);
  }

  /** The row k rows below the first. */
  function Row(first: seq<bool>, k: nat): (r: seq<bool>)
    ensures |r| == |first|
  {
    if k == 0 then first else NextRow(Row(first, k - 1))
  }

  /** The safe tiles of the first n rows. */
  function SafeTotal(first: seq<bool>, n: nat): nat
  {
    if n == 0 then 0 else SafeTotal(first, n - 1) + CountClear(Row(first, n - 1))
  }

  /** At most every tile of every row is safe. */
  lemma {:induction false} SafeTotalBound(first: seq<bool>, n: nat)
    ensures SafeTotal(first, n) <= n * |first|
  {
    if n > 0 {
      SafeTotalBound(first, n - 1);
      CountSplit(Row(first, n - 1));
      assert n * |first| == (n - 1) * |first| + |first|;
    }
  }

  /** Starting from a row without traps, every tile of every row is safe. */
  lemma {:induction false} AllSafe(first: seq<bool>, n: nat)
    requires forall i :: 0 <= i < |first| ==> !first[i]
    ensures SafeTotal(first, n) == n * |first|
    ensures forall i :: 0 <= i < |first| ==> !Row(first, n)[i]
  {
    if n > 0 {
      AllSafe(first, n - 1);
      SafeRowStaysSafe(Row(first, n - 1));
      NoneSetIsAllClear(Row(first, n - 1));
      assert n * |first| == (n - 1) * |first| + |first|;
    }
  }

  lemma {:induction false} NoneSetIsAllClear(s: seq<bool>)
    requires forall i :: 0 <= i < |s| ==> !s[i]
    ensures CountClear(s) == |s|
    decreases |s|
  {
    if s != [] {
      NoneSetIsAllClear(s[..|s| - 1]);
    }
  }

  function Max(a: nat, b: nat): nat
  {
    if a >= b then a else b
  }

  /** The cells of a fresh `BitVec` after `fill`, as written, has stored the given elements. */
  function Written(elems: seq<bool>): seq<bool>
  {
    Overlay(Zeros(BITS_PER_CELL), Packed(elems, CellsFilledAsWritten(|elems|)))
  }

  /** The `max_idx` of that vector. */
  function LastIndex(elems: seq<bool>): nat
  {
    if elems == [] then 0 else |elems| - 1
  }

  /** What `iter` yields from a vector collected from the elements: its first `len()` bits. */
  function ReadBack(elems: seq<bool>): (r: seq<bool>)
    ensures |r| == Max(|elems|, 1)
  {
    View(Written(elems), LastIndex(elems) + 1)
  }

  /** Row lengths at which the last element opens a cell that `fill` never stores. */
  predicate LosesLast(n: nat)
  {
    n > 1 && n % BITS_PER_CELL == 1
  }

  /** At every other length a collected row reads back as its tiles. */
  lemma ReadBackKeepsRow(elems: seq<bool>)
    requires !LosesLast(|elems|)
    ensures ReadBack(elems) == Tiles(elems)
  {
    if elems != [] {
      FillKeepsEveryElement(Zeros(BITS_PER_CELL), elems);
    }
  }

  /** At a length 64k+1 (k > 0) the last tile reads back safe, whatever it was. */
  lemma ReadBackLosesLast(elems: seq<bool>)
    requires LosesLast(|elems|)
    ensures ReadBack(elems) == elems[|elems| - 1 := false]
  {
    var n := |elems|;
    var k := (n - 1) / BITS_PER_CELL;
    assert n - 1 == BITS_PER_CELL * k;
    assert |Written(elems)| == n - 1;
  }

  /** The row a collected vector reads back: its tiles, the last one lost at the lengths 64k+1. */
  function Collected(elems: seq<bool>): (r: seq<bool>)
    ensures |r| == Max(|elems|, 1)
  {
    if LosesLast(|elems|) then elems[|elems| - 1 := false] else Tiles(elems)
  }

  lemma ReadBackIsCollected(elems: seq<bool>)
    ensures ReadBack(elems) == Collected(elems)
  {
    if LosesLast(|elems|) {
      ReadBackLosesLast(elems);
    } else {
      ReadBackKeepsRow(elems);
    }
  }

  /** `count_zeros` of a collected row (len() minus the set bits) counts the safe tiles read back. */
  lemma CountZerosOfRow(elems: seq<bool>)
    ensures Count(Written(elems)) <= LastIndex(elems) + 1
    ensures LastIndex(elems) + 1 - Count(Written(elems)) == CountClear(ReadBack(elems))
    ensures CountClear(ReadBack(elems)) == CountClear(Collected(elems))
  {
    ReadBackIsCollected(elems);
    var bits := Written(elems);
    var p := Packed(elems, CellsFilledAsWritten(|elems|));
    forall j | LastIndex(elems) < j < |bits|
      ensures !bits[j]
    {
      if j < |p| {
        assert bits[j] == p[j];
      }
    }
    CountZerosCountsClearBits(bits, LastIndex(elems));
  }

  /** The k-th row `count_safe` reads: each row collected, read back and fed to `to_next_row`. */
  function RowAsWritten(first: seq<bool>, k: nat): (r: seq<bool>)
    ensures |r| == Max(|first|, 1)
  {
    if k == 0 then Collected(first) else Collected(NextRow(RowAsWritten(first, k - 1)))
  }

  /** The safe tiles `count_safe` adds up over its first n rows. */
  function SafeTotalAsWritten(first: seq<bool>, n: nat): nat
  {
    if n == 0 then 0 else SafeTotalAsWritten(first, n - 1) + CountClear(RowAsWritten(first, n - 1))
  }

  /**
   * Away from the lengths 64k+1 the rows read back are the rows the rule
   * produces, so the total as written is the intended total.
   */
  lemma {:induction false} AsWrittenAgrees(first: seq<bool>, n: nat)
    requires !LosesLast(|first|)
    ensures RowAsWritten(first, n) == Row(Tiles(first), n)
    ensures SafeTotalAsWritten(first, n) == SafeTotal(Tiles(first), n)
  {
    var t := Tiles(first);
    if n == 0 {
      assert RowAsWritten(first, 0) == Collected(first) == t;
    } else {
      AsWrittenAgrees(first, n - 1);
      var previous := Row(t, n - 1);
      assert RowAsWritten(first, n - 1) == previous;
      var next := NextRow(previous);
      assert RowAsWritten(first, n) == Collected(next);
      assert Row(t, n) == next;
      assert |next| == Max(|first|, 1) && !LosesLast(|next|);
      assert Collected(next) == next;
      assert SafeTotalAsWritten(first, n) == SafeTotalAsWritten(first, n - 1) + CountClear(previous);
      assert SafeTotal(t, n) == SafeTotal(t, n - 1) + CountClear(previous);
    }
  }

  /**
   * A row of 64 safe tiles and a trap: the trap falls in a cell that is
   * never stored, so one row counts 65 safe tiles where there are 64.
   */
  lemma LastTrapLost()
    ensures var s := seq(64, _ => '.') + ['^'];
      Parse(s).Some? &&
      SafeTotalAsWritten(Parse(s).value, 1) == 65 &&
      SafeTotal(Tiles(Parse(s).value), 1) == 64
  {
    var s := seq(64, _ => '.') + ['^'];
    var t := Parse(s).value;
    assert t == Zeros(64) + [true];
    assert Collected(t) == Zeros(65);
    NoneSetIsAllClear(Zeros(65));
    NoneSetIsAllClear(Zeros(64));
    assert t[..64] == Zeros(64);
  }

  /** `collect::<BitVec>()`: a fresh vector filled as written. */
  method Collect(elems: seq<bool>) returns (v: BitVec)
    ensures fresh(v) && v.Valid()
    ensures v.bits == Written(elems) && v.maxIdx == LastIndex(elems)
  {
    v := new BitVec.New();
    v.FillAsWritten(elems);
  }

  /**
   * `count_safe`: the safe tiles of the first `row_count` rows, the first
   * row always counting even when `row_count` is 0, each row held in a
   * `BitVec` and counted with `count_zeros`.  None when the row does not
   * parse.
   */
  method CountSafe(s: string, rowCount: nat) returns (r: Option<nat>)
    ensures r.None? <==> Parse(s).None?
    ensures r.Some? ==> r.value == SafeTotalAsWritten(Parse(s).value, Max(rowCount, 1))
  {
    var parsed := Parse(s);
    if parsed.None? {
      return None;
    }
    ghost var first := parsed.value;
    var elems := parsed.value;
    var current := Collect(elems);
    CountZerosOfRow(elems);
    var rows := 1;
    var safe: nat := current.CountZeros();
    while rows < rowCount
      invariant 1 <= rows <= Max(rowCount, 1)
      invariant current.Valid() && current.bits == Written(elems) && current.maxIdx == LastIndex(elems)
      invariant Collected(elems) == RowAsWritten(first, rows - 1)
      invariant safe == SafeTotalAsWritten(first, rows)
      decreases rowCount - rows
    {
      var zeros;
      current, elems, zeros := NextCount(current, elems);
      safe := safe + zeros;
      rows := rows + 1;
    }
    assert rows == Max(rowCount, 1);
    r := Some(safe);
  }

  /** One round of the loop: the next row, collected from what the current one reads back, and its `count_zeros`. */
  method NextCount(current: BitVec, elems: seq<bool>) returns (next: BitVec, nextElems: seq<bool>, zeros: nat)
    requires current.Valid() && current.bits == Written(elems) && current.maxIdx == LastIndex(elems)
    ensures fresh(next) && next.Valid() && next.bits == Written(nextElems) && next.maxIdx == LastIndex(nextElems)
    ensures nextElems == NextRow(Collected(elems))
    ensures zeros == CountClear(Collected(nextElems))
  {
    ReadBackIsCollected(elems);
    var previous := View(current.bits, current.Len());
    nextElems := NextRow(previous);
    next := Collect(nextElems);
    CountZerosOfRow(nextElems);
    zeros := next.CountZeros();
  }

  method Part1(s: string) returns (r: Option<nat>)
    ensures r.None? <==> Parse(s).None?
    ensures r.Some? ==> r.value == SafeTotalAsWritten(Parse(s).value, 40)
  {
    r := CountSafe(s, 40);
  }

  method Part2(s: string) returns (r: Option<nat>)
    ensures r.None? <==> Parse(s).None?
    ensures r.Some? ==> r.value == SafeTotalAsWritten(Parse(s).value, 400000)
  {
    r := CountSafe(s, 400000);
  }
}
