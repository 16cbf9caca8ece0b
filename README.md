# Advent of Code solutions (2016–2018), modelled and verified in Dafny

This project models the logic of a Rust repository of Advent of Code
solutions for the years 2016, 2017 and 2018. It covers three kinds of code
and proves the properties each promises:

- **Shared utilities.**
  - a packed, growable bit vector (`bitvec.rs`);
  - a row-major `Matrix` and a signed-coordinate, auto-growing `Grid` over a `VecLike` storage (`matrix.rs`, `lib.rs`);
  - a linear-scan `VecMap`, a byte `Parser` and the nibble helpers (`lib.rs`);
  - Brent's cycle detection (`cycle.rs`);
  - modular arithmetic: extended GCD, a binary gcd and the combination of congruences (`modulo_solver.rs`).
- **Register machines.** 2016 day 12, 2017 day 8, 2017 day 18, and the 2018 "device" with its sixteen opcodes (2018 day 16).
- **Puzzle kernels.**
  - grid and string kernels: knot hash, memory redistribution, password scrambling and its inverse, polymer reduction, dragon checksum, spinlock;
  - structures and searches: the marble circle, licence trees, recipe scoreboards, elevator floors, firewall scanners, IP blacklists, disk regions;
  - simulations: a Turing machine, the virus carrier, mine carts, the taxicab walk, fuel-cell grids, closed-form Josephus, box IDs and cave erosion.

Each source file is one Dafny module, in a file named after it (`y2017_day10.dfy` for `src/bin/y2017/day10.rs`, `y2018_day08.dfy` for `y2018/src/bin/day08.rs`). Shared definitions live in their own modules:
- `wrappers.dfy`: `Option`/`Result`;
- `rustint.dfy`: Rust's truncating `/` and `%`, and wrapping casts;
- `strings.dfy`: `trim`, `split` and integer parsing;
- `veclike.dfy`, `polymer.dfy`, `y2018_registers.dfy`.

The code takes the source's own form:
- Code that mutates state is a class whose fields the methods update. Examples: `BitVec`, `Matrix`, `Grid`, `VecMap`, `Parser`, the knot-hash `Circle`, the marble arena, `Device`, `Cart`, the cave with its cache, the duet `Program` and the day 11 `Executor`.
- In-place array algorithms keep their arrays: the memory banks, the 2017 day 14 disk rows and the 2018 day 9 scores.
- Loops are `while`/`for` loops with invariants.

Each method is proved against a pure specification function, and the properties the source promises are proved as lemmas about those functions. Examples:
- round trips: parse then show, `recombine` of `digits`, parsing the encoding of a tree;
- inverses: unscrambling undoes scrambling, `reverse_range` twice;
- invariants: every `VecMap` key once, the bank total, sorted cart maps;
- reference definitions: the stack reduction of a polymer, pairwise XNOR for the dragon checksum, connected regions for `remove_groups`.

Machine integers are explicit:
- `u32`, `i32`, `i64` and `u8` arithmetic wraps where the source relies on a release build (`WrapU32`, `WrapI32`, `WrapI64`);
- Rust's `/` and `%` truncate toward zero (`TDiv`/`TRem`);
- where the source panics (an index out of range, an `unwrap` of nothing, an overflow that a release build also traps, `unreachable!()`), the model returns `None`, `Panicked` or a similar error value, or, where stated below, makes the case a precondition.

Loops that the source runs until a condition holds, without a bound, take a `fuel` parameter and answer None when it runs out. Where the source guarantees termination, a lemma states how much fuel is always enough (`Cycles.Find`, `Y2017Day06.Exec`, `Y2018Day14.Part2`).

Hash maps and sets are Dafny `map`/`set` values, `BTreeMap`s are sorted sequences, and iteration orders that matter are fixed as sequences.

## Model

Each row names a member, the source lines it models, and what its contract states.

| member | source | states |
|---|---|---|
| BitVectors.BitVec.New | src/bitvec.rs:18-24 | `new` holds one zero cell and max_idx 0 |
| BitVectors.BitVec.WithCapacity | src/bitvec.rs:26-31 | `with_capacity(n)` holds n/64 zero cells, so `capacity()` is n rounded down to a multiple of 64 |
| BitVectors.BitVec.Get | src/bitvec.rs:67-69 | `get(i)` is the stored bit inside the cells, false past them, and a true bit always lies below `capacity()` |
| BitVectors.BitVec.Len | src/bitvec.rs:83-85 | `len()` is max_idx + 1, so it is never 0 |
| BitVectors.BitVec.Capacity | src/bitvec.rs:87-89 | `capacity()` is the number of cells times 64 |
| BitVectors.BitVec.CountOnes | src/bitvec.rs:99-101 | `count_ones` is the number of set bits over all cells, at most the capacity |
| BitVectors.CellPopCountsIsCount | src/bitvec.rs:99-101 | the sum of the per-cell popcounts counts every set bit exactly once |
| BitVectors.BitVec.CountZeros | src/bitvec.rs:95-97 | `count_zeros` is `len()` minus the set bits, as an int, so a negative value marks the usize underflow |
| BitVectors.CountZerosCountsClearBits | src/bitvec.rs:91-97 | when no bit past max_idx is set, `count_zeros` cannot underflow and equals the number of clear bits among the first `len()` bits of `iter` |
| BitVectors.View | src/bitvec.rs:91-93 | `iter` yields exactly `len()` bits, reading zero past the last cell |
| BitVectors.CountViewBeyond | src/bitvec.rs:91-124 | reading past the last cell adds only clear bits |
| BitVectors.CountViewPrefix | src/bitvec.rs:91-93 | dropping clear trailing bits does not change the count of set bits |
| BitVectors.BitVec.GrowTo | src/bitvec.rs:114-119 | `get_cell_idx_mut` pushes zero cells until cell `index` exists; old bits and max_idx stay |
| BitVectors.BitVec.Set | src/bitvec.rs:38-44 | after `set(i, v)`: `get(i) == v`, every other bit unchanged, max_idx is max(i, old), cells grown to hold i |
| BitVectors.BitVec.MakeSpaceAt | src/bitvec.rs:140-156 | `make_space_at(i)`: bits below i stay, bit i is clear, every bit j >= i moves to j + 1 (the top bit of each cell carried into the next); the cell count and max_idx follow the carry rule |
| BitVectors.ShiftCellUpAt | src/bitvec.rs:152-155 | `(left << 1) or right` on the cell of i keeps the bits below i, shifts the others up one place within the cell and drops the cell's top bit |
| BitVectors.MakeSpaceComposed | src/bitvec.rs:140-156 | carrying the top bit into the next cells and then shifting the cell of i moves every bit from i up by one |
| BitVectors.BitVec.Insert | src/bitvec.rs:33-36 | after `insert(i, v)`: `get(i) == v`, bits below i unchanged, each old bit j >= i now at j + 1 |
| BitVectors.BitVec.PackElement | src/bitvec.rs:51-59 | one round of the `fill` loop: a new cell stores the finished one, then element idx is in the open cell and max_idx is idx |
| BitVectors.BitVec.FillAsWritten | src/bitvec.rs:46-64 | `fill` as written: the bits become the packed elements over the cells the loop stores, which leaves out the cell opened by the last element; max_idx is the last index |
| BitVectors.FillAsWrittenDropsLastElement | src/bitvec.rs:46-64 | as written, filling a fresh vector with 65 set bits keeps only 64 bits: element 64 is lost |
| BitVectors.BitVec.Fill | src/bitvec.rs:46-64 | corrected `fill`: every element k is read back by `get(k)`; max_idx is the last index |
| BitVectors.FillKeepsEveryElement | src/bitvec.rs:46-64 | the corrected packing stores every element at its own index |
| BitVectors.StoreNextCell | src/bitvec.rs:53-56 | storing a completed cell extends the packed prefix by one cell |
| BitVectors.BitVec.StoreCell | src/bitvec.rs:54 | one store through `get_cell_idx_mut` overwrites exactly cell c, growing as needed |
| BitVectors.BitVec.Clear | src/bitvec.rs:103-107 | `clear` zeroes every bit and keeps the cell count; `count_ones` is then 0 |
| BitVectors.CountSplit | src/bitvec.rs:95-101 | set bits plus clear bits make up the length |
| BitVectors.InsertOutgrowsLen | src/bitvec.rs:33-39 | `set(0, true)` then `insert(0, true)` on a new vector leaves two set bits with `len()` one, so `count_zeros` is negative, which is the usize underflow |
| BitVectors.BitVec.Valid | src/bitvec.rs:11-14 | the `u64` cells are whole 64-bit blocks of one flat bit sequence, so the sequence is 64 times the cell count long |
| Cycles.Length | src/cycle.rs:20-36 | Brent's search: any answer is the least return time of a point on the orbit, and when x0's orbit is eventually periodic with period lambda0 and the fuel suffices, the answer is lambda0 |
| Cycles.Find | src/cycle.rs:38-55 | `find`: the returned mu is the first index whose value recurs and lambda its least return time; for an orbit with tail mu0 and period lambda0 it returns exactly `Cycle(mu0, lambda0)` |
| Cycles.FindStart | src/cycle.rs:41-54 | the second loop with the hare lam steps ahead stops at the first m with x_m == x_(m+lam) |
| Cycles.StartOfCycle | src/cycle.rs:38-53 | x_mu comes back after lam steps and no sooner |
| Cycles.EventuallyPeriodic | src/cycle.rs:4-5 | past mu the orbit repeats with period lambda at every later index |
| Cycles.ReturnTimeOnCycle | src/cycle.rs:6-7 | every point of the loop has the same least return time, so lambda is the number of values in one loop |
| Cycles.SameReturnTime | src/cycle.rs:6-7 | two recurring values of one orbit have the same least return time |
| Cycles.OnCycleFrom | src/cycle.rs:4-5 | every value after the first recurring one recurs with the same period |
| Cycles.FloydMeetsBy | src/cycle.rs:4-7 | a tortoise and a hare at double speed meet by round mu + lambda (used by 2017 day 6) |
| Cycles.FloydMeeting | src/cycle.rs:4-7 | once x_t == x_2t, every recurring value recurs after t steps |
| Cycles.PeriodMultiple | src/cycle.rs:6-7 | a multiple of the period brings a periodic point back to itself |
| Cycles.IterateAdd | src/cycle.rs:20-36 | iterating m then n steps is iterating m + n steps |
| Lib.Position | src/lib.rs:90-105 | `iter().position(key)`: the first slot holding the key, or None exactly when no slot holds it |
| Lib.PositionAt | src/lib.rs:90 | a key stored at slot p and at no earlier slot is found at p |
| Lib.VecMap.constructor | src/lib.rs:71-79 | `new` and `with_capacity` start with no entries |
| Lib.VecMap.Get | src/lib.rs:100-102 | `get` is None exactly when no entry holds the key, and otherwise returns a value stored beside the key |
| Lib.VecMap.Insert | src/lib.rs:89-98 | `insert(k, v)` replaces the value of an existing key or appends the pair; afterwards k maps to v, every other key is unchanged and the keys stay unique |
| Lib.LookupAfterInsert | src/lib.rs:89-102 | after `insert(k, v)` a lookup of k gives v and a lookup of any other key gives what it did before |
| Lib.InsertKeepsUnique | src/lib.rs:89-98 | `insert` keeps the keys unique, its key set gains exactly k, and it grows by one entry only for a new key |
| Lib.LookupFindsKey | src/lib.rs:100-102 | a lookup fails exactly when the key is absent, and otherwise returns a stored pair |
| Lib.LenCountsKeys | src/lib.rs:81-83 | with unique keys, `len()` is the number of distinct keys |
| Lib.VecMap.GetOrInsert | src/lib.rs:104-112 | `get_or_insert` returns the stored value and changes nothing, or appends exactly one pair and returns the new value |
| Lib.VecMap.GetOrInsertWith | src/lib.rs:114-122 | `get_or_insert_with` does the same, calling the maker only when the key is absent |
| Lib.HiNib | src/lib.rs:306-309 | `hi_nib(b)` is b div 16, below 16 |
| Lib.LoNib | src/lib.rs:311-314 | `lo_nib(b)` is b mod 16, below 16 |
| Lib.NibblesRecombine | src/lib.rs:306-314 | 16 times the high nibble plus the low nibble gives the byte back |
| Lib.DigitRun | src/lib.rs:274-279 | the digit loop of `consume_number` stops at the first byte that is not a decimal digit |
| Lib.Numeral | src/lib.rs:272-290 | the decimal numeral of n: digits only, at least one |
| Lib.DecimalOfNumeral | src/lib.rs:272-290 | reading a numeral gives its number back |
| Lib.DigitRunOfNumeral | src/lib.rs:274-279 | the digit run of a numeral followed by a non-digit is the whole numeral |
| Lib.LeadingNumberOfNumeral | src/lib.rs:272-290 | `consume_number` round trip: a numeral followed by a non-digit reads back as its number |
| Lib.Find | src/lib.rs:193 | `memchr`: the first occurrence of c, or None exactly when c does not occur |
| Lib.Find2 | src/lib.rs:213 | `memchr2`: the first occurrence of either byte, or None exactly when neither occurs |
| Lib.Parser.constructor | src/lib.rs:157-162 | `Parser::new` starts at index 0 |
| Lib.Parser.Cur | src/lib.rs:170-172 | `cur` is the byte at the cursor, and None exactly at the end |
| Lib.Parser.AtEndIffNoCur | src/lib.rs:165-172 | `at_end()` holds exactly when `cur()` is None |
| Lib.Parser.Read | src/lib.rs:175-181 | `read` returns `cur()` and moves past it, staying put at the end |
| Lib.Parser.Advance | src/lib.rs:184-189 | `advance` moves one byte; at the end the source panics, so the model requires a byte to be left |
| Lib.Parser.ConsumeUntil | src/lib.rs:191-201 | `consume_until(c)` passes no c and stops on the first c, or at the end when there is none; it returns the distance moved |
| Lib.Parser.ConsumeUntilOrStop | src/lib.rs:203-210 | `consume_until_or_stop(c)` stops on the first c and returns the distance, or returns None and stays put when there is no c |
| Lib.Parser.ConsumeUntil2OrStop | src/lib.rs:212-219 | `consume_until2_or_stop(a, b)` does the same for the first of two bytes |
| Lib.Parser.ConsumeBytesUntil | src/lib.rs:221-225 | `consume_bytes_until(c)` returns exactly the bytes passed over, none of which is c |
| Lib.Parser.ConsumeBytes | src/lib.rs:239-247 | `consume_bytes(n)` returns the next n bytes and moves past them, or Eof without moving when fewer remain |
| Lib.Parser.Expect | src/lib.rs:227-237 | `expect(needle)` reports whether the input continues with the needle, consumes it on a match and restores the cursor on a mismatch; Eof when too short |
| Lib.Parser.Consume | src/lib.rs:249-260 | `consume(x)` steps over x when it is current, and otherwise reports "char x" and the byte found, without moving |
| Lib.Parser.ConsumeNumber | src/lib.rs:272-290 | `consume_number` moves over the maximal digit run and returns its value, or the "number" error with the byte found when the run is empty |
| Lib.Parser.ConsumeSignedNumber | src/lib.rs:262-270 | `consume_signed_number` consumes an optional '-' even when no digit follows, then a number, cast to `i64` and negated after the '-', wrapping as `Signed` says |
| Lib.Signed | src/lib.rs:269 | `consume_number()? as i64 * sign`: the exact signed value below 2^63, and always congruent to it modulo 2^64 |
| Lib.SignedWraps | src/lib.rs:269 | 2^63 becomes `i64::MIN` with or without '-', since `i64::MIN * -1` wraps; 2^64 + 5 reads as 5 |
| Lib.ParserNumberExample | src/lib.rs:291-294 | test `parser_number`: "100" reads as 100 |
| Lib.ParserConsumeUntilExamples | src/lib.rs:296-304 | tests `parser_consume_until` and `parser_consume_until_no_exist`: "aaax" stops 3 bytes in, and "aaa" runs 3 bytes to the end |
| VecLike.Get | src/lib.rs:57-59 | Vec `get`: the stored value below the length, the default past the end |
| VecLike.Set | src/lib.rs:46-51 | Vec `set`: the length becomes the larger of the old length and i+1, slot i holds v, other old slots are kept and the new slots hold the default |
| VecLike.GetAfterSet | src/lib.rs:46-59 | reading after `set`: slot i gives v and every other slot reads as before |
| VecLike.SetAtEnd | src/lib.rs:46-51 | `set` just past the end is a push |
| VecLike.Insert | src/lib.rs:42-44 | Vec `insert`: one longer, v at i, the slots below i kept and the rest moved up by one |
| VecLike.GetAfterInsert | src/lib.rs:42-59 | reading after an insertion: below i as before, v at i, above i the old slot one lower |
| VecLike.GetAfterPrefix | src/lib.rs:57-59 | reading after n defaults are put in front: the default below n, the old slot j-n above |
| VecLike.Reversed | src/bin/y2017/day10.rs:18 | the slice reversal: same length, slot i holds the old slot length-1-i |
| VecLike.ReversedTwice | src/bin/y2017/day10.rs:18 | reversing twice gives the slice back |
| VecLike.ReversedPermutes | src/bin/y2017/day10.rs:18 | a reversal is a permutation |
| VecLike.ReverseSlice | src/bin/y2017/day10.rs:18 | in-place `a[lo..hi].reverse()`: the slice is reversed and everything outside it is unchanged |
| VecLike.EndsSwappedStep | src/bin/y2017/day10.rs:18 | one more swap of the two ends of the slice |
| VecLike.EndsSwappedDone | src/bin/y2017/day10.rs:18 | once the two ends meet, the slice is reversed |
| VecLike.InsertPadded | src/lib.rs:42-44 | the insertion `Matrix` relies on: below i it reads as before, v sits at i, the old slots move up one, and an index past the end is reached by padding with defaults, one longer than the larger of the length and i |
| Matrices.RowMajorInjective | src/matrix.rs:171-186 | row-major places are distinct for distinct cells of one width |
| Matrices.Cells | src/matrix.rs:169-175 | the rows x cols cells of a storage, as a grid: shape rows x cols, cell (r, c) is the storage slot r*cols+c read with the default |
| Matrices.WithRowTop | src/matrix.rs:127-132 | the grid with a default row in front and every old row one lower |
| Matrices.WithRowBottom | src/matrix.rs:134-140 | the grid with a default row after the last one |
| Matrices.WithColumn | src/matrix.rs:142-159 | the grid with a default cell inserted at column `at` of every row, the cells from `at` on moved one column right |
| Matrices.MirrorRows | src/matrix.rs:203-214 | every row reversed |
| Matrices.Transposed | src/matrix.rs:189-201 | the transpose of a square grid: cell (i, j) is the old (j, i) |
| Matrices.Rotated | src/matrix.rs:216-219 | the clockwise quarter turn of a square grid: cell (i, j) is the old (n-1-j, i) |
| Matrices.MirrorRowsTwice | src/matrix.rs:203-214 | reversing the rows twice gives the grid back |
| Matrices.TransposedTwice | src/matrix.rs:189-201 | transposing a square grid twice gives it back |
| Matrices.RotatedFourTimes | src/matrix.rs:216-219 | four quarter turns give a square grid back |
| Matrices.RowTopCells | src/matrix.rs:127-132 | `cols` defaults put in front of the storage move every cell down one row and leave the tail past the cells default |
| Matrices.RowBottomCells | src/matrix.rs:134-140 | insert_row_bottom's writes of defaults from (rows+1)*cols on change no cell |
| Matrices.ColumnInsertedCells | src/matrix.rs:142-159 | one default inserted per row, at the running offset, gives exactly the grid with a default column at `at`, with a default tail |
| Matrices.RowText | src/matrix.rs:295-303 | one row of the Debug output: '#' for a set cell, '.' for a clear one |
| Matrices.RenderReads | src/matrix.rs:293-310 | the Debug rendering of an n x w grid is legal for `interpret`, has nothing to trim, n-1 separators, the cells in reading order, and its first separator at w |
| Matrices.FlattenCells | src/matrix.rs:171-186 | the row-major storage of an n x w grid has length n*w and holds each cell at r*w+c |
| Matrices.Matrix.constructor | src/matrix.rs:88-95 | `new(rows, cols)`: that shape, and every cell reads as the default |
| Matrices.Matrix.Get | src/matrix.rs:169-175 | `get` is Some exactly inside rows x cols, and then the stored cell |
| Matrices.Matrix.InsertRowTop | src/matrix.rs:127-132 | one more row, the new row 0 default and every old row one lower |
| Matrices.Matrix.PushRowTop | src/matrix.rs:127-132 | the storage loop of insert_row_top: `cols` default insertions at slot 0 |
| Matrices.Matrix.InsertRowBottom | src/matrix.rs:134-140 | one more row, every cell as before and the new last row default |
| Matrices.Matrix.InsertColumnLeft | src/matrix.rs:142-149 | one more column, the new column 0 default and every old cell one column right |
| Matrices.Matrix.PushColumnLeft | src/matrix.rs:142-149 | the storage loop of insert_column_left: a default inserted in front of every row |
| Matrices.Matrix.InsertColumnRight | src/matrix.rs:151-159 | one more column, the new last column default and every old cell in place |
| Matrices.Matrix.Set | src/matrix.rs:177-187 | grows by rows at the bottom and columns at the right to cover (r, c), writes v there, new cells read as default and all others are kept |
| Matrices.Matrix.CopyRowToColumn | src/matrix.rs:191-198 | one row of `transpose`: our row `row` lands in column `row` of the new matrix, which grows as `set` makes it |
| Matrices.Matrix.Transpose | src/matrix.rs:189-201 | `transpose`: cell (i, j) becomes the old (j, i); on a square matrix it is the transposed grid, on a non-square one the growing `set` makes it max(rows, cols) square |
| Matrices.Matrix.ReverseRows | src/matrix.rs:203-214 | `reverse_rows`: same shape, each row mirrored |
| Matrices.Matrix.ReverseRow | src/matrix.rs:204-212 | one row of `reverse_rows`: that row mirrored, every other cell kept |
| Matrices.Matrix.Rotate90 | src/matrix.rs:216-219 | `rotate_90` of a square matrix is its clockwise quarter turn |
| Matrices.Matrix.LoadFrom | src/matrix.rs:229-236 | `load_from(start, other)`: same shape, each cell (i, j) is the other storage's slot start + i*other.cols + j |
| Matrices.Matrix.SetFrom | src/matrix.rs:241-249 | `set_from(start, other)`: writes the other matrix's cells into our storage from start on, row by row with our width; the shape stays |
| Matrices.Matrix.SetRowFrom | src/matrix.rs:243-247 | one row of `set_from` |
| Matrices.Interpret | src/matrix.rs:97-125 | `interpret`: fails exactly when the trimmed pattern holds a byte other than '#', '.', '/' and newline, or no separator after position 0 fixes the column count; otherwise rows is one plus the separators, cols the place of the first separator and the storage the cells in reading order |
| Matrices.InterpretReadsRendering | src/matrix.rs:97-125 | `interpret` reads the Debug rendering of a grid of at least two rows and one column back as that grid |
| Matrices.CountSetCountsCells | src/matrix.rs:78-82 | `count_set` is the number of set cells, because storage past rows*cols is clear |
| Matrices.Grid.constructor | src/matrix.rs:17-23 | `Grid::new`: a 3x3 matrix whose top-left is (-1, -1); every coordinate reads as default |
| Matrices.Grid.FromMatrix | src/matrix.rs:25-31 | `from_matrix`: the given matrix with its top-left at the given coordinate |
| Matrices.Grid.ToMatrix | src/matrix.rs:33-45 | `to_matrix(x, y)`: bounds move to min(bound, coordinate), one row or column per step, the returned (row, col) is the offset from them, and no coordinate changes its value |
| Matrices.Grid.GrowLeft | src/matrix.rs:34-37 | one column on the left and the left bound one lower: no coordinate changes its value |
| Matrices.Grid.GrowUp | src/matrix.rs:38-41 | one row on top and the top bound one lower: no coordinate changes its value |
| Matrices.Grid.Get | src/matrix.rs:47-50 | `get(x, y)`: the value at (x, y), default where nothing was written; no coordinate changes |
| Matrices.Grid.Set | src/matrix.rs:52-55 | `set(x, y, v)`: (x, y) holds v and every other coordinate reads as before |
| Matrices.TransposeExample | src/matrix.rs:267-279 | tests `matrix_transpose` and `matrix_rotate90`: ".#/.#" becomes "../##" |
| Matrices.ReverseRowsExample | src/matrix.rs:260-265 | test `matrix_reverse_rows`: ".#/.#" becomes "#./#." |
| Matrices.InsertLeftExample | src/matrix.rs:327-332 | test `matrix_insert_left`: ".#/##" becomes "..#/.##" |
| Matrices.InsertRightExample | src/matrix.rs:368-373 | test `matrix_insert_right`: ".#/##" becomes ".#./##." |
| Matrices.InsertTopExample | src/matrix.rs:408-413 | test `matrix_insert_row_top`: ".#/##" becomes "../.#/##" |
| ModuloSolver.Gcd | src/modulo_solver.rs:50-69 | Euclid's gcd, the reference both gcd algorithms are proved against; positive unless both arguments are 0 |
| ModuloSolver.GcdDivides | src/modulo_solver.rs:50-69 | the gcd divides both arguments |
| ModuloSolver.CommonDivisorDividesGcd | src/modulo_solver.rs:50-69 | every common divisor divides the gcd, so it is the greatest |
| ModuloSolver.ModuloIsResidue | src/modulo_solver.rs:3-9 | `modulo(a, b)` for a positive b that fits in u64 is the residue a mod b, in [0, b) |
| ModuloSolver.EgcdLoopBezout | src/modulo_solver.rs:29-40 | the loop of `ExtendedGcd::new` keeps both remainders integer combinations of a and b |
| ModuloSolver.EgcdLoopIsGcd | src/modulo_solver.rs:29-40 | on natural numbers the loop ends on the gcd |
| ModuloSolver.ExtendedEuclidSpec | src/modulo_solver.rs:22-46 | the result satisfies gcd == m*a + n*b (Bezout), and gcd is the gcd for natural inputs |
| ModuloSolver.NewExtendedGcd | src/modulo_solver.rs:22-46 | `ExtendedGcd::new` with its while loop returns the Bezout coefficients and, for natural inputs, the gcd |
| ModuloSolver.EgcdStep | src/modulo_solver.rs:30-39 | one turn of the loop shrinks the remainder with truncated division and leaves the rest of the run unchanged |
| ModuloSolver.BinaryGcd | src/modulo_solver.rs:50-69 | `gcd` (Stein's binary algorithm) returns the gcd of two positive numbers |
| ModuloSolver.SteinLoop | src/modulo_solver.rs:57-67 | the second loop of `gcd` keeps the gcd while halving the even argument or the odd difference |
| ModuloSolver.SteinHalveA | src/modulo_solver.rs:58-59 | halving an even a keeps the gcd when b is odd |
| ModuloSolver.SteinHalveB | src/modulo_solver.rs:60-61 | halving an even b keeps the gcd when a is odd |
| ModuloSolver.SteinSubtract | src/modulo_solver.rs:62-66 | two odd numbers a > b: (a-b)/2 and b have the gcd of a and b |
| ModuloSolver.HalveBoth | src/modulo_solver.rs:52-68 | halving two even numbers halves their gcd, made up by the factor 2^d |
| ModuloSolver.Normalize | src/modulo_solver.rs:100-107 | `normalize` keeps the modulus |
| ModuloSolver.NormalizeIsResidue | src/modulo_solver.rs:100-107 | for a positive modulus `normalize` yields a mod n, in [0, n) |
| ModuloSolver.Combine | src/modulo_solver.rs:86-98 | `combine` returns a positive modulus when it succeeds |
| ModuloSolver.CombineSpec | src/modulo_solver.rs:86-98 | the Chinese remainder theorem: None exactly when the residues differ modulo gcd(n1, n2); otherwise modulus lcm(n1, n2), a residue in range, and agreement with both congruences |
| ModuloSolver.IncompatibleHasNoSolution | src/modulo_solver.rs:88-97 | when `combine` gives None, no number satisfies both congruences |
| ModuloSolver.Modulo | src/modulo_solver.rs:3-9 | `modulo` fits in u64, and for a positive modulus that fits in u64 it is below the modulus |
| Strings.TrimStart | src/bin/y2016/day12.rs:32 | `trim_start`: removes exactly the leading whitespace and stops at the first other character |
| Strings.TrimEnd | src/bin/y2016/day20.rs:2 | the end of `trim`: removes exactly the trailing whitespace |
| Strings.TrimPadded | src/bin/y2016/day20.rs:2 | `trim` of a word padded with whitespace is the word |
| Strings.TrimNoWhitespace | src/matrix.rs:102 | a string without whitespace is its own trim |
| Strings.Split | src/bin/y2017/day08.rs:46 | `split(sep)`: at least one piece, and no piece holds the separator |
| Strings.JoinSplit | src/bin/y2017/day08.rs:46 | joining the pieces of `split` with the separator gives the string back |
| Strings.SplitWord | src/bin/y2016/day12.rs:32 | a word without the separator splits into itself |
| Strings.SplitFirst | src/bin/y2016/day12.rs:50-51 | a word, the separator and a rest split into the word followed by the pieces of the rest |
| Strings.SplitJoin | src/bin/y2017/day08.rs:46 | words without the separator, joined by it, split back into those words |
| Strings.Numeral | src/bin/y2017/day08.rs:49-61 | the numeral of n: digits only, at least one |
| Strings.DecimalOfNumeral | src/bin/y2017/day08.rs:49-61 | a numeral reads back as its number |
| Strings.ParseInt | src/bin/y2016/day12.rs:33 | the grammar `str::parse` accepts for a signed integer; a word starting with anything but a digit or sign is rejected |
| Strings.ParseI32 | src/bin/y2016/day12.rs:33-56 | `parse::<i32>`: Some exactly when the word is an integer in the i32 range, and then that integer |
| Strings.ParseI64 | src/bin/y2017/day08.rs:49-61 | `parse::<i64>`: Some exactly when the word is an integer in the i64 range, and then that integer |
| Strings.ParseShowInt | src/bin/y2017/day18.rs:22 | every integer parses back from its display |
| Strings.ParseShowI32 | src/bin/y2016/day12.rs:33 | every i32 parses back from its display |
| Strings.ParseShowI64 | src/bin/y2017/day18.rs:22 | every i64 parses back from its display |
| Strings.FindFromFirst | src/bin/y2017/day25.rs:65-66 | `find` from i: an occurrence with none before it, or None exactly when there is no occurrence from i on |
| Strings.FindFirst | src/bin/y2017/day25.rs:65-66 | `find`: the first occurrence, or None exactly when the pattern does not occur |
| RustInt.TDiv | src/modulo_solver.rs:30 | Rust's `/`: the magnitude of the quotient is the floor of the magnitudes' quotient, and its sign is the product of the signs |
| RustInt.TRem | src/modulo_solver.rs:4 | Rust's `%`: a == q*b + r with the truncated quotient, the remainder smaller than b in magnitude and with the sign of a |
| RustInt.TruncIsEuclideanWhenNonNegative | src/modulo_solver.rs:4-30 | on non-negative operands Rust's and Dafny's division agree |
| RustInt.TDivExact | src/modulo_solver.rs:89-92 | an exact division gives the exact quotient and no remainder |
| RustInt.WrapU64 | src/modulo_solver.rs:8 | `as u64`: below 2^64, and the identity on values in range |
| RustInt.WrapU32 | y2018/src/bin/day09.rs:104-107 | the wrapping u32 add: below 2^32, and the identity in range |
| RustInt.WrapI32 | src/bin/y2016/day12.rs:93-122 | wrapping i32 arithmetic: congruent to x modulo 2^32, and x itself in range |
| RustInt.WrapI64 | src/bin/y2017/day18.rs:53-54 | wrapping i64 arithmetic: congruent to x modulo 2^64, and x itself in range |
| Wrappers.Collect | src/bin/y2016/day12.rs:106-110 | collecting per-line parses: every value, in order, when all are present, and None (where the source's parse panics) only when one is missing |
| Polymer.ReactsSymmetric | y2018/src/day05.rs:19-26 | two units react exactly when they are the same type in opposite polarities, in either order |
| Polymer.PartnerUnique | y2018/src/day05.rs:19-26 | a unit reacts with one kind of unit only |
| Polymer.Remove | y2018/src/day05.rs:20 | removing a reacting pair shortens the polymer by two |
| Polymer.Apply | y2018/src/bin/day05.rs:19-36 | a series of pair removals, each of a reacting pair, shortens by two per removal |
| Polymer.ReducesLength | y2018/src/day05.rs:8-39 | any series of reactions shortens by an even number of units |
| Polymer.ReducesTrans | y2018/src/day05.rs:8-39 | reactions compose |
| Polymer.ReducesPrefix | y2018/src/day05.rs:8-39 | reactions inside a suffix are reactions of the whole polymer |
| Polymer.NormStable | y2018/src/day05.rs:8-39 | the reference reduction (a stack of units) leaves no reacting pair |
| Polymer.NormRemove | y2018/src/day05.rs:8-39 | removing any one reacting pair does not change the reference reduction |
| Polymer.ReducesKeepsNorm | y2018/src/day05.rs:8-39 | no series of reactions changes the reference reduction |
| Polymer.StableNorm | y2018/src/day05.rs:35-37 | a polymer without a reacting pair is its own reduction |
| Polymer.UniqueResult | y2018/src/day05.rs:8-39 | every order of reactions that ends without a reacting pair ends on the same polymer, so both `react` variants agree |
| Polymer.Strip | y2018/src/day05.rs:57 | `replace(unit, "").replace(upper, "")`: never longer, and neither case of the unit is left |
| Polymer.StripAppend | y2018/src/day05.rs:57 | stripping a concatenation strips each part |
| Polymer.StripAbsent | y2018/src/day05.rs:57 | stripping a unit the polymer lacks changes nothing |
| Polymer.Best | y2018/src/day05.rs:53-61 | part2's loop over the first n letters: at most the length, at most every stripped reduction, and equal to the length or to one of them |
| Polymer.BestPastD | y2018/src/day05.rs:55 | for the example, the letters after d leave the best unchanged |
| Polymer.ExampleNorm | y2018/src/day05.rs:41-44 | the example "dabAcCaCBAcCcaDA" reduces to "dabCBAcaDA" |
| Polymer.Part1Example | y2018/src/day05.rs:41-47 | part1's example: 10 units remain |
| Polymer.FirstFour | y2018/src/day05.rs:55-59 | with a, b, c or d stripped the example reduces to 6, 8, 4 and 6 units, so the best of the four is 4 |
| Polymer.Part2Example | y2018/src/day05.rs:49-61 | part2's example: the answer is 4 |
| Y2018Day05Drain.Back | y2018/src/bin/day05.rs:18-36 | the inner loop of a pass from idx down never lengthens the polymer |
| Y2018Day05Drain.BackReduces | y2018/src/bin/day05.rs:18-36 | what a pass drains are reactions |
| Y2018Day05Drain.BackUnchanged | y2018/src/bin/day05.rs:18-36 | a pass that drains nothing has seen every pair below idx not react |
| Y2018Day05Drain.ReactReduces | y2018/src/bin/day05.rs:10-41 | the result of `react` is a reduction of its input |
| Y2018Day05Drain.ReactStable | y2018/src/bin/day05.rs:10-41 | no reacting pair is left, since the loop stops only after a pass that removes nothing |
| Y2018Day05Drain.ReactIsNorm | y2018/src/bin/day05.rs:10-41 | `react` is the reference reduction, shorter by an even number of units |
| Y2018Day05Drain.ReactInPlace | y2018/src/bin/day05.rs:10-41 | the draining `react`, with its loops, returns the reduction |
| Y2018Day05Drain.Pass | y2018/src/bin/day05.rs:18-36 | one pass of the inner loop drains what the pass function says |
| Y2018Day05Drain.Part1 | y2018/src/bin/day05.rs:43-49 | `part1` is the length of the fully reacted polymer |
| Y2018Day05Drain.Part2 | y2018/src/bin/day05.rs:51-63 | `part2` is the shortest reaction with one unit type stripped, starting from the input length |
| Y2018Day05Rebuild.CancelsIsReacts | y2018/src/day05.rs:17-26 | the case tests of this version are the same reaction as `eq_ignore_ascii_case` plus the polarity test |
| Y2018Day05Rebuild.Forward | y2018/src/day05.rs:14-34 | what a pass copies from idx on is no longer than what is left |
| Y2018Day05Rebuild.ForwardReduces | y2018/src/day05.rs:14-34 | the pairs a pass skips are reactions |
| Y2018Day05Rebuild.ForwardUnchanged | y2018/src/day05.rs:14-35 | a pass that skips nothing copied everything and saw no reacting pair |
| Y2018Day05Rebuild.ReactReduces | y2018/src/day05.rs:8-39 | the result of `react` is a reduction of its input |
| Y2018Day05Rebuild.ReactStable | y2018/src/day05.rs:8-39 | no reacting pair is left |
| Y2018Day05Rebuild.ReactIsNorm | y2018/src/day05.rs:8-39 | `react` is the reference reduction, so both versions agree on every polymer |
| Y2018Day05Rebuild.Pass | y2018/src/day05.rs:12-34 | one pass builds `next` by pushes, as the pass function says |
| Y2018Day05Rebuild.Visit | y2018/src/day05.rs:14-29 | one round of the first loop moves idx forward and keeps copied plus still to copy the same |
| Y2018Day05Rebuild.ReactByPasses | y2018/src/day05.rs:8-39 | `react`, reassigning the input until a pass keeps the length, returns the reduction |
| Y2018Day05Rebuild.Part1 | y2018/src/day05.rs:41-47 | `part1` is the length of the fully reacted polymer |
| Y2018Day05Rebuild.Part2 | y2018/src/day05.rs:49-61 | `part2` is the shortest reaction with one unit type stripped, never above the input length |
| Y2018Day05Drain.React | y2018/src/bin/day05.rs:10-41 | the draining `react` never lengthens the polymer and returns one of fewer than two units unchanged |
| Y2018Day05Rebuild.React | y2018/src/day05.rs:8-39 | the rebuilding `react` never lengthens the polymer |
| Y2016Day01.TurnsInverse | src/bin/y2016/day01.rs:12-30 | `turn_left` and `turn_right` undo each other, four of either come back, and a turn always changes the direction |
| Y2016Day01.ParseStep | src/bin/y2016/day01.rs:55-61 | one token: 'R' turns right, anything else left, and the number is `consume_number` on the rest; None where the source panics |
| Y2016Day01.ParseSteps | src/bin/y2016/day01.rs:54-61 | the tokens parse exactly when each does, one step per token in order |
| Y2016Day01.ParseStepExample | src/bin/y2016/day01.rs:55-61 | "R2" is a right turn and two blocks |
| Y2016Day01.Position.constructor | src/bin/y2016/day01.rs:52 | the walker starts at (0, 0) |
| Y2016Day01.Position.Go | src/bin/y2016/day01.rs:39-47 | `go(n, dir)` moves n blocks in the direction: north and east add, south and west subtract |
| Y2016Day01.MovedOneAxis | src/bin/y2016/day01.rs:39-47 | a move changes exactly one coordinate by n, and the distance by at most n |
| Y2016Day01.RunWithinBlocks | src/bin/y2016/day01.rs:50-66 | the walker ends no further from the start than the number of blocks walked |
| Y2016Day01.Part1 | src/bin/y2016/day01.rs:50-66 | `part1` with its loop is the distance of the place the steps lead to |
| Y2016Day01.Part1Example1 | src/bin/y2016/day01.rs:93-96 | test `part1_1`: "R2, L3" ends 5 away |
| Y2016Day01.Part1Example2 | src/bin/y2016/day01.rs:98-101 | test `part1_2`: "R2, R2, R2" ends 2 away |
| Y2016Day01.Part1Example3 | src/bin/y2016/day01.rs:103-106 | test `part1_3`: "R5, L5, R5, R3" ends 12 away |
| Y2016Day01.Segment | src/bin/y2016/day01.rs:82-83 | a walk of n blocks passes n blocks |
| Y2016Day01.Trail | src/bin/y2016/day01.rs:72-88 | every block visited, the start first and the end of the walk last |
| Y2016Day01.TrailPrefix | src/bin/y2016/day01.rs:74-88 | the trail of fewer steps is a prefix of the trail of more |
| Y2016Day01.TrailStep | src/bin/y2016/day01.rs:74-88 | one more step extends the walker by its move and the trail by its segment |
| Y2016Day01.FirstRepeatFrom | src/bin/y2016/day01.rs:84 | the search for a revisited block lands inside the trail |
| Y2016Day01.FirstRepeatMeaning | src/bin/y2016/day01.rs:84-86 | the block found was visited before and every block before it is new; None only when all blocks differ |
| Y2016Day01.Part2 | src/bin/y2016/day01.rs:68-91 | `part2`, block by block with the visited set, returns the distance of the first block visited twice, or None where the source panics |
| Y2016Day01.Walk | src/bin/y2016/day01.rs:82-87 | the inner loop either stops on the first revisited block with its distance, or moves n blocks and adds them to the visited set, all distinct |
| Y2016Day01.FoundRepeat | src/bin/y2016/day01.rs:84-86 | the first block already in a distinct prefix is the answer |
| Y2016Day01.NoRepeat | src/bin/y2016/day01.rs:90 | a trail of distinct blocks has no answer, the source's panic |
| Y2016Day01.ExampleTrailIs | src/bin/y2016/day01.rs:113-116 | the trail of "R8, R4, R4, R8" is the 25 blocks of the four segments |
| Y2016Day01.Part2Example | src/bin/y2016/day01.rs:113-116 | test `part2_1`: "R8, R4, R4, R8" first revisits a block 4 away |
| Y2016Day11.RemoveIsDifference | src/bin/y2016/day11.rs:165-173 | the bitflags `remove` (x & !y) takes away exactly the flags of y |
| Y2016Day11.ToMicrochip | src/bin/y2016/day11.rs:343-345 | `to_microchip` yields only microchip flags, so its `unwrap` never fails |
| Y2016Day11.ToGenerator | src/bin/y2016/day11.rs:347-349 | `to_generator` yields only generator flags |
| Y2016Day11.ShiftsInverse | src/bin/y2016/day11.rs:343-349 | the masks keep one half each; the shifts move generator k onto microchip k and back, and undo each other there |
| Y2016Day11.IsValidAsWrittenMeans | src/bin/y2016/day11.rs:176-186 | the check as written holds exactly when there is no generator or every generator has its chip |
| Y2016Day11.IsValidMeans | src/bin/y2016/day11.rs:175-186 | the corrected check holds exactly when there is no generator or every chip has its generator |
| Y2016Day11.AsWrittenRejectsSafeFloor | src/bin/y2016/day11.rs:184 | thulium generator and chip with plutonium's generator: safe, yet refused by the check as written |
| Y2016Day11.AsWrittenAcceptsFriedChip | src/bin/y2016/day11.rs:184 | thulium generator and chip with plutonium's chip: unsafe, yet accepted by the check as written |
| Y2016Day11.ToHashable | src/bin/y2016/day11.rs:155-163 | the pair count is at most 7, so its `as u8` never truncates |
| Y2016Day11.HashableMeans | src/bin/y2016/day11.rs:155-163 | `to_hashable` is the number of elements with both flags on the floor and the unpaired flags plus the elevator |
| Y2016Day11.CoveredOf | src/bin/y2016/day11.rs:158-160 | `pairs or pairs.to_microchip()` is both flags of every complete pair |
| Y2016Day11.PairsOf | src/bin/y2016/day11.rs:156-158 | `generator and microchip` is the set of complete pairs |
| Y2016Day11.ValidByHash | src/bin/y2016/day11.rs:155-186 | the key determines whether the floor is valid |
| Y2016Day11.EmptyByHash | src/bin/y2016/day11.rs:155-163 | the key determines whether the floor is empty |
| Y2016Day11.SameHashSameFloor | src/bin/y2016/day11.rs:201-208 | floors with equal keys agree on validity, emptiness, the elevator, the unpaired items and the pair count |
| Y2016Day11.ElevatorFloor | src/bin/y2016/day11.rs:123-125 | `elevator_floor_idx` is the first floor holding the elevator, and None (the failing unwrap) only when no floor holds it |
| Y2016Day11.DepartingWith | src/bin/y2016/day11.rs:165-174 | `departing_with` is the floor without the elevator, a and b |
| Y2016Day11.Moving | src/bin/y2016/day11.rs:260-270 | `moving`: the other floors are untouched, `to` gains the elevator, a and b, and `from` departs with them |
| Y2016Day11.MovingCarries | src/bin/y2016/day11.rs:260-270 | moving items held on the elevator's floor keeps the arrangement consistent and the items, puts the elevator on `to`, and changes the two floors by exactly the moved items |
| Y2016Day11.MovingKeepsItems | src/bin/y2016/day11.rs:260-270 | what leaves `from` arrives on `to` |
| Y2016Day11.MoveDown | src/bin/y2016/day11.rs:227-244 | `move_down` is None exactly at floor 0, onto an empty floor, or when the floor below fails the check; otherwise the moved floors. With `AsWritten` it is the source, which calls `is_valid` as written; with `Corrected` it applies the intended check |
| Y2016Day11.MoveUp | src/bin/y2016/day11.rs:246-258 | `move_up` is None exactly at the top floor or when the floor above fails the check; otherwise the moved floors. `AsWritten` is the source, `Corrected` the intended check |
| Y2016Day11.MovesAreSafe | src/bin/y2016/day11.rs:227-270 | a successful move keeps the arrangement consistent and the items and puts the elevator on the destination; with the corrected check every chip there has its generator, with the check as written every generator there has its chip |
| Y2016Day11.MoveChecksOnlyDestination | src/bin/y2016/day11.rs:239-253 | only the destination is checked: a floor left behind can become invalid |
| Y2016Day11.AsWrittenRefusesSafeMove | src/bin/y2016/day11.rs:246-258 | the source's `move_up`, with `is_valid` as written, refuses to carry thulium's generator and chip up to plutonium's generator, a safe move the corrected check allows |
| Y2016Day11.AllEmpty | src/bin/y2016/day11.rs:135-137 | `all(is_empty)` over a slice of floors |
| Y2016Day11.IsDoneFloors | src/bin/y2016/day11.rs:134-138 | `is_done` holds exactly when the three lower floors are empty |
| Y2016Day11.IsDoneMeans | src/bin/y2016/day11.rs:134-138 | done means every item and the elevator are on the top floor |
| Y2016Day11.SameFloorsAgree | src/bin/y2016/day11.rs:201-208 | arrangements equal under `Floors::eq` agree on done, on the elevator floor and on validity floor by floor |
| Y2016Day11.KeyIsSameFloors | src/bin/y2016/day11.rs:192-208 | the hashed key is equal exactly when `Floors::eq` holds |
| Y2016Day11.InputIsValid | src/bin/y2016/day11.rs:352-360 | the puzzle input is consistent with the elevator on floor 0, all its floors are valid, and the check as written refuses its ground floor |
| Y2016Day11.FlagOf | src/bin/y2016/day11.rs:316-330 | bits 2k and 2k+1 are element k's generator and microchip |
| Y2016Day11.HoldsAfterRemove | src/bin/y2016/day11.rs:285-286 | removing the flag at bit j clears it and changes no other bit |
| Y2016Day11.FirstFrom | src/bin/y2016/day11.rs:280-312 | the first item flag held at bit j or above, or None exactly when there is none |
| Y2016Day11.FlagsFromMeans | src/bin/y2016/day11.rs:280-312 | the flags still to come: exactly the held bits, each once, in increasing order |
| Y2016Day11.FirstThenRest | src/bin/y2016/day11.rs:280-312 | taking the first flag leaves the rest of the sequence |
| Y2016Day11.NextTakesHead | src/bin/y2016/day11.rs:280-312 | what `next` returns is the head of the sequence and what it leaves is the tail |
| Y2016Day11.ItemIter.constructor | src/bin/y2016/day11.rs:339-341 | `into_iter` keeps the word |
| Y2016Day11.ItemIter.Next | src/bin/y2016/day11.rs:280-312 | `next`: None and no change when nothing is held, otherwise the lowest held flag, removed from the word |
| Y2016Day11.Drain | src/bin/y2016/day11.rs:62 | a `for` over `into_iter` yields the flags of the word in bit order |
| Y2016Day11.DrainYieldsEachOnce | src/bin/y2016/day11.rs:278-313 | the flags drained are distinct, each held, never the elevator, and every generator and chip of the word is among them |
| Y2016Day11.Min | src/bin/y2016/day11.rs:36 | `cmp::min`: at most both, and one of them |
| Y2016Day11.Keys | src/bin/y2016/day11.rs:40 | the keys of the queued states, in order |
| Y2016Day11.QueuedPush | src/bin/y2016/day11.rs:40-42 | queuing an unfinished state under a new key and recording the key keeps every queued key recorded once |
| Y2016Day11.QueuedRemove | src/bin/y2016/day11.rs:45-47 | taking a state off the queue keeps the rest sound |
| Y2016Day11.Executor.constructor | src/bin/y2016/day11.rs:23-29 | `new`: min_steps is usize::MAX and the set and heap are empty |
| Y2016Day11.Executor.PushState | src/bin/y2016/day11.rs:31-43 | `push_state`: a slower state changes nothing; a done one sets min_steps; any other records its key and is queued only if the key is new |
| Y2016Day11.Executor.Enqueue | src/bin/y2016/day11.rs:40-42 | `visited.insert` and the push exactly when the key was new |
| Y2016Day11.QueuedEnqueue | src/bin/y2016/day11.rs:40-42 | recording an unfinished state's key, and queuing it when the key is new, keeps every queued state unfinished and every key recorded once |
| Y2016Day11.Executor.NextState | src/bin/y2016/day11.rs:45-47 | `pop` of the reversed-order heap: None on an empty queue, otherwise a state with the fewest steps, removed once |
| Y2016Day11.FewestSteps | src/bin/y2016/day11.rs:116-119 | the queue position of a state with the fewest steps, the one the reversed `Ord` makes the heap's top |
| Y2016Day11.IsValidAsWritten | src/bin/y2016/day11.rs:176-185 | `is_valid` as written accepts every floor without a generator |
| Y2016Day11.IsValid | src/bin/y2016/day11.rs:175 | the check the comment above `is_valid` asks for also accepts every floor without a generator |
| Y2016Day12.ParseRegister | src/bin/y2016/day12.rs:10-21 | `Register::parse` looks at the first character only: any word starting with a to d gives that register, anything else is the `unreachable!` panic (None) |
| Y2016Day12.ParseValue | src/bin/y2016/day12.rs:31-37 | `Value::parse` takes the first word after leading whitespace: a constant exactly when it parses as an i32, otherwise a register |
| Y2016Day12.MnemonicOf | src/bin/y2016/day12.rs:52-57 | the match on the first three bytes: each of cpy, inc, dec, jnz picks its arm, any other is the panic |
| Y2016Day12.ParseProgram | src/bin/y2016/day12.rs:107-111 | the program has one instruction per line in order, or None exactly when some line does not parse |
| Y2016Day12.ParseShowValue | src/bin/y2016/day12.rs:31-37 | a value written after the mnemonic reads back as itself |
| Y2016Day12.SplitThree | src/bin/y2016/day12.rs:50-51 | a line with a mnemonic and two operands splits on spaces into those three words |
| Y2016Day12.ParseShow | src/bin/y2016/day12.rs:49-59 | every instruction parses back from its listing form |
| Y2016Day12.Set | src/bin/y2016/day12.rs:81-88 | `get_mut(r)` written: r holds v and the other registers are kept |
| Y2016Day12.Step | src/bin/y2016/day12.rs:90-103 | `eval`: cpy writes the resolved value to its target, inc and dec add and subtract one with i32 wrap-around, all three return 1; jnz changes no register and returns its offset when the value is nonzero, else 1; nothing but the target changes |
| Y2016Day12.IncDec | src/bin/y2016/day12.rs:93-94 | `inc` then `dec` of a register restores every register |
| Y2016Day12.Memory.constructor | src/bin/y2016/day12.rs:113-118 | the struct literal holds the given four registers |
| Y2016Day12.Memory.Resolve | src/bin/y2016/day12.rs:71-79 | `resolve` is the constant, or the register it names |
| Y2016Day12.Memory.Store | src/bin/y2016/day12.rs:81-92 | writing through `get_mut` changes exactly that register |
| Y2016Day12.Memory.Eval | src/bin/y2016/day12.rs:90-103 | `eval` on the struct's fields gives the registers and offset of the step function |
| Y2016Day12.RunMoreFuel | src/bin/y2016/day12.rs:121-123 | more fuel never changes a run that finished |
| Y2016Day12.Execute | src/bin/y2016/day12.rs:120-125 | the while loop (idx += eval, until idx as usize leaves the program) finishes within the fuel exactly when the run does, with the same registers |
| Y2016Day12.Solve | src/bin/y2016/day12.rs:106-126 | parse the trimmed lines, then run; register a, or None for a failed parse or too little fuel |
| Y2016Day12.Part1 | src/bin/y2016/day12.rs:106-126 | `part1` starts with every register 0 |
| Y2016Day12.Part2 | src/bin/y2016/day12.rs:148-168 | `part2` is the same with c starting at 1 |
| Y2016Day12.ExampleParses | src/bin/y2016/day12.rs:131-137 | the test listing parses to its six instructions |
| Y2016Day12.ExampleRuns | src/bin/y2016/day12.rs:131-140 | five instructions run, `jnz a 2` skips the last `dec`, and a ends at 42 |
| Y2016Day12.ExampleAnswer | src/bin/y2016/day12.rs:128-141 | test `part1_1`: the answer is 42 |
| Y2016Day12.Run | src/bin/y2016/day12.rs:120-125 | a run that starts outside the program stops at once with the registers unchanged, and a register that no instruction writes ends as it started |
| Y2016Day15.DiscCongruence | src/bin/y2016/day15.rs:8-11 | disc i becomes a congruence modulo its number of positions |
| Y2016Day15.DiscCongruenceMeaning | src/bin/y2016/day15.rs:8-11 | a time t satisfies disc i's congruence exactly when the ball passes it: (position + i + 1 + t) mod positions is 0 |
| Y2016Day15.Folded | src/bin/y2016/day15.rs:12-15 | the fold keeps a positive modulus while it has not panicked |
| Y2016Day15.FoldedSound | src/bin/y2016/day15.rs:12-15 | while the fold has not panicked its congruence is satisfied only by times that pass every disc folded so far, and its modulus is a multiple of theirs |
| Y2016Day15.SolvePassesEveryDisc | src/bin/y2016/day15.rs:3-17 | `solve`'s answer lets the ball pass every disc, when the combined modulus fits in 64 bits |
| Y2016Day15.ExampleSolve | src/bin/y2016/day15.rs:33-36 | test `part1_1`: discs of 5 and 2 positions at 4 and 1 give 5 |
| Y2016Day15.Solve | src/bin/y2016/day15.rs:3-17 | `solve` answers exactly when the fold reaches a congruence, never for an empty list where `unwrap` panics, and its answer fits in 64 bits |
| Y2016Day15.Part1 | src/bin/y2016/day15.rs:19-21 | `part1` leaves out the last disc: None for an empty list, where `discs.len() - 1` underflows and the source panics; when the combined modulus fits in 64 bits its answer passes every other disc |
| Y2016Day15.Part2 | src/bin/y2016/day15.rs:23-25 | `part2` keeps every disc: when the combined modulus fits in 64 bits its answer passes every disc |
| Y2016Day16.Reversed | src/bin/y2016/day16.rs:6 | `b.reverse()`: same length, slot i holds the old slot length-1-i |
| Y2016Day16.Complemented | src/bin/y2016/day16.rs:7-9 | the complement loop flips every value, 1 to 0 and anything else to 1 |
| Y2016Day16.ExpandAt | src/bin/y2016/day16.rs:4-12 | one expansion has length 2n+1: the data, a 0, then the reversed complement |
| Y2016Day16.ExpandOnce | src/bin/y2016/day16.rs:4-12 | the loop body (clone, reverse, complement in place, push 0, extend) makes one expansion |
| Y2016Day16.GrowLength | src/bin/y2016/day16.rs:3-13 | the while loop ends at least disk_size long |
| Y2016Day16.GrowKeepsPrefix | src/bin/y2016/day16.rs:3-13 | expanding never changes the data already there |
| Y2016Day16.TruncationStable | src/bin/y2016/day16.rs:15 | after the truncation to n the result does not depend on how far the data was grown |
| Y2016Day16.LowBit | src/bin/y2016/day16.rs:23 | the chunk size is positive |
| Y2016Day16.LowBitDivides | src/bin/y2016/day16.rs:23 | the chunk size divides the length and leaves an odd quotient, so the checksum has odd length |
| Y2016Day16.LowBitOfOddMultiple | src/bin/y2016/day16.rs:23 | the chunk size of 2^k times an odd number is 2^k |
| Y2016Day16.ChunkMaskBits | src/bin/y2016/day16.rs:23 | on a nonzero 64-bit word, `x & !(x - 1)` is a single bit, set in x, with every lower bit of x clear |
| Y2016Day16.ChunkMaskIsLowBit | src/bin/y2016/day16.rs:23 | for a 64-bit length word of value n > 0, `len & !(len - 1)` has the value LowBit(n), the largest power of two dividing n |
| Y2016Day16.ToChars | src/bin/y2016/day16.rs:24-31 | the checksum string: '1' exactly for a 1 and '0' otherwise |
| Y2016Day16.Compute | src/bin/y2016/day16.rs:1-32 | `compute`: None exactly for disk size 0 (the underflow panic); otherwise the parity checksum of the grown data truncated to the disk size |
| Y2016Day16.Part1 | src/bin/y2016/day16.rs:34-36 | `part1` is the checksum of the first 272 values |
| Y2016Day16.Part2 | src/bin/y2016/day16.rs:38-40 | `part2` is the checksum of the first 35651584 values |
| Y2016Day16.ParityJoin | src/bin/y2016/day16.rs:17-22 | two halves' parities combine by XNOR into the parity of the whole |
| Y2016Day16.DigestDoubles | src/bin/y2016/day16.rs:17-22 | chunks of 2c are one XNOR pass over chunks of c |
| Y2016Day16.DigestReachesLowBit | src/bin/y2016/day16.rs:17-23 | repeated XNOR passes over chunks of 2^k reach the chunks of the chunk size |
| Y2016Day16.ChecksumIsPairwise | src/bin/y2016/day16.rs:17-23 | on 0/1 data of even length the chunk parities are the puzzle's pairwise XNOR checksum, of odd length, as the source comment claims |
| Y2016Day18.Parse | src/bin/y2016/day18.rs:7-16 | `parse` succeeds exactly on rows of '.' and '^', with a trap exactly at each '^'; otherwise the `unreachable!` panic (None) |
| Y2016Day18.Tiles | src/bin/y2016/day18.rs:15 | a collected BitVec yields at least one tile, since `len()` is max_idx + 1 |
| Y2016Day18.RuleIsXor | src/bin/y2016/day18.rs:23-29 | the four trap patterns are exactly those whose outer tiles differ |
| Y2016Day18.NextRow | src/bin/y2016/day18.rs:18-31 | `to_next_row` keeps the row length |
| Y2016Day18.NextRowTraps | src/bin/y2016/day18.rs:18-31 | a tile of the next row is a trap exactly when one of its two upper neighbours is, out-of-row neighbours counting as safe |
| Y2016Day18.NextRowMirror | src/bin/y2016/day18.rs:18-31 | the rule is symmetric: mirroring a row mirrors its next row |
| Y2016Day18.SafeRowStaysSafe | src/bin/y2016/day18.rs:18-31 | a row without traps is followed by one without traps |
| Y2016Day18.Row | src/bin/y2016/day18.rs:40-45 | every row has the first row's length |
| Y2016Day18.SafeTotalBound | src/bin/y2016/day18.rs:33-47 | the safe count is at most the number of tiles |
| Y2016Day18.AllSafe | src/bin/y2016/day18.rs:33-47 | from a row without traps every tile of every row is safe |
| Y2016Day18.ReadBackKeepsRow | src/bin/y2016/day18.rs:15-41 | at lengths other than 64k+1 a collected row reads back as its tiles |
| Y2016Day18.ReadBackLosesLast | src/bin/y2016/day18.rs:15-41 | at a length 64k+1 the last tile reads back safe, whatever it was |
| Y2016Day18.ReadBackIsCollected | src/bin/y2016/day18.rs:15-41 | reading a collected vector back gives the tiles with that one loss |
| Y2016Day18.CountZerosOfRow | src/bin/y2016/day18.rs:39-42 | `count_zeros` of a collected row counts the safe tiles read back |
| Y2016Day18.AsWrittenAgrees | src/bin/y2016/day18.rs:33-47 | away from lengths 64k+1 the rows read back are the rows of the rule, so the count as written is the intended count |
| Y2016Day18.LastTrapLost | src/bin/y2016/day18.rs:33-47 | 64 safe tiles and a trap: one row counts 65 safe tiles where there are 64 |
| Y2016Day18.Collect | src/bin/y2016/day18.rs:15-30 | `collect::<BitVec>()` is a fresh vector filled as `fill` is written |
| Y2016Day18.CountSafe | src/bin/y2016/day18.rs:33-47 | `count_safe`: None exactly when the row does not parse; otherwise the safe tiles of max(row_count, 1) rows, each held in a BitVec and counted by `count_zeros` |
| Y2016Day18.NextCount | src/bin/y2016/day18.rs:41-43 | one round of the loop: the next row of what the current one reads back, collected, and its `count_zeros` |
| Y2016Day18.Part1 | src/bin/y2016/day18.rs:49-51 | `part1` counts 40 rows |
| Y2016Day18.Part2 | src/bin/y2016/day18.rs:53-55 | `part2` counts 400000 rows |
| Y2016Day19.BitLength | src/bin/y2016/day19.rs:4 | `0usize.leading_zeros() - n.leading_zeros()` is the number of binary digits of n: 0 exactly for n = 0, otherwise m with 2^(m-1) <= n < 2^m |
| Y2016Day19.HighBit | src/bin/y2016/day19.rs:5 | `2usize.pow(m - 1)` is the highest power of two not above n |
| Y2016Day19.Part1IsJosephus | src/bin/y2016/day19.rs:1-6 | `part1` is the winner of the every-second-elf Josephus game, computed by its recurrence, for every circle of elves |
| Y2016Day19.Part1Example | src/bin/y2016/day19.rs:29-32 | test `part1_1`: five elves give 3 |
| Y2016Day19.Log3 | src/bin/y2016/day19.rs:10-11 | the exponent of the largest power of three not above n, the last of the `take_while` |
| Y2016Day19.Log3Unique | src/bin/y2016/day19.rs:10-11 | any exponent between the bounds of Log3 is the one it picks |
| Y2016Day19.Part2 | src/bin/y2016/day19.rs:9-27 | `part2`, with its three branches, answers an elf between 1 and n |
| Y2016Day19.WinnerStep | src/bin/y2016/day19.rs:12-26 | one elf more moves the closed form one step of the across-the-circle game, within one power of three and across to the next |
| Y2016Day19.ClosedIsSawtooth | src/bin/y2016/day19.rs:12-26 | the closed form is the winner of the across-the-circle game, computed by its recurrence, for every circle |
| Y2016Day19.Part2IsSawtooth | src/bin/y2016/day19.rs:9-27 | every n > 0, for which the source does not overflow, gets the winner of the across-the-circle game |
| Y2016Day19.Part2Example | src/bin/y2016/day19.rs:39-42 | test `part2_1`: five elves give 2 |
| Y2016Day20.FirstBlocking | src/bin/y2016/day20.rs:16-22 | the inner `for` finds the first rule blocking i, and none exactly when i is allowed |
| Y2016Day20.JumpBlocked | src/bin/y2016/day20.rs:19 | when every address below i is blocked, jumping to the end b of a rule blocking i keeps every address up to b blocked |
| Y2016Day20.Part1 | src/bin/y2016/day20.rs:11-28 | `part1` returns an allowed address with every lower address blocked, or None when every address is blocked (the overflow of `i += 1` past u32::MAX) |
| Y2016Day20.AllowedBelow | src/bin/y2016/day20.rs:43-45 | the count of allowed addresses below n is at most n |
| Y2016Day20.SkipBlocked | src/bin/y2016/day20.rs:19 | blocked addresses add nothing to the count |
| Y2016Day20.NoneAllowed | src/bin/y2016/day20.rs:30-52 | the count is 0 exactly when every address is blocked, so `part2` finds none exactly when `part1` fails |
| Y2016Day20.NoRulesAllowAll | src/bin/y2016/day20.rs:30-52 | with no rules every address is allowed |
| Y2016Day20.Part2 | src/bin/y2016/day20.rs:30-52 | `part2` counts the allowed addresses from 0 to u32::MAX, stopping at the last one without overflowing |
| Y2016Day20.BlockedRun | src/bin/y2016/day20.rs:36-41 | the count after the run of a blocking rule is the count before it |
| Y2016Day19.Part1 | src/bin/y2016/day19.rs:3-6 | `part1` answers for every n of at least 1, and the winner is an odd-numbered elf between 1 and n; for 0 elves the exponent underflows |
| Y2016Day21.DigitAt | src/bin/y2016/day21.rs:19 | `line[k..][..1].parse()` reads one decimal digit below 10, or fails where the source panics |
| Y2016Day21.Parse | src/bin/y2016/day21.rs:14-53 | `parse` gives one instruction per input line, or None as soon as a line is not one of the seven instruction forms |
| Y2016Day21.ParseShow | src/bin/y2016/day21.rs:14-53 | the parser reads back the puzzle's own wording of every instruction whose numbers are single digits |
| Y2016Day21.IndexOf | src/bin/y2016/day21.rs:56 | `iter().position` is the first index holding the letter, and None exactly when the letter is absent |
| Y2016Day21.Preimage | src/bin/y2016/day21.rs:119-131 | the first left rotation, from c0 on, that `rotate_based` maps back onto the password |
| Y2016Day21.RotLIsRot | src/bin/y2016/day21.rs:77 | `rotate_left(k)` is the cyclic rotation by k |
| Y2016Day21.RotRIsRot | src/bin/y2016/day21.rs:80 | `rotate_right(k)` is the cyclic rotation by minus k |
| Y2016Day21.RotRot | src/bin/y2016/day21.rs:57-59 | two rotations add up to one rotation by the sum |
| Y2016Day21.RotSame | src/bin/y2016/day21.rs:125 | two rotations of distinct letters are equal exactly when their amounts agree modulo eight |
| Y2016Day21.RotateBasedRot | src/bin/y2016/day21.rs:55-61 | `rotate_based` is the rotation right by 1 + index, plus one more from index 4 on |
| Y2016Day21.ShiftInjective | src/bin/y2016/day21.rs:55-61 | on eight slots, where `rotate_based` moves the letter determines where it was, so the operation can be undone |
| Y2016Day21.TryRotation | src/bin/y2016/day21.rs:121-129 | part 2's test `copy2 == input` succeeds for the left rotation by c exactly when c is the shift `rotate_based` applied |
| Y2016Day21.PreimageOfRotated | src/bin/y2016/day21.rs:119-131 | part 2's search over left rotations stops at the shift `rotate_based` applied |
| Y2016Day21.UnrotateBasedUndoes | src/bin/y2016/day21.rs:119-131 | part 2's search undoes `rotate_based` on eight distinct letters |
| Y2016Day21.StepPermutes | src/bin/y2016/day21.rs:66-96 | every instruction of part 1 that does not panic rearranges the letters, keeping their number and their multiset |
| Y2016Day21.ScramblePermutes | src/bin/y2016/day21.rs:63-98 | a whole scrambling program rearranges the letters |
| Y2016Day21.DistinctCounts | src/bin/y2016/day21.rs:64 | a password has no repeated letter exactly when every letter occurs at most once |
| Y2016Day21.DistinctPermutation | src/bin/y2016/day21.rs:64 | a rearrangement of distinct letters has distinct letters |
| Y2016Day21.SwapLettersUndone | src/bin/y2016/day21.rs:108-112 | swapping two letters twice gives the password back |
| Y2016Day21.ReverseUndone | src/bin/y2016/day21.rs:132-134 | reversing the same window twice gives the password back |
| Y2016Day21.MoveUndone | src/bin/y2016/day21.rs:135-141 | part 2's Move, which turns the window the other way, undoes part 1's Move |
| Y2016Day21.StepUndone | src/bin/y2016/day21.rs:103-143 | part 2's inverse of each instruction undoes part 1's instruction on distinct letters (eight of them for the letter rotation) |
| Y2016Day21.ScrambleUndone | src/bin/y2016/day21.rs:100-145 | unscrambling with the instructions reversed and inverted gives back any eight-letter password of distinct letters |
| Y2016Day21.UnscrambleLast | src/bin/y2016/day21.rs:103 | `into_iter().rev()` undoes the last instruction first |
| Y2016Day21.PlainRoundTrip | src/bin/y2016/day21.rs:63-145 | part 2 applied to part 1's answer gives back "abcdefgh" |
| Y2016Day21.MoveMeaning | src/bin/y2016/day21.rs:88-94 | Move takes the letter out of slot from and puts it back so that it ends up in slot to; None when a slot is out of range |
| Y2016Day21.SwapIn | src/bin/y2016/day21.rs:69 | `swap(i, j)` on the array leaves the two slots exchanged |
| Y2016Day21.ReverseIn | src/bin/y2016/day21.rs:86 | in-place slice reversal leaves the window reversed and the rest unchanged |
| Y2016Day21.RotateLeftIn | src/bin/y2016/day21.rs:90 | in-place `rotate_left` of a window leaves it rotated and the rest unchanged |
| Y2016Day21.RotateRightIn | src/bin/y2016/day21.rs:92 | in-place `rotate_right` of a window leaves it rotated and the rest unchanged |
| Y2016Day21.PositionOf | src/bin/y2016/day21.rs:72 | the loop finds the first index holding the letter, or None |
| Y2016Day21.RotateRightAll | src/bin/y2016/day21.rs:80 | `rotate_right(k)` of the whole array |
| Y2016Day21.RotateLeftAll | src/bin/y2016/day21.rs:77 | `rotate_left(k)` of the whole array |
| Y2016Day21.RotateBasedIn | src/bin/y2016/day21.rs:55-61 | `rotate_based` on the array agrees with the value model; false where the letter is missing and the source panics |
| Y2016Day21.MoveIn | src/bin/y2016/day21.rs:88-94 | part 1's Move on the array agrees with the value model; false on an out-of-range slot |
| Y2016Day21.UnmoveIn | src/bin/y2016/day21.rs:135-141 | part 2's Move on the array agrees with the value model |
| Y2016Day21.SwapLettersIn | src/bin/y2016/day21.rs:71-75 | SwapLetters on the array swaps the two letters' slots; false where a letter is missing |
| Y2016Day21.ReverseSpanIn | src/bin/y2016/day21.rs:85-87 | `input[a..=b].reverse()` on the array; false where the range is out of bounds |
| Y2016Day21.Execute | src/bin/y2016/day21.rs:67-95 | one instruction of part 1 changes the array as the value model says, or reports the panic |
| Y2016Day21.UnrotateBasedFound | src/bin/y2016/day21.rs:121-128 | the search stops at the first left rotation that `rotate_based` maps back onto the password |
| Y2016Day21.UnrotateBasedMissing | src/bin/y2016/day21.rs:123 | where the letter is missing the search fails (the source panics in `rotate_based`) |
| Y2016Day21.UnrotateBasedExhausted | src/bin/y2016/day21.rs:121-130 | where no rotation maps back the search fails (the source loops for ever) |
| Y2016Day21.UnrotateBasedIn | src/bin/y2016/day21.rs:119-131 | the RotateLetter arm of part 2 on the array agrees with the value model's search |
| Y2016Day21.Undo | src/bin/y2016/day21.rs:104-142 | one inverted instruction of part 2 changes the array as the value model says, or reports the panic or the endless loop |
| Y2016Day21.Part1 | src/bin/y2016/day21.rs:63-98 | `part1` scrambles "abcdefgh" with the parsed instructions in order |
| Y2016Day21.Part2 | src/bin/y2016/day21.rs:100-145 | `part2` unscrambles "fbgdceah" with the instructions from last to first, each inverted |
| Y2016Day21.RotateBased | src/bin/y2016/day21.rs:55-61 | `rotate_based` succeeds exactly when the letter is in the password, whose length it keeps; otherwise the `unwrap` panics |
| Y2016Day21.Step | src/bin/y2016/day21.rs:66-95 | one instruction of part 1 that does not panic keeps the password length |
| Y2016Day21.Unstep | src/bin/y2016/day21.rs:103-142 | one inverted instruction of part 2 that does not panic keeps the password length |
| Y2016Day21.Scramble | src/bin/y2016/day21.rs:63-98 | the loop of `part1` keeps the password length |
| Y2016Day21.Unscramble | src/bin/y2016/day21.rs:100-145 | the loop of `part2`, over the instructions from last to first, keeps the password length |
| Y2017Day06.MaxFrom | src/bin/y2017/day06.rs:1-15 | the index of the first largest bank of the suffix: every later bank is no larger and every earlier one smaller |
| Y2017Day06.FirstMax | src/bin/y2017/day06.rs:1-15 | a reference index of the first largest bank, against which `max` is proved |
| Y2017Day06.FirstMaxUnique | src/bin/y2017/day06.rs:1-15 | the first largest bank is unique, so `max`'s answer is determined |
| Y2017Day06.Max | src/bin/y2017/day06.rs:1-15 | scanning down from the last bank with `>=` returns the lowest index holding the maximum, and that maximum |
| Y2017Day06.SlotAtMostSum | src/bin/y2017/day06.rs:18-29 | no bank holds more blocks than all banks together |
| Y2017Day06.SpreadSum | src/bin/y2017/day06.rs:23-27 | handing out blocks one at a time neither creates nor loses any |
| Y2017Day06.HitsClosedForm | src/bin/y2017/day06.rs:23-27 | of m blocks handed out after bank p, each bank gets m / n, and one more when it lies within the first m % n banks after p |
| Y2017Day06.Step | src/bin/y2017/day06.rs:18-29 | one cycle keeps the number of banks |
| Y2017Day06.StepSum | src/bin/y2017/day06.rs:18-29 | one cycle keeps the total number of blocks |
| Y2017Day06.StepAt | src/bin/y2017/day06.rs:18-29 | bank by bank, a cycle empties the first fullest bank and gives every bank its share of that bank's blocks |
| Y2017Day06.AfterKeepsSum | src/bin/y2017/day06.rs:37-59 | any number of cycles keeps the number of banks and the total |
| Y2017Day06.NoOverflow | src/bin/y2017/day06.rs:24 | with fewer than 2^32 blocks in all, no bank's u32 ever overflows however many cycles run |
| Y2017Day06.Redistribute | src/bin/y2017/day06.rs:18-29 | `f` on the banks in place leaves them as one cycle of the value model |
| Y2017Day06.Deal | src/bin/y2017/day06.rs:21-27 | the `while max > 0` loop hands out the blocks one to each following bank in turn |
| Y2017Day06.IsLoopUnique | src/bin/y2017/day06.rs:31-62 | the start of the loop and its length are determined by the first configuration |
| Y2017Day06.Meet | src/bin/y2017/day06.rs:34-42 | the first loop of `exec` stops with tortoise and hare equal after t and 2t cycles, and it does stop when the loop is reached within the fuel |
| Y2017Day06.Race | src/bin/y2017/day06.rs:40-41 | one round of the first loop moves the tortoise one cycle and the hare two |
| Y2017Day06.Walk | src/bin/y2017/day06.rs:48-49 | one round of the second loop moves both one cycle |
| Y2017Day06.FindMu | src/bin/y2017/day06.rs:44-51 | the second loop stops at mu, the first configuration that ever comes back, and no earlier configuration returns |
| Y2017Day06.Chase | src/bin/y2017/day06.rs:47-51 | the second loop stops at the first index where tortoise and hare agree |
| Y2017Day06.NoEarlierReturn | src/bin/y2017/day06.rs:44-51 | before the meeting index of Floyd's second phase no configuration comes back at all |
| Y2017Day06.FindLam | src/bin/y2017/day06.rs:53-59 | the third loop counts the cycles until the meeting configuration comes back |
| Y2017Day06.Exec | src/bin/y2017/day06.rs:31-62 | `exec` returns the length lam and the start mu of the loop of configurations, whenever the loop is reached within the fuel |
| Y2017Day06.Part1 | src/bin/y2017/day06.rs:64-67 | `part1` is the number of cycles before a configuration repeats, lam + mu |
| Y2017Day06.Part2 | src/bin/y2017/day06.rs:70-73 | `part2` is the length of the loop, lam |
| Y2017Day06.ExampleLoopSteps | src/bin/y2017/day06.rs:76-78 | the four configurations of the example's loop follow each other in turn |
| Y2017Day06.ExampleOrbit | src/bin/y2017/day06.rs:76-78 | after k cycles the example is at configuration (k - 1) % 4 of its loop |
| Y2017Day06.ExampleLoop | src/bin/y2017/day06.rs:76-78 | the example's loop starts after one cycle and holds four configurations |
| Y2017Day06.ExampleAnswers | src/bin/y2017/day06.rs:76-88 | tests `part1_1` and `part2_1`: the example gives 5 and 4 |
| Y2017Day08.NegationComplements | src/bin/y2017/day08.rs:82-91 | the six comparisons come in complementary pairs, and pairing twice gives the comparison back |
| Y2017Day08.Trichotomy | src/bin/y2017/day08.rs:82-91 | exactly one of `<`, `==` and `>` holds |
| Y2017Day08.ParseOp | src/bin/y2017/day08.rs:52-60 | the comparison word parses exactly when it is one of the six, and it reads back as its own text |
| Y2017Day08.ParseOpText | src/bin/y2017/day08.rs:52-60 | every comparison reads back from its text |
| Y2017Day08.ParseLine | src/bin/y2017/day08.rs:45-63 | `parse_line` succeeds exactly when the line has seven space-separated words with an integer amount, a known comparison and an integer value |
| Y2017Day08.ParseWords | src/bin/y2017/day08.rs:46-62 | the words of a line parse exactly when the amount, comparison and value are well-formed, and the target and condition register are words 0 and 4 |
| Y2017Day08.ParseShow | src/bin/y2017/day08.rs:45-63 | every instruction whose register names hold no space reads back from its listing |
| Y2017Day08.DecNegates | src/bin/y2017/day08.rs:48-49 | `dec n` parses exactly like `inc -n`, to the delta minus n |
| Y2017Day08.ParseJoin | src/bin/y2017/day08.rs:46 | a line made of words without spaces splits back into those words |
| Y2017Day08.DecWords | src/bin/y2017/day08.rs:48 | word lists differing only in `dec n` against `inc -n` parse alike |
| Y2017Day08.Step | src/bin/y2017/day08.rs:24-31 | one line creates both registers with 0 if missing, adds the delta to the target when the condition holds and changes nothing else |
| Y2017Day08.RunPanics | src/bin/y2017/day08.rs:23-24 | a line that does not parse makes the whole run panic |
| Y2017Day08.RunNames | src/bin/y2017/day08.rs:25-26 | every register a line names exists after the run |
| Y2017Day08.MaxValue | src/bin/y2017/day08.rs:16 | `values().max().unwrap()` is a value of the map no smaller than any other, or None exactly for an empty map |
| Y2017Day08.Part1 | src/bin/y2017/day08.rs:5-18 | `part1` is the largest final register value; None when a line panics or there are no lines |
| Y2017Day08.Part2AsWritten | src/bin/y2017/day08.rs:20-34 | `part2` as written takes the maximum of the target's value before its update |
| Y2017Day08.Peak | src/bin/y2017/day08.rs:20-34 | the intended peak is never negative, since every register starts at 0 |
| Y2017Day08.Part2 | src/bin/y2017/day08.rs:20-34 | `part2` with the maximum taken after the update computes the intended peak |
| Y2017Day08.PeakBoundsFinal | src/bin/y2017/day08.rs:20-34 | every final register value is at most the intended peak |
| Y2017Day08.PeakGrows | src/bin/y2017/day08.rs:20-34 | the intended peak never falls as lines are added |
| Y2017Day08.PeakBoundsEveryState | src/bin/y2017/day08.rs:20-34 | every value any register holds after any prefix of the lines is at most the intended peak |
| Y2017Day08.PeakIsHeld | src/bin/y2017/day08.rs:20-34 | the intended peak is 0 or a value some register actually holds after some line |
| Y2017Day08.MissedPeak | src/bin/y2017/day08.rs:28-30 | for the single line `a inc 5 if a == 0`, `part2` as written reports 0 while a ends at 5 |
| Y2017Day08.Extend | src/bin/y2017/day08.rs:23-32 | one more line updates the registers and both peaks as the two loops do |
| Y2017Day08.ExampleParses | src/bin/y2017/day08.rs:115-120 | the four example lines parse to their instructions, the `dec -10` line as `inc 10` |
| Y2017Day08.ExampleParts | src/bin/y2017/day08.rs:99-112 | tests `part1_1` and `part2_1`: the example ends with a = 1, b = 0, c = -10, and the largest value ever held is 10 |
| Y2017Day08.ExamplePart1 | src/bin/y2017/day08.rs:99-102 | the largest final value of the example is 1 |
| Y2017Day08.PeakAsWritten | src/bin/y2017/day08.rs:20-34 | the maximum as written starts from 0 and so is never negative |
| Y2017Day10.Add | src/bin/y2017/day10.rs:4-10 | `add`'s repeated subtraction gives (i + n) modulo the constraint |
| Y2017Day10.ReverseWindowByRotation | src/bin/y2017/day10.rs:15-43 | twisting the circular window equals rotating its start to the front, reversing the first len slots and rotating back |
| Y2017Day10.ReverseWindowPermutes | src/bin/y2017/day10.rs:15-43 | a twist only reorders the marks, also for a window longer than the circle |
| Y2017Day10.OverlongIsReflection | src/bin/y2017/day10.rs:19-42 | a window longer than the circle (up to 2l - a) reflects the whole circle: the result is a rotation of the list read backwards |
| Y2017Day10.ReverseWindowTwice | src/bin/y2017/day10.rs:69-77 | twisting the same window twice restores the list, for every length below 2l - a, as the quickcheck `circle_rev_any` states |
| Y2017Day10.MirrorTwice | src/bin/y2017/day10.rs:15-43 | mirroring a slot inside the window twice gives the slot back |
| Y2017Day10.ReverseWindowInside | src/bin/y2017/day10.rs:17-18 | a window that does not wrap is reversed as the plain slice |
| Y2017Day10.RangeLength | src/bin/y2017/day10.rs:46-54 | the range from a to b stays within the reach 2l - a of `reverse_after` whenever b < 2l, and is shorter than the circle when it goes round (b < a) |
| Y2017Day10.ReverseRangeIsSliceReverse | src/bin/y2017/day10.rs:58-66 | on a forward range `reverse_range` is the slice reversal of v[a..b], as the quickcheck `circle_rev_simple` states |
| Y2017Day10.ReverseRangeTwice | src/bin/y2017/day10.rs:69-77 | `reverse_range` applied twice is the identity, as the quickcheck `circle_rev_any` states |
| Y2017Day10.WrappedWriteBack | src/bin/y2017/day10.rs:19-42 | copying a wrapping window out, reversing it and writing it back in two pieces twists that window; for a window longer than the circle the second piece overwrites the first's start with the same values |
| Y2017Day10.CopiedSlot | src/bin/y2017/day10.rs:31-41 | a slot inside the wrapping window receives the copy's value from the far end |
| Y2017Day10.Circle.constructor | src/bin/y2017/day10.rs:12 | a circle holds the given marks |
| Y2017Day10.Circle.ReverseAfter | src/bin/y2017/day10.rs:15-43 | `reverse_after` goes through exactly when length < 2l - a, and then leaves the circle with the window of `length` slots from a reversed, in the fitting, the wrapping and the longer-than-the-circle case; from 2l - a on it is the out-of-bounds panic |
| Y2017Day10.Circle.CopyWindow | src/bin/y2017/day10.rs:20-30 | the copy loop reads the window round the circle and records where it wrapped |
| Y2017Day10.Circle.WriteBack | src/bin/y2017/day10.rs:32-41 | the two writing loops put the reversed copy from a to the end and the rest from 0, the second winning where they overlap, leaving the slots between unchanged |
| Y2017Day10.Circle.ReverseRange | src/bin/y2017/day10.rs:46-54 | `reverse_range` twists the range from a to b, with the wrapping length when b < a; it panics exactly for b >= 2l |
| Y2017Day10.Twist | src/bin/y2017/day10.rs:89-93 | one length keeps the list's size and the position on the circle |
| Y2017Day10.TwistsPermute | src/bin/y2017/day10.rs:88-94 | however many lengths are applied the list is only reordered, and skip counts the lengths |
| Y2017Day10.Twists | src/bin/y2017/day10.rs:88-94 | the lengths of `run` in order: no panic when every length is at most the list size, and a panic only on a longer one |
| Y2017Day10.PanicPersists | src/bin/y2017/day10.rs:88-94 | once a length panics, the whole run panics |
| Y2017Day10.Run | src/bin/y2017/day10.rs:88-94 | `run` twists the circle for every length in order and updates cur and skip as the value model says; false exactly where a length reaches 2l - cur and `reverse_after` panics |
| Y2017Day10.Marks | src/bin/y2017/day10.rs:81 | `(0..256).collect()` is the marks 0 to n - 1 |
| Y2017Day10.Part1 | src/bin/y2017/day10.rs:79-86 | `part1` is the product of the first two marks after one run over the marks 0 to 255, None where a length reaches 512 - cur and the source panics; lengths up to 256 always answer |
| Y2017Day10.TwistsStep | src/bin/y2017/day10.rs:89 | twisting one more length below 2l - cur extends the run by one twist |
| Y2017Day10.OverlongExample | src/bin/y2017/day10.rs:15-43 | length 6 on the marks 0 to 4 from position 3 gives 1, 0, 4, 3, 2, writing slot 3 twice; length 7 panics |
| Y2017Day10.ExampleRun | src/bin/y2017/day10.rs:96-101 | test `part1_1`: marks 0 to 4 with lengths 3, 4, 1, 5 end as 3, 4, 2, 1, 0, so the product is 12 |
| Y2017Day10.Rounds | src/bin/y2017/day10.rs:114-116 | 64 rounds over the same lengths keep the list's size and only reorder it |
| Y2017Day10.HashLengths | src/bin/y2017/day10.rs:109-110 | `part2`'s lengths are the input bytes followed by the five-byte suffix |
| Y2017Day10.Sparse | src/bin/y2017/day10.rs:111-116 | the sparse hash is a permutation of 0 to 255 |
| Y2017Day10.PermutationOfMarks | src/bin/y2017/day10.rs:111-116 | a permutation of the marks 0 to 255 holds only bytes |
| Y2017Day10.Dense | src/bin/y2017/day10.rs:117-125 | the dense hash has 16 bytes |
| Y2017Day10.Hex | src/bin/y2017/day10.rs:124 | `{:02x}` writes every byte as two lower-case hexadecimal digits, the high digit first |
| Y2017Day10.HexDecodes | src/bin/y2017/day10.rs:124 | reading each pair of digits back gives the byte, so the hex text loses nothing |
| Y2017Day10.DenseHash | src/bin/y2017/day10.rs:117-125 | the loops compute the xor of each block of 16 |
| Y2017Day10.BlockXor | src/bin/y2017/day10.rs:120-123 | the inner loop computes the xor of list[base..base+16] |
| Y2017Day10.Part2 | src/bin/y2017/day10.rs:108-127 | `part2` is the knot hash as 32 lower-case hexadecimal digits |
| Y2017Day13.Parse | src/bin/y2017/day13.rs:14-30 | `parse` builds one layer per depth up to the last listed, filling missing depths with range 0 and storing range minus one; None exactly when a number does not fit a u8 or the depths do not increase |
| Y2017Day13.Fill | src/bin/y2017/day13.rs:20-23 | the filler loop adds empty layers, each knowing its depth, up to the next listed depth |
| Y2017Day13.PushListed | src/bin/y2017/day13.rs:24-27 | after the push for line k the layers describe the first k + 1 lines |
| Y2017Day13.IncreasingBelow | src/bin/y2017/day13.rs:20 | in an increasing listing earlier depths are smaller |
| Y2017Day13.Layers.constructor | src/bin/y2017/day13.rs:29 | the parsed layers start with the scanner counter at 0 |
| Y2017Day13.Layers.Run | src/bin/y2017/day13.rs:32-43 | `run` adds depth times range for every layer whose scanner is at the top, and advances the counter once per layer |
| Y2017Day13.Part1 | src/bin/y2017/day13.rs:47-49 | `part1` is the severity of leaving at once; None exactly when parsing fails |
| Y2017Day13.SeverityIffCaughtBelowTop | src/bin/y2017/day13.rs:32-72 | a trip has positive severity exactly when a layer other than the first catches it, which is why `part2` tests catches and not severity |
| Y2017Day13.Caught | src/bin/y2017/day13.rs:60-66 | the inner loop reports whether any scanner catches the packet at that delay |
| Y2017Day13.Part2 | src/bin/y2017/day13.rs:51-72 | `part2` returns the smallest delay at which no scanner catches the packet, or reports that every delay below the fuel is caught |
| Y2017Day13.RangeOneNeverCatches | src/bin/y2017/day13.rs:26 | a layer of range 1 is stored as range 0 by `saturating_sub`, so it never catches the packet |
| Y2017Day13.ExampleParses | src/bin/y2017/day13.rs:97-102 | the example lines parse to the layers of depths 0 to 6 |
| Y2017Day13.ExampleSeverity | src/bin/y2017/day13.rs:75-78 | test `part1_1`: severity 24 |
| Y2017Day13.ExampleDelay | src/bin/y2017/day13.rs:85-88 | test `part2_1`: 10 is the first delay that is never caught |
| Y2017Day14.ReachSym | src/bin/y2017/day14.rs:13-16 | a region is symmetric: a walk through set squares read backwards is a walk |
| Y2017Day14.ReachTrans | src/bin/y2017/day14.rs:13-16 | regions are closed under chaining walks |
| Y2017Day14.ReachMono | src/bin/y2017/day14.rs:12 | clearing squares only removes walks |
| Y2017Day14.WipesNothing | src/bin/y2017/day14.rs:11 | an unset square starts no walk, so an untouched disk is its wiped region |
| Y2017Day14.Finish | src/bin/y2017/day14.rs:12-17 | once every set neighbour of a square is wiped, exactly that square's region has been cleared |
| Y2017Day14.WipeRegion | src/bin/y2017/day14.rs:8-18 | `wipe_region` returns 1 and clears exactly the region of the square when it is on the disk and set; otherwise it returns 0 and changes nothing |
| Y2017Day14.LeaderExists | src/bin/y2017/day14.rs:20-28 | every set square lies in the region of a square that is first in scan order within its region |
| Y2017Day14.LeaderUnique | src/bin/y2017/day14.rs:20-28 | two such first squares whose regions meet are the same, so each region is counted once |
| Y2017Day14.ScanEnd | src/bin/y2017/day14.rs:22-26 | after the scan no square is set |
| Y2017Day14.RemoveGroups | src/bin/y2017/day14.rs:20-28 | `remove_groups` returns the number of regions of the disk and leaves every row zero |
| Y2017Day14Examples.RowOf | src/bin/y2017/day14.rs:33-35 | a row literal sets exactly the listed columns |
| Y2017Day14Examples.Disk | src/bin/y2017/day14.rs:32-36 | the test disk has one row per literal |
| Y2017Day14Examples.LoneLeader | src/bin/y2017/day14.rs:20-28 | a set square is counted when a set closed under neighbours around it holds nothing scanned earlier |
| Y2017Day14Examples.RowCount | src/bin/y2017/day14.rs:23-25 | the first j columns of a row count the listed first-of-region squares |
| Y2017Day14Examples.RemoveGroupsOne | src/bin/y2017/day14.rs:30-37 | test `remove_groups_1`: the U-shaped disk has one region |
| Y2017Day14Examples.RemoveGroupsTwo | src/bin/y2017/day14.rs:39-47 | test `remove_groups_2`: the winding disk has one region |
| Y2017Day14Examples.RemoveGroupsThree | src/bin/y2017/day14.rs:49-57 | test `remove_groups_3`: the disk has two regions |
| Y2017Day17.InsertAt | src/bin/y2017/day17.rs:6-8 | the insert index `(pos + step) % len + 1` lies between 1 and len, with `pos + step` wrapping at the word size, and is the plain formula while the sum fits |
| Y2017Day17.Insert | src/bin/y2017/day17.rs:6-8 | one insertion grows the buffer by one and leaves the position on the new value |
| Y2017Day17.Spin | src/bin/y2017/day17.rs:5-9 | after inserting the values 1 to n the buffer has n + 1 values and the position is inside it, for either word size |
| Y2017Day17.SpinContents | src/bin/y2017/day17.rs:5-9 | the buffer holds exactly the values 0 to n once each, 0 stays at the front and the last value sits at the position |
| Y2017Day17.SpinAfterZero | src/bin/y2017/day17.rs:20-26 | the value after 0 changes exactly when an insertion lands at index 1, and then becomes the value inserted |
| Y2017Day17.Spinlock | src/bin/y2017/day17.rs:2-9 | the loop of `part1` grows the buffer with `Vec::insert` as the value model says |
| Y2017Day17.IndexOf | src/bin/y2017/day17.rs:10 | the first index holding the value |
| Y2017Day17.Position | src/bin/y2017/day17.rs:10 | the scan of `position` finds the first index holding the value |
| Y2017Day17.ValueAfter | src/bin/y2017/day17.rs:10-11 | the value just after the last one inserted, going round the buffer |
| Y2017Day17.Part1 | src/bin/y2017/day17.rs:1-12 | `part1` returns the value after 2017, going round the buffer, once 2017 is inserted with `usize` arithmetic |
| Y2017Day17.AfterZeroRounds | src/bin/y2017/day17.rs:16-28 | tracking positions only, the loop of `part2` keeps 0 at index 0 and returns the value after 0 in the full buffer |
| Y2017Day17.Part2 | src/bin/y2017/day17.rs:14-30 | `part2` is the value after 0 once fifty million values are in, with the step cut to u32 and `pos + step` wrapping in u32 |
| Y2017Day17.NoWrapBelow | src/bin/y2017/day17.rs:15-20 | when step + n fits in the word the addition never wraps, so a narrower word gives the same spin as a wider one |
| Y2017Day17.InsertNoWrap | src/bin/y2017/day17.rs:20 | while `pos + step` is below both word sizes, one insertion is the same in either |
| Y2017Day17.WrapMatters | src/bin/y2017/day17.rs:15-20 | with step 2^32 - 1 the u32 spin puts the third value elsewhere than the usize spin: `part2` wraps for large steps |
| Y2017Day18.ToRegister | src/bin/y2017/day18.rs:3-5 | `to_register` maps a to z onto 0 to 25; any other byte is None, where the source underflows or indexes out of bounds |
| Y2017Day18.ToRegisterLetter | src/bin/y2017/day18.rs:3-5 | letters and register numbers are two names for the same thing |
| Y2017Day18.Write | src/bin/y2017/day18.rs:52 | writing a register changes that register and no other |
| Y2017Day18.ParseValue | src/bin/y2017/day18.rs:21-26 | `Value::parse` is the constant when the whole word reads as an i64, otherwise the register its first byte names |
| Y2017Day18.MnemonicOf | src/bin/y2017/day18.rs:76-88 | each of the seven mnemonics is recognised by exactly its three letters |
| Y2017Day18.ParseLine | src/bin/y2017/day18.rs:74-91 | a line parses only when it holds at least five bytes and starts with a known mnemonic |
| Y2017Day18.ParseProgram | src/bin/y2017/day18.rs:71-93 | `parse` gives one instruction per line, or None when some line does not parse |
| Y2017Day18.ParseShowValue | src/bin/y2017/day18.rs:21-26 | every value reads back from its listing |
| Y2017Day18.ParseShow | src/bin/y2017/day18.rs:71-93 | every instruction whose first operand is a single character parses back from its listing |
| Y2017Day18.OnlyOneByte | src/bin/y2017/day18.rs:75 | only byte 4 is read as the first operand, so `snd 10` sends the constant 1 |
| Y2017Day18.Arith | src/bin/y2017/day18.rs:52-55 | set copies; add and mul wrap in 64 bits; mod is the truncating remainder and panics for a zero divisor or i64::MIN % -1 |
| Y2017Day18.Exec | src/bin/y2017/day18.rs:49-68 | `exec` changes only the written register; rcv reports Receive exactly for a non-zero value, jgz jumps exactly for a positive condition, snd sends the resolved value |
| Y2017Day18.ExecIn | src/bin/y2017/day18.rs:49-68 | `exec` on the register array agrees with the value model, or reports the panic |
| Y2017Day18.RecoverMoreFuel | src/bin/y2017/day18.rs:100-109 | a run of `part1` that ends within its fuel ends the same way with more |
| Y2017Day18.RecoveredWasSent | src/bin/y2017/day18.rs:105-106 | a recovered value is the last sound or one a snd of the program played |
| Y2017Day18.Part1 | src/bin/y2017/day18.rs:95-110 | `part1` runs the parsed program until the first effective rcv and returns the last sound |
| Y2017Day18.Run1 | src/bin/y2017/day18.rs:97-109 | the loop of `part1` with registers in an array computes the value model's recovery |
| Y2017Day18.Step1 | src/bin/y2017/day18.rs:101-108 | one turn of `part1`'s loop either ends the run as the value model says or moves to the next position and last sound |
| Y2017Day18.Loop | src/bin/y2017/day18.rs:139-170 | the inner loop of `execute` stops after a snd, after taking a value, or waiting at a rcv with nothing to take |
| Y2017Day18.WaitingStays | src/bin/y2017/day18.rs:148-156 | a program waiting at a rcv with no input changes nothing and does not move |
| Y2017Day18.Program.constructor | src/bin/y2017/day18.rs:121-131 | `Program::new` starts with all registers 0 except p, which holds the id, and nothing queued or sent |
| Y2017Day18.Program.Execute | src/bin/y2017/day18.rs:134-172 | `execute` changes the program as one burst of the value model, hands back the rest of the input, and reports whether the position moved |
| Y2017Day18.Program.Progressing | src/bin/y2017/day18.rs:134-172 | with the progress flag corrected `execute` reports progress exactly when the program was not blocked |
| Y2017Day18.UnchangedIffBlocked | src/bin/y2017/day18.rs:148-156 | a burst changes nothing exactly when the program is blocked at a rcv with no input |
| Y2017Day18.TakenWithoutProgress | src/bin/y2017/day18.rs:171 | in `rcv a` then `jgz a -1`, a burst takes the input and returns to where it started, so the flag as written reports no progress although the program was not blocked |
| Y2017Day18.ProgressIffNotBlocked | src/bin/y2017/day18.rs:171 | under the corrected rule a burst progresses exactly when the program was not blocked |
| Y2017Day18.MovedNotBlocked | src/bin/y2017/day18.rs:171 | progress as written implies the program was not blocked |
| Y2017Day18.DuetA | src/bin/y2017/day18.rs:182-184 | one burst of program 0 inside `part2`'s loops |
| Y2017Day18.DuetB | src/bin/y2017/day18.rs:185-187 | one burst of program 1 inside `part2`'s loops |
| Y2017Day18.Turn | src/bin/y2017/day18.rs:182-187 | `x.execute(&mut y.queue)` runs one burst of x on y's queue and changes y only by taking from its queue |
| Y2017Day18.Part2 | src/bin/y2017/day18.rs:175-190 | `part2` with the corrected progress flag returns how many values program 1 sent when both are stuck |
| Y2017Day18.Part2AsWritten | src/bin/y2017/day18.rs:175-190 | `part2` as written counts a burst whose position did not move as no progress |
| Y2017Day18.Run2 | src/bin/y2017/day18.rs:176-189 | the nested loops of `part2` compute the value model's duet |
| Y2017Day18.InnerA | src/bin/y2017/day18.rs:181-184 | the loop over program 0's bursts moves the duet on to program 1's turn |
| Y2017Day18.InnerB | src/bin/y2017/day18.rs:185-188 | the loop over program 1's bursts ends the outer loop unless a burst progressed, returning program 1's count |
| Y2017Day18.LoopMoreFuel | src/bin/y2017/day18.rs:139-170 | a burst that ends within its fuel ends the same way with more |
| Y2017Day18.DuetMore | src/bin/y2017/day18.rs:180-188 | a duet that ends within its bounds ends the same way with larger ones |
| Y2017Day18.SendStep | src/bin/y2017/day18.rs:143-147 | a burst that starts at a snd queues the value, counts it and stops |
| Y2017Day18.TakeStep | src/bin/y2017/day18.rs:148-151 | a burst that starts at a rcv of a register with input waiting takes the front of the input |
| Y2017Day18.Example1Recovers | src/bin/y2017/day18.rs:192-195 | test `part1_1`: the example recovers 4 |
| Y2017Day18.Example2Duet | src/bin/y2017/day18.rs:202-205 | test `part2_1`: each program sends three values and program 1's count is 3 |
| Y2017Day21.Grown | src/bin/y2017/day21.rs:25-29 | `get_cell_mut(i)` pushes clear cells until bit i's cell exists and changes no bit |
| Y2017Day21.SetBit | src/bin/y2017/day21.rs:40-47 | `set(i, v)` makes bit i equal v, leaves every other bit, and grows the vector only to bit i's cell |
| Y2017Day21.MakeSpacedAt | src/bin/y2017/day21.rs:53-67 | after `make_space_at(i)` bit i is clear and the bits from i up to the top of the cell where the carry stops move up by one |
| Y2017Day21.CarriedAt | src/bin/y2017/day21.rs:56-59 | a set top bit of a cell is inserted at the start of the next cell |
| Y2017Day21.InsertedAt | src/bin/y2017/day21.rs:69-72 | `insert(i, v)` leaves v at bit i and the bits from i on shifted as `make_space_at` shifts them |
| Y2017Day21.InsertedClearAbove | src/bin/y2017/day21.rs:69-72 | inserting a clear bit into a vector clear from bit L on leaves it clear from bit L + 1 on |
| Y2017Day21.InsertLeavesLaterCells | src/bin/y2017/day21.rs:53-67 | when the top bit of a cell is clear, inserting into it drops that bit and leaves every later cell where it was |
| Y2017Day21.InsertExample | src/bin/y2017/day21.rs:75-82 | test `bitvec_insert`: bits 0 and 2 with true inserted at 1 give bits 0, 1 and 3 (0b1011) |
| Y2017Day21.InsertAtEndExample | src/bin/y2017/day21.rs:84-93 | test `bitvec_insert_at_end`: two inserts at 63 carry a bit into the second cell |
| Y2017Day21.BitVec.constructor | src/bin/y2017/day21.rs:17-19 | `BitVec::new` holds one clear cell |
| Y2017Day21.BitVec.Copy | src/bin/y2017/day21.rs:95 | `clone` copies the cells |
| Y2017Day21.BitVec.CountOnes | src/bin/y2017/day21.rs:21-23 | summing the cells' popcounts counts every set bit once |
| Y2017Day21.BitVec.GrowCell | src/bin/y2017/day21.rs:25-29 | the loop of `get_cell_mut` leaves the cells as the value model says |
| Y2017Day21.BitVec.Set | src/bin/y2017/day21.rs:40-47 | `set` on the cells agrees with the value model |
| Y2017Day21.BitVec.MakeSpaceAt | src/bin/y2017/day21.rs:53-67 | `make_space_at` on the cells, with the recursive carry and the `(left << 1) OR right` shift, agrees with the value model |
| Y2017Day21.BitVec.Insert | src/bin/y2017/day21.rs:69-72 | `insert` on the cells agrees with the value model |
| Y2017Day21.Pic | src/bin/y2017/day21.rs:174-180 | a grid's picture is square, pixel (r, c) being bit r times size plus c |
| Y2017Day21.TransposedPic | src/bin/y2017/day21.rs:182-194 | `transpose` transposes the picture |
| Y2017Day21.TransposedTidy | src/bin/y2017/day21.rs:182-194 | `transpose` of a grid of side at most 8 leaves no stray bit past the picture |
| Y2017Day21.ReversedPic | src/bin/y2017/day21.rs:196-208 | `reverse_rows` mirrors every row of the picture, although it writes each row over itself |
| Y2017Day21.ReversedPixel | src/bin/y2017/day21.rs:196-208 | after `reverse_rows` pixel (r, c) is the old pixel (r, n - 1 - c) |
| Y2017Day21.ReversedTidy | src/bin/y2017/day21.rs:196-208 | `reverse_rows` leaves no stray bit past the picture |
| Y2017Day21.RotatedPic | src/bin/y2017/day21.rs:210-213 | `rotate_90` turns the picture a quarter clockwise |
| Y2017Day21.TidyEq | src/bin/y2017/day21.rs:95 | the derived equality of two tidy grids of one side holds exactly when their pictures agree |
| Y2017Day21.View | src/bin/y2017/day21.rs:231-248 | the eight views of a square picture: its four quarter turns and their mirrored rows |
| Y2017Day21.ViewOfRotated | src/bin/y2017/day21.rs:238-244 | view k of a quarter-turned picture is view k + 2 of the original |
| Y2017Day21.RotatedViewOf | src/bin/y2017/day21.rs:238-244 | a quarter turn has the same eight views |
| Y2017Day21.EvenViewOf | src/bin/y2017/day21.rs:238-244 | every quarter turn has the same eight views |
| Y2017Day21.MatchFromIff | src/bin/y2017/day21.rs:235-247 | from turn t on, `matches` succeeds exactly when the other grid shows one of the views 2t to 7 |
| Y2017Day21.MatchIffView | src/bin/y2017/day21.rs:231-248 | `matches` is true exactly when the other grid's picture is one of the eight rotations and mirrors of this one |
| Y2017Day21.MatchKeepsViews | src/bin/y2017/day21.rs:231-248 | `matches` turns this grid but leaves it tidy, of the same side, and with the same eight views |
| Y2017Day21.ScanMatching | src/bin/y2017/day21.rs:276-280 | although `matches` turns the block as it goes, the outputs pushed for a block are exactly the rules whose pattern is one of its views |
| Y2017Day21.BumpedClear | src/bin/y2017/day21.rs:221-229 | each insert of `bump_size` moves the clear tail of the vector up by at most one bit |
| Y2017Day21.PasteRowsNext | src/bin/y2017/day21.rs:286-290 | block row i is pasted with the outputs following the ones of the earlier rows, taken in order |
| Y2017Day21.LoadedBit | src/bin/y2017/day21.rs:250-257 | `load_from(start, other)` sets pixel (r, c) from bit start + r times other's size + c of other |
| Y2017Day21.LoadedTidy | src/bin/y2017/day21.rs:250-257 | `load_from` into a grid of side at most 8 keeps it tidy |
| Y2017Day21.Window | src/bin/y2017/day21.rs:273-275 | a block is the n by n square of the picture at the given corner |
| Y2017Day21.BlockPic | src/bin/y2017/day21.rs:271-275 | the block `step` loads at block (bi, bj) shows that square of the picture |
| Y2017Day21.PastedInside | src/bin/y2017/day21.rs:259-267 | `set_from` at the bit of pixel (top, left) puts pixel (r, c) of other at (top + r, left + c) |
| Y2017Day21.PastedOutside | src/bin/y2017/day21.rs:259-267 | `set_from` leaves every pixel outside that square unchanged |
| Y2017Day21.StepSize | src/bin/y2017/day21.rs:269-292 | `step(n)` changes the side from s to s / n times (n + 1) and goes through exactly when one output was pushed per block |
| Y2017Day21.Numbered | src/bin/y2017/day21.rs:156-166 | `interpret` writes the k-th cell of the pattern to bit k |
| Y2017Day21.InterpretP | src/bin/y2017/day21.rs:151-172 | `interpret` that does not panic gives a positive side and at least one cell |
| Y2017Day21.InterpretRendering | src/bin/y2017/day21.rs:103-172 | `interpret` reads the rendering of an n by n picture back as a grid of side n with that picture, and `Debug` prints it back |
| Y2017Day21.InterpretDebug | src/bin/y2017/day21.rs:103-172 | `interpret` of `Debug` of a tidy grid of side at least 2 is that grid |
| Y2017Day21.InterpretExample | src/bin/y2017/day21.rs:295-301 | test `grid_interpret`: ".#/.#" is cell 0b1010 of side 2 |
| Y2017Day21.DebugExample1 | src/bin/y2017/day21.rs:128-131 | test `grid_dbg_1`: "../.." reads and prints back |
| Y2017Day21.DebugExample2 | src/bin/y2017/day21.rs:133-136 | test `grid_dbg_2`: ".#/#." reads and prints back |
| Y2017Day21.DebugExample3 | src/bin/y2017/day21.rs:138-141 | test `grid_dbg_3`: ".#./..#/..." reads and prints back |
| Y2017Day21.TransposeExample | src/bin/y2017/day21.rs:310-315 | test `grid_transpose`: the transpose of ".#/.#" is "../##" |
| Y2017Day21.RotateExample | src/bin/y2017/day21.rs:317-322 | test `grid_rotate90`: a quarter turn of ".#/.#" is "../##" |
| Y2017Day21.ReverseExample | src/bin/y2017/day21.rs:303-308 | test `grid_reverse_rows`: ".#/.#" with its rows mirrored is "#./#." |
| Y2017Day21.BumpExample | src/bin/y2017/day21.rs:324-329 | test `grid_bump_size_1`: `bump_size(2)` of "../.#" is ".../.#./..." |
| Y2017Day21.Grid.constructor | src/bin/y2017/day21.rs:144-149 | `Grid::new(size)` holds one clear cell |
| Y2017Day21.Grid.Set | src/bin/y2017/day21.rs:178-180 | `set(row, col, v)` sets bit row times size plus col |
| Y2017Day21.Grid.Transpose | src/bin/y2017/day21.rs:182-194 | `transpose` on the object agrees with the value model |
| Y2017Day21.Grid.ReverseRows | src/bin/y2017/day21.rs:196-208 | `reverse_rows` on the object agrees with the value model |
| Y2017Day21.Grid.Rotate90 | src/bin/y2017/day21.rs:210-213 | `rotate_90` on the object agrees with the value model |
| Y2017Day21.Grid.Clone | src/bin/y2017/day21.rs:95 | `clone` gives a grid of its own with the same value |
| Y2017Day21.Grid.Interpret | src/bin/y2017/day21.rs:151-172 | `interpret` builds a fresh grid as the value model says, or reports the panic |
| Y2017Day21.Grid.ReversedRows | src/bin/y2017/day21.rs:215-219 | `reversed_rows` returns a reversed copy and leaves this grid unchanged |
| Y2017Day21.Grid.LoadFrom | src/bin/y2017/day21.rs:250-257 | `load_from` on the object agrees with the value model |
| Y2017Day21.Grid.SetFrom | src/bin/y2017/day21.rs:259-267 | `set_from` on the object agrees with the value model |
| Y2017Day21.Grid.BumpSize | src/bin/y2017/day21.rs:221-229 | `bump_size(d)` inserts a clear bit for each block column and grows the side by size / d |
| Y2017Day21.Grid.Scan | src/bin/y2017/day21.rs:276-280 | the rules loop collects the outputs of the rules `matches` accepts |
| Y2017Day21.Grid.MatchRule | src/bin/y2017/day21.rs:277-279 | one rule contributes its output exactly when `matches` says so |
| Y2017Day21.Grid.Step | src/bin/y2017/day21.rs:269-292 | `step(n, rules)` agrees with the value model, or reports the panic when the outputs are not one per block |
| Y2017Day21.Grid.Rebuild | src/bin/y2017/day21.rs:283-291 | the second half of `step` bumps the size and pastes the outputs onto blocks of side n + 1 |
| Y2017Day21.Grid.ScanBlocks | src/bin/y2017/day21.rs:270-282 | the first half of `step` collects the outputs of every block in the source's order |
| Y2017Day21.Grid.PasteBlocks | src/bin/y2017/day21.rs:284-291 | the outputs are pasted in order onto the blocks, failing when they do not fit |
| Y2017Day21.Grid.BlockOutputs | src/bin/y2017/day21.rs:273-280 | a block is loaded into a new grid and matched against every rule |
| Y2017Day21.Grid.Matches | src/bin/y2017/day21.rs:231-248 | `matches` on the object returns and leaves what the value model's eight comparisons give |
| Y2017Day22.TurnLaws | src/bin/y2017/day22.rs:34-60 | four right turns face the same way, a left turn undoes a right one, and reversing is two turns either way |
| Y2017Day22.Apply | src/bin/y2017/day22.rs:63-70 | `apply` moves exactly one cell along one axis |
| Y2017Day22.ApplyReverse | src/bin/y2017/day22.rs:53-70 | moving and then moving the reverse way returns to the start |
| Y2017Day22.Load | src/bin/y2017/day22.rs:17-22 | `load` places the interpreted matrix with its top-left cell at minus half its width and height, each cell at its shifted coordinates |
| Y2017Day22.BurstFlips | src/bin/y2017/day22.rs:79-87 | a burst of part 1 flips exactly the current node and counts an infection exactly when that node was clean |
| Y2017Day22.BurstsInfectAtMost | src/bin/y2017/day22.rs:78-88 | every burst infects at most one node |
| Y2017Day22.Part1 | src/bin/y2017/day22.rs:73-90 | `part1` leaves the grid as the board after the bursts and returns the infections they made |
| Y2017Day22.BurstOn | src/bin/y2017/day22.rs:79-87 | the body of `part1`'s loop changes the grid and the carrier as one burst of the value model |
| Y2017Day22.EvolveCycle | src/bin/y2017/day22.rs:98-115 | clean, weak, infected and flagged form one cycle of four |
| Y2017Day22.Burst2Counts | src/bin/y2017/day22.rs:103-106 | a burst of part 2 counts exactly when the node it leaves is now infected |
| Y2017Day22.Part2 | src/bin/y2017/day22.rs:92-120 | `part2` leaves the grid as the board after the bursts and returns the nodes they infected |
| Y2017Day22.BurstOn2 | src/bin/y2017/day22.rs:98-117 | the body of `part2`'s loop changes the grid and the carrier as one burst of the value model |
| Y2017Day25.LetterIndex | src/bin/y2017/day25.rs:93 | `(b - b'A') as usize` is the letter's place in the alphabet for a capital, wrapping as a u8 otherwise |
| Y2017Day25.ParseUsize | src/bin/y2017/day25.rs:66 | `parse::<usize>` accepts only values below 2^64 |
| Y2017Day25.ParseUsizeNumeral | src/bin/y2017/day25.rs:66 | every numeral of a usize reads back as its value |
| Y2017Day25.ParseMethod | src/bin/y2017/day25.rs:62-98 | the loop of `parse` over the lines from the fourth on computes the value model's reading |
| Y2017Day25.ReadAppend | src/bin/y2017/day25.rs:71-95 | reading lines one after another is reading them all at once |
| Y2017Day25.ReadPlain | src/bin/y2017/day25.rs:71-95 | a line that matches no pattern changes nothing |
| Y2017Day25.ReadAction | src/bin/y2017/day25.rs:77-94 | the four lines of one half of a state set that half to the write, move and next state they describe |
| Y2017Day25.ReadBlock | src/bin/y2017/day25.rs:72-94 | a state block pushes the state read before it and leaves its own state being read |
| Y2017Day25.ReadDescription | src/bin/y2017/day25.rs:71-95 | reading a description yields its states, after whatever was pushed before |
| Y2017Day25.StepCountOf | src/bin/y2017/day25.rs:65-66 | the step count is the number between "after " and " steps" |
| Y2017Day25.ParseDescribed | src/bin/y2017/day25.rs:62-98 | `parse` reads back any description written in the puzzle's form: the step count and every state |
| Y2017Day25.DescribedMoves | src/bin/y2017/day25.rs:89-91 | every move a described state makes is one slot |
| Y2017Day25.Run | src/bin/y2017/day25.rs:9-20 | each step sets at most one cell, so after n steps at most n cells are set and the checksum is at most the step count |
| Y2017Day25.RunStaysNear | src/bin/y2017/day25.rs:9-19 | after n one-slot steps the head is within n of the start and every set cell strictly so |
| Y2017Day25.RunStuck | src/bin/y2017/day25.rs:10 | once a step panics, so does every longer run |
| Y2017Day25.ExampleHalfway | src/bin/y2017/day25.rs:27-30 | the first three steps of the example |
| Y2017Day25.ExampleChecksum | src/bin/y2017/day25.rs:27-30 | test `part1_1`: six steps leave three cells set |
| Y2017Day25.StepOn | src/bin/y2017/day25.rs:10-18 | the body of `part1`'s loop changes the tape, position and state as one step of the value model |
| Y2017Day25.Part1 | src/bin/y2017/day25.rs:4-21 | `part1` parses, runs the machine on a fresh tape, and counts the set cells |
| Y2017Day25.RunOnTape | src/bin/y2017/day25.rs:6-20 | the loop of `part1` returns the number of cells set after the given number of steps |
| Y2017Day25.CountIsSize | src/bin/y2017/day25.rs:20 | the set entries of a row count the set cells it holds |
| Y2017Day25.GridCountOneRow | src/bin/y2017/day25.rs:20 | a grid whose other rows are clear counts the cells of the one row |
| Y2017Day25.TapeCount | src/bin/y2017/day25.rs:20 | `count_set` of the tape is the number of set cells of the machine |
| Y2017Day25.Parse | src/bin/y2017/day25.rs:62-98 | a parse that succeeds has the "Begin in state A." header, takes its step count from the second line, and reads at least one state |
| Y2018Day02.CountHaving | y2018/src/day02.rs:13-22 | the number of lines with a letter occurring exactly k times is at most the number of lines |
| Y2018Day02.CountHavingNext | y2018/src/day02.rs:15-22 | one more line adds one to the count exactly when it has a letter occurring k times |
| Y2018Day02.Tally | y2018/src/day02.rs:16-19 | the per-line map holds exactly the letters of the line, each with its number of occurrences |
| Y2018Day02.AnyCount | y2018/src/day02.rs:20-21 | `values().any(c == k)` holds exactly when some letter of the line occurs k times |
| Y2018Day02.Part1 | y2018/src/day02.rs:12-24 | `part1` is the number of lines with a letter twice times the number with a letter three times |
| Y2018Day02.LineCounts | y2018/src/day02.rs:16-21 | one line gives whether some letter occurs twice and whether some occurs three times |
| Y2018Day02.Distinct | y2018/src/day02.rs:16-21 | a line whose letters occur once each has no letter occurring k times for k above 1 |
| Y2018Day02.ExamplePrefix | y2018/src/day02.rs:9 | of the first three example lines, two have a doubled letter and one a tripled one |
| Y2018Day02.Part1Example | y2018/src/day02.rs:8-11 | the example's checksum is 12 |
| Y2018Day02.NoDiffCommon | y2018/src/day02.rs:53-56 | with no difference below k the common letters are the first k letters |
| Y2018Day02.OneDiffCommon | y2018/src/day02.rs:53-56 | with exactly one difference below k, at position p, the common letters are the first k letters without the one at p |
| Y2018Day02.CommonLength | y2018/src/day02.rs:43-56 | the common letters and the differences together account for every zipped position |
| Y2018Day02.OffByOne | y2018/src/day02.rs:43-52 | the inner loop, which gives up at the second difference, accepts exactly the pairs that differ in one position |
| Y2018Day02.Part2 | y2018/src/day02.rs:40-61 | `part2` returns the common letters of the first pair in loop order that differs in one position, and None, the `unreachable!()`, exactly when no pair does |
| Y2018Day02.CommonDropsOne | y2018/src/day02.rs:52-57 | for equal-length lines differing in one position the answer is the line with that letter taken out, one letter shorter |
| Y2018Day02.Part2Example | y2018/src/day02.rs:26-39 | the example's near pair "fghij" and "fguij" share "fgij" |
| Y2018Day08.ParseFrom | y2018/src/bin/day08.rs:39-48 | `Node::parse` as a function: when it does not panic it consumes part of the buffer |
| Y2018Day08.ParseChildren | y2018/src/bin/day08.rs:42 | reading k children gives exactly k nodes and never lengthens the buffer |
| Y2018Day08.ParseEncode | y2018/src/bin/day08.rs:39-48 | reading back the numbers that write a node gives the node and leaves what followed |
| Y2018Day08.ParseEncodeAll | y2018/src/bin/day08.rs:42 | reading back the numbers of several children gives those children |
| Y2018Day08.ParseIsEncoding | y2018/src/bin/day08.rs:39-48 | whatever parses is exactly the encoding of a well-formed node followed by the rest |
| Y2018Day08.ParseChildrenIsEncoding | y2018/src/bin/day08.rs:42 | whatever parses as k children is exactly their encoding followed by the rest |
| Y2018Day08.Buffer.constructor | y2018/src/bin/day08.rs:75 | a buffer over the given numbers |
| Y2018Day08.Buffer.Read | y2018/src/bin/day08.rs:25-29 | `read` returns the first number and drops it from the buffer |
| Y2018Day08.Parse | y2018/src/bin/day08.rs:39-48 | `Node::parse` on the buffer gives the node and the rest that the value model gives, or None where it panics |
| Y2018Day08.ParseNodes | y2018/src/bin/day08.rs:42 | the children loop gives the children and the rest that the value model gives, or None where it panics |
| Y2018Day08.All | y2018/src/bin/day08.rs:50-54 | `all` lists the node itself first |
| Y2018Day08.AllMeta | y2018/src/bin/day08.rs:50-54 | summing the own metadata of the `all` nodes counts every node of the tree once |
| Y2018Day08.AllOfMeta | y2018/src/bin/day08.rs:52 | the same for the nodes of a list of children |
| Y2018Day08.Part1 | y2018/src/bin/day08.rs:74-82 | `part1` succeeds exactly when the numbers parse as trees one after another, and returns the metadata sum of all their nodes |
| Y2018Day08.ParseForestEncoded | y2018/src/bin/day08.rs:77-80 | a forest written tree after tree parses back to the same trees |
| Y2018Day08.NodeValue | y2018/src/bin/day08.rs:56-67 | `value`'s loop returns the node's value as the recursive definition gives it |
| Y2018Day08.ChildSelection | y2018/src/bin/day08.rs:61-63 | an entry 1 to k selects child entry - 1; an entry 0, which `idx - 1` wraps to 255, or above k selects nothing (with fewer than 256 children) |
| Y2018Day08.LeafValue | y2018/src/bin/day08.rs:58-59 | a leaf's value is its metadata sum, what part 1 counts for it |
| Y2018Day08.NothingSelected | y2018/src/bin/day08.rs:61-64 | entries that select no child give a node with children the value 0 |
| Y2018Day08.SelectSumAppend | y2018/src/bin/day08.rs:61-64 | the selected sum over a split list of entries is the sum over each part, so only the entries count and not their order |
| Y2018Day08.Part2 | y2018/src/bin/day08.rs:89-93 | `part2` succeeds exactly when a first tree parses, and returns its value |
| Y2018Day08.ExampleEncodes | y2018/src/bin/day08.rs:95 | the tree of the puzzle text is well formed and is written as the example's numbers |
| Y2018Day08.ExampleParses | y2018/src/bin/day08.rs:95 | the example numbers parse as that one tree, with nothing left |
| Y2018Day08.ExampleMeta | y2018/src/bin/day08.rs:72 | its metadata sums to 138 |
| Y2018Day08.ExampleValue | y2018/src/bin/day08.rs:87 | its root's value is 66 |
| Y2018Day08.ExampleAnswers | y2018/src/bin/day08.rs:70-88 | on the example part 1 gives 138 and part 2 gives 66 |
| Y2018Day08.Selected | y2018/src/bin/day08.rs:62-63 | `idx - 1` on a u8: entry m selects child m - 1, and entry 0 wraps to 255 |
| Y2018Day09.Rotate | y2018/src/bin/day09.rs:43-53 | turning the circle keeps its length |
| Y2018Day09.RotateAt | y2018/src/bin/day09.rs:43-53 | after turning by k, place i holds the marble that was k places on from place i |
| Y2018Day09.RotateAdd | y2018/src/bin/day09.rs:43-53 | two turns make one turn by the sum |
| Y2018Day09.RotateWhole | y2018/src/bin/day09.rs:43-53 | a turn by a multiple of the length changes nothing |
| Y2018Day09.RotateMultiset | y2018/src/bin/day09.rs:43-53 | a turn keeps the marbles |
| Y2018Day09.RotateOne | y2018/src/bin/day09.rs:43-53 | one step along `next` or `prev` moves one end of the sequence to the other |
| Y2018Day09.Turn | y2018/src/bin/day09.rs:102-112 | one marble: the scores keep one entry per elf, and the circle loses a marble on a multiple of 23 and gains one otherwise |
| Y2018Day09.PlacedTwoAhead | y2018/src/bin/day09.rs:108-111 | a marble that does not score becomes current between the marbles 1 and 2 places clockwise of the old one; the marbles are the old ones plus it and no score changes |
| Y2018Day09.ScoresSevenBack | y2018/src/bin/day09.rs:103-107 | a scoring marble adds itself and the marble 7 places back to its elf's score, wrapping as u32; no other score changes and that marble leaves the circle, the one after it becoming current |
| Y2018Day09.Play | y2018/src/bin/day09.rs:97-118 | the game after marbles 1 to m has the circle size the turns give and one score per elf |
| Y2018Day09.SizeGrows | y2018/src/bin/day09.rs:103-111 | each turn adds a marble, except every 23rd, which removes one, so a scoring turn finds at least two |
| Y2018Day09.MaxOf | y2018/src/bin/day09.rs:119 | `max().unwrap()`: a score that is at least every score |
| Y2018Day09.ValuesOf | y2018/src/bin/day09.rs:14-18 | the marbles read off the arena slots along a ring, one per slot |
| Y2018Day09.Circle.WithCapacity | y2018/src/bin/day09.rs:27-41 | `with_capacity` gives the single marble 0, linked to itself both ways |
| Y2018Day09.Circle.Forward | y2018/src/bin/day09.rs:43-47 | `forward(n)` turns the circle n places ahead and changes no slot |
| Y2018Day09.Circle.Backward | y2018/src/bin/day09.rs:49-53 | `backward(n)` turns the circle n places back and changes no slot |
| Y2018Day09.WalkAhead | y2018/src/bin/day09.rs:44-46 | n steps along `next` from a slot of a linked ring end on the slot of the ring turned n places ahead |
| Y2018Day09.WalkBack | y2018/src/bin/day09.rs:50-52 | n steps along `prev` end on the slot of the ring turned n places back |
| Y2018Day09.Circle.Remove | y2018/src/bin/day09.rs:55-62 | `remove` returns the current marble and leaves the rest of the circle, the next marble current |
| Y2018Day09.Circle.Insert | y2018/src/bin/day09.rs:64-75 | `insert(v)` puts v in front of the current marble and makes it current |
| Y2018Day09.RingValues | y2018/src/bin/day09.rs:43-53 | reading the marbles off a turned ring gives the turned marbles |
| Y2018Day09.StepAhead | y2018/src/bin/day09.rs:45 | a step along `next` turns the ring and its marbles one place ahead |
| Y2018Day09.StepBack | y2018/src/bin/day09.rs:51 | a step along `prev` turns the ring and its marbles one place back |
| Y2018Day09.LinkedForward | y2018/src/bin/day09.rs:45 | a step along `next` keeps the turned ring linked |
| Y2018Day09.LinkedBackward | y2018/src/bin/day09.rs:51 | a step along `prev` keeps the turned ring linked |
| Y2018Day09.LinkedRemove | y2018/src/bin/day09.rs:56-59 | unlinking the first slot leaves the rest of the ring linked with the same marbles, and frees only that slot |
| Y2018Day09.SplicedSlot | y2018/src/bin/day09.rs:65-73 | `insert` changes only the predecessor's `next` and the current slot's `prev` among the old slots |
| Y2018Day09.SplicedLinks | y2018/src/bin/day09.rs:65-73 | after `insert` the fresh slot sits between the last slot and the first, and the old links hold |
| Y2018Day09.SplicedValues | y2018/src/bin/day09.rs:65-73 | after `insert` the ring's marbles are the new one followed by the old ones, and one slot is added |
| Y2018Day09.LinkedInsert | y2018/src/bin/day09.rs:64-75 | linking a fresh slot in before the first extends the ring, and its marbles, at the front |
| Y2018Day09.Part1 | y2018/src/bin/day09.rs:97-120 | `part1` returns the best score of the game played to the last marble |
| Y2018Day09.PlayMarble | y2018/src/bin/day09.rs:103-112 | one pass of the loop body leaves the circle and the scores as one turn of the game gives |
| Y2018Day09.ScoreMarble | y2018/src/bin/day09.rs:103-107 | the scoring branch leaves the circle and the scores as a scoring turn gives |
| Y2018Day09.TakeSeventhBack | y2018/src/bin/day09.rs:105-106 | `backward(7)` and `remove()` take out the marble 7 places back and leave the rest of the circle turned to it |
| Y2018Day09.PlaceMarble | y2018/src/bin/day09.rs:108-111 | the other branch leaves the circle and the scores as a placing turn gives |
| Y2018Day09.NextElf | y2018/src/bin/day09.rs:102 | `for elf in &mut elfs` plays elf m mod players for the m-th marble after 0, back to the first after the last |
| Y2018Day09.Part2 | y2018/src/bin/day09.rs:125-127 | `part2` is part 1 on a hundred times the marbles, the product wrapping as u32 |
| Y2018Day11.Digit | y2018/src/day11.rs:11 | a decimal digit lies in 0 to 9 |
| Y2018Day11.HundredsDigit | y2018/src/day11.rs:11 | `(power % 1000) / 100` reads the hundreds digit |
| Y2018Day11.PowerIsDigit | y2018/src/day11.rs:6-13 | a power level is the hundreds digit of the u32-wrapped product minus 5, so it lies in -5 to 4 |
| Y2018Day11.PowerExample1 | y2018/src/day11.rs:60 | power(3, 5, 8) is 4 |
| Y2018Day11.PowerExample2 | y2018/src/day11.rs:61 | power(122, 79, 57) is -5 |
| Y2018Day11.PowerExample3 | y2018/src/day11.rs:62 | power(217, 196, 39) is 0 |
| Y2018Day11.PowerExample4 | y2018/src/day11.rs:63 | power(101, 153, 71) is 4 |
| Y2018Day11.PowerOfSquare | y2018/src/day11.rs:20-25 | the `dx`/`dy` loops sum the power of every cell of the size-by-size square |
| Y2018Day11.PowerOfColumn | y2018/src/day11.rs:22-24 | the `dy` loop sums the power of one column of the square |
| Y2018Day11.PowerSquare | y2018/src/day11.rs:15-33 | `power_square` returns a maximum, from 0, over every square the loops visit, and the first corner in loop order reaching it; (0, (0, 0)) when no square is positive |
| Y2018Day11.ScanColumn | y2018/src/day11.rs:19-30 | one pass of the `y` loop extends the running maximum and its first corner over column x |
| Y2018Day11.Part1 | y2018/src/day11.rs:39-41 | `part1` is the corner of a best 3x3 square, the first in loop order on a tie, or (0, 0) when none is positive |
| Y2018Day11.Part2 | y2018/src/day11.rs:47-58 | `part2`'s square has the largest sum over every size, every smaller size stays strictly below it, and it is the first of its size in loop order; (0, 0, 0) when no square is positive |
| Y2018Day11.Power | y2018/src/day11.rs:6-13 | for coordinates up to 300 and a serial up to 10000 the u32 arithmetic never wraps, and the level is the hundreds digit of ((x + 10) y + serial)(x + 10), minus 5 |
| Y2018Day11.ProductsFit | y2018/src/day11.rs:7-10 | for coordinates up to 300 and a serial up to 10000 both products of `power` stay below 2^32 |
| Y2018Day11.PowerDoesNotWrap | y2018/src/day11.rs:7-10 | where the products fit, the `u32` wrapping steps of `power` give the plain product |
| Y2018Day13.TurnsInverse | y2018/src/bin/day13.rs:19-37 | the two turns undo each other, four of either face the same way again, and neither keeps the direction |
| Y2018Day13.CornerTables | y2018/src/bin/day13.rs:120-141 | '\\' turns left when moving up or down and right otherwise, '/' the other way round; the same corner twice goes back the way one came |
| Y2018Day13.IntersectionCycle | y2018/src/bin/day13.rs:172-183 | at the k-th intersection a cart turns left, goes straight or turns right as k mod 3 says, and the counter stays in 0 to 3 without reaching the panic |
| Y2018Day13.StepMovesOneCell | y2018/src/bin/day13.rs:167-193 | `Cart::next` moves exactly one cell in the direction the cart faces afterwards and keeps its counter in 0 to 3; it fails only where a coordinate 0 would underflow |
| Y2018Day13.Cart.constructor | y2018/src/bin/day13.rs:89-94 | a cart with the given position, facing and counter |
| Y2018Day13.Cart.Next | y2018/src/bin/day13.rs:167-193 | `next` updates the cart as the step function says, and reports the underflow panic |
| Y2018Day13.KeysOf | y2018/src/bin/day13.rs:46 | a position is a key of the cart map exactly when some cart stands there |
| Y2018Day13.SortedKeys | y2018/src/bin/day13.rs:46 | a sorted cart map has as many keys as carts |
| Y2018Day13.InsertKeys | y2018/src/bin/day13.rs:214 | `BTreeMap::insert` adds the key, puts the cart in and brings in nothing else |
| Y2018Day13.InsertSorted | y2018/src/bin/day13.rs:214 | insertion keeps the map sorted and grows it by one exactly when the key is new |
| Y2018Day13.InsertSpec | y2018/src/bin/day13.rs:244 | the same facts together, as `part2` uses them |
| Y2018Day13.ConsSorted | y2018/src/bin/day13.rs:48-53 | a cart ordered before every cart of a sorted map can go in front of it |
| Y2018Day13.RemoveKeys | y2018/src/bin/day13.rs:240 | `BTreeMap::remove` drops the key and brings in nothing |
| Y2018Day13.RemoveSorted | y2018/src/bin/day13.rs:240 | removal keeps the map sorted and shrinks it by one exactly when the key was there |
| Y2018Day13.RemoveSpec | y2018/src/bin/day13.rs:240 | the same facts together |
| Y2018Day13.WaitingFirst | y2018/src/bin/day13.rs:203 | at the start of a tick `previous` holds exactly the positions of the carts still to move |
| Y2018Day13.WaitingNext | y2018/src/bin/day13.rs:213 | past cart i, `previous` without cart i's start still holds exactly the carts waiting |
| Y2018Day13.WaitingLast | y2018/src/bin/day13.rs:205-215 | after the last cart `previous` is empty |
| Y2018Day13.MovedNext | y2018/src/bin/day13.rs:214 | after cart i is moved and inserted, `next` holds each moved cart |
| Y2018Day13.Tick1FromSpec | y2018/src/bin/day13.rs:205-215 | from cart i on, a tick without a collision keeps every cart, sorted, and a collision is two carts meeting |
| Y2018Day13.Tick1Spec | y2018/src/bin/day13.rs:201-216 | a tick of `part1` without a collision keeps every cart, sorted; a reported collision is two carts meeting at that position |
| Y2018Day13.RunTick1 | y2018/src/bin/day13.rs:202-216 | the tick loop of `part1` computes the tick function |
| Y2018Day13.Part1 | y2018/src/bin/day13.rs:200-218 | `part1` returns the first collision of the ticks, within the tick bound |
| Y2018Day13.CounterexampleMoves | y2018/src/bin/day13.rs:167-193 | the three carts of the counterexample form a sorted map, and A and B move as the finding says |
| Y2018Day13.PhantomCollision | y2018/src/bin/day13.rs:237-241 | as written a tick of three carts at a crossing removes all three, leaving the map empty |
| Y2018Day13.CrashCounts | y2018/src/bin/day13.rs:237-241 | a crash with the corrected rule takes exactly two from the sizes of `previous` and `next` together |
| Y2018Day13.Tick2StepKeeps | y2018/src/bin/day13.rs:229-245 | one cart of the corrected loop keeps `next` sorted and apart from `previous`, keeps `previous` to the waiting carts, and takes nothing or exactly two away |
| Y2018Day13.Tick2FromPairs | y2018/src/bin/day13.rs:229-245 | from cart i on, the corrected tick keeps the map sorted and removes an even number of carts |
| Y2018Day13.Tick2RemovesPairs | y2018/src/bin/day13.rs:226-246 | with the correction colliding carts leave in pairs: a tick keeps the map sorted, adds no cart and removes an even number |
| Y2018Day13.Tick2LeavesLastCart | y2018/src/bin/day13.rs:237-241 | on the counterexample the corrected tick leaves B alone at (0, 0) |
| Y2018Day13.RunTick2 | y2018/src/bin/day13.rs:226-246 | the tick loop of `part2`, with the correction, computes the corrected tick function |
| Y2018Day13.Ticks2StayOdd | y2018/src/bin/day13.rs:224-253 | with the corrected tick an odd number of carts stays odd, so `part2` can only stop at a single cart |
| Y2018Day13.Part2 | y2018/src/bin/day13.rs:224-253 | `part2` returns the last cart's position after the corrected ticks, within the tick bound |
| Y2018Day13.Tick1From | y2018/src/bin/day13.rs:205-215 | from cart i on, the `part1` loop panics only when some cart from i on cannot step |
| Y2018Day13.Tick1 | y2018/src/bin/day13.rs:202-216 | a tick of `part1` panics only when some cart runs off the track or turns at a fourth intersection |
| Y2018Day13.Tick2From | y2018/src/bin/day13.rs:229-245 | from cart i on, the `part2` loop, as written or corrected, panics only when some cart from i on cannot step |
| Y2018Day13.Tick2AsWritten | y2018/src/bin/day13.rs:226-246 | a tick of `part2` as written panics only when some cart cannot step |
| Y2018Day13.Tick2 | y2018/src/bin/day13.rs:226-246 | the corrected tick of `part2` panics only when some cart cannot step |
| Y2018Day14.DigitsOf | y2018/src/bin/day14.rs:12-23 | the decimal digits of v are never empty and have no leading zero |
| Y2018Day14.RecombineSnoc | y2018/src/bin/day14.rs:25-29 | appending a digit to a `recombine` input shifts the others up one place |
| Y2018Day14.RecombineDigits | y2018/src/bin/day14.rs:12-29 | `recombine` undoes `digits` |
| Y2018Day14.Digits | y2018/src/bin/day14.rs:12-23 | `digits`' loop and reverse give the decimal digits, most significant first |
| Y2018Day14.DigitsExamples | y2018/src/bin/day14.rs:31-34 | the `digits_*` and `recombine_*` tests |
| Y2018Day14.Step | y2018/src/bin/day14.rs:46-52 | one round keeps both elves on the board |
| Y2018Day14.StepGrows | y2018/src/bin/day14.rs:46-52 | a round appends one or two recipes and keeps what was there |
| Y2018Day14.Steps | y2018/src/bin/day14.rs:45-53 | every board after k rounds keeps both elves on it |
| Y2018Day14.StepsExtend | y2018/src/bin/day14.rs:45-53 | later boards extend earlier ones: a recipe never changes once written |
| Y2018Day14.StepsLength | y2018/src/bin/day14.rs:45-53 | each round adds at least one recipe |
| Y2018Day14.Grow | y2018/src/bin/day14.rs:45-53 | `part1`'s loop ends on a valid board longer than the limit |
| Y2018Day14.GrowIsSteps | y2018/src/bin/day14.rs:45-53 | that board is the board after some number of rounds |
| Y2018Day14.Round | y2018/src/bin/day14.rs:46-52 | the loop body computes one round |
| Y2018Day14.Part1 | y2018/src/bin/day14.rs:40-55 | `part1` returns the ten recipes after the first `recombine(count)`, read off a board longer than count + 20 |
| Y2018Day14.Part1Stable | y2018/src/bin/day14.rs:40-55 | every long enough board holds the same ten recipes there, so the answer does not depend on when the loop stops |
| Y2018Day14.AsBytes | y2018/src/bin/day14.rs:69 | `*i as u8` keeps each input value modulo 256 |
| Y2018Day14.Scan | y2018/src/bin/day14.rs:80-84 | the window scan panics exactly on an empty pattern, and otherwise returns the first matching window from `last_check` on, or finds none |
| Y2018Day14.SkippedAcross | y2018/src/bin/day14.rs:79-85 | a window that starts before `last_check` and ends after it is one the scans skip |
| Y2018Day14.FoundNotSkipped | y2018/src/bin/day14.rs:79-85 | a window found by a scan from `last_check` is not one the scans skip |
| Y2018Day14.MatchAtLonger | y2018/src/bin/day14.rs:81 | a window inside a prefix matches the same in the longer board |
| Y2018Day14.FoundIsFirst | y2018/src/bin/day14.rs:79-85 | if no window before idx that the scans do not skip matches on one board, none does on any board |
| Y2018Day14.ScanAdvances | y2018/src/bin/day14.rs:79-85 | a scan that finds nothing extends what has been scanned to the whole board |
| Y2018Day14.ScanFindsFirst | y2018/src/bin/day14.rs:80-84 | the first match of a scan is the first window that the scans do not skip and that matches |
| Y2018Day14.NothingFound | y2018/src/bin/day14.rs:71-87 | while every scan found nothing, no scanned board shows the pattern in a window the scans do not skip |
| Y2018Day14.Part2 | y2018/src/bin/day14.rs:65-88 | `part2` panics exactly when the input is empty and a scan happens; a returned index matches in a window the scans do not skip, and no earlier such window does; any such match at a scan within the rounds is found, at that index or before |
| Y2018Day14.Recombine | y2018/src/bin/day14.rs:25-29 | `recombine` of n decimal digits is below 10^n |
| Y2018Day16.Flags | y2018/src/bin/day16.rs:76-78 | one flag per opcode of `OPS`, in order, saying whether `check` passes for it |
| Y2018Day16.Count | y2018/src/bin/day16.rs:87-92 | the count of set flags among the first k is at most k |
| Y2018Day16.CountIsSize | y2018/src/bin/day16.rs:87-92 | the count is the size of the set of opcode indices whose flag is set |
| Y2018Day16.WorkedCounts | y2018/src/bin/day16.rs:16-21 | `worked` is the number of distinct opcodes consistent with the sample, at most 16 |
| Y2018Day16.CountWorked | y2018/src/bin/day16.rs:87-92 | the inner loop computes `worked` |
| Y2018Day16.Ambiguous | y2018/src/bin/day16.rs:85-97 | the number of samples that three or more opcodes explain is at most the number of samples |
| Y2018Day16.Part1 | y2018/src/bin/day16.rs:84-98 | `part1` is the number of samples three or more opcodes explain |
| Y2018Day16.ExampleArithmetic | y2018/src/bin/day16.rs:147-154 | of the arithmetic and bitwise opcodes only `addi` and `mulr` explain the example |
| Y2018Day16.ExampleComparisons | y2018/src/bin/day16.rs:147-154 | of the copies and comparisons only `seti` explains it |
| Y2018Day16.ExampleConsistent | y2018/src/bin/day16.rs:147-154 | exactly `addi`, `mulr` and `seti` explain it |
| Y2018Day16.ExampleAmbiguous | y2018/src/bin/day16.rs:80-83 | so part 1 of the example is 1 |
| Y2018Day16.WithCode | y2018/src/bin/day16.rs:108-111 | `by_code[code]` holds only samples of the input with that opcode number |
| Y2018Day16.Group | y2018/src/bin/day16.rs:108-111 | the grouping loop gives 16 groups, each the samples with that number in order |
| Y2018Day16.GroupOperands | y2018/src/bin/day16.rs:108-111 | every group's samples name registers in range |
| Y2018Day16.Initial | y2018/src/bin/day16.rs:112-120 | the candidate sets `part2` starts from, one per opcode number |
| Y2018Day16.BelowStep | y2018/src/bin/day16.rs:113-119 | moving past one more opcode adds it to a number's candidates exactly when it explains every sample of that number |
| Y2018Day16.InitialCodes | y2018/src/bin/day16.rs:112-120 | the nested loops build those candidate sets |
| Y2018Day16.AddOp | y2018/src/bin/day16.rs:114-119 | one round of the outer loop adds op_idx to every number it explains |
| Y2018Day16.AddToGroup | y2018/src/bin/day16.rs:115-118 | the body for one group changes only that number's set |
| Y2018Day16.AllExplain | y2018/src/bin/day16.rs:115 | the `all` holds exactly when the opcode explains every sample of the group |
| Y2018Day16.UniqueFrom | y2018/src/bin/day16.rs:122-127 | a unique candidate is the only candidate of some number |
| Y2018Day16.UniqueHas | y2018/src/bin/day16.rs:122-127 | the only candidate of a number is unique |
| Y2018Day16.Round | y2018/src/bin/day16.rs:122-133 | one pass of the `while` body keeps one set per number |
| Y2018Day16.Prune | y2018/src/bin/day16.rs:128-133 | the `for code in &mut codes` loop computes that pass |
| Y2018Day16.Eliminate | y2018/src/bin/day16.rs:121-134 | the `while` loop computes the settling function, within the fuel |
| Y2018Day16.SettleSettles | y2018/src/bin/day16.rs:121 | when settling ends, no number has more than one candidate left |
| Y2018Day16.SettleShrinks | y2018/src/bin/day16.rs:132 | settling only removes candidates |
| Y2018Day16.InitialAdmits | y2018/src/bin/day16.rs:112-120 | a table that explains the samples survives the first filter |
| Y2018Day16.RoundAdmits | y2018/src/bin/day16.rs:122-133 | a pass never removes a number's true opcode |
| Y2018Day16.SettleAdmits | y2018/src/bin/day16.rs:121-134 | neither does settling |
| Y2018Day16.SettledIsTruth | y2018/src/bin/day16.rs:121-140 | once settled with no empty set, each number has exactly its true opcode left |
| Y2018Day16.RunProgram | y2018/src/bin/day16.rs:141-144 | the last loop runs the program with the table from `Registers::default()` and returns register 0 |
| Y2018Day16.Part2 | y2018/src/bin/day16.rs:104-145 | `part2` is 0 for the example; otherwise it succeeds exactly when settling ends with no empty set, and then returns register 0 of the program run with any table that explains the samples |
| Y2018Day22.Up | y2018/src/bin/day22.rs:24-27 | `up` is None exactly on the top row, and otherwise the region one row up |
| Y2018Day22.Left | y2018/src/bin/day22.rs:34-39 | `left` is None exactly on the leftmost column, and otherwise the region one column left |
| Y2018Day22.Erosion | y2018/src/bin/day22.rs:109-117 | an erosion level is below 20183 |
| Y2018Day22.GeologicCases | y2018/src/bin/day22.rs:89-107 | the geologic index is 0 at the mouth and the target, x times 16807 on the top row, y times 48271 on the left column, and the product of the levels to the left and above elsewhere |
| Y2018Day22.Geologic | y2018/src/bin/day22.rs:89-107 | off the top row and the left column the geologic index is a product of two erosion levels, so it is below 20183 squared |
| Y2018Day22.TypeOf | y2018/src/bin/day22.rs:121-126 | the type is rocky, wet or narrow exactly as the level modulo 3 is 0, 1 or 2 |
| Y2018Day22.RiskIsLevelMod3 | y2018/src/bin/day22.rs:227-231 | a region's risk is its erosion level modulo 3 |
| Y2018Day22.ExactlyTwoGears | y2018/src/bin/day22.rs:145-151 | every type allows every tool but one, and each tool is forbidden in exactly one type |
| Y2018Day22.Cave.constructor | y2018/src/bin/day22.rs:194-198 | the generator's cave: the depth, the target and an empty cache |
| Y2018Day22.Cave.GeologicIdx | y2018/src/bin/day22.rs:89-107 | `geologic_idx` returns the geologic index and only adds to the cache |
| Y2018Day22.Cave.ErosionLevel | y2018/src/bin/day22.rs:109-117 | `erosion_level` returns the erosion level, from the cache or computed, and leaves it cached |
| Y2018Day22.Cave.Ty | y2018/src/bin/day22.rs:119-127 | `ty` returns the type of the region's erosion level |
| Y2018Day22.DangerBound | y2018/src/bin/day22.rs:223-235 | each of the (x + 1) (y + 1) regions adds at most 2 to the danger |
| Y2018Day22.Part1 | y2018/src/bin/day22.rs:222-236 | `part1` is the risk summed column by column over the rectangle from the mouth to the target |
| Y2018Day22.ExampleTypes | y2018/src/bin/day22.rs:406-410 | the `ge_*` tests: the types at (0, 0), (1, 0), (0, 1), (1, 1) and the target of the example |
| Y2018Day22.Risk | y2018/src/bin/day22.rs:227-231 | the risk of a type is below 3 and is a level of that same type, so `TypeOf` undoes it |
| Y2018Registers.Zero | y2018/src/device.rs:6-9 | `Registers::default()` holds 0 in all six registers |
| Y2018Registers.FromItems | y2018/src/device.rs:17-33 | `Registers::from` takes the first six items in order and leaves the registers past the last item 0 |
| Y2018Registers.FromSix | y2018/src/device.rs:21-32 | six items are taken as they are |
| Y2018Registers.FromIgnoresExtra | y2018/src/device.rs:21-32 | items after the sixth are never read |
| Y2018Registers.FromFour | y2018/src/device.rs:21-32 | four items, as in a sample line, leave the last two registers 0 |
| Y2018OpCodes.Flag | y2018/src/device/op_codes.rs:43-65 | `cond as u32` is 0 or 1 |
| Y2018OpCodes.Exec | y2018/src/device/op_codes.rs:1-65 | an opcode writes its result to register c and leaves every other register unchanged |
| Y2018OpCodes.Apply | y2018/src/device/op_codes.rs:1-65 | each opcode function through `&mut Registers` leaves the registers as the value model says |
| Y2018OpCodes.Arithmetic | y2018/src/device/op_codes.rs:3-33 | the right-hand sides of the arithmetic and bitwise opcodes, on wrapping u32 |
| Y2018OpCodes.Comparison | y2018/src/device/op_codes.rs:35-65 | the right-hand sides of the copies and comparisons |
| Y2018OpCodes.ComparisonsAreFlags | y2018/src/device/op_codes.rs:43-65 | a comparison writes 1 exactly when its test holds, and never more than 1 |
| Y2018OpCodes.Fits | y2018/src/device.rs:35-53 | an opcode fits when every register number it reads or writes is below 6, where `Registers` indexing would panic |
| Y2018Device.Device.constructor | y2018/src/device.rs:154-158 | the device `load` builds: pointer 0, the pointer register and the instructions |
| Y2018Device.Device.Step | y2018/src/device.rs:102-112 | `step` returns false, changing nothing, exactly when the pointer has left the program; otherwise it writes the pointer into its register, runs the instruction and sets the pointer to that register plus one |
| Y2018Device.StepFallsThrough | y2018/src/device.rs:104-107 | an instruction that does not write the pointer's register moves on to the next one |
| Y2018Device.StepJumps | y2018/src/device.rs:104-107 | `seti n _ ip` jumps to instruction n + 1 |
| Y2018Device.StepSkips | y2018/src/device.rs:104-107 | `addr ip k ip` with register k holding 1 skips the next instruction |
| Y2018Device.TableNamesItsOps | y2018/src/device.rs:123-139 | the table pairs each of its 14 mnemonics with the opcode of that name, and no opcode twice |
| Y2018Device.Code | y2018/src/device.rs:123-139 | a mnemonic's code is its place in the table, and there is none exactly for a mnemonic not in it |
| Y2018Device.OpLines | y2018/src/device.rs:117-121 | the instruction lines of the listing, in order, without the `#ip` lines |
| Y2018Device.ParseListing | y2018/src/device.rs:115-153 | the loop of `load` succeeds exactly when there is an `#ip` line and every mnemonic is known; the pointer register is the last `#ip`'s and each instruction assembles its line |
| Y2018Device.UnknownStaysUnknown | y2018/src/device.rs:138 | one unknown mnemonic makes the whole listing fail |
| Y2018Device.Load | y2018/src/device.rs:114-159 | `load` gives a fresh device at pointer 0 with those instructions exactly when there is an `#ip` line and every mnemonic is known, and None where it panics |

## Left out

Outside the core, and not part of this model:
- The command-line runner, the `aoc-macro` attribute macros, `main.rs` and the `gen!` glue. They are I/O and wiring.
- The embedded puzzle inputs, apart from the few lemmas that quote one. The `println!`/`eprintln!` progress output is left out too.
- `lib.rs` `swap`: it is `unsafe` pointer code.
- The days built on MD5: `md5iter`, and 2016 days 5, 14 and 17. A hash function is a foreign call here.
- The days built on SIMD, floating point or regular expressions: 2017 day 15, 2017 day 3 and 2018 day 20.
- The days built on `petgraph` searches: 2018 days 7 and 15, and 2016 days 13, 22 and 24.
- 2018 day 22 part 2. It is a `petgraph` Dijkstra search over `CrossIter`, `Person` and the `Edges` impls, none of which is modelled.
- `y2018/src/day09.rs`. It is an unfinished copy of the marble game that does not type-check; the binary `y2018/src/bin/day09.rs` is modelled instead.
- 2018 day 10 (a stub) and 2018 day 1 (a one-line sum).
- 2016 days 23 and 25. Their `Toggle`/`Out` instructions extend the day 12 machine.
- 2017 day 23 `primal` and part 1.
- 2018 days 6, 12, 18, 19 and 21.
- 2017 day 24.

Integer widths and panics:
- RustInt.WrapU32, RustInt.WrapI32, RustInt.WrapI64 and RustInt.WrapU64: these give release-build wrapping. A debug build panics on the same overflow; the model follows the release build wherever it uses them.
- Y2018Day08.Selected: `idx - 1` on a `u8` wraps 0 to 255, as in a release build, where a debug build panics. Index 255 then selects no child.
- Y2018Day08.NodeValue: sums are unbounded `nat`. The source's `u32` sums would overflow only above 2^32 - 1.
- Y2018Day08.Part1: the metadata sum is an unbounded `nat`, where the source's is a `u32`.
- Y2018Day22.Part1: the `u32` danger sum is an unbounded `nat`; DangerBound shows it stays within 2(x+1)(y+1), so it fits while that is below 2^32. The `usize` products of `geologic_idx` (y2018/src/bin/day22.rs:99-106) are unbounded too: the product of two erosion levels is below 20183^2 and fits, and `x * 16807` and `y * 48271` overflow only for coordinates above 2^64 / 16807 and 2^64 / 48271.
- Y2018Day11.Power: the `u32` products wrap (a release build). For coordinates up to 300 and a serial up to 10000 they never reach 2^32 (ProductsFit).
- Y2018OpCodes.Exec: `addr`, `mulr` and the other `u32` register operations wrap (a release build).
- Y2018OpCodes.Fits: a register number of 6 or more makes the source panic on an index. It is a precondition of Exec and of Y2018Device.Device.Step, not an error value.
- Y2017Day18.Step1 and Y2017Day18.Program.Execute: the `i64` registers wrap (a release build).
- Lib.Parser.ConsumeNumber: the `u64` accumulator is an unbounded `nat`, so a numeral whose value exceeds 18446744073709551615 (u64::MAX) does not overflow; this includes some 20-digit numerals. `Lib.Signed` reduces the value modulo 2^64 at the `as i64` cast, so `consume_signed_number` agrees with a release build there too.
- Lib.Parser.ConsumeSignedNumber: the `as i64` cast and the product by -1 wrap as in a release build; a debug build panics on `i64::MIN * -1` instead.
- ModuloSolver.Combine: the source's `i128` and `u64` intermediates are unbounded integers, so no overflow is modelled. ModuloSolver.Modulo does model the final `as u64` cast.
- Y2017Day17.Spin: `pos + step` wraps at the word size the source computes in: `usize` in part 1 and `u32` in part 2, where the sum of two `u32`s can overflow once `step >= 2^32 - 49,999,999`, since `pos` never exceeds 49,999,999. The model wraps as a release build does. A debug build panics instead. NoWrapBelow shows the two words agree on small steps, and WrapMatters shows they differ on a large one.
- Y2017Day14.RemoveGroups: the group counter is an unbounded `nat`.
- BitVectors.BitVec.CountZeros: `len() - count_ones()` on `usize` is an `int`. The underflow is reachable: `insert` shifts set bits up without growing `max_idx`, so a set bit can end up past `len()` (InsertOutgrowsLen). There the model returns a negative int, where the source panics in a debug build or wraps in a release build. CountZerosCountsClearBits gives the case where no bit lies past `max_idx`.
- VecLike.InsertPadded: it pads with default elements where `Vec::insert` past the end panics. A `Matrix` whose storage is shorter than rows * cols therefore gets padding where the source would panic.
- Y2018Day09.Part1: requires at least one player and fewer than 2^32 - 1 marbles. With no players the source's outer loop never ends, and at 2^32 - 1 its `next_marble += 1` overflows. Y2018Day09.Circle.Remove requires at least two marbles, which the game guarantees. Freed indices are never handed out again, as with the source's generational indices, so the model's fresh `nat` keys match them; the reuse of a freed slot under a new generation is not modelled. The `Debug` formatter is not modelled.
- Y2018Day09.Part2: requires `marbles * 100`, wrapped to `u32`, to stay below 2^32 - 1, as Part1 does.
- Y2018Day16.Part2: three source panics are preconditions: an opcode number of 16 or more, a number with no samples, and a register of 6 or more.
- Y2018Day14.Recombine: the `usize` accumulator is unbounded.
- Y2016Day16.Part1: a disk size of 0 gives None, where `len - 1` underflows `usize` and the source panics.
- Y2016Day16.ChunkMaskIsLowBit: it is stated for a word x with `x as nat == n`. That covers every 0 < n < 2^64.
- Y2016Day01.Position.Go: the `isize` coordinates and the `n as isize` cast are unbounded ints.
- Y2017Day25: `part2` is a stub that returns 0 and is not modelled. The `isize` overflow of the head `position` is not modelled either.

Text parsing abstracted away:
- Y2018Device.Load and Y2018Day16.Part2 take the puzzle text already split into lines. The day 16 sample generator is not modelled.
- Y2017Day10.Part1 takes the lengths after the `","` split and the integer parse.
- Y2017Day13.Parse takes the (depth, range) pairs after the `": "` split.
- Y2016Day01.ParseSteps takes the tokens after the `", "` split.
- Y2018Day02.Part1 and Y2018Day02.Part2 read characters where the source reads bytes. The puzzle text is ASCII, so the two agree.
- The generators of 2018 days 13 and 22 are not modelled; the models start from the track grid and carts, and from depth and target. The 2016 day 20 rule parser is not modelled either.
- Y2016Day11: the `exec`/`part1`/`part2` breadth-first search loop, with its `println!`, is not modelled. The floors, moves, `is_done`, `ItemIter` and `push_state` are.
- Y2017Day14: `part1`, `parse_rows` and `knot_hash` are not modelled. The model starts from the disk rows.
- Y2017Day21: `eval`, `part1` and `part2` are not modelled. They are rule parsing, an iteration count and a `println!`.
- Y2017Day21.Grid.Step: it is proved equal to the pure StepP, which assembles the rule outputs into the bumped grid (StepIsAssemble). The per-block reading (block (i, j) of the new picture is the output of the rule that matches old block (i, j)) is not a lemma of its own.
- Y2017Day22.Part1 and Y2017Day22.Part2 take the burst count as a parameter. Y2017Day22.Load requires that the parsed matrix is valid. A ragged pattern can leave storage past rows * cols, which the model does not cover.

Unbounded loops run on fuel and answer None (or OutOfFuel), with a lemma for how much fuel is enough where one is stated:
- Cycles.Length and Cycles.Find: without a bound on the input there is none in the source. Enough fuel (2μ + 3λ) always finds the cycle.
- Y2017Day06.Exec, Y2017Day06.Part1 and Y2017Day06.Part2: fuel bounds Floyd's search (tortoise and hare), which the source runs unbounded. Fuel of at least mu + lam, the tail plus the loop length, is always enough (the second ensures of Y2017Day06.Exec).
- Y2016Day12.Run: the machine runs on fuel.
- Y2017Day18.Part1 and Y2017Day18.Part2: these run for a bounded number of rounds.
- Y2018Day13.Part1 and Y2018Day13.Part2: these run for a bounded number of ticks.
- Y2018Day14.Part2: fuel bounds the recipe rounds. The source resumes each scan at `last_check`, the length at which the previous scan ran, so a window that starts before such a length and ends after it is never looked at (Y2018Day14.Skipped). The answer is the first match among the windows not skipped, which need not be the first match overall. A multiple of 1000 that the board jumps over holds no scan and exempts nothing.
- Y2018Day16.Part2: fuel bounds the elimination rounds (Settle).
- Y2017Day13.Part2: fuel bounds the delay search, and the source's `sort_by_key` is dropped. The order does not change the first delay that passes every layer.
- Y2017Day13.Parse: None for non-increasing depths stands for the source's endless filler loop (`while depth as usize != layers.len()` never reaches a smaller depth).
- Y2017Day13.RangeOneNeverCatches: a layer of range 1 is stored as 0 and, as in the source, never catches. Puzzle inputs have ranges of 2 or more.
- Y2016Day21.Part2: the source's search loops for ever when no rotation maps back. The model tries every rotation and answers None. The unscramble round trip is proved for passwords of 8 distinct letters.
- Y2018Day11.Part1 and Y2018Day11.Part2: the scans run over `1..=300 - size`, as in the source. Squares touching the last row and column are therefore never candidates.

Representation:
- BitVectors.BitVec.Valid: the `u64` cells are one flat `seq<bool>`, 64 entries to a cell (bit k of cell c at index 64c + k). The masks and shifts of the source are stated on that sequence, not on machine words.
- Y2016Day11.MoveDown / Y2016Day11.MoveUp: the source's moves call the as-written `is_valid`. The model takes the check as a `Check` argument, so AsWritten follows the source and Corrected gives the intended rule (AsWrittenRefusesSafeMove).
- Y2017Day21.BitVec.MakeSpaceAt: kept as written. The source's local `make_space_at` shifts the later cells only when a set top bit carries out (Inserted, Bumped). The model follows that, and nothing in it needs a corrected version.

Examples not proved, each too expensive to evaluate symbolically (thousands of steps on literal data):
- 2017 day 17 part1(3) = 638: it takes 2017 inserts.
- 2016 day 16 part 1 on the puzzle input.
- 2018 day 14 part 1 after 5, 9, 18 and 2018 rounds, and its part 2 examples.
- 2017 day 10 part 2's four hashes: 64 rounds each.
- 2017 day 22 5587: 10000 bursts.
- 2018 day 9 (9, 25) = 32, (10, 1618) = 8317 and the other games.
- 2018 day 11: the `part1`/`part2` examples for serial 18, (33, 45) and (90, 269, 16).
- 2018 day 13 (7, 3) and (6, 4).
- 2018 day 22 114.
- The large `*_1` matrix tests.
- 2017 day 18: its text listings. The examples are stated on the instruction sequences instead.
- Y2018Day02.Part2Example: it proves that `fghij`/`fguij` give `fgij`, not that they are the first near pair.

## Findings

Each row has two halves: a model of the code as written (BitVectors.BitVec.FillAsWritten, Y2017Day08.PeakAsWritten, the `AsWritten` progress rule of Y2017Day18, Y2018Day13.Tick2AsWritten, Y2016Day11.IsValidAsWritten) with a lemma that exhibits the discrepancy, and the corrected definition with the intended property proved. The rest of the model uses the corrected definition. The one exception is Y2016Day18, which counts through the as-written fill as the source does and proves the two agree except at lengths 64k + 1 (Y2016Day18.AsWrittenAgrees).

| source | as written | input that shows it | evidently intended | confidence | as-written member | corrected member |
|---|---|---|---|---|---|---|
| src/bitvec.rs:46-64 | `fill` stores the last, partly filled cell after its loop only when `cleared` is false. When the last element is the first of a fresh cell (length 64k + 1, k at least 1), `cleared` is true and that cell is never stored. | 65 set elements: the vector holds only the first 64. In 2016 day 18, a row of 64 safe tiles and one trap then counts 65 safe tiles, not 64 (Y2016Day18.LastTrapLost). | every element passed to `fill` is stored | not executed | BitVectors.FillAsWrittenDropsLastElement | BitVectors.FillKeepsEveryElement |
| src/bin/y2017/day08.rs:20-34 | `part2` takes its maximum over the value a register held before each update, so the last write is never counted. | the single line `a inc 5 if a == 0`: the result is 0, yet `a` ends at 5 | the largest value any register holds during the run | not executed | Y2017Day08.MissedPeak | Y2017Day08.PeakBoundsEveryState |
| src/bin/y2017/day18.rs:171 | A burst counts as progress only when `start != self.position`. A burst that takes input and jumps back to its starting instruction therefore counts as no progress. | program `rcv a; jgz a -1`, a program at the `jgz` with a = 5, input [7]: it jumps back, takes the 7, and stops at the `rcv` where it started | a burst makes progress exactly when the program was not blocked | not executed | Y2017Day18.TakenWithoutProgress | Y2017Day18.ProgressIffNotBlocked |
| y2018/src/bin/day13.rs:237-241 | On a collision, the crashed cart's starting cell is not removed from `previous`. A cart that later arrives at that cell collides with a cart that is no longer there. | positions written (row, column): carts A at (0,0) heading left, B at (0,1) heading left and C at (1,0) heading up, with an intersection at (0,0): the tick removes all three, and `part2` never ends | exactly the two carts in each collision disappear, so an odd number of carts stays odd and one cart is left | not executed | Y2018Day13.PhantomCollision | Y2018Day13.Ticks2StayOdd |
| src/bin/y2016/day11.rs:184 | `is_valid` checks `to_generator().contains(self & GENERATOR)`: every generator on the floor must have its chip. The comment at :175 asks the reverse, that every chip has its generator. | a floor with the thulium and plutonium generators and only the thulium chip is rejected. A floor with the thulium generator and both chips (plutonium's chip unshielded) is accepted (Y2016Day11.AsWrittenAcceptsFriedChip). The puzzle input's first floor is rejected (Y2016Day11.InputIsValid). | a floor is valid when it has no generator, or every chip on it has its generator | not executed | Y2016Day11.AsWrittenRejectsSafeFloor | Y2016Day11.IsValidMeans |
