/**
 * 2017 day 17 (src/bin/y2017/day17.rs): the spinlock.  Starting from the
 * buffer [0], value i is inserted just after the position reached by
 * stepping `step` places forward from the last insertion.
 */
module Y2017Day17 {

  datatype Lock = Lock(buf: seq<nat>, pos: nat)

  /** The number of values of `usize` (a 64-bit target) and of `u32`. */
  const USIZE: nat := 0x1_0000_0000_0000_0000
  const U32: nat := 0x1_0000_0000

  /**
   * Where the i-th value goes: one past `step` places on from `pos`, in a
   * buffer of `len` values.  `pos + step` is machine arithmetic with `word`
   * values, wrapping as a release build does (`usize` in `part1`, `u32` in
   * `part2`).
   */
  function InsertAt(pos: nat, step: nat, len: nat, word: nat): (k: nat)
    requires len > 0 && word > 0
    ensures 1 <= k <= len
    ensures pos + step < word ==> k == (pos + step) % len + 1
  {
    var wrapped := (pos + step) % word;
    assert pos + step < word ==> wrapped == pos + step;
    wrapped % len + 1
  }

  /** One insertion of v, which becomes the current position. */
  function Insert(s: Lock, step: nat, v: nat, word: nat): (t: Lock)
    requires |s.buf| > 0 && word > 0
    ensures |t.buf| == |s.buf| + 1 && t.pos < |t.buf|
  {
    var k := InsertAt(s.pos, step, |s.buf|, word);
    Lock(s.buf[..k] + [v] + s.buf[k..], k)
  }

  /** The buffer and the current position after inserting the values 1 to n. */
  function Spin(step: nat, n: nat, word: nat): (s: Lock)
    requires word > 0
    ensures |s.buf| == n + 1 && s.pos < |s.buf|
  {
    if n == 0 then Lock([0], 0) else Insert(Spin(step, n - 1, word), step, n, word)
  }

  /** The buffer holds exactly the values 0 to n, once each; 0 stays at the front and the last value sits at the position. */
  lemma {:induction false} SpinContents(step: nat, n: nat, word: nat)
    requires word > 0
    ensures var s := Spin(step, n, word); s.buf[0] == 0 && s.buf[s.pos] == n
    ensures multiset(Spin(step, n, word).buf) == Upto(n)
  {
    if n > 0 {
      SpinContents(step, n - 1, word);
      var prev := Spin(step, n - 1, word);
      var k := InsertAt(prev.pos, step, |prev.buf|, word);
      assert Spin(step, n, word).buf == prev.buf[..k] + [n] + prev.buf[k..];
      assert prev.buf == prev.buf[..k] + prev.buf[k..];
      assert prev.buf[..k][0] == 0;
    }
  }

  /** The multiset {0, 1, ..., n}. */
  function Upto(n: nat): multiset<nat>
  {
    if n == 0 then multiset{0} else Upto(n - 1) + multiset{n}
  }

  lemma {:induction false} UptoHas(n: nat, v: nat)
    ensures Upto(n)[v] == if v <= n then 1 else 0
  {
    if n > 0 {
      UptoHas(n - 1, v);
    }
  }

  /** After the first insertion the value after 0 changes exactly when an insertion lands at index 1. */
  lemma SpinAfterZero(step: nat, n: nat, word: nat)
    requires n > 0 && word > 0
    ensures var prev := Spin(step, n - 1, word);
      var k := InsertAt(prev.pos, step, |prev.buf|, word);
      Spin(step, n, word).buf[1] == if k == 1 then n else prev.buf[1]
  {
    var prev := Spin(step, n - 1, word);
    var k := InsertAt(prev.pos, step, |prev.buf|, word);
    if k > 1 {
      assert Spin(step, n, word).buf[1] == prev.buf[..k][1];
    }
  }

  /** The loop of `part1` up to `last`: the buffer, grown by `Vec::insert`. */
  method Spinlock(step: nat, last: nat) returns (buf: seq<nat>)
    ensures buf == Spin(step, last, USIZE).buf
  {
    buf := [0];
    var pos: nat := 0;
    for i := 1 to last + 1
      invariant Lock(buf, pos) == Spin(step, i - 1, USIZE)
    {
      ghost var before := Lock(buf, pos);
      var insert := (pos + step) % USIZE % |buf|;
      assert insert + 1 == InsertAt(pos, step, |buf|, USIZE);
      buf := buf[..insert + 1] + [i] + buf[insert + 1..];
      pos := insert + 1;
      assert Lock(buf, pos) == Insert(before, step, i, USIZE);
    }
  }

  /** The first index holding v. */
  function IndexOf(buf: seq<nat>, v: nat): (i: nat)
    requires v in buf
    ensures i < |buf| && buf[i] == v
    ensures forall j :: 0 <= j < i ==> buf[j] != v
  {
    if buf[0] == v then 0 else 1 + IndexOf(buf[1..], v)
  }

  /** `position`: the scan for the first index holding v. */
  method Position(buf: seq<nat>, v: nat) returns (idx: nat)
    requires v in buf
    ensures idx == IndexOf(buf, v)
  {
    idx := 0;
    while buf[idx] != v
      invariant idx < |buf| && v in buf[idx..]
      invariant forall j :: 0 <= j < idx ==> buf[j] != v
      decreases |buf| - idx
    {
      assert buf[idx..] == [buf[idx]] + buf[idx + 1..];
      idx := idx + 1;
    }
  }

  /** The value just after `last`, wrapping around, once `last` is inserted. */
  method ValueAfter(step: nat, last: nat) returns (r: nat)
    ensures var buf := Spin(step, last, USIZE).buf;
      last in buf && r == buf[(IndexOf(buf, last) + 1) % |buf|]
  {
    var buf := Spinlock(step, last);
    SpinContents(step, last, USIZE);
    UptoHas(last, last);
    assert last in multiset(buf);
    var idx := Position(buf, last);
    var next := (idx + 1) % |buf|;
    r := buf[next];
  }

  /** `part1`: the loop runs to 2017. */
  method Part1(step: nat) returns (r: nat)
    ensures var buf := Spin(step, 2017, USIZE).buf;
      2017 in buf && r == buf[(IndexOf(buf, 2017) + 1) % |buf|]
  {
    r := ValueAfter(step, 2017);
  }

  /** The value after 0 once n values are in; 0 if the buffer holds only 0. */
  function AfterZero(buf: seq<nat>): nat
  {
    if |buf| > 1 then buf[1] else 0
  }

  /**
   * The loop of `part2` for the values 1 to n: only the positions are
   * tracked.  0 stays at index 0 since every insertion is at index 1 or
   * later, and the answer is the last value inserted at index 1.
   */
  method AfterZeroRounds(step: nat, n: nat) returns (lastNext: nat)
    ensures lastNext == AfterZero(Spin(step, n, U32).buf)
  {
    var zeroPosition := 0;
    lastNext := 0;
    var pos := 0;
    for i := 1 to n + 1
      invariant zeroPosition == 0
      invariant pos == Spin(step, i - 1, U32).pos
      invariant lastNext == AfterZero(Spin(step, i - 1, U32).buf)
    {
      var insert := (pos + step) % U32 % i + 1;
      if insert == zeroPosition {
        zeroPosition := zeroPosition + 1;
      }
      if insert == zeroPosition + 1 {
        lastNext := i;
      }
      pos := insert;
      SpinAfterZero(step, i, U32);
    }
  }

  /**
   * `part2`: the value after 0 once fifty million values are in (`step as
   * u32`, and `pos + step` wrapping in `u32`).
   */
  method Part2(step: nat) returns (r: nat)
    ensures r == Spin(step % U32, 50000000, U32).buf[1]
  {
    r := AfterZeroRounds(step % U32, 50000000);
  }

  /**
   * Below the wrap the word size does not matter: for step + n <= word the
   * position stays below the number of values, so `pos + step` never
   * reaches the word size, and `part2`'s u32 spin is the one `usize` gives.
   */
  lemma {:induction false} NoWrapBelow(step: nat, n: nat, word: nat, wider: nat)
    requires 0 < word <= wider && step + n <= word
    ensures Spin(step, n, word) == Spin(step, n, wider)
  {
    if n > 0 {
      NoWrapBelow(step, n - 1, word, wider);
      var prev := Spin(step, n - 1, word);
      InsertNoWrap(prev, step, n, word, wider);
    }
  }

  /** Below both word sizes an insertion does not depend on the word. */
  lemma InsertNoWrap(s: Lock, step: nat, v: nat, word: nat, wider: nat)
    requires |s.buf| > 0 && 0 < word <= wider && s.pos + step < word
    ensures Insert(s, step, v, word) == Insert(s, step, v, wider)
  {
    assert InsertAt(s.pos, step, |s.buf|, word) == InsertAt(s.pos, step, |s.buf|, wider);
  }

  /** The wrap does change answers: with step 2^32 - 1 the third value goes elsewhere in `u32` than in `usize`. */
  lemma WrapMatters()
    ensures Spin(U32 - 1, 3, U32).buf != Spin(U32 - 1, 3, USIZE).buf
  {
    assert Spin(U32 - 1, 1, U32) == Lock([0, 1], 1);
    assert Spin(U32 - 1, 1, USIZE) == Lock([0, 1], 1);
    assert Spin(U32 - 1, 2, U32) == Lock([0, 2, 1], 1);
    assert Spin(U32 - 1, 2, USIZE) == Lock([0, 2, 1], 1);
    assert Spin(U32 - 1, 3, U32).buf == [0, 3, 2, 1];
    assert Spin(U32 - 1, 3, USIZE).buf == [0, 2, 3, 1];
  }
}
