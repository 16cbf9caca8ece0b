/**
 * 2016 day 16 (src/bin/y2016/day16.rs): filling a disk with dragon-curve
 * data and checksumming it.  The data are bytes meant to be 0 or 1; the
 * checksum takes chunks as long as the largest power of two dividing the
 * disk size and maps each to '1' when it holds an even number of ones.
 * That is proved equal to the puzzle's own definition, pairwise XNOR
 * repeated until the length is odd.
 */
module Y2016Day16 {
  import opened Wrappers

  /** The complement of the expansion: 1 becomes 0 and anything else 1. */
  function Complement(x: bv8): bv8
  {
    if x == 1 then 0 else 1
  }

  function Reversed(a: seq<bv8>): (r: seq<bv8>)
    ensures |r| == |a|
    ensures forall i :: 0 <= i < |a| ==> r[i] == a[|a| - 1 - i]
  {
    if a == [] then [] else [a[|a| - 1]] + Reversed(a[..|a| - 1])
  }

  function Complemented(a: seq<bv8>): (r: seq<bv8>)
    ensures |r| == |a|
    ensures forall i :: 0 <= i < |a| ==> r[i] == Complement(a[i])
  {
    if a == [] then [] else [Complement(a[0])] + Complemented(a[1..])
  }

  /** One dragon step: the data, a 0, and the data reversed and complemented. */
  function Expand(a: seq<bv8>): seq<bv8>
  {
    a + [0] + Complemented(Reversed(a))
  }

  /** What one step makes, position by position. */
  lemma ExpandAt(a: seq<bv8>)
    ensures |Expand(a)| == 2 * |a| + 1
    ensures Expand(a)[..|a|] == a && Expand(a)[|a|] == 0
    ensures forall i :: |a| < i < |Expand(a)| ==> Expand(a)[i] == Complement(a[2 * |a| - i])
  {
  }

  /** The body of `compute`'s loop: clone, reverse, complement in place, and join. */
  method ExpandOnce(a: seq<bv8>) returns (data: seq<bv8>)
    ensures data == Expand(a)
  {
    var b := Reversed(a);
    for i := 0 to |b|
      invariant |b| == |a|
      invariant forall j :: 0 <= j < i ==> b[j] == Complement(Reversed(a)[j])
      invariant forall j :: i <= j < |b| ==> b[j] == Reversed(a)[j]
    {
      b := b[i := if b[i] == 1 then 0 else 1];
    }
    data := a + [0] + b;
  }

  /** The data once `compute`'s loop stops: expanded until at least n long. */
  function Grow(a: seq<bv8>, n: nat): seq<bv8>
    decreases n - |a|
  {
    if |a| >= n then a else Grow(Expand(a), n)
  }

  lemma {:induction false} GrowLength(a: seq<bv8>, n: nat)
    ensures |Grow(a, n)| >= n
    decreases n - |a|
  {
    if |a| < n {
      GrowLength(Expand(a), n);
    }
  }

  /** Expanding never changes the data already there. */
  lemma {:induction false} GrowKeepsPrefix(a: seq<bv8>, n: nat)
    ensures |a| <= |Grow(a, n)| && Grow(a, n)[..|a|] == a
    decreases n - |a|
  {
    if |a| < n {
      ExpandAt(a);
      GrowKeepsPrefix(Expand(a), n);
    }
  }

  /**
   * Truncating to n makes the result independent of the extra expansions:
   * growing past n first and then to n gives the same first n values.
   */
  lemma TruncationStable(a: seq<bv8>, n: nat, m: nat)
    requires n <= m
    ensures |Grow(a, n)| >= n && |Grow(a, m)| >= n
    ensures Grow(a, n)[..n] == Grow(a, m)[..n]
  {
    GrowLength(a, n);
    GrowLength(a, m);
    GrowNested(a, n, m);
    GrowKeepsPrefix(Grow(a, n), m);
  }

  lemma {:induction false} GrowNested(a: seq<bv8>, n: nat, m: nat)
    requires n <= m
    ensures Grow(Grow(a, n), m) == Grow(a, m)
    decreases n - |a|
  {
    if |a| < n {
      GrowNested(Expand(a), n, m);
    }
  }

  predicate IsBits(s: seq<bv8>)
  {
    forall i :: 0 <= i < |s| ==> s[i] == 0 || s[i] == 1
  }

  lemma {:induction false} GrowBits(a: seq<bv8>, n: nat)
    requires IsBits(a)
    ensures IsBits(Grow(a, n))
    decreases n - |a|
  {
    if |a| < n {
      ExpandAt(a);
      GrowBits(Expand(a), n);
    }
  }

  // ---------------------------------------------------------------------
  // The checksum.

  /** The ones of a chunk (the `filter(|x| **x == 1).count()`). */
  function Ones(s: seq<bv8>): nat
  {
    if s == [] then 0 else Ones(s[..|s| - 1]) + if s[|s| - 1] == 1 then 1 else 0
  }

  lemma {:induction false} OnesAppend(a: seq<bv8>, b: seq<bv8>)
    ensures Ones(a + b) == Ones(a) + Ones(b)
    decreases |b|
  {
    if b != [] {
      var ab := a + b;
      assert ab[..|ab| - 1] == a + b[..|b| - 1];
      assert ab[|ab| - 1] == b[|b| - 1];
      OnesAppend(a, b[..|b| - 1]);
    } else {
      assert a + b == a;
    }
  }

  /** 1 when the chunk has an even number of ones, 0 when odd. */
  function Parity(s: seq<bv8>): bv8
  {
    if Ones(s) % 2 == 0 then 1 else 0
  }

  /** `chunks(c).map(..)`: the parity of each chunk of c, the last one possibly shorter. */
  function Digest(s: seq<bv8>, c: nat): seq<bv8>
    requires c > 0
    decreases |s|
  {
    if s == [] then []
    else if |s| <= c then [Parity(s)]
    else [Parity(s[..c])] + Digest(s[c..], c)
  }

  /** The largest power of two dividing n: the `n & !(n - 1)` of the source. */
  function LowBit(n: nat): (c: nat)
    requires n > 0
    ensures c > 0
  {
    if n % 2 == 1 then 1 else 2 * LowBit(n / 2)
  }

  function Pow2(k: nat): (p: nat)
    ensures p > 0
  {
    if k == 0 then 1 else 2 * Pow2(k - 1)
  }

  /** LowBit(n) divides n and leaves an odd quotient: the checksum has odd length. */
  lemma {:induction false} LowBitDivides(n: nat) returns (q: nat)
    requires n > 0
    ensures n == LowBit(n) * q && q % 2 == 1
  {
    if n % 2 == 1 {
      q := n;
    } else {
      q := LowBitDivides(n / 2);
    }
  }

  /** The low bit of 2^k times an odd number is 2^k. */
  lemma {:induction false} LowBitOfOddMultiple(k: nat, q: nat)
    requires q % 2 == 1
    ensures LowBit(Pow2(k) * q) == Pow2(k)
  {
    if k > 0 {
      LowBitOfOddMultiple(k - 1, q);
      var x := Pow2(k - 1) * q;
      assert Pow2(k) * q == 2 * x;
      assert x > 0 && (2 * x) % 2 == 0 && (2 * x) / 2 == x;
    }
  }

  /**
   * The source's bit trick, on 64-bit words: x & !(x - 1) for a nonzero x
   * is a single bit, set in x, with every lower bit of x clear.
   */
  lemma ChunkMaskBits(x: bv64)
    requires x != 0
    ensures var c := x & !(x - 1); c != 0 && c & (c - 1) == 0 && x & c == c && x & (c - 1) == 0
  {
  }

  /**
   * The chunk size of the source is the word `len & !(len - 1)`: for a
   * 64-bit length x of value n > 0, that word's value is LowBit(n).  The
   * proof halves x one bit at a time; each step keeps the words and their
   * values in separate lemmas.
   */
  lemma {:induction false} ChunkMaskIsLowBit(n: nat, x: bv64)
    requires n > 0 && x as nat == n
    ensures (x & !(x - 1)) as nat == LowBit(n)
    decreases n
  {
    var y, odd := HalveWord(x);
    if odd {
      MaskOfOddWord(n, x, y);
    } else {
      WordDoubled(y);
      ChunkMaskIsLowBit(y as nat, y);
      MaskOfEvenWord(n, x, y);
    }
  }

  /** x is y shifted left by one, with the low bit of x added back when it is odd. */
  lemma HalveWord(x: bv64) returns (y: bv64, odd: bool)
    ensures y < 0x8000_0000_0000_0000
    ensures odd ==> x == (y << 1) | 1
    ensures !odd ==> x == y << 1
  {
    y, odd := x >> 1, x & 1 == 1;
  }

  /** Shifting a word below 2^63 left doubles its value. */
  lemma WordDoubled(y: bv64)
    requires y < 0x8000_0000_0000_0000
    ensures (y << 1) as nat == 2 * (y as nat)
    ensures ((y << 1) | 1) as nat == 2 * (y as nat) + 1
  {
  }

  lemma MaskOfOddWord(n: nat, x: bv64, y: bv64)
    requires x == (y << 1) | 1 && y < 0x8000_0000_0000_0000 && x as nat == n
    ensures (x & !(x - 1)) as nat == LowBit(n)
  {
    WordDoubled(y);
    LowBitOdd(n, y as nat);
    assert x & !(x - 1) == 1;
  }

  lemma MaskOfEvenWord(n: nat, x: bv64, y: bv64)
    requires x == y << 1 && y < 0x8000_0000_0000_0000 && x as nat == n && n > 0
    requires (y & !(y - 1)) as nat == LowBit(y as nat)
    ensures (x & !(x - 1)) as nat == LowBit(n)
  {
    WordDoubled(y);
    LowBitEven(n, y as nat);
    WordNonzero(y);
    MaskDoubled(x, y);
  }

  /** The mask of a doubled word is the doubled mask. */
  lemma MaskDoubled(x: bv64, y: bv64)
    requires y != 0 && y < 0x8000_0000_0000_0000 && x == y << 1
    ensures (x & !(x - 1)) as nat == 2 * ((y & !(y - 1)) as nat)
  {
    MaskShifts(x, y);
    MaskBelow(y);
    WordDoubled(y & !(y - 1));
  }

  lemma MaskShifts(x: bv64, y: bv64)
    requires y != 0 && x == y << 1
    ensures x & !(x - 1) == (y & !(y - 1)) << 1
  {
  }

  lemma MaskBelow(y: bv64)
    ensures y & !(y - 1) <= y
  {
  }

  lemma WordNonzero(y: bv64)
    requires y as nat > 0
    ensures y != 0
  {
  }

  lemma LowBitOdd(n: nat, m: nat)
    requires n == 2 * m + 1
    ensures LowBit(n) == 1
  {
  }

  lemma LowBitEven(n: nat, m: nat)
    requires n == 2 * m && m > 0
    ensures LowBit(n) == 2 * LowBit(m)
  {
  }

  /** The string of a digest: '1' for 1 and '0' otherwise. */
  function ToChars(d: seq<bv8>): (r: string)
    ensures |r| == |d|
    ensures forall i :: 0 <= i < |d| ==> (r[i] == '1' <==> d[i] == 1) && (r[i] == '1' || r[i] == '0')
  {
    if d == [] then [] else [if d[0] == 1 then '1' else '0'] + ToChars(d[1..])
  }

  /** The checksum of the truncated data, whose length n is positive. */
  function Checksum(data: seq<bv8>): string
    requires |data| > 0
  {
    ToChars(Digest(data, LowBit(|data|)))
  }

  /**
   * `compute`.  A disk size of 0 makes `data.len() - 1` underflow, the
   * source's panic, given here as None.
   */
  method Compute(input: seq<bv8>, diskSize: nat) returns (r: Option<string>)
    ensures diskSize == 0 <==> r.None?
    ensures r.Some? ==> (|Grow(input, diskSize)| >= diskSize &&
                         r.value == Checksum(Grow(input, diskSize)[..diskSize]))
  {
    var data := input;
    while |data| < diskSize
      invariant Grow(data, diskSize) == Grow(input, diskSize)
      decreases diskSize - |data|
    {
      data := ExpandOnce(data);
    }
    if diskSize == 0 {
      return None;
    }
    data := data[..diskSize];
    return Some(ToChars(Digest(data, LowBit(|data|))));
  }

  method Part1(input: seq<bv8>) returns (r: Option<string>)
    ensures |Grow(input, 272)| >= 272 && r.Some? && r.value == Checksum(Grow(input, 272)[..272])
  {
    GrowLength(input, 272);
    r := Compute(input, 272);
  }

  method Part2(input: seq<bv8>) returns (r: Option<string>)
    ensures |Grow(input, 35651584)| >= 35651584 && r.Some? && r.value == Checksum(Grow(input, 35651584)[..35651584])
  {
    GrowLength(input, 35651584);
    r := Compute(input, 35651584);
  }

  // ---------------------------------------------------------------------
  // The puzzle's pairwise checksum, and why the chunks compute it.

  /** 11 and 00 give 1, 01 and 10 give 0. */
  function Xnor(a: bv8, b: bv8): bv8
  {
    if a == b then 1 else 0
  }

  /** One pass of the pairwise checksum. */
  function PairStep(s: seq<bv8>): (t: seq<bv8>)
    ensures |t| == |s| / 2
    decreases |s|
  {
    if |s| < 2 then [] else [Xnor(s[0], s[1])] + PairStep(s[2..])
  }

  /** The pairwise checksum: passes until the length is odd. */
  function PairwiseChecksum(s: seq<bv8>): seq<bv8>
    requires |s| > 0 && |s| % 2 == 0
    decreases |s|
  {
    var t := PairStep(s);
    if |t| % 2 == 1 then t else PairwiseChecksum(t)
  }

  /** Two halves' parities combine by XNOR into the parity of the whole. */
  lemma {:induction false} ParityJoin(a: seq<bv8>, b: seq<bv8>)
    ensures Parity(a + b) == Xnor(Parity(a), Parity(b))
  {
    OnesAppend(a, b);
  }

  lemma {:induction false} DigestLength(s: seq<bv8>, c: nat, m: nat)
    requires c > 0 && |s| == c * m
    ensures |Digest(s, c)| == m
    decreases m
  {
    if m > 1 {
      DigestLength(s[c..], c, m - 1);
    }
  }

  /** Chunks of 2c are one XNOR pass over chunks of c. */
  lemma {:induction false} DigestDoubles(s: seq<bv8>, c: nat, m: nat)
    requires c > 0 && |s| == 2 * c * m
    ensures Digest(s, 2 * c) == PairStep(Digest(s, c))
    decreases m
  {
    if m > 0 {
      var s' := s[2 * c..];
      assert |s'| == 2 * c * (m - 1) by {
        assert 2 * c * m == 2 * c * (m - 1) + 2 * c;
      }
      DigestPair(s, c);
      DigestStep(s, 2 * c);
      ParityJoin(s[..c], s[c..2 * c]);
      assert s[..c] + s[c..2 * c] == s[..2 * c];
      PairStepCons(Parity(s[..c]), Parity(s[c..2 * c]), Digest(s', c));
      if m == 1 {
        assert s' == [];
        assert s[..2 * c] == s;
      } else {
        DigestDoubles(s', c, m - 1);
      }
    }
  }

  /** One chunk off the front. */
  lemma {:induction false} DigestStep(s: seq<bv8>, c: nat)
    requires c > 0 && s != []
    ensures |s| > c ==> Digest(s, c) == [Parity(s[..c])] + Digest(s[c..], c)
    ensures |s| <= c ==> Digest(s, c) == [Parity(s)]
  {
  }

  /** Two chunks of c off the front. */
  lemma {:induction false} DigestPair(s: seq<bv8>, c: nat)
    requires c > 0 && |s| >= 2 * c
    ensures Digest(s, c) == [Parity(s[..c]), Parity(s[c..2 * c])] + Digest(s[2 * c..], c)
  {
    var t, u := s[c..], s[2 * c..];
    var x, y := Parity(s[..c]), Parity(s[c..2 * c]);
    DigestStep(s, c);
    assert Digest(s, c) == [x] + Digest(t, c);
    DigestStep(t, c);
    if |t| == c {
      assert t == s[c..2 * c] && u == [];
      assert Digest(t, c) == [y] + Digest(u, c);
    } else {
      assert t[..c] == s[c..2 * c] && t[c..] == u;
      assert Digest(t, c) == [y] + Digest(u, c);
    }
    assert [x] + ([y] + Digest(u, c)) == [x, y] + Digest(u, c);
  }

  lemma {:induction false} PairStepCons(x: bv8, y: bv8, rest: seq<bv8>)
    ensures PairStep([x, y] + rest) == [Xnor(x, y)] + PairStep(rest)
  {
    assert ([x, y] + rest)[2..] == rest;
  }

  /** On bits, complementing both sides of every pair leaves the XNOR alone. */
  lemma {:induction false} PairStepComplement(s: seq<bv8>)
    requires IsBits(s)
    ensures PairStep(Digest(s, 1)) == PairStep(s)
    decreases |s|
  {
    if |s| >= 2 {
      PairStepComplement(s[2..]);
      DigestPair(s, 1);
      assert s[..1] == [s[0]] && s[1..2] == [s[1]];
      OnesOne(s[0]);
      OnesOne(s[1]);
      PairStepCons(Parity([s[0]]), Parity([s[1]]), Digest(s[2..], 1));
    }
  }

  lemma OnesOne(x: bv8)
    ensures Ones([x]) == if x == 1 then 1 else 0
  {
    assert [x][..0] == [];
  }

  /** The chunks of 2^k, repeated pass by pass, reach the chunks of the low bit. */
  lemma {:induction false} DigestReachesLowBit(s: seq<bv8>, k: nat, m: nat)
    requires |s| == Pow2(k) * m && m > 0 && m % 2 == 0
    ensures |Digest(s, Pow2(k))| == m
    ensures PairwiseChecksum(Digest(s, Pow2(k))) == Digest(s, LowBit(|s|))
    decreases m
  {
    var c := Pow2(k);
    DigestLength(s, c, m);
    assert |s| == 2 * c * (m / 2);
    DigestDoubles(s, c, m / 2);
    assert Pow2(k + 1) == 2 * c;
    assert |s| == Pow2(k + 1) * (m / 2);
    if (m / 2) % 2 == 1 {
      LowBitOfOddMultiple(k + 1, m / 2);
    } else {
      DigestReachesLowBit(s, k + 1, m / 2);
    }
  }

  /**
   * The source comment's claim (day16.rs:17-22): on 0/1 data of even
   * length, the chunk parities are the pairwise checksum.
   */
  lemma ChecksumIsPairwise(s: seq<bv8>)
    requires IsBits(s) && |s| > 0 && |s| % 2 == 0
    ensures Digest(s, LowBit(|s|)) == PairwiseChecksum(s)
    ensures |Digest(s, LowBit(|s|))| % 2 == 1
  {
    DigestReachesLowBit(s, 0, |s|);
    PairStepComplement(s);
    DigestLength(s, 1, |s|);
    var q := LowBitDivides(|s|);
    DigestLength(s, LowBit(|s|), q);
  }
}
