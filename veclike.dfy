/**
 * The `VecLike` storage abstraction of src/lib.rs, as implemented for `Vec`.
 * A storage is a sequence read with a default past its end.
 */
module VecLike {

  function Max(a: nat, b: nat): nat { if a >= b then a else b }

  /** `n` copies of `d`. */
  function Repeat<T>(d: T, n: nat): (r: seq<T>)
    ensures |r| == n && forall j :: 0 <= j < n ==> r[j] == d
  {
    seq(n, _ => d)
  }

  /** Vec `get`: the stored value, or the default past the end; never fails. */
  function Get<T>(s: seq<T>, i: nat, d: T): (v: T)
    ensures i >= |s| ==> v == d
    ensures i < |s| ==> v == s[i]
  {
    if i < |s| then s[i] else d
  }

  /** Vec `set`: resizes with defaults to i+1 when i is past the end, then writes. */
  function Set<T>(s: seq<T>, i: nat, v: T, d: T): (r: seq<T>)
    ensures |r| == Max(|s|, i + 1)
    ensures r[i] == v
    ensures forall j :: 0 <= j < |s| && j != i ==> r[j] == s[j]
    ensures forall j :: |s| <= j < |r| && j != i ==> r[j] == d
  {
    if i < |s| then s[i := v] else s + Repeat(d, i - |s|) + [v]
  }

  /** Reading after `set`: the written slot holds v, every other slot reads as before. */
  lemma GetAfterSet<T>(s: seq<T>, i: nat, v: T, d: T, j: nat)
    ensures Get(Set(s, i, v, d), j, d) == if j == i then v else Get(s, j, d)
  {
  }

  /** Setting the slot just past the end pushes the value. */
  lemma SetAtEnd<T>(s: seq<T>, v: T, d: T)
    ensures Set(s, |s|, v, d) == s + [v]
  {
    assert Repeat(d, 0) == [];
  }

  /** Vec `insert`: the list insert; the source panics for an index past the end. */
  function Insert<T>(s: seq<T>, i: nat, v: T): (r: seq<T>)
    requires i <= |s|
    ensures |r| == |s| + 1 && r[i] == v
    ensures forall j :: 0 <= j < i ==> r[j] == s[j]
    ensures forall j :: i < j < |r| ==> r[j] == s[j - 1]
  {
    s[..i] + [v] + s[i..]
  }

  /**
   * Insertion into a storage that pads with defaults instead of failing past
   * the end, as `BitVec::insert` does; this is the insertion `Matrix` relies on.
   */
  function InsertPadded<T>(s: seq<T>, i: nat, v: T, d: T): (r: seq<T>)
    ensures |r| == Max(|s|, i) + 1 && r[i] == v
    ensures forall j :: 0 <= j < i ==> r[j] == Get(s, j, d)
    ensures forall j :: i < j < |r| ==> r[j] == s[j - 1]
  {
    if i <= |s| then Insert(s, i, v) else s + Repeat(d, i - |s|) + [v]
  }

  /** Reading after an insertion: slots below i unchanged, i holds v, the rest moved up by one. */
  lemma GetAfterInsert<T>(s: seq<T>, i: nat, v: T, d: T, j: nat)
    ensures Get(InsertPadded(s, i, v, d), j, d) ==
      if j < i then Get(s, j, d) else if j == i then v else Get(s, j - 1, d)
  {
  }

  /** Reading a storage after n defaults were put in front of it. */
  lemma GetAfterPrefix<T>(s: seq<T>, n: nat, d: T, j: nat)
    ensures Get(Repeat(d, n) + s, j, d) == if j < n then d else Get(s, j - n, d)
  {
  }

  /** A sequence back to front. */
  function Reversed<T>(s: seq<T>): (t: seq<T>)
    ensures |t| == |s| && forall i :: 0 <= i < |s| ==> t[i] == s[|s| - 1 - i]
  {
    seq(|s|, i requires 0 <= i < |s| => s[|s| - 1 - i])
  }

  lemma ReversedTwice<T>(s: seq<T>)
    ensures Reversed(Reversed(s)) == s
  {
    assert forall i :: 0 <= i < |s| ==> Reversed(Reversed(s))[i] == s[i];
  }

  /** Reversing keeps the contents: the result is a permutation. */
  lemma {:induction false} ReversedPermutes<T>(s: seq<T>)
    ensures multiset(Reversed(s)) == multiset(s)
  {
    if |s| > 0 {
      var t := s[1..];
      ReversedPermutes(t);
      assert Reversed(s) == Reversed(t) + [s[0]];
      assert s == [s[0]] + t;
    }
  }

  /** Rust's slice `reverse` on a[lo..hi], in place: swaps from both ends until they meet. */
  method ReverseSlice<T>(a: array<T>, lo: nat, hi: nat)
    requires lo <= hi <= a.Length
    modifies a
    ensures a[..] == old(a[..lo]) + Reversed(old(a[lo..hi])) + old(a[hi..])
  {
    ghost var s := a[..];
    var k := 0;
    while k < (hi - lo) / 2
      invariant k <= (hi - lo) / 2
      invariant a[..] == EndsSwapped(s, lo, hi, k)
    {
      assert a[lo + k] == s[lo + k] && a[hi - 1 - k] == s[hi - 1 - k];
      EndsSwappedStep(s, lo, hi, k);
      var x := a[lo + k];
      a[lo + k] := a[hi - 1 - k];
      a[hi - 1 - k] := x;
      k := k + 1;
    }
    EndsSwappedDone(s, lo, hi);
  }

  /** s with the first k and the last k slots of s[lo..hi] exchanged mirror-wise. */
  function EndsSwapped<T>(s: seq<T>, lo: nat, hi: nat, k: nat): (r: seq<T>)
    requires lo <= hi <= |s| && 2 * k <= hi - lo
    ensures |r| == |s|
  {
    seq(|s|, j requires 0 <= j < |s| =>
      if lo <= j < lo + k || hi - k <= j < hi then s[lo + hi - 1 - j] else s[j])
  }

  /** One more swap of the two ends. */
  lemma EndsSwappedStep<T>(s: seq<T>, lo: nat, hi: nat, k: nat)
    requires lo <= hi <= |s| && 2 * (k + 1) <= hi - lo
    ensures EndsSwapped(s, lo, hi, k + 1) ==
      EndsSwapped(s, lo, hi, k)[lo + k := s[hi - 1 - k]][hi - 1 - k := s[lo + k]]
  {
  }

  /** Once the ends meet the slice is reversed. */
  lemma EndsSwappedDone<T>(s: seq<T>, lo: nat, hi: nat)
    requires lo <= hi <= |s|
    ensures EndsSwapped(s, lo, hi, (hi - lo) / 2) == s[..lo] + Reversed(s[lo..hi]) + s[hi..]
  {
    var w := s[..lo] + Reversed(s[lo..hi]) + s[hi..];
    forall j | 0 <= j < |s|
      ensures EndsSwapped(s, lo, hi, (hi - lo) / 2)[j] == w[j]
    {
      if j < lo {
        assert w[j] == s[j];
      } else if j < hi {
        assert w[j] == Reversed(s[lo..hi])[j - lo] == s[lo + hi - 1 - j];
      } else {
        assert w[j] == s[j];
      }
    }
  }
}
