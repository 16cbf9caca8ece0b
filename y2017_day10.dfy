/**
 * 2017 day 10 (src/bin/y2017/day10.rs): the knot hash.  A circular list is
 * twisted by reversing windows of given lengths; the start of the next window
 * moves on by the length plus a skip count that grows by one every time.
 */
module Y2017Day10 {
  import opened RustInt
  import opened VecLike
  import opened Wrappers
  import Lib

  /** `add`: i + n brought below the constraint by repeated subtraction. */
  method Add(i: nat, n: nat, constraint: nat) returns (tot: nat)
    requires constraint > 0
    ensures tot == (i + n) % constraint
  {
    tot := i + n;
    ghost var k := 0;
    while tot >= constraint
      invariant tot + k * constraint == i + n
      decreases tot
    {
      tot := tot - constraint;
      k := k + 1;
    }
    EuclideanUnique(i + n, constraint, k, tot);
  }

  /** The list read round the circle from index a. */
  function RotateLeft<T>(s: seq<T>, a: nat): (r: seq<T>)
    requires a <= |s|
    ensures |r| == |s|
  {
    seq(|s|, i requires 0 <= i < |s| => s[Wrap(a + i, |s|)])
  }

  /** Index i < 2n brought back onto a circle of n slots. */
  function Wrap(i: int, n: int): int
  {
    if i < n then i else i - n
  }

  /** How far slot j lies after slot a, going round a circle of n slots. */
  function Offset(j: nat, a: nat, n: nat): nat
    requires a < n
  {
    if j >= a then j - a else j + n - a
  }

  /**
   * The slot whose value lands on slot j when the window of len slots from a
   * is reversed: its mirror image inside the window, j itself outside.  A
   * window longer than the circle (but shorter than 2n - a, as far as
   * `reverse_after` reaches) holds every slot.
   */
  function Mirror(j: nat, a: nat, len: nat, n: nat): (m: int)
    requires a < n
    ensures j < n && len < 2 * n - a ==> 0 <= m < n
  {
    var o := Offset(j, a, n);
    if o < len then Wrap(a + len - 1 - o, n) else j
  }

  /**
   * The circular window of `len` slots starting at a, reversed: a slot inside
   * the window takes the value of its mirror image, every other slot keeps
   * its value.  When len exceeds the circle the window's two ends overlap and
   * every slot takes its mirror image.
   */
  function ReverseWindow<T>(s: seq<T>, a: nat, len: nat): (r: seq<T>)
    requires a < |s| && len < 2 * |s| - a
    ensures |r| == |s|
  {
    seq(|s|, j requires 0 <= j < |s| => s[Mirror(j, a, len, |s|)])
  }

  /** Reading a rotation: slot i holds the value a + i slots round the circle. */
  lemma RotateLeftAt<T>(s: seq<T>, a: nat, i: nat)
    requires a <= |s| && i < |s|
    ensures a + i < 2 * |s| && RotateLeft(s, a)[i] == s[Wrap(a + i, |s|)]
  {
  }

  /** The first len slots of t reversed, the rest kept. */
  function PrefixReversed<T>(t: seq<T>, len: nat): (u: seq<T>)
    requires len <= |t|
    ensures |u| == |t|
  {
    Reversed(t[..len]) + t[len..]
  }

  /**
   * The same twist as the source's picture of it: rotate a to the front,
   * reverse the first len slots, rotate back.
   */
  lemma ReverseWindowByRotation<T>(s: seq<T>, a: nat, len: nat)
    requires a < |s| && len <= |s|
    ensures ReverseWindow(s, a, len) == RotateLeft(PrefixReversed(RotateLeft(s, a), len), |s| - a)
  {
    var n := |s|;
    var t := RotateLeft(s, a);
    var u := PrefixReversed(t, len);
    forall j | 0 <= j < n
      ensures RotateLeft(u, n - a)[j] == ReverseWindow(s, a, len)[j]
    {
      var o := Offset(j, a, n);
      RotateLeftAt(u, n - a, j);
      assert Wrap(n - a + j, n) == o;
      if o < len {
        assert u[o] == t[len - 1 - o];
        RotateLeftAt(s, a, len - 1 - o);
      } else {
        assert u[o] == t[o];
        RotateLeftAt(s, a, o);
      }
    }
  }

  /** Reading the circle from another index only reorders it. */
  lemma RotatePermutes<T>(s: seq<T>, a: nat)
    requires a <= |s|
    ensures multiset(RotateLeft(s, a)) == multiset(s)
  {
    forall i | 0 <= i < |s|
      ensures RotateLeft(s, a)[i] == (s[a..] + s[..a])[i]
    {
      RotateLeftAt(s, a, i);
      if a + i < |s| {
        assert (s[a..] + s[..a])[i] == s[a..][i];
      } else {
        assert (s[a..] + s[..a])[i] == s[..a][i - (|s| - a)];
      }
    }
    assert RotateLeft(s, a) == s[a..] + s[..a];
    calc {
      multiset(RotateLeft(s, a));
      multiset(s[a..]) + multiset(s[..a]);
      { assert s[..a] + s[a..] == s; }
      multiset(s);
    }
  }

  /** Reversing a prefix only reorders a list. */
  lemma PrefixReversalPermutes<T>(t: seq<T>, len: nat)
    requires len <= |t|
    ensures multiset(PrefixReversed(t, len)) == multiset(t)
  {
    ReversedPermutes(t[..len]);
    calc {
      multiset(PrefixReversed(t, len));
      multiset(t[..len]) + multiset(t[len..]);
      { assert t[..len] + t[len..] == t; }
      multiset(t);
    }
  }

  /** Rotating, reversing a prefix and rotating back only reorders a list. */
  lemma RotatedTwistPermutes<T>(s: seq<T>, a: nat, len: nat)
    requires a < |s| && len <= |s|
    ensures multiset(RotateLeft(PrefixReversed(RotateLeft(s, a), len), |s| - a)) == multiset(s)
  {
    var t := RotateLeft(s, a);
    var u := PrefixReversed(t, len);
    RotatePermutes(s, a);
    PrefixReversalPermutes(t, len);
    RotatePermutes(u, |s| - a);
    PermutesChain(s, t, u, RotateLeft(u, |s| - a));
  }

  lemma PermutesChain<T>(s: seq<T>, t: seq<T>, u: seq<T>, v: seq<T>)
    requires multiset(t) == multiset(s) && multiset(u) == multiset(t) && multiset(v) == multiset(u)
    ensures multiset(v) == multiset(s)
  {
  }

  /** The twist only reorders the list, also when the window is longer than the circle. */
  lemma ReverseWindowPermutes<T>(s: seq<T>, a: nat, len: nat)
    requires a < |s| && len < 2 * |s| - a
    ensures multiset(ReverseWindow(s, a, len)) == multiset(s)
  {
    if len <= |s| {
      ReverseWindowByRotation(s, a, len);
      RotatedTwistPermutes(s, a, len);
    } else {
      var k := Wrap(2 * a + len - |s|, |s|);
      OverlongIsReflection(s, a, len);
      RotatePermutes(s, k);
      ReversedPermutes(RotateLeft(s, k));
    }
  }

  /**
   * A window longer than the circle reflects the whole circle: the result is
   * a rotation of the list read backwards.
   */
  lemma OverlongIsReflection<T>(s: seq<T>, a: nat, len: nat)
    requires a < |s| < len < 2 * |s| - a
    ensures ReverseWindow(s, a, len) == Reversed(RotateLeft(s, Wrap(2 * a + len - |s|, |s|)))
  {
    var n := |s|;
    var k := Wrap(2 * a + len - n, n);
    forall j | 0 <= j < n
      ensures ReverseWindow(s, a, len)[j] == Reversed(RotateLeft(s, k))[j]
    {
      RotateLeftAt(s, k, n - 1 - j);
    }
  }

  /** Twisting the same window twice restores the list. */
  lemma ReverseWindowTwice<T>(s: seq<T>, a: nat, len: nat)
    requires a < |s| && len < 2 * |s| - a
    ensures ReverseWindow(ReverseWindow(s, a, len), a, len) == s
  {
    var n := |s|;
    var r := ReverseWindow(s, a, len);
    forall j | 0 <= j < n
      ensures ReverseWindow(r, a, len)[j] == s[j]
    {
      MirrorTwice(j, a, len, n);
    }
  }

  /** Mirroring inside the window is an involution. */
  lemma MirrorTwice(j: nat, a: nat, len: nat, n: nat)
    requires a < n && len < 2 * n - a && j < n
    ensures Mirror(Mirror(j, a, len, n), a, len, n) == j
  {
    var o := Offset(j, a, n);
    if len <= n {
      if o < len {
        assert Offset(Mirror(j, a, len, n), a, n) == len - 1 - o;
      }
    } else {
      assert Offset(Mirror(j, a, len, n), a, n) == Wrap(len - 1 - o, n);
    }
  }

  /** A window that does not wrap is the plain slice reversal. */
  lemma ReverseWindowInside<T>(s: seq<T>, a: nat, len: nat)
    requires a < |s| && a + len <= |s|
    ensures ReverseWindow(s, a, len) == s[..a] + Reversed(s[a..a + len]) + s[a + len..]
  {
    var w := s[..a] + Reversed(s[a..a + len]) + s[a + len..];
    forall j | 0 <= j < |s|
      ensures ReverseWindow(s, a, len)[j] == w[j]
    {
    }
  }

  /**
   * How many slots the range from a up to b covers, going round when b < a:
   * always less than the circle then, and within the reach of `reverse_after`
   * when b < 2n.
   */
  function RangeLength(n: nat, a: nat, b: nat): (len: nat)
    requires a < n && (b < a || b < 2 * n)
    ensures len < 2 * n - a
    ensures b < a ==> len < n
  {
    if b < a then n - a + b else b - a
  }

  /** `reverse_range`: the window from a up to b (exclusive), going round when b < a. */
  function ReverseRangeSpec<T>(s: seq<T>, a: nat, b: nat): (r: seq<T>)
    requires b == a || (a < |s| && (b < a || b < 2 * |s|))
    ensures |r| == |s|
  {
    if b == a then s else ReverseWindow(s, a, RangeLength(|s|, a, b))
  }

  /** On a forward range of indices `reverse_range` is the slice reversal of v[a..b]. */
  lemma ReverseRangeIsSliceReverse<T>(s: seq<T>, a: nat, b: nat)
    requires a <= b <= |s| && a < |s|
    ensures ReverseRangeSpec(s, a, b) == s[..a] + Reversed(s[a..b]) + s[b..]
  {
    if a == b {
      assert Reversed(s[a..b]) == [];
      assert s[..a] + s[b..] == s;
    } else {
      assert RangeLength(|s|, a, b) == b - a;
      ReverseWindowInside(s, a, b - a);
    }
  }

  /** `reverse_range` applied twice is the identity. */
  lemma ReverseRangeTwice<T>(s: seq<T>, a: nat, b: nat)
    requires b == a || (a < |s| && (b < a || b < 2 * |s|))
    ensures ReverseRangeSpec(ReverseRangeSpec(s, a, b), a, b) == s
  {
    if b != a {
      ReverseWindowTwice(s, a, RangeLength(|s|, a, b));
    }
  }

  /**
   * The wrapping case of `reverse_after`: the window was copied out round the
   * circle, reversed, and written back from a to the end and then from 0.  A
   * window longer than the circle makes the second piece write over the start
   * of the first, with the same values, since the copy read those slots twice.
   */
  lemma WrappedWriteBack<T>(s: seq<T>, t: seq<T>, a: nat, length: nat, sublist: seq<T>, idxA: nat)
    requires |t| == |s| && a < |s| && a + length > |s| && length < 2 * |s| - a && idxA == |s| - a
    requires |sublist| == length && forall k :: 0 <= k < length ==> sublist[k] == s[Wrap(a + k, |s|)]
    requires forall j :: 0 <= j < length - idxA ==> t[j] == Reversed(sublist)[j + idxA]
    requires forall j :: a <= j < |s| && length - idxA <= j ==> t[j] == Reversed(sublist)[j - a]
    requires forall j :: length - idxA <= j < a ==> t[j] == s[j]
    ensures t == ReverseWindow(s, a, length)
  {
    var rev := Reversed(sublist);
    forall j | 0 <= j < |s|
      ensures t[j] == ReverseWindow(s, a, length)[j]
    {
      if j < length - idxA {
        assert t[j] == rev[j + idxA];
        if j >= a {
          var y := length - 1 - (j + idxA);
          assert sublist[y] == s[a + y] == sublist[y + |s|];
          assert rev[j + idxA] == rev[j - a];
        }
        CopiedSlot(s, a, length, sublist, j);
      } else if j >= a {
        assert t[j] == rev[j - a];
        CopiedSlot(s, a, length, sublist, j);
      } else {
        assert Offset(j, a, |s|) >= length;
      }
    }
  }

  /** A slot inside the window ends up with the copy's value from the far end. */
  lemma CopiedSlot<T>(s: seq<T>, a: nat, length: nat, sublist: seq<T>, j: nat)
    requires a < |s| && length < 2 * |s| - a && j < |s| && Offset(j, a, |s|) < length
    requires |sublist| == length && forall k :: 0 <= k < length ==> sublist[k] == s[Wrap(a + k, |s|)]
    ensures ReverseWindow(s, a, length)[j] == Reversed(sublist)[Offset(j, a, |s|)]
  {
    var o := Offset(j, a, |s|);
    assert Reversed(sublist)[o] == sublist[length - 1 - o];
  }

  /** `Circle`: the list of marks, twisted in place. */
  class Circle {
    const list: array<nat>

    constructor (s: seq<nat>)
      ensures list[..] == s && fresh(list)
    {
      list := new nat[|s|](i requires 0 <= i < |s| => s[i]);
    }

    /**
     * `reverse_after`: a window that fits before the end is reversed in place;
     * one that wraps is copied out, reversed and written back in two pieces.
     * From 2l - a slots on the copy loop wraps a second time and moves its
     * wrap point past the end, so the first writing loop indexes out of
     * bounds: that panic is reported as false, and no state is described.
     */
    method ReverseAfter(a: nat, length: nat) returns (ok: bool)
      requires a < list.Length
      modifies list
      ensures ok == (length < 2 * list.Length - a)
      ensures ok ==> list[..] == ReverseWindow(old(list[..]), a, length)
    {
      ghost var s := list[..];
      var l := list.Length;
      if a + length <= l {
        ReverseSlice(list, a, a + length);
        ReverseWindowInside(s, a, length);
        assert list[..] == ReverseWindow(s, a, length);
        ok := true;
      } else if length < 2 * l - a {
        var sublist, idxA := CopyWindow(a, length);
        var rev := Reversed(sublist);
        WriteBack(a, rev, idxA);
        WrappedWriteBack(s, list[..], a, length, sublist, idxA);
        ok := true;
      } else {
        ok := false;
      }
    }

    /** The first loop of the wrapping case: the window read round the circle, and where it wrapped. */
    method CopyWindow(a: nat, length: nat) returns (sublist: seq<nat>, idxA: nat)
      requires a < list.Length && a + length > list.Length && length < 2 * list.Length - a
      ensures |sublist| == length && idxA == list.Length - a
      ensures forall k :: 0 <= k < length ==> sublist[k] == list[Wrap(a + k, list.Length)]
    {
      var l := list.Length;
      sublist := [];
      var i := a;
      idxA := 0;
      while |sublist| != length
        invariant |sublist| <= length
        invariant forall k :: 0 <= k < |sublist| ==> sublist[k] == list[Wrap(a + k, l)]
        invariant i == Wrap(a + |sublist|, l) && i < l
        invariant idxA == if a + |sublist| >= l then l - a else 0
        decreases length - |sublist|
      {
        sublist := sublist + [list[i]];
        i := i + 1;
        if i == list.Length {
          i := 0;
          idxA := |sublist|;
        }
      }
    }

    /**
     * The two writing loops of the wrapping case: rev[..idxA] from a to the
     * end, then the rest from 0, which may write over the first piece.
     */
    method WriteBack(a: nat, rev: seq<nat>, idxA: nat)
      requires a < list.Length && idxA == list.Length - a && idxA <= |rev| <= idxA + list.Length
      modifies list
      ensures forall j :: 0 <= j < |rev| - idxA ==> list[j] == rev[j + idxA]
      ensures forall j :: a <= j < list.Length && |rev| - idxA <= j ==> list[j] == rev[j - a]
      ensures forall j :: |rev| - idxA <= j < a ==> list[j] == old(list[j])
    {
      var l := list.Length;
      var i := a;
      for k := 0 to idxA
        invariant i == a + k
        invariant forall j :: 0 <= j < a ==> list[j] == old(list[j])
        invariant forall j :: a <= j < a + k ==> list[j] == rev[j - a]
      {
        list[i] := rev[k];
        i := i + 1;
      }
      i := 0;
      for k := idxA to |rev|
        invariant i == k - idxA
        invariant forall j :: a <= j < l && i <= j ==> list[j] == rev[j - a]
        invariant forall j :: 0 <= j < i ==> list[j] == rev[j + idxA]
        invariant forall j :: i <= j < a ==> list[j] == old(list[j])
      {
        list[i] := rev[k];
        i := i + 1;
      }
    }

    /**
     * `reverse_range(a, b)`: the window from a to b, the wrapping length when
     * b < a; false where `reverse_after` panics, for b >= 2l.
     */
    method ReverseRange(a: nat, b: nat) returns (ok: bool)
      requires b == a || a < list.Length
      modifies list
      ensures ok == (b <= a || b < 2 * list.Length)
      ensures ok ==> list[..] == ReverseRangeSpec(old(list[..]), a, b)
    {
      if b == a {
        return true;
      }
      ghost var s := list[..];
      var length := if b < a then list.Length - a + b else b - a;
      ok := ReverseAfter(a, length);
      if ok {
        assert length == RangeLength(|s|, a, b);
        assert list[..] == ReverseRangeSpec(s, a, b);
      }
    }
  }

  /** The state `run` threads through: the list, the current position and the skip size. */
  datatype Knot = Knot(list: seq<nat>, cur: nat, skip: nat)

  /** One length: twist at the current position, move on by length + skip, grow skip. */
  function Twist(k: Knot, len: nat): (r: Knot)
    requires k.cur < |k.list| && len < 2 * |k.list| - k.cur
    ensures |r.list| == |k.list| && r.cur < |r.list|
  {
    Knot(ReverseWindow(k.list, k.cur, len), (k.cur + len + k.skip) % |k.list|, k.skip + 1)
  }

  /**
   * The state after twisting every length in order, or None from the first
   * length that reaches 2n - cur, where `reverse_after` panics.  Lengths up to
   * the list size never panic, so a panic needs a longer one.
   */
  function Twists(k: Knot, lengths: seq<nat>): (r: Option<Knot>)
    requires k.cur < |k.list|
    ensures r.Some? ==> |r.value.list| == |k.list| && r.value.cur < |k.list|
    ensures (forall i :: 0 <= i < |lengths| ==> lengths[i] <= |k.list|) ==> r.Some?
    ensures r.None? ==> exists i :: 0 <= i < |lengths| && lengths[i] > |k.list|
    decreases |lengths|
  {
    if lengths == [] then Some(k)
    else
      var prefix := lengths[..|lengths| - 1];
      var len := lengths[|lengths| - 1];
      assert forall i :: 0 <= i < |prefix| ==> prefix[i] == lengths[i];
      match Twists(k, prefix)
      case None => None
      case Some(m) => if len < 2 * |m.list| - m.cur then Some(Twist(m, len)) else None
  }

  /** Once a length panics, the whole run panics. */
  lemma {:induction false} PanicPersists(k: Knot, lengths: seq<nat>, i: nat)
    requires k.cur < |k.list| && i <= |lengths| && Twists(k, lengths[..i]).None?
    ensures Twists(k, lengths).None?
    decreases |lengths|
  {
    if i < |lengths| {
      var prefix := lengths[..|lengths| - 1];
      assert prefix[..i] == lengths[..i];
      PanicPersists(k, prefix, i);
    } else {
      assert lengths[..i] == lengths;
    }
  }

  /** However many lengths are applied the list is only reordered, and skip counts them. */
  lemma {:induction false} TwistsPermute(k: Knot, lengths: seq<nat>)
    requires k.cur < |k.list| && Twists(k, lengths).Some?
    ensures multiset(Twists(k, lengths).value.list) == multiset(k.list)
    ensures Twists(k, lengths).value.skip == k.skip + |lengths|
    decreases |lengths|
  {
    if lengths != [] {
      var prefix := lengths[..|lengths| - 1];
      TwistsPermute(k, prefix);
      var m := Twists(k, prefix).value;
      ReverseWindowPermutes(m.list, m.cur, lengths[|lengths| - 1]);
    }
  }

  /**
   * `run`: twists the circle for every length and updates cur and skip; false
   * where a length makes `reverse_after` panic.
   */
  method Run(circle: Circle, cur: nat, skip: nat, lengths: seq<nat>) returns (ok: bool, cur': nat, skip': nat)
    requires cur < circle.list.Length
    modifies circle.list
    ensures var r := Twists(Knot(old(circle.list[..]), cur, skip), lengths);
      ok == r.Some? && (ok ==> Knot(circle.list[..], cur', skip') == r.value)
  {
    ghost var k0 := Knot(circle.list[..], cur, skip);
    cur', skip' := cur, skip;
    for i := 0 to |lengths|
      invariant Twists(k0, lengths[..i]).Some?
      invariant Knot(circle.list[..], cur', skip') == Twists(k0, lengths[..i]).value
    {
      assert lengths[..i + 1][..i] == lengths[..i];
      ok := circle.ReverseAfter(cur', lengths[i]);
      if !ok {
        PanicPersists(k0, lengths, i + 1);
        return;
      }
      cur' := Add(cur', lengths[i] + skip', circle.list.Length);
      skip' := skip' + 1;
    }
    assert lengths[..|lengths|] == lengths;
    ok := true;
  }

  /** The marks 0, 1, ..., n-1. */
  function Marks(n: nat): (s: seq<nat>)
    ensures |s| == n && forall i :: 0 <= i < n ==> s[i] == i
  {
    seq(n, i => i)
  }

  /**
   * `part1` on already parsed lengths: the product of the first two marks
   * after one run over 0..255, or None where a length reaches 512 - cur and
   * `reverse_after` panics; lengths up to 256 always give an answer.
   */
  method Part1(lengths: seq<nat>) returns (p: Option<nat>)
    ensures var r := Twists(Knot(Marks(256), 0, 0), lengths);
      p == if r.Some? then Some(r.value.list[0] * r.value.list[1]) else None
    ensures (forall i :: 0 <= i < |lengths| ==> lengths[i] <= 256) ==> p.Some?
  {
    var circle := new Circle(Marks(256));
    var ok, cur, skip := Run(circle, 0, 0, lengths);
    if !ok {
      return None;
    }
    p := Some(circle.list[0] * circle.list[1]);
  }

  /** Twisting one more length that does not panic extends the run by one twist. */
  lemma TwistsStep(k: Knot, lengths: seq<nat>, len: nat)
    requires k.cur < |k.list| && Twists(k, lengths).Some?
    requires len < 2 * |k.list| - Twists(k, lengths).value.cur
    ensures Twists(k, lengths + [len]) == Some(Twist(Twists(k, lengths).value, len))
  {
    assert (lengths + [len])[..|lengths|] == lengths;
  }

  /**
   * A length longer than the list: 6 on the marks 0..4 from position 3 gives
   * 1, 0, 4, 3, 2, writing slot 3 twice; a length of 7 reaches 2l - a and panics.
   */
  lemma OverlongExample()
    ensures Twists(Knot([0, 1, 2, 3, 4], 3, 0), [6]) == Some(Knot([1, 0, 4, 3, 2], 4, 1))
    ensures Twists(Knot([0, 1, 2, 3, 4], 3, 0), [7]).None?
  {
    TwistsStep(Knot([0, 1, 2, 3, 4], 3, 0), [], 6);
    assert [] + [6] == [6];
    WindowExample([0, 1, 2, 3, 4], 3, 6, [1, 0, 4, 3, 2]);
    assert [7][..0] == [];
  }

  /** The example's starting state: marks 0..4, position 0, skip 0. */
  const Example0 := Knot([0, 1, 2, 3, 4], 0, 0)

  lemma ExampleFirstTwist()
    ensures Twists(Example0, [3]) == Some(Knot([2, 1, 0, 3, 4], 3, 1))
  {
    TwistsStep(Example0, [], 3);
    assert [] + [3] == [3];
    WindowExample([0, 1, 2, 3, 4], 0, 3, [2, 1, 0, 3, 4]);
  }

  lemma ExampleSecondTwist()
    ensures Twists(Example0, [3, 4]) == Some(Knot([4, 3, 0, 1, 2], 3, 2))
  {
    ExampleFirstTwist();
    TwistsStep(Example0, [3], 4);
    assert [3] + [4] == [3, 4];
    WindowExample([2, 1, 0, 3, 4], 3, 4, [4, 3, 0, 1, 2]);
  }

  lemma ExampleThirdTwist()
    ensures Twists(Example0, [3, 4, 1]) == Some(Knot([4, 3, 0, 1, 2], 1, 3))
  {
    ExampleSecondTwist();
    TwistsStep(Example0, [3, 4], 1);
    assert [3, 4] + [1] == [3, 4, 1];
    WindowExample([4, 3, 0, 1, 2], 3, 1, [4, 3, 0, 1, 2]);
  }

  lemma ExampleFourthTwist()
    ensures Twists(Example0, [3, 4, 1, 5]) == Some(Knot([3, 4, 2, 1, 0], 4, 4))
  {
    ExampleThirdTwist();
    TwistsStep(Example0, [3, 4, 1], 5);
    assert [3, 4, 1] + [5] == [3, 4, 1, 5];
    WindowExample([4, 3, 0, 1, 2], 1, 5, [3, 4, 2, 1, 0]);
  }

  /** The example: marks 0..4 with lengths 3, 4, 1, 5 end as 3, 4, 2, 1, 0, so the product is 12. */
  lemma ExampleRun()
    ensures Twists(Example0, [3, 4, 1, 5]).Some?
    ensures Twists(Example0, [3, 4, 1, 5]).value.list == [3, 4, 2, 1, 0]
    ensures Twists(Example0, [3, 4, 1, 5]).value.list[0] * Twists(Example0, [3, 4, 1, 5]).value.list[1] == 12
  {
    ExampleFourthTwist();
  }

  /** Checks one twist against its expected list slot by slot. */
  lemma WindowExample(s: seq<nat>, a: nat, len: nat, expected: seq<nat>)
    requires a < |s| && len < 2 * |s| - a && |expected| == |s|
    requires forall j :: 0 <= j < |s| ==> expected[j] == s[Mirror(j, a, len, |s|)]
    ensures ReverseWindow(s, a, len) == expected
  {
    forall j | 0 <= j < |s|
      ensures ReverseWindow(s, a, len)[j] == expected[j]
    {
    }
  }

  /** The suffix `part2` appends to the input bytes. */
  const Suffix: seq<nat> := [17, 31, 73, 47, 23]

  /** The state after `rounds` runs over the same lengths, cur and skip carried over. */
  function Rounds(k: Knot, lengths: seq<nat>, rounds: nat): (r: Knot)
    requires k.cur < |k.list| && forall i :: 0 <= i < |lengths| ==> lengths[i] <= |k.list|
    ensures |r.list| == |k.list| && r.cur < |r.list|
    ensures multiset(r.list) == multiset(k.list)
  {
    if rounds == 0 then k
    else
      var m := Rounds(k, lengths, rounds - 1);
      TwistsPermute(m, lengths);
      Twists(m, lengths).value
  }

  /** `part2`'s lengths: the bytes of the input followed by the fixed suffix. */
  function HashLengths(input: seq<bv8>): (l: seq<nat>)
    ensures |l| == |input| + 5
    ensures forall i :: 0 <= i < |l| ==> l[i] <= 256
  {
    seq(|input|, i requires 0 <= i < |input| => input[i] as nat) + Suffix
  }

  /** The sparse hash: the list after 64 rounds over 0..255, still a permutation of 0..255. */
  function Sparse(input: seq<bv8>): (s: seq<nat>)
    ensures |s| == 256 && multiset(s) == multiset(Marks(256))
    ensures forall i :: 0 <= i < 256 ==> s[i] < 256
  {
    var s := Rounds(Knot(Marks(256), 0, 0), HashLengths(input), 64).list;
    PermutationOfMarks(s);
    s
  }

  /** A permutation of the marks 0..255 holds only bytes. */
  lemma PermutationOfMarks(s: seq<nat>)
    requires multiset(s) == multiset(Marks(256))
    ensures forall i :: 0 <= i < |s| ==> s[i] < 256
  {
    forall i | 0 <= i < |s|
      ensures s[i] < 256
    {
      assert s[i] in multiset(s);
      var j :| 0 <= j < 256 && Marks(256)[j] == s[i];
    }
  }

  /** The xor of the m slots starting at base. */
  function XorBlock(s: seq<nat>, base: nat, m: nat): bv8
    requires base + m <= |s| && forall i :: 0 <= i < |s| ==> s[i] < 256
  {
    if m == 0 then 0 else XorBlock(s, base, m - 1) ^ (s[base + m - 1] as bv8)
  }

  /** The dense hash: the xor of each block of 16. */
  function Dense(s: seq<nat>): (d: seq<bv8>)
    requires |s| == 256 && forall i :: 0 <= i < |s| ==> s[i] < 256
    ensures |d| == 16
  {
    seq(16, i requires 0 <= i < 16 => XorBlock(s, 16 * i, 16))
  }

  /** A lower-case hexadecimal digit, as `{:x}` writes it. */
  function HexDigit(v: bv8): (c: char)
    requires v < 16
    ensures IsHexDigit(c)
  {
    if v < 10 then ('0' as int + v as int) as char else ('a' as int + v as int - 10) as char
  }

  predicate IsHexDigit(c: char)
  {
    '0' <= c <= '9' || 'a' <= c <= 'f'
  }

  /** The value a hexadecimal digit stands for. */
  function HexValue(c: char): int
  {
    if c <= '9' then c as int - '0' as int else c as int - 'a' as int + 10
  }

  /** `{:02x}` of every byte, the high digit first. */
  function Hex(d: seq<bv8>): (h: string)
    ensures |h| == 2 * |d| && forall i :: 0 <= i < |h| ==> IsHexDigit(h[i])
    ensures forall i :: 0 <= i < |d| ==>
      h[2 * i] == HexDigit(Lib.HiNib(d[i])) && h[2 * i + 1] == HexDigit(Lib.LoNib(d[i]))
  {
    if d == [] then []
    else [HexDigit(Lib.HiNib(d[0])), HexDigit(Lib.LoNib(d[0]))] + Hex(d[1..])
  }

  /** Reading the two digits of each byte back gives the byte: the hex text loses nothing. */
  lemma HexDecodes(d: seq<bv8>, i: nat)
    requires i < |d|
    ensures HexValue(Hex(d)[2 * i]) * 16 + HexValue(Hex(d)[2 * i + 1]) == d[i] as int
  {
    Lib.NibblesRecombine(d[i]);
  }

  /** The dense hash of the list held by an array whose contents are bytes. */
  method DenseHash(list: array<nat>) returns (dense: seq<bv8>)
    requires list.Length == 256 && forall i :: 0 <= i < 256 ==> list[i] < 256
    ensures dense == Dense(list[..])
  {
    ghost var s := list[..];
    dense := [];
    for i := 0 to 16
      invariant dense == Dense(s)[..i]
    {
      var o := BlockXor(list, i * 16);
      assert Dense(s)[..i + 1] == Dense(s)[..i] + [o];
      dense := dense + [o];
    }
    assert Dense(s)[..16] == Dense(s);
  }

  /** The inner loop of the dense hash: the xor of list[base..base+16]. */
  method BlockXor(list: array<nat>, base: nat) returns (o: bv8)
    requires base + 16 <= list.Length && forall i :: 0 <= i < list.Length ==> list[i] < 256
    ensures o == XorBlock(list[..], base, 16)
  {
    o := list[base] as bv8;
    assert o == XorBlock(list[..], base, 1);
    for m := 1 to 16
      invariant o == XorBlock(list[..], base, m)
    {
      o := o ^ list[base + m] as bv8;
    }
  }

  /** `part2`: the knot hash as 32 lower-case hexadecimal digits. */
  method Part2(input: seq<bv8>) returns (hash: string)
    ensures hash == Hex(Dense(Sparse(input)))
    ensures |hash| == 32 && forall i :: 0 <= i < 32 ==> IsHexDigit(hash[i])
  {
    var lengths := HashLengths(input);
    var circle := new Circle(Marks(256));
    var cur, skip := 0, 0;
    ghost var k0 := Knot(Marks(256), 0, 0);
    for r := 0 to 64
      invariant Knot(circle.list[..], cur, skip) == Rounds(k0, lengths, r)
    {
      var ok;
      ok, cur, skip := Run(circle, cur, skip, lengths);
    }
    assert circle.list[..] == Sparse(input);
    var dense := DenseHash(circle.list);
    hash := Hex(dense);
  }
}
