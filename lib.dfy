/**
 * The small shared helpers of src/lib.rs: the linear-scan `VecMap`, the byte
 * `Parser` and the nibble accessors.  (The `VecLike` storage is in veclike.dfy.)
 */
module Lib {
  import opened Wrappers
  import opened RustInt

  // ---------------------------------------------------------------------
  // VecMap: a map kept as a vector of (key, value) pairs, searched linearly.
  // ---------------------------------------------------------------------

  /** `iter().position(|e| e.0 == key)`: the first slot holding the key. */
  function Position<K(==), V>(es: seq<(K, V)>, k: K): (p: Option<nat>)
    ensures p.Some? ==> p.value < |es| && es[p.value].0 == k
    ensures p.Some? ==> forall j :: 0 <= j < p.value ==> es[j].0 != k
    ensures p.None? <==> forall j :: 0 <= j < |es| ==> es[j].0 != k
  {
    if es == [] then None
    else if es[0].0 == k then Some(0)
    else match Position(es[1..], k)
      case None => None
      case Some(i) => Some(i + 1)
  }

  /** The value a lookup finds: the one stored beside the first occurrence of the key. */
  function Lookup<K(==), V>(es: seq<(K, V)>, k: K): Option<V>
  {
    match Position(es, k)
    case None => None
    case Some(i) => Some(es[i].1)
  }

  /** No key occurs twice. */
  ghost predicate UniqueKeys<K, V>(es: seq<(K, V)>)
  {
    forall i, j :: 0 <= i < j < |es| ==> es[i].0 != es[j].0
  }

  /** The set of keys present. */
  function Keys<K, V>(es: seq<(K, V)>): set<K>
  {
    set i | 0 <= i < |es| :: es[i].0
  }

  /** `insert`: overwrite the first slot holding the key, or push a new pair. */
  function InsertEntry<K(==), V>(es: seq<(K, V)>, k: K, v: V): seq<(K, V)>
  {
    match Position(es, k)
    case Some(i) => es[i := (k, v)]
    case None => es + [(k, v)]
  }

  /** The first slot holding k is p when k sits at p and at no earlier slot. */
  lemma PositionAt<K, V>(es: seq<(K, V)>, k: K, p: nat)
    requires p < |es| && es[p].0 == k
    requires forall j :: 0 <= j < p ==> es[j].0 != k
    ensures Position(es, k) == Some(p)
  {
    var q := Position(es, k);
    assert q.Some?;
    assert !(q.value < p) && !(p < q.value);
  }

  /** After `insert(k, v)`, k maps to v and every other key maps to what it did before. */
  lemma LookupAfterInsert<K, V>(es: seq<(K, V)>, k: K, v: V, k': K)
    ensures Lookup(InsertEntry(es, k, v), k') == if k' == k then Some(v) else Lookup(es, k')
  {
    var r := InsertEntry(es, k, v);
    var p := if Position(es, k).Some? then Position(es, k).value else |es|;
    assert p < |r| && r[p] == (k, v);
    assert forall j :: 0 <= j < |r| && j != p ==> r[j] == es[j];
    if k' == k {
      PositionAt(r, k, p);
    } else {
      match Position(es, k')
      case None =>
        assert Position(r, k').None?;
      case Some(j) =>
        PositionAt(r, k', j);
    }
  }

  /** `insert` keeps the keys unique, adds exactly k to the key set, and grows by at most one. */
  lemma InsertKeepsUnique<K, V>(es: seq<(K, V)>, k: K, v: V)
    ensures UniqueKeys(es) ==> UniqueKeys(InsertEntry(es, k, v))
    ensures Keys(InsertEntry(es, k, v)) == Keys(es) + {k}
    ensures |InsertEntry(es, k, v)| == if k in Keys(es) then |es| else |es| + 1
  {
    var r := InsertEntry(es, k, v);
    match Position(es, k)
    case Some(i) =>
      assert Keys(r) == Keys(es) by {
        forall x | x in Keys(r) ensures x in Keys(es) {
          var j :| 0 <= j < |r| && r[j].0 == x;
          assert es[j].0 == x;
        }
        forall x | x in Keys(es) ensures x in Keys(r) {
          var j :| 0 <= j < |es| && es[j].0 == x;
          assert r[j].0 == x;
        }
      }
      assert es[i].0 == k;
    case None =>
      assert Keys(r) == Keys(es) + {k} by {
        forall x | x in Keys(r) ensures x in Keys(es) + {k} {
          var j :| 0 <= j < |r| && r[j].0 == x;
          if j < |es| { assert es[j].0 == x; }
        }
        forall x | x in Keys(es) + {k} ensures x in Keys(r) {
          if x == k {
            assert r[|es|].0 == x;
          } else {
            var j :| 0 <= j < |es| && es[j].0 == x;
            assert r[j].0 == x;
          }
        }
      }
      assert k !in Keys(es);
  }

  /** A lookup fails exactly when the key is absent, and otherwise finds a stored pair. */
  lemma LookupFindsKey<K, V>(es: seq<(K, V)>, k: K)
    ensures Lookup(es, k).None? <==> k !in Keys(es)
    ensures Lookup(es, k).Some? ==> (k, Lookup(es, k).value) in es
  {
    match Position(es, k)
    case None =>
    case Some(i) =>
      assert es[i] == (k, es[i].1);
  }

  /** With unique keys, `len()` is the number of distinct keys. */
  lemma {:induction false} LenCountsKeys<K, V>(es: seq<(K, V)>)
    requires UniqueKeys(es)
    ensures |Keys(es)| == |es|
    decreases |es|
  {
    if es != [] {
      var init := es[..|es| - 1];
      assert UniqueKeys(init);
      LenCountsKeys(init);
      assert Keys(es) == Keys(init) + {es[|es| - 1].0} by {
        forall x | x in Keys(es) ensures x in Keys(init) + {es[|es| - 1].0} {
          var j :| 0 <= j < |es| && es[j].0 == x;
          if j < |es| - 1 { assert init[j].0 == x; }
        }
      }
      assert es[|es| - 1].0 !in Keys(init);
    }
  }

  class VecMap<K(==), V> {
    var entries: seq<(K, V)>

    ghost predicate Valid()
      reads this
    {
      UniqueKeys(entries)
    }

    /** `new` and `with_capacity` (the capacity is not observable in the model). */
    constructor ()
      ensures entries == [] && Valid()
    {
      entries := [];
    }

    /** `len`: the number of stored pairs (the number of keys, by `LenCountsKeys`). */
    function Len(): nat
      reads this
    {
      |entries|
    }

    /** `get`: the value stored beside the first occurrence of the key, or None when it is absent. */
    function Get(k: K): (o: Option<V>)
      reads this
      ensures o.None? <==> forall j :: 0 <= j < |entries| ==> entries[j].0 != k
      ensures o.Some? ==> exists j :: 0 <= j < |entries| && entries[j] == (k, o.value)
    {
      match Position(entries, k)
      case None => None
      case Some(i) =>
        assert entries[i] == (k, entries[i].1);
        Some(entries[i].1)
    }

    /** `insert`: replaces the value of an existing key, otherwise appends the pair. */
    method Insert(k: K, v: V)
      modifies this
      ensures entries == InsertEntry(old(entries), k, v)
      ensures old(Valid()) ==> Valid()
      ensures Get(k) == Some(v)
      ensures forall k' :: k' != k ==> Lookup(entries, k') == Lookup(old(entries), k')
    {
      InsertKeepsUnique(entries, k, v);
      ghost var before := entries;
      var p := Position(entries, k);
      if p.Some? {
        entries := entries[p.value := (k, v)];
      } else {
        entries := entries + [(k, v)];
      }
      LookupAfterInsert(before, k, v, k);
      forall k' | k' != k
        ensures Lookup(entries, k') == Lookup(before, k')
      {
        LookupAfterInsert(before, k, v, k');
      }
    }

    /**
     * `get_or_insert`: the value already stored for the key with nothing
     * changed, or `value` after appending exactly one pair.
     */
    method GetOrInsert(k: K, value: V) returns (r: V)
      modifies this
      ensures old(Get(k)).Some? ==> entries == old(entries) && old(Get(k)) == Some(r)
      ensures old(Get(k)).None? ==> entries == old(entries) + [(k, value)] && r == value
      ensures old(Valid()) ==> Valid()
      ensures Get(k) == Some(r)
    {
      match Position(entries, k)
      case Some(i) =>
        r := entries[i].1;
      case None =>
        InsertKeepsUnique(entries, k, value);
        LookupAfterInsert(entries, k, value, k);
        entries := entries + [(k, value)];
        r := value;
    }

    /** `get_or_insert_with`: as `GetOrInsert`, the new value made by `make` only when needed. */
    method GetOrInsertWith(k: K, make: () -> V) returns (r: V)
      modifies this
      ensures old(Get(k)).Some? ==> entries == old(entries) && old(Get(k)) == Some(r)
      ensures old(Get(k)).None? ==> entries == old(entries) + [(k, make())] && r == make()
      ensures old(Valid()) ==> Valid()
      ensures Get(k) == Some(r)
    {
      match Position(entries, k)
      case Some(i) =>
        r := entries[i].1;
      case None =>
        var value := make();
        InsertKeepsUnique(entries, k, value);
        LookupAfterInsert(entries, k, value, k);
        entries := entries + [(k, value)];
        r := value;
    }
  }

  // ---------------------------------------------------------------------
  // Nibbles.
  // ---------------------------------------------------------------------

  /** `hi_nib`: the upper four bits of a byte. */
  function HiNib(b: bv8): (h: bv8)
    ensures h < 16
    ensures h as int == b as int / 16
  {
    (b >> 4) & 0x0f
  }

  /** `lo_nib`: the lower four bits of a byte. */
  function LoNib(b: bv8): (l: bv8)
    ensures l < 16
    ensures l as int == b as int % 16
  {
    b & 0x0f
  }

  /** The two nibbles together give the byte back. */
  lemma NibblesRecombine(b: bv8)
    ensures HiNib(b) as int * 16 + LoNib(b) as int == b as int
  {
  }

  // ---------------------------------------------------------------------
  // Parser: a cursor over a byte slice.
  // ---------------------------------------------------------------------

  datatype ParserError = Eof | Unexpected(expected: string, got: Option<char>)

  /** `(c as char).to_digit(10)` is Some for the ASCII digits. */
  predicate IsDigit(c: bv8)
  {
    0x30 <= c <= 0x39
  }

  function DigitValue(c: bv8): (d: nat)
    requires IsDigit(c)
    ensures d < 10
  {
    c as int - 0x30
  }

  /** The ASCII digit for d. */
  function DigitByte(d: nat): (c: bv8)
    requires d < 10
    ensures IsDigit(c) && DigitValue(c) == d
  {
    (d + 0x30) as bv8
  }

  function ByteChar(c: bv8): char
  {
    (c as int) as char
  }

  /** Every slot of the sequence is a digit. */
  ghost predicate AllDigits(s: seq<bv8>)
  {
    forall j :: 0 <= j < |s| ==> IsDigit(s[j])
  }

  /** The length of the run of digits at the front of `s`, which is as long as it can be. */
  function DigitRun(s: seq<bv8>): (n: nat)
    ensures n <= |s| && AllDigits(s[..n])
    ensures n < |s| ==> !IsDigit(s[n])
  {
    if s == [] || !IsDigit(s[0]) then 0
    else
      var m := DigitRun(s[1..]);
      assert s[..1 + m] == [s[0]] + s[1..][..m];
      1 + m
  }

  /** The number a string of decimal digits denotes, most significant digit first. */
  function Decimal(s: seq<bv8>): nat
    requires AllDigits(s)
  {
    if s == [] then 0 else Decimal(s[..|s| - 1]) * 10 + DigitValue(s[|s| - 1])
  }

  /** The number at the front of `s`: the value of its maximal digit run, or None without one. */
  function LeadingNumber(s: seq<bv8>): Option<nat>
  {
    var n := DigitRun(s);
    if n == 0 then None else Some(Decimal(s[..n]))
  }

  /** The decimal numeral of n, most significant digit first, without leading zeros. */
  function Numeral(n: nat): (s: seq<bv8>)
    ensures |s| >= 1 && AllDigits(s)
  {
    if n < 10 then [DigitByte(n)] else Numeral(n / 10) + [DigitByte(n % 10)]
  }

  /** Reading a numeral gives its number back. */
  lemma {:induction false} DecimalOfNumeral(n: nat)
    ensures Decimal(Numeral(n)) == n
  {
    if n >= 10 {
      var s := Numeral(n);
      assert s[..|s| - 1] == Numeral(n / 10);
      DecimalOfNumeral(n / 10);
    }
  }

  /** The digit run of a numeral followed by a non-digit is the whole numeral. */
  lemma {:induction false} DigitRunOfNumeral(d: seq<bv8>, rest: seq<bv8>)
    requires AllDigits(d)
    requires rest == [] || !IsDigit(rest[0])
    ensures DigitRun(d + rest) == |d|
    decreases |d|
  {
    if d != [] {
      assert (d + rest)[1..] == d[1..] + rest;
      DigitRunOfNumeral(d[1..], rest);
    } else {
      assert d + rest == rest;
    }
  }

  /** `consume_number` round trip: a numeral followed by a non-digit is read back as its number. */
  lemma LeadingNumberOfNumeral(n: nat, rest: seq<bv8>)
    requires rest == [] || !IsDigit(rest[0])
    ensures LeadingNumber(Numeral(n) + rest) == Some(n)
  {
    var s := Numeral(n);
    DigitRunOfNumeral(s, rest);
    assert (s + rest)[..|s|] == s;
    DecimalOfNumeral(n);
  }

  /** The first occurrence of c (`memchr`), or None. */
  function Find(s: seq<bv8>, c: bv8): (p: Option<nat>)
    ensures p.Some? ==> p.value < |s| && s[p.value] == c
    ensures p.Some? ==> forall j :: 0 <= j < p.value ==> s[j] != c
    ensures p.None? <==> c !in s
  {
    if s == [] then None
    else if s[0] == c then Some(0)
    else match Find(s[1..], c)
      case None => None
      case Some(i) => Some(i + 1)
  }

  /** The first occurrence of either a or b (`memchr2`), or None. */
  function Find2(s: seq<bv8>, a: bv8, b: bv8): (p: Option<nat>)
    ensures p.Some? ==> p.value < |s| && (s[p.value] == a || s[p.value] == b)
    ensures p.Some? ==> forall j :: 0 <= j < p.value ==> s[j] != a && s[j] != b
    ensures p.None? <==> (a !in s && b !in s)
  {
    if s == [] then None
    else if s[0] == a || s[0] == b then Some(0)
    else match Find2(s[1..], a, b)
      case None => None
      case Some(i) => Some(i + 1)
  }

  class Parser {
    const input: seq<bv8>
    var idx: nat

    /** The cursor never passes the end of the input. */
    ghost predicate Valid()
      reads this
    {
      idx <= |input|
    }

    constructor (input: seq<bv8>)
      ensures this.input == input && idx == 0 && Valid()
    {
      this.input := input;
      idx := 0;
    }

    function AtEnd(): bool
      reads this
    {
      idx == |input|
    }

    /** `cur`: the byte under the cursor, or None at the end. */
    function Cur(): (o: Option<bv8>)
      reads this
      ensures o.Some? <==> idx < |input|
      ensures o.Some? ==> o.value == input[idx]
    {
      if idx < |input| then Some(input[idx]) else None
    }

    /** On a valid parser, being at the end and having no current byte coincide. */
    lemma AtEndIffNoCur()
      requires Valid()
      ensures AtEnd() <==> Cur().None?
    {
    }

    /** `read`: returns the current byte and steps past it; at the end nothing moves. */
    method Read() returns (o: Option<bv8>)
      requires Valid()
      modifies this
      ensures Valid() && o == old(Cur())
      ensures idx == if o.Some? then old(idx) + 1 else old(idx)
    {
      o := Cur();
      if o.Some? {
        idx := idx + 1;
      }
    }

    /** `advance`: one step forward; the source panics at the end. */
    method Advance()
      requires Valid() && !AtEnd()
      modifies this
      ensures Valid() && idx == old(idx) + 1
    {
      idx := idx + 1;
    }

    /**
     * `consume_until`: stops on the first c and returns the distance to it, or,
     * when c does not occur, consumes to the end and returns the distance to it.
     */
    method ConsumeUntil(c: bv8) returns (n: nat)
      requires Valid()
      modifies this
      ensures Valid() && idx == old(idx) + n
      ensures c !in input[old(idx)..idx]
      ensures idx == |input| || input[idx] == c
    {
      match Find(input[idx..], c)
      case Some(i) =>
        n := i;
        idx := idx + i;
      case None =>
        n := |input| - idx;
        idx := |input|;
    }

    /** `consume_until_or_stop`: as `ConsumeUntil`, but without c the cursor stays put and None is returned. */
    method ConsumeUntilOrStop(c: bv8) returns (o: Option<nat>)
      requires Valid()
      modifies this
      ensures Valid()
      ensures o.None? <==> c !in input[old(idx)..]
      ensures o.None? ==> idx == old(idx)
      ensures o.Some? ==> idx == old(idx) + o.value && idx < |input| && input[idx] == c
      ensures o.Some? ==> c !in input[old(idx)..idx]
    {
      o := Find(input[idx..], c);
      if o.Some? {
        idx := idx + o.value;
      }
    }

    /** `consume_until2_or_stop`: as `ConsumeUntilOrStop` for the first of two bytes. */
    method ConsumeUntil2OrStop(a: bv8, b: bv8) returns (o: Option<nat>)
      requires Valid()
      modifies this
      ensures Valid()
      ensures o.None? <==> (a !in input[old(idx)..] && b !in input[old(idx)..])
      ensures o.None? ==> idx == old(idx)
      ensures o.Some? ==> idx == old(idx) + o.value && idx < |input| && (input[idx] == a || input[idx] == b)
      ensures o.Some? ==> a !in input[old(idx)..idx] && b !in input[old(idx)..idx]
    {
      o := Find2(input[idx..], a, b);
      if o.Some? {
        idx := idx + o.value;
      }
    }

    /** `consume_bytes_until`: the bytes `ConsumeUntil` stepped over. */
    method ConsumeBytesUntil(c: bv8) returns (s: seq<bv8>)
      requires Valid()
      modifies this
      ensures Valid() && old(idx) <= idx && s == input[old(idx)..idx]
      ensures c !in s
      ensures idx == |input| || input[idx] == c
    {
      var orig := idx;
      var _ := ConsumeUntil(c);
      s := input[orig..idx];
    }

    /** `consume_bytes`: the next n bytes, or Eof without moving when fewer remain. */
    method ConsumeBytes(n: nat) returns (r: Result<seq<bv8>, ParserError>)
      requires Valid()
      modifies this
      ensures Valid()
      ensures old(idx) + n > |input| ==> r == Err(Eof) && idx == old(idx)
      ensures old(idx) + n <= |input| ==> r == Ok(input[old(idx)..old(idx) + n]) && idx == old(idx) + n
    {
      if idx + n > |input| {
        return Err(Eof);
      }
      r := Ok(input[idx..idx + n]);
      idx := idx + n;
    }

    /**
     * `expect`: whether the input continues with the needle; on a match the
     * needle is consumed, on a mismatch the cursor is restored.
     */
    method Expect(needle: seq<bv8>) returns (r: Result<bool, ParserError>)
      requires Valid()
      modifies this
      ensures Valid()
      ensures old(idx) + |needle| > |input| ==> r == Err(Eof) && idx == old(idx)
      ensures old(idx) + |needle| <= |input| ==>
        r == Ok(input[old(idx)..old(idx) + |needle|] == needle)
      ensures r == Ok(true) ==> idx == old(idx) + |needle|
      ensures r != Ok(true) ==> idx == old(idx)
    {
      var b := ConsumeBytes(|needle|);
      match b
      case Err(e) =>
        r := Err(e);
      case Ok(bytes) =>
        var eq := bytes == needle;
        if !eq {
          idx := idx - |needle|;
        }
        r := Ok(eq);
    }

    /** `consume`: steps over x when it is the current byte, otherwise reports what was found. */
    method Consume(x: bv8) returns (r: Result<(), ParserError>)
      requires Valid()
      modifies this
      ensures Valid()
      ensures old(Cur()) == Some(x) ==> r == Ok(()) && idx == old(idx) + 1
      ensures old(Cur()) != Some(x) ==>
        idx == old(idx) &&
        r == Err(Unexpected("char " + [ByteChar(x)], if idx < |input| then Some(ByteChar(input[idx])) else None))
    {
      var next := Cur();
      if next == Some(x) {
        idx := idx + 1;
        r := Ok(());
      } else {
        r := Err(Unexpected("char " + [ByteChar(x)], if next.Some? then Some(ByteChar(next.value)) else None));
      }
    }

    /**
     * `consume_number`: reads the longest run of decimal digits and returns its
     * value; with no digit at the cursor it fails without moving.
     */
    method ConsumeNumber() returns (r: Result<nat, ParserError>)
      requires Valid()
      modifies this
      ensures Valid()
      ensures idx == old(idx) + DigitRun(input[old(idx)..])
      ensures LeadingNumber(input[old(idx)..]).None? ==>
        r == Err(Unexpected("number", if idx < |input| then Some(ByteChar(input[idx])) else None))
      ensures LeadingNumber(input[old(idx)..]).Some? ==> r == Ok(LeadingNumber(input[old(idx)..]).value)
    {
      var start := idx;
      var i := 0;
      var out := 0;
      ghost var rest := input[start..];
      ghost var run := DigitRun(rest);
      while idx < |input| && IsDigit(input[idx])
        invariant start <= idx <= |input| && i == idx - start && i <= run
        invariant rest[..i] == input[start..idx]
        invariant out == Decimal(rest[..i])
        decreases |input| - idx
      {
        assert rest[i] == input[idx];
        assert i < run;
        assert rest[..i + 1][..i] == rest[..i];
        idx := idx + 1;
        out := out * 10 + DigitValue(input[idx - 1]);
        i := i + 1;
      }
      assert i == run;
      if i == 0 {
        r := Err(Unexpected("number", if idx < |input| then Some(ByteChar(input[idx])) else None));
        return;
      }
      r := Ok(out);
    }

    /**
     * `consume_signed_number`: an optional '-' (consumed even if no digits
     * follow), then a number, cast to `i64` and multiplied by the sign.
     */
    method ConsumeSignedNumber() returns (r: Result<I64, ParserError>)
      requires Valid()
      modifies this
      ensures Valid()
      ensures old(Cur()) == Some(0x2d) ==> old(idx) < |input|
      ensures var from := if old(Cur()) == Some(0x2d) then old(idx) + 1 else old(idx);
        from <= |input| && idx == from + DigitRun(input[from..]) &&
        match LeadingNumber(input[from..])
        case None => r.Err?
        case Some(v) => r == Ok(Signed(old(Cur()) == Some(0x2d), v))
    {
      var negative := false;
      if Cur() == Some(0x2d) {
        idx := idx + 1;
        negative := true;
      }
      var n := ConsumeNumber();
      match n
      case Err(e) =>
        r := Err(e);
      case Ok(v) =>
        r := Ok(Signed(negative, v));
    }
  }

  /**
   * `consume_number()? as i64 * sign`: the cast keeps the value modulo 2^64
   * in two's complement, and the product by -1 wraps on `i64::MIN`, as in a
   * release build.
   */
  function Signed(negative: bool, v: nat): (r: I64)
    ensures v < 0x8000_0000_0000_0000 ==> r == (if negative then -(v as int) else v as int)
    ensures (r - (if negative then -(v as int) else v as int)) % U64 == 0
  {
    var w := WrapI64(v);
    if negative then NegatedCongruent(w, v); WrapI64(-(w as int)) else w
  }

  lemma NegatedCongruent(w: int, v: int)
    requires (w - v) % U64 == 0
    ensures (WrapI64(-w) - -v) % U64 == 0
  {
    var k := (w - v) / U64;
    assert w - v == k * U64;
    var m := (WrapI64(-w) + w) / U64;
    assert WrapI64(-w) + w == m * U64;
    assert WrapI64(-w) - -v == (m - k) * U64;
  }

  /** Numbers from 2^63 on do not fit `i64`: the cast makes 2^63 into `i64::MIN`, with or without '-'. */
  lemma SignedWraps()
    ensures Signed(false, 0x8000_0000_0000_0000) == -0x8000_0000_0000_0000
    ensures Signed(true, 0x8000_0000_0000_0000) == -0x8000_0000_0000_0000
    ensures Signed(false, 0x1_0000_0000_0000_0005) == 5
  {
  }

  // ---------------------------------------------------------------------
  // The source's unit tests, stated on the specification functions.
  // ---------------------------------------------------------------------

  /** `parser_number`: "100" holds the number 100. */
  lemma ParserNumberExample()
    ensures LeadingNumber([0x31, 0x30, 0x30]) == Some(100)
  {
    assert Numeral(100) == [0x31, 0x30, 0x30];
    LeadingNumberOfNumeral(100, []);
    assert Numeral(100) + [] == Numeral(100);
  }

  /** `parser_consume_until` and `parser_consume_until_no_exist`: "aaax" stops 3 bytes in; "aaa" runs out after 3. */
  lemma ParserConsumeUntilExamples()
    ensures Find([0x61, 0x61, 0x61, 0x78], 0x78) == Some(3)
    ensures Find([0x61, 0x61, 0x61], 0x78) == None
  {
    var s: seq<bv8> := [0x61, 0x61, 0x61, 0x78];
    assert s[1..] == [0x61, 0x61, 0x78] && s[1..][1..] == [0x61, 0x78] && s[1..][1..][1..] == [0x78];
  }

  /** The tests run through the parser itself. */
  method ParserTests()
  {
    var p := new Parser([0x31, 0x30, 0x30]);
    ParserNumberExample();
    assert p.input[0..] == p.input;
    var n := p.ConsumeNumber();
    assert n == Ok(100);
    var q := new Parser([0x61, 0x61, 0x61, 0x78]);
    ParserConsumeUntilExamples();
    var d := q.ConsumeUntil(0x78);
    assert d == 3;
    var e := new Parser([0x61, 0x61, 0x61]);
    var d2 := e.ConsumeUntil(0x78);
    assert d2 == 3;
  }
}
