/**
 * The pieces of Rust's `str` API the parsers lean on: `trim`,
 * `trim_start`, `split(' ')` and `i32::from_str`, on `seq<char>`.
 */
module Strings {
  import opened Wrappers
  import opened RustInt

  /** Unicode White_Space, the characters `str::trim` removes. */
  predicate IsWhitespace(b: char)
  {
    ('\t' <= b <= '\r') || b == ' ' || b == '\U{85}' || b == '\U{A0}' || b == '\U{1680}'
    || ('\U{2000}' <= b <= '\U{200A}') || b == '\U{2028}' || b == '\U{2029}' || b == '\U{202F}'
    || b == '\U{205F}' || b == '\U{3000}'
  }

  function TrimStart(s: string): (t: string)
    ensures |t| <= |s| && t == s[|s| - |t|..]
    ensures forall i :: 0 <= i < |s| - |t| ==> IsWhitespace(s[i])
    ensures |t| > 0 ==> !IsWhitespace(t[0])
  {
    if |s| > 0 && IsWhitespace(s[0]) then TrimStart(s[1..]) else s
  }

  function TrimEnd(s: string): (t: string)
    ensures |t| <= |s| && t == s[..|t|]
    ensures forall i :: |t| <= i < |s| ==> IsWhitespace(s[i])
    ensures |t| > 0 ==> !IsWhitespace(t[|t| - 1])
  {
    if |s| > 0 && IsWhitespace(s[|s| - 1]) then TrimEnd(s[..|s| - 1]) else s
  }

  /** `str::trim`: leading and trailing whitespace removed. */
  function Trim(s: string): string
  {
    TrimEnd(TrimStart(s))
  }

  /** Whitespace in front of a word that neither starts nor ends with whitespace is all that `trim` removes. */
  lemma {:induction false} TrimPadded(pad: string, w: string)
    requires forall i :: 0 <= i < |pad| ==> IsWhitespace(pad[i])
    requires w != [] && !IsWhitespace(w[0]) && !IsWhitespace(w[|w| - 1])
    ensures Trim(pad + w) == w
  {
    if pad == [] {
      assert pad + w == w;
    } else {
      assert (pad + w)[1..] == pad[1..] + w;
      TrimPadded(pad[1..], w);
    }
  }

  /** A string without whitespace is its own trim. */
  lemma TrimNoWhitespace(s: string)
    requires forall i :: 0 <= i < |s| ==> !IsWhitespace(s[i])
    ensures Trim(s) == s
  {
  }

  // ---------------------------------------------------------------------
  // `str::split` on one character.

  /** `s.split(sep)`: the pieces between separators, empty ones included; never empty itself. */
  function Split(s: string, sep: char): (ws: seq<string>)
    ensures |ws| >= 1
    ensures forall k :: 0 <= k < |ws| ==> sep !in ws[k]
  {
    if s == [] then [[]]
    else
      var rest := Split(s[1..], sep);
      if s[0] == sep then [[]] + rest else [[s[0]] + rest[0]] + rest[1..]
  }

  /** The pieces put back together with the separator. */
  function Join(ws: seq<string>, sep: char): string
    requires |ws| >= 1
  {
    if |ws| == 1 then ws[0] else ws[0] + [sep] + Join(ws[1..], sep)
  }

  /** Splitting loses nothing: joining the pieces gives the string back. */
  lemma {:induction false} JoinSplit(s: string, sep: char)
    ensures Join(Split(s, sep), sep) == s
  {
    if s != [] {
      JoinSplit(s[1..], sep);
      var rest := Split(s[1..], sep);
      if s[0] == sep {
        assert [s[0]] + s[1..] == s;
      } else if |rest| == 1 {
        assert [s[0]] + rest[0] == s;
      } else {
        var ws := Split(s, sep);
        assert ws[1..] == rest[1..];
        assert Join(ws, sep) == [s[0]] + rest[0] + [sep] + Join(rest[1..], sep);
        assert [s[0]] + (rest[0] + [sep] + Join(rest[1..], sep)) == s;
      }
    }
  }

  /** A word without the separator is one piece. */
  lemma {:induction false} SplitWord(w: string, sep: char)
    requires sep !in w
    ensures Split(w, sep) == [w]
  {
    if w != [] {
      SplitWord(w[1..], sep);
      assert [w[0]] + w[1..] == w;
    }
  }

  /** A word followed by the separator is the first piece, the rest splits on its own. */
  lemma {:induction false} SplitFirst(w: string, sep: char, rest: string)
    requires sep !in w
    ensures Split(w + [sep] + rest, sep) == [w] + Split(rest, sep)
  {
    if w == [] {
      assert w + [sep] + rest == [sep] + rest;
      assert ([sep] + rest)[1..] == rest;
    } else {
      var s := w + [sep] + rest;
      assert s[1..] == w[1..] + [sep] + rest;
      SplitFirst(w[1..], sep, rest);
      assert [w[0]] + w[1..] == w;
    }
  }

  /** Words without the separator, joined by it, split back into those words. */
  lemma {:induction false} SplitJoin(ws: seq<string>, sep: char)
    requires |ws| >= 1 && forall k :: 0 <= k < |ws| ==> sep !in ws[k]
    ensures Split(Join(ws, sep), sep) == ws
  {
    if |ws| == 1 {
      SplitWord(ws[0], sep);
    } else {
      SplitJoin(ws[1..], sep);
      SplitFirst(ws[0], sep, Join(ws[1..], sep));
    }
  }

  // ---------------------------------------------------------------------
  // Decimal numerals and `i32::from_str`.

  predicate IsDigit(c: char) { '0' <= c <= '9' }

  /** Every character is an ASCII digit. */
  predicate AllDigits(s: string)
  {
    forall i :: 0 <= i < |s| ==> IsDigit(s[i])
  }

  /** The value of a run of digits, most significant first. */
  function Decimal(s: string): nat
    requires AllDigits(s)
  {
    if s == [] then 0 else Decimal(s[..|s| - 1]) * 10 + (s[|s| - 1] - '0') as nat
  }

  /** The shortest numeral of n. */
  function Numeral(n: nat): (s: string)
    ensures |s| >= 1 && AllDigits(s)
  {
    if n < 10 then [(n as char + '0')] else Numeral(n / 10) + [(n % 10) as char + '0']
  }

  /** A numeral reads back as its number. */
  lemma {:induction false} DecimalOfNumeral(n: nat)
    ensures Decimal(Numeral(n)) == n
  {
    if n >= 10 {
      DecimalOfNumeral(n / 10);
      var s := Numeral(n);
      assert s[..|s| - 1] == Numeral(n / 10);
    }
  }

  /** The grammar `str::parse` accepts for a signed integer: an optional sign and one or more digits; its value, before any range check. */
  function ParseInt(w: string): (r: Option<int>)
    ensures w != [] && !IsDigit(w[0]) && w[0] != '-' && w[0] != '+' ==> r.None?
  {
    if w == [] then None
    else
      var negative := w[0] == '-';
      var digits := if w[0] == '-' || w[0] == '+' then w[1..] else w;
      if digits == [] || !AllDigits(digits) then None
      else
        var n: int := Decimal(digits);
        Some(if negative then -n else n)
  }

  /** `str::parse::<i32>`: the integer when it fits, Err otherwise. */
  function ParseI32(w: string): (r: Option<I32>)
    ensures r.Some? <==> ParseInt(w).Some? && -0x8000_0000 <= ParseInt(w).value < 0x8000_0000
    ensures r.Some? ==> r.value == ParseInt(w).value
  {
    match ParseInt(w)
    case Some(v) => if -0x8000_0000 <= v < 0x8000_0000 then Some(v) else None
    case None => None
  }

  /** `str::parse::<i64>`: the integer when it fits, Err otherwise. */
  function ParseI64(w: string): (r: Option<I64>)
    ensures r.Some? <==> ParseInt(w).Some? && -0x8000_0000_0000_0000 <= ParseInt(w).value < 0x8000_0000_0000_0000
    ensures r.Some? ==> r.value == ParseInt(w).value
  {
    match ParseInt(w)
    case Some(v) => if -0x8000_0000_0000_0000 <= v < 0x8000_0000_0000_0000 then Some(v) else None
    case None => None
  }

  /** `Display` for signed integers: a minus sign for negatives, then the numeral. */
  function ShowInt(v: int): (s: string)
    ensures s != [] && ' ' !in s && !IsWhitespace(s[0]) && IsDigit(s[|s| - 1])
  {
    if v < 0 then "-" + Numeral(-v) else Numeral(v)
  }

  /** Every integer parses back from its display. */
  lemma ParseShowInt(v: int)
    ensures ParseInt(ShowInt(v)) == Some(v)
  {
    var s := ShowInt(v);
    if v < 0 {
      var n: nat := -v;
      DecimalOfNumeral(n);
      assert s[0] == '-' && s[1..] == Numeral(n);
    } else {
      DecimalOfNumeral(v);
      assert IsDigit(s[0]);
    }
  }

  /** Every `i32` parses back from its display. */
  lemma ParseShowI32(v: I32)
    ensures ParseI32(ShowInt(v)) == Some(v)
  {
    ParseShowInt(v);
  }

  /** Every `i64` parses back from its display. */
  lemma ParseShowI64(v: I64)
    ensures ParseI64(ShowInt(v)) == Some(v)
  {
    ParseShowInt(v);
  }

  // ---------------------------------------------------------------------
  // `str::starts_with`, `str::contains` and `str::find`.

  predicate StartsWith(line: string, p: string)
  {
    |p| <= |line| && line[..|p|] == p
  }

  /** p occurs in s at index i. */
  predicate OccursAt(s: string, p: string, i: int)
  {
    0 <= i && i + |p| <= |s| && s[i..i + |p|] == p
  }

  /** `s[i..].find(p)`, offset by i: the first index from i on where p occurs (FindFromFirst). */
  function FindFrom(s: string, p: string, i: nat): (r: Option<nat>)
    requires i <= |s|
    ensures r.Some? ==> i <= r.value && r.value + |p| <= |s|
    decreases |s| - i
  {
    if OccursAt(s, p, i) then Some(i)
    else if i == |s| then None
    else FindFrom(s, p, i + 1)
  }

  /** FindFrom finds an occurrence, none before it, and None only when p does not occur from i on. */
  lemma {:induction false} FindFromFirst(s: string, p: string, i: nat)
    requires i <= |s|
    ensures FindFrom(s, p, i).Some? ==> OccursAt(s, p, FindFrom(s, p, i).value)
    ensures FindFrom(s, p, i).Some? ==> forall k :: i <= k < FindFrom(s, p, i).value ==> !OccursAt(s, p, k)
    ensures FindFrom(s, p, i).None? ==> forall k :: i <= k ==> !OccursAt(s, p, k)
    decreases |s| - i
  {
    if !OccursAt(s, p, i) && i < |s| {
      FindFromFirst(s, p, i + 1);
    }
  }

  /** `s.find(p)`: the first index where p occurs, None when it does not (FindFirst). */
  function Find(s: string, p: string): (r: Option<nat>)
    ensures r.Some? ==> r.value + |p| <= |s|
  {
    FindFrom(s, p, 0)
  }

  lemma FindFirst(s: string, p: string)
    ensures Find(s, p).Some? ==> OccursAt(s, p, Find(s, p).value)
    ensures Find(s, p).Some? ==> forall k :: 0 <= k < Find(s, p).value ==> !OccursAt(s, p, k)
    ensures Find(s, p).None? ==> forall k :: !OccursAt(s, p, k)
  {
    FindFromFirst(s, p, 0);
  }

  /** `s.contains(p)`. */
  predicate Contains(s: string, p: string)
  {
    Find(s, p).Some?
  }

  lemma ContainsAt(s: string, p: string, i: int)
    requires OccursAt(s, p, i)
    ensures Contains(s, p)
  {
    FindFirst(s, p);
  }
}
