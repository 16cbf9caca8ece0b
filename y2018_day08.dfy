/**
 * 2018 day 8 (y2018/src/bin/day08.rs): a licence file is a tree written
 * as numbers.  A node is its number of children and of metadata entries,
 * then its children, then its metadata.  A `Buffer` reads the numbers one
 * at a time; part 1 sums all metadata, part 2 computes the root's value.
 */
module Y2018Day08 {
  import opened Wrappers

  /** `u8`: every number of the file. */
  type U8 = x: nat | x < 256

  datatype Node = Node(children: seq<Node>, metadata: seq<U8>)

  // ---------------------------------------------------------------------
  // The file format.

  /** Every node's counts fit the `u8` header. */
  predicate WellFormed(n: Node)
  {
    |n.children| < 256 && |n.metadata| < 256 && forall c :: c in n.children ==> WellFormed(c)
  }

  predicate AllWellFormed(cs: seq<Node>)
  {
    forall c :: c in cs ==> WellFormed(c)
  }

  /** The numbers that write a node: header, children, metadata. */
  function Encode(n: Node): (v: seq<U8>)
    requires WellFormed(n)
    ensures |v| >= 2
    decreases n
  {
    [|n.children| as U8, |n.metadata| as U8] + EncodeAll(n.children) + n.metadata
  }

  function EncodeAll(cs: seq<Node>): seq<U8>
    requires AllWellFormed(cs)
    decreases cs
  {
    if cs == [] then [] else Encode(cs[0]) + EncodeAll(cs[1..])
  }

  /** `Node::parse` as a function: the node read from the front of v and what is left; None where a read would panic. */
  function ParseFrom(v: seq<U8>): (r: Option<(Node, seq<U8>)>)
    ensures r.Some? ==> |r.value.1| < |v|
    decreases |v|, 0
  {
    if |v| < 2 then None
    else
      var c := ParseChildren(v[2..], v[0]);
      if c.None? then None
      else
        var (children, rest) := c.value;
        if |rest| < v[1] then None
        else Some((Node(children, rest[..v[1]]), rest[v[1]..]))
  }

  /** k nodes read one after another. */
  function ParseChildren(v: seq<U8>, k: nat): (r: Option<(seq<Node>, seq<U8>)>)
    ensures r.Some? ==> |r.value.1| <= |v| && |r.value.0| == k
    decreases |v|, 1, k
  {
    if k == 0 then Some(([], v))
    else
      var first := ParseFrom(v);
      if first.None? then None
      else
        var (child, rest) := first.value;
        var others := ParseChildren(rest, k - 1);
        if others.None? then None
        else Some(([child] + others.value.0, others.value.1))
  }

  /** Reading back what Encode wrote gives the node and leaves what followed. */
  lemma {:induction false} ParseEncode(n: Node, rest: seq<U8>)
    requires WellFormed(n)
    ensures ParseFrom(Encode(n) + rest) == Some((n, rest))
    decreases n
  {
    var v := Encode(n) + rest;
    var tail := EncodeAll(n.children) + (n.metadata + rest);
    assert v[2..] == tail;
    ParseEncodeAll(n.children, n.metadata + rest);
    assert (n.metadata + rest)[..|n.metadata|] == n.metadata;
    assert (n.metadata + rest)[|n.metadata|..] == rest;
  }

  lemma {:induction false} ParseEncodeAll(cs: seq<Node>, rest: seq<U8>)
    requires AllWellFormed(cs)
    ensures ParseChildren(EncodeAll(cs) + rest, |cs|) == Some((cs, rest))
    decreases cs
  {
    if cs != [] {
      var tail := EncodeAll(cs[1..]) + rest;
      assert EncodeAll(cs) + rest == Encode(cs[0]) + tail;
      ParseEncode(cs[0], tail);
      assert cs[0] in cs && AllWellFormed(cs[1..]);
      ParseEncodeAll(cs[1..], rest);
      assert ParseFrom(Encode(cs[0]) + tail) == Some((cs[0], tail));
      assert ParseChildren(tail, |cs| - 1) == Some((cs[1..], rest));
      assert [cs[0]] + cs[1..] == cs;
    } else {
      assert EncodeAll(cs) + rest == rest;
    }
  }

  /** Whatever parses is exactly the encoding of a well-formed node, followed by the rest. */
  lemma {:induction false} ParseIsEncoding(v: seq<U8>)
    requires ParseFrom(v).Some?
    ensures WellFormed(ParseFrom(v).value.0)
    ensures Encode(ParseFrom(v).value.0) + ParseFrom(v).value.1 == v
    decreases |v|, 0
  {
    var c := ParseChildren(v[2..], v[0]);
    ParseChildrenIsEncoding(v[2..], v[0]);
    var children := c.value.0;
    var rest := c.value.1;
    var n := Node(children, rest[..v[1]]);
    assert ParseFrom(v) == Some((n, rest[v[1]..]));
    assert AllWellFormed(children) && |children| == v[0] && |n.metadata| == v[1];
    assert WellFormed(n);
    assert Encode(n) == [v[0], v[1]] + EncodeAll(children) + rest[..v[1]];
    HeaderSplit(v, EncodeAll(children), rest, v[1]);
  }

  /** The header, the children and the metadata put back together. */
  lemma HeaderSplit(v: seq<U8>, kids: seq<U8>, rest: seq<U8>, m: nat)
    requires 2 <= |v| && kids + rest == v[2..] && m <= |rest|
    ensures [v[0], v[1]] + kids + rest[..m] + rest[m..] == v
  {
    assert rest[..m] + rest[m..] == rest;
    assert [v[0], v[1]] + v[2..] == v;
  }

  lemma {:induction false} ParseChildrenIsEncoding(v: seq<U8>, k: nat)
    requires ParseChildren(v, k).Some?
    ensures AllWellFormed(ParseChildren(v, k).value.0)
    ensures EncodeAll(ParseChildren(v, k).value.0) + ParseChildren(v, k).value.1 == v
    decreases |v|, 1, k
  {
    if k > 0 {
      var child := ParseFrom(v).value.0;
      var rest := ParseFrom(v).value.1;
      ParseIsEncoding(v);
      ParseChildrenIsEncoding(rest, k - 1);
      var others := ParseChildren(rest, k - 1).value;
      var cs := [child] + others.0;
      assert ParseChildren(v, k) == Some((cs, others.1));
      assert cs[0] == child && cs[1..] == others.0;
      assert AllWellFormed(cs);
      assert EncodeAll(cs) == Encode(child) + EncodeAll(others.0);
      assert EncodeAll(cs) + others.1 == Encode(child) + (EncodeAll(others.0) + others.1);
    } else {
      assert EncodeAll([]) + v == v;
    }
  }

  // ---------------------------------------------------------------------
  // The buffer.

  /** `Buffer`: the numbers not read yet. */
  class Buffer {
    var v: seq<U8>

    constructor(v: seq<U8>)
      ensures this.v == v
    {
      this.v := v;
    }

    predicate IsEmpty()
      reads this
    {
      v == []
    }

    /** `read`: the first number, which is dropped; indexing an empty slice panics. */
    method Read() returns (value: U8)
      requires v != []
      modifies this
      ensures [value] + v == old(v)
    {
      value := v[0];
      v := v[1..];
    }
  }

  /** The outcome of `Node::parse` with the buffer left behind, in the shape of ParseFrom. */
  function Outcome(r: Option<Node>, rest: seq<U8>): Option<(Node, seq<U8>)>
  {
    if r.None? then None else Some((r.value, rest))
  }

  /** `Node::parse`: the header, then each child, then each metadata entry; None where the source panics. */
  method Parse(buf: Buffer) returns (r: Option<Node>)
    modifies buf
    ensures Outcome(r, buf.v) == ParseFrom(old(buf.v))
    decreases |buf.v|, 0
  {
    ghost var start := buf.v;
    if |buf.v| < 2 {
      return None;
    }
    var nChildren := buf.Read();
    var nMetadata := buf.Read();
    assert buf.v == start[2..];
    var children := ParseNodes(buf, nChildren);
    if children.None? {
      return None;
    }
    ghost var afterChildren := buf.v;
    var metadata: seq<U8> := [];
    for i := 0 to nMetadata
      invariant |metadata| == i
      invariant metadata + buf.v == afterChildren
    {
      if buf.IsEmpty() {
        return None;
      }
      var m := buf.Read();
      metadata := metadata + [m];
    }
    assert afterChildren[..nMetadata] == metadata;
    r := Some(Node(children.value, metadata));
  }

  /** The `(0..children).map(|_| Node::parse(v))` loop. */
  method ParseNodes(buf: Buffer, k: nat) returns (r: Option<seq<Node>>)
    modifies buf
    ensures r.None? ==> ParseChildren(old(buf.v), k).None?
    ensures r.Some? ==> ParseChildren(old(buf.v), k) == Some((r.value, buf.v))
    decreases |buf.v|, 1
  {
    var nodes: seq<Node> := [];
    ghost var start := buf.v;
    PrependNothing(ParseChildren(start, k));
    for i := 0 to k
      invariant |buf.v| <= |start|
      invariant ParseChildren(start, k) == Prepend(nodes, ParseChildren(buf.v, k - i))
    {
      ghost var before := buf.v;
      var node := Parse(buf);
      if node.None? {
        return None;
      }
      assert ParseChildren(before, k - i) == Prepend([node.value], ParseChildren(buf.v, k - i - 1));
      PrependTwice(nodes, [node.value], ParseChildren(buf.v, k - i - 1));
      nodes := nodes + [node.value];
    }
    assert nodes + [] == nodes;
    return Some(nodes);
  }

  /** Nodes already read, in front of the outcome of the rest. */
  function Prepend(nodes: seq<Node>, r: Option<(seq<Node>, seq<U8>)>): Option<(seq<Node>, seq<U8>)>
  {
    if r.None? then None else Some((nodes + r.value.0, r.value.1))
  }

  lemma PrependNothing(r: Option<(seq<Node>, seq<U8>)>)
    ensures Prepend([], r) == r
  {
    if r.Some? {
      assert [] + r.value.0 == r.value.0;
    }
  }

  lemma PrependTwice(a: seq<Node>, b: seq<Node>, r: Option<(seq<Node>, seq<U8>)>)
    ensures Prepend(a, Prepend(b, r)) == Prepend(a + b, r)
  {
    if r.Some? {
      assert a + (b + r.value.0) == (a + b) + r.value.0;
    }
  }

  // ---------------------------------------------------------------------
  // Part 1: the metadata of every node.

  function Sum(ms: seq<U8>): nat
  {
    if ms == [] then 0 else ms[0] as nat + Sum(ms[1..])
  }

  lemma {:induction false} SumAppend(a: seq<U8>, b: seq<U8>)
    ensures Sum(a + b) == Sum(a) + Sum(b)
  {
    if a != [] {
      assert (a + b)[0] == a[0];
      assert (a + b)[1..] == a[1..] + b;
      SumAppend(a[1..], b);
    } else {
      assert a + b == b;
    }
  }

  /** The metadata of a node and all its descendants. */
  function MetaSum(n: Node): nat
    decreases n
  {
    Sum(n.metadata) + MetaSumAll(n.children)
  }

  function MetaSumAll(cs: seq<Node>): nat
    decreases cs
  {
    if cs == [] then 0 else MetaSum(cs[0]) + MetaSumAll(cs[1..])
  }

  /** `all`: the node and then, child by child, all of each child's nodes. */
  function All(n: Node): (nodes: seq<Node>)
    ensures |nodes| >= 1 && nodes[0] == n
    decreases n
  {
    [n] + AllOf(n.children)
  }

  function AllOf(cs: seq<Node>): seq<Node>
    decreases cs
  {
    if cs == [] then [] else All(cs[0]) + AllOf(cs[1..])
  }

  /** What `part1` sums for the nodes listed: each node's own metadata. */
  function OwnMeta(nodes: seq<Node>): nat
  {
    if nodes == [] then 0 else Sum(nodes[0].metadata) + OwnMeta(nodes[1..])
  }

  lemma {:induction false} OwnMetaAppend(a: seq<Node>, b: seq<Node>)
    ensures OwnMeta(a + b) == OwnMeta(a) + OwnMeta(b)
  {
    if a != [] {
      assert (a + b)[0] == a[0];
      assert (a + b)[1..] == a[1..] + b;
      OwnMetaAppend(a[1..], b);
    } else {
      assert a + b == b;
    }
  }

  /** Summing the own metadata of `all` nodes counts every node of the tree once. */
  lemma {:induction false} AllMeta(n: Node)
    ensures OwnMeta(All(n)) == MetaSum(n)
    decreases n
  {
    OwnMetaAppend([n], AllOf(n.children));
    AllOfMeta(n.children);
  }

  lemma {:induction false} AllOfMeta(cs: seq<Node>)
    ensures OwnMeta(AllOf(cs)) == MetaSumAll(cs)
    decreases cs
  {
    if cs != [] {
      OwnMetaAppend(All(cs[0]), AllOf(cs[1..]));
      AllMeta(cs[0]);
      AllOfMeta(cs[1..]);
    }
  }

  /** The trees read one after another until the numbers run out. */
  function ParseForest(v: seq<U8>): Option<seq<Node>>
    decreases |v|
  {
    if v == [] then Some([])
    else
      var first := ParseFrom(v);
      if first.None? then None
      else
        var others := ParseForest(first.value.1);
        if others.None? then None else Some([first.value.0] + others.value)
  }

  function MetaSumForest(trees: seq<Node>): nat
  {
    if trees == [] then 0 else MetaSumForest(trees[..|trees| - 1]) + MetaSum(trees[|trees| - 1])
  }

  /** `part1`: parse trees while numbers are left and sum the metadata of all their nodes. */
  method Part1(input: seq<U8>) returns (r: Option<nat>)
    ensures r.Some? <==> ParseForest(input).Some?
    ensures r.Some? ==> r.value == MetaSumForest(ParseForest(input).value)
  {
    var buf := new Buffer(input);
    var sum := 0;
    ghost var trees: seq<Node> := [];
    assert Append([], ParseForest(input)) == ParseForest(input) by {
      if ParseForest(input).Some? {
        assert [] + ParseForest(input).value == ParseForest(input).value;
      }
    }
    while !buf.IsEmpty()
      invariant sum == MetaSumForest(trees)
      invariant ParseForest(input) == Append(trees, ParseForest(buf.v))
      decreases |buf.v|
    {
      ghost var before := buf.v;
      var node := Parse(buf);
      if node.None? {
        return None;
      }
      AllMeta(node.value);
      sum := sum + OwnMeta(All(node.value));
      AppendTwice(trees, [node.value], ParseForest(buf.v));
      assert (trees + [node.value])[..|trees|] == trees;
      trees := trees + [node.value];
    }
    assert trees + [] == trees;
    assert Append(trees, ParseForest(buf.v)) == Some(trees);
    return Some(sum);
  }

  function Append(trees: seq<Node>, r: Option<seq<Node>>): Option<seq<Node>>
  {
    if r.None? then None else Some(trees + r.value)
  }

  lemma AppendTwice(a: seq<Node>, b: seq<Node>, r: Option<seq<Node>>)
    ensures Append(a, Append(b, r)) == Append(a + b, r)
  {
    if r.Some? {
      assert a + (b + r.value) == (a + b) + r.value;
    }
  }

  /** The forest written tree after tree parses back to the same trees. */
  lemma {:induction false} ParseForestEncoded(trees: seq<Node>)
    requires AllWellFormed(trees)
    ensures ParseForest(EncodeAll(trees)) == Some(trees)
  {
    if trees != [] {
      ParseEncode(trees[0], EncodeAll(trees[1..]));
      ParseForestEncoded(trees[1..]);
      assert [trees[0]] + trees[1..] == trees;
    }
  }

  // ---------------------------------------------------------------------
  // Part 2: the value of a node.

  /**
   * The child a metadata entry selects: `idx - 1` on a `u8`, so 0 wraps
   * to 255 (the wrapping arithmetic of a release build).
   */
  function Selected(m: U8): (k: nat)
    ensures k < 256
    ensures m >= 1 ==> k == m - 1
    ensures m == 0 ==> k == 255
  {
    (m + 255) % 256
  }

  /** `value`: the sum of the metadata for a leaf, else the values of the children the entries select. */
  function Value(n: Node): nat
    decreases n
  {
    if n.children == [] then Sum(n.metadata) else SelectSum(n.children, n.metadata)
  }

  /** The entries' selections, each a missing child counting 0. */
  function SelectSum(cs: seq<Node>, ms: seq<U8>): nat
    decreases cs, |ms|
  {
    if ms == [] then 0 else SelectSum(cs, ms[..|ms| - 1]) + ChildValue(cs, ms[|ms| - 1])
  }

  function ChildValue(cs: seq<Node>, m: U8): nat
    decreases cs, 0
  {
    if Selected(m) < |cs| then Value(cs[Selected(m)]) else 0
  }

  /** `value`: the `for` loop over the metadata, recursing into the selected children. */
  method NodeValue(n: Node) returns (sum: nat)
    ensures sum == Value(n)
    decreases n
  {
    if n.children == [] {
      return Sum(n.metadata);
    }
    sum := 0;
    for i := 0 to |n.metadata|
      invariant sum == SelectSum(n.children, n.metadata[..i])
    {
      var idx := Selected(n.metadata[i]);
      assert n.metadata[..i + 1][..i] == n.metadata[..i];
      var v := 0;
      if idx < |n.children| {
        v := NodeValue(n.children[idx]);
      }
      sum := sum + v;
    }
    assert n.metadata[..|n.metadata|] == n.metadata;
  }

  /** An entry 1 to k selects child entry-1; an entry 0 or above k selects nothing, when there are fewer than 256 children. */
  lemma ChildSelection(cs: seq<Node>, m: U8)
    requires |cs| < 256
    ensures 1 <= m <= |cs| ==> ChildValue(cs, m) == Value(cs[m - 1])
    ensures (m == 0 || m > |cs|) ==> ChildValue(cs, m) == 0
  {
  }

  /** A leaf's value is its metadata sum, which is what part 1 counts for it. */
  lemma LeafValue(n: Node)
    requires n.children == []
    ensures Value(n) == MetaSum(n)
  {
  }

  /** Entries that select no child give a node with children the value 0. */
  lemma {:induction false} NothingSelected(cs: seq<Node>, ms: seq<U8>)
    requires forall i :: 0 <= i < |ms| ==> Selected(ms[i]) >= |cs|
    ensures SelectSum(cs, ms) == 0
    decreases |ms|
  {
    if ms != [] {
      NothingSelected(cs, ms[..|ms| - 1]);
    }
  }

  /** The value only depends on how often each entry occurs, not on their order. */
  lemma {:induction false} SelectSumAppend(cs: seq<Node>, a: seq<U8>, b: seq<U8>)
    ensures SelectSum(cs, a + b) == SelectSum(cs, a) + SelectSum(cs, b)
    decreases |b|
  {
    if b != [] {
      assert (a + b)[..|a + b| - 1] == a + b[..|b| - 1];
      assert (a + b)[|a + b| - 1] == b[|b| - 1];
      SelectSumAppend(cs, a, b[..|b| - 1]);
    } else {
      assert a + b == a;
    }
  }

  /** `part2`: the value of the first tree. */
  method Part2(input: seq<U8>) returns (r: Option<nat>)
    ensures r.Some? <==> ParseFrom(input).Some?
    ensures r.Some? ==> r.value == Value(ParseFrom(input).value.0)
  {
    var buf := new Buffer(input);
    var node := Parse(buf);
    if node.None? {
      return None;
    }
    var value := NodeValue(node.value);
    return Some(value);
  }

  // ---------------------------------------------------------------------
  // The example "2 3 0 3 10 11 12 1 1 0 1 99 2 1 1 2".

  const Example: seq<U8> := [2, 3, 0, 3, 10, 11, 12, 1, 1, 0, 1, 99, 2, 1, 1, 2]

  /** Nodes A (root), B, C and D of the puzzle text. */
  function ExampleTree(): Node
  {
    var d := Node([], [99]);
    var c := Node([d], [2]);
    var b := Node([], [10, 11, 12]);
    Node([b, c], [1, 1, 2])
  }

  lemma ExampleWellFormed(t: Node)
    requires t == ExampleTree()
    ensures WellFormed(t)
  {
    var d := Node([], [99]);
    var c := Node([d], [2]);
    var b := Node([], [10, 11, 12]);
    assert WellFormed(d) && WellFormed(b);
    assert forall x :: x in [d] ==> x == d;
    assert WellFormed(c);
    assert forall x :: x in [b, c] ==> x == b || x == c;
  }

  /** The tree is written as the example's numbers. */
  lemma ExampleEncodes(e: seq<U8>, t: Node)
    requires e == Example && t == ExampleTree()
    ensures WellFormed(t) && Encode(t) == e
  {
    ExampleWellFormed(t);
    var d := Node([], [99]);
    var c := Node([d], [2]);
    var b := Node([], [10, 11, 12]);
    var ed: seq<U8> := [0, 1, 99];
    var ec: seq<U8> := [1, 1, 0, 1, 99, 2];
    var eb: seq<U8> := [0, 3, 10, 11, 12];
    assert Encode(d) == ed by {
      assert EncodeAll([]) == [];
    }
    assert Encode(c) == ec by {
      assert EncodeAll([d]) == ed + EncodeAll([]);
    }
    assert Encode(b) == eb by {
      assert EncodeAll([]) == [];
    }
    assert EncodeAll([b, c]) == eb + ec by {
      assert [b, c][1..] == [c];
      assert EncodeAll([c]) == ec + EncodeAll([]);
    }
    var head: seq<U8> := [2, 3];
    var meta: seq<U8> := [1, 1, 2];
    assert Encode(t) == head + (eb + ec) + meta;
    assert head + (eb + ec) + meta == e;
  }

  /** The example parses as one tree, the tree of the puzzle text. */
  lemma ExampleParses(e: seq<U8>)
    requires e == Example
    ensures ParseForest(e) == Some([ExampleTree()])
    ensures ParseFrom(e) == Some((ExampleTree(), []))
  {
    ExampleEncodes(e, ExampleTree());
    ParseForestEncoded([ExampleTree()]);
    assert EncodeAll([ExampleTree()]) == e + [];
    ParseEncode(ExampleTree(), []);
    assert e + [] == e;
  }

  /** Its metadata sums to 138. */
  lemma ExampleMeta(t: Node)
    requires t == ExampleTree()
    ensures MetaSumForest([t]) == 138
  {
    var d := Node([], [99]);
    var c := Node([d], [2]);
    var b := Node([], [10, 11, 12]);
    assert MetaSum(d) == 99;
    assert MetaSum(b) == 33;
    assert MetaSum(c) == 101;
    assert MetaSumAll([c]) == 101;
    assert MetaSumAll([b, c]) == 134;
    assert MetaSum(t) == 138;
    assert [t][..0] == [];
  }

  /** The root's value is 66: both 1s select B, worth 33; the 2 selects C, worth 0. */
  lemma ExampleValue(t: Node)
    requires t == ExampleTree()
    ensures Value(t) == 66
  {
    var d := Node([], [99]);
    var c := Node([d], [2]);
    var b := Node([], [10, 11, 12]);
    assert Value(b) == 33;
    assert [2][..0] == [];
    assert Value(c) == 0;
    assert [1, 1, 2][..2] == [1, 1];
    assert [1, 1][..1] == [1];
    assert [1][..0] == [];
    assert SelectSum([b, c], [1]) == 33;
    assert SelectSum([b, c], [1, 1]) == 66;
  }

  /** The example answers: 138 for part 1 and 66 for part 2. */
  lemma ExampleAnswers(e: seq<U8>)
    requires e == Example
    ensures ParseForest(e).Some? && MetaSumForest(ParseForest(e).value) == 138
    ensures ParseFrom(e).Some? && Value(ParseFrom(e).value.0) == 66
  {
    ExampleParses(e);
    ExampleMeta(ExampleTree());
    ExampleValue(ExampleTree());
  }
}
