/**
 * 2017 day 13 (src/bin/y2017/day13.rs): the firewall.  Layer i has a
 * scanner sweeping up and down its range; a packet entering layer i at
 * picosecond t is caught when that scanner is at the top.  A layer stores
 * its range minus one, the number of moves of a one-way sweep, and 0 for a
 * depth with no scanner.
 */
module Y2017Day13 {
  import opened Wrappers

  datatype Layer = Layer(depth: nat, range: nat)

  /** `saturating_sub(1)`. */
  function Moves(range: nat): nat
  {
    if range == 0 then 0 else range - 1
  }

  /** Each line's `depth: range`, both parsed as `u8`. */
  predicate Bytes(entries: seq<(nat, nat)>)
  {
    forall k :: 0 <= k < |entries| ==> entries[k].0 < 256 && entries[k].1 < 256
  }

  /** The depths strictly increase, so the filler loop of `parse` stops. */
  predicate Increasing(entries: seq<(nat, nat)>)
  {
    forall k :: 0 < k < |entries| ==> entries[k - 1].0 < entries[k].0
  }

  /** Some line names depth i. */
  predicate Listed(entries: seq<(nat, nat)>, i: nat)
  {
    exists k :: 0 <= k < |entries| && entries[k].0 == i
  }

  /**
   * The layers `parse` builds: one per depth up to the last listed, each
   * knowing its depth, the listed ones with their range minus one and the
   * others empty.
   */
  predicate Describes(layers: seq<Layer>, entries: seq<(nat, nat)>)
  {
    |layers| == (if entries == [] then 0 else entries[|entries| - 1].0 + 1) &&
    (forall i :: 0 <= i < |layers| ==> layers[i].depth == i) &&
    (forall k :: 0 <= k < |entries| && entries[k].0 < |layers| ==> layers[entries[k].0].range == Moves(entries[k].1)) &&
    (forall i :: 0 <= i < |layers| && !Listed(entries, i) ==> layers[i].range == 0)
  }

  /**
   * `Layers::parse` on the lines already split into pairs.  None when a
   * number does not fit a `u8` (the `unwrap` panics) or when a depth does
   * not exceed the previous one (the filler loop never ends).
   */
  method Parse(entries: seq<(nat, nat)>) returns (r: Option<seq<Layer>>)
    ensures r.Some? <==> Bytes(entries) && Increasing(entries)
    ensures r.Some? ==> Describes(r.value, entries)
  {
    var layers: seq<Layer> := [];
    for k := 0 to |entries|
      invariant Bytes(entries[..k]) && Increasing(entries[..k])
      invariant Describes(layers, entries[..k])
    {
      var (depth, range) := entries[k];
      if depth >= 256 || range >= 256 || depth < |layers| {
        assert !Bytes(entries) || !Increasing(entries) by {
          if Bytes(entries) && k > 0 {
            assert entries[..k][k - 1] == entries[k - 1];
          }
        }
        return None;
      }
      ghost var m := |layers|;
      layers := Fill(entries, k, layers);
      layers := layers + [Layer(depth, Moves(range))];
      assert layers[..m] == layers[..entries[k].0][..m];
      PushListed(entries, k, layers, m);
    }
    assert entries[..|entries|] == entries;
    return Some(layers);
  }

  /** The `while` of `parse`: empty layers up to the next listed depth. */
  method Fill(entries: seq<(nat, nat)>, k: nat, layers: seq<Layer>) returns (filled: seq<Layer>)
    requires k < |entries| && |layers| <= entries[k].0
    requires Describes(layers, entries[..k])
    ensures |filled| == entries[k].0 && filled[..|layers|] == layers
    ensures forall i :: |layers| <= i < |filled| ==> filled[i] == Layer(i, 0)
  {
    filled := layers;
    while |filled| != entries[k].0
      invariant |layers| <= |filled| <= entries[k].0 && filled[..|layers|] == layers
      invariant forall i :: |layers| <= i < |filled| ==> filled[i] == Layer(i, 0)
      decreases entries[k].0 - |filled|
    {
      var l := |filled|;
      filled := filled + [Layer(l, 0)];
    }
  }

  /** After the push for line k the layers describe the first k + 1 lines. */
  lemma PushListed(entries: seq<(nat, nat)>, k: nat, layers: seq<Layer>, m: nat)
    requires k < |entries| && Bytes(entries[..k]) && Increasing(entries[..k])
    requires m == (if k == 0 then 0 else entries[k - 1].0 + 1) && m <= entries[k].0
    requires |layers| == entries[k].0 + 1 && layers[entries[k].0] == Layer(entries[k].0, Moves(entries[k].1))
    requires Describes(layers[..m], entries[..k])
    requires forall i :: m <= i < entries[k].0 ==> layers[i] == Layer(i, 0)
    requires entries[k].0 < 256 && entries[k].1 < 256
    ensures Bytes(entries[..k + 1]) && Increasing(entries[..k + 1])
    ensures Describes(layers, entries[..k + 1])
  {
    var e, e' := entries[..k], entries[..k + 1];
    assert e' == e + [entries[k]];
    var prefix := layers[..m];
    forall i | 0 <= i < |layers|
      ensures layers[i].depth == i
    {
      if i < m {
        assert layers[i] == prefix[i];
      }
    }
    forall j | 0 <= j < |e'| && e'[j].0 < |layers|
      ensures layers[e'[j].0].range == Moves(e'[j].1)
    {
      if j < k {
        assert e'[j] == e[j];
        assert e[j].0 <= entries[k - 1].0 by {
          IncreasingBelow(e, j, k - 1);
        }
        assert layers[e[j].0] == prefix[e[j].0];
      }
    }
    forall i | 0 <= i < |layers| && !Listed(e', i)
      ensures layers[i].range == 0
    {
      assert e'[k].0 == entries[k].0;
      if i < m {
        assert layers[i] == prefix[i];
        forall j | 0 <= j < |e|
          ensures e[j].0 != i
        {
          assert e'[j] == e[j];
        }
      }
    }
  }

  /** In an increasing list, earlier depths are smaller. */
  lemma {:induction false} IncreasingBelow(e: seq<(nat, nat)>, j: nat, m: nat)
    requires Increasing(e) && j <= m < |e|
    ensures e[j].0 <= e[m].0
    decreases m - j
  {
    if j < m {
      IncreasingBelow(e, j + 1, m);
    }
  }

  /** The penalty of layer l when the packet enters it at picosecond t: depth times range. */
  function Penalty(l: Layer, t: nat): nat
  {
    if l.range != 0 && t % (2 * l.range) == 0 then l.depth * (l.range + 1) else 0
  }

  /** The severity of a trip through the layers entered from picosecond `start` on. */
  function Severity(layers: seq<Layer>, start: nat): nat
  {
    if layers == [] then 0
    else Severity(layers[..|layers| - 1], start) + Penalty(layers[|layers| - 1], start + |layers| - 1)
  }

  /** The firewall as `run` sees it: the layers and the picosecond counter it advances. */
  class Layers {
    var scanner: nat
    var layers: seq<Layer>

    /** The result of `parse`: the counter starts at 0. */
    constructor(layers: seq<Layer>)
      ensures this.layers == layers && scanner == 0
    {
      this.layers := layers;
      scanner := 0;
    }

    /** `run`: one picosecond per layer, adding the penalty of every catch. */
    method Run() returns (severity: nat)
      modifies this
      ensures layers == old(layers) && scanner == old(scanner) + |layers|
      ensures severity == Severity(layers, old(scanner))
    {
      severity := 0;
      ghost var start := scanner;
      for i := 0 to |layers|
        invariant layers == old(layers) && scanner == start + i
        invariant severity == Severity(layers[..i], start)
      {
        var layer := layers[i];
        var range := layer.range * 2;
        if range != 0 && scanner % range == 0 {
          severity := severity + layer.depth * (layer.range + 1);
        }
        assert layers[..i + 1][..i] == layers[..i];
        scanner := scanner + 1;
      }
      assert layers[..|layers|] == layers;
    }
  }

  /** `part1`: the severity of leaving at once; None when parsing fails. */
  method Part1(entries: seq<(nat, nat)>) returns (r: Option<nat>)
    ensures r.Some? <==> Bytes(entries) && Increasing(entries)
    ensures r.Some? ==> exists layers :: Describes(layers, entries) && r.value == Severity(layers, 0)
  {
    var parsed := Parse(entries);
    if parsed.None? {
      return None;
    }
    var firewall := new Layers(parsed.value);
    var severity := firewall.Run();
    return Some(severity);
  }

  /** The scanner of layer i is at the top when the packet delayed by `delay` reaches it. */
  predicate Catches(layers: seq<Layer>, delay: nat, i: nat)
    requires i < |layers|
  {
    layers[i].range != 0 && (delay + i) % (2 * layers[i].range) == 0
  }

  /** Whether some scanner catches the packet delayed by `delay`. */
  predicate CaughtAt(layers: seq<Layer>, delay: nat)
  {
    exists i :: 0 <= i < |layers| && Catches(layers, delay, i)
  }

  /**
   * A trip has positive severity exactly when a layer other than the first
   * catches it: a catch at depth 0 costs nothing, which is why `part2`
   * checks catches and not severities.
   */
  lemma {:induction false} SeverityIffCaughtBelowTop(layers: seq<Layer>, delay: nat)
    requires forall i :: 0 <= i < |layers| ==> layers[i].depth == i
    ensures Severity(layers, delay) > 0 <==> exists i :: 1 <= i < |layers| && Catches(layers, delay, i)
    ensures Severity(layers, delay) > 0 ==> CaughtAt(layers, delay)
  {
    if layers != [] {
      var n := |layers|;
      var init := layers[..n - 1];
      SeverityIffCaughtBelowTop(init, delay);
      forall i | 0 <= i < n - 1
        ensures Catches(init, delay, i) == Catches(layers, delay, i)
      {
        assert init[i] == layers[i];
      }
      assert Penalty(layers[n - 1], delay + n - 1) > 0 <==> n - 1 >= 1 && Catches(layers, delay, n - 1);
    }
  }

  /** The inner loop of `part2`: does any scanner catch the packet delayed by `delay`? */
  method Caught(layers: seq<Layer>, delay: nat) returns (caught: bool)
    ensures caught == CaughtAt(layers, delay)
  {
    caught := false;
    for i := 0 to |layers|
      invariant !caught
      invariant forall j :: 0 <= j < i ==> !Catches(layers, delay, j)
    {
      if layers[i].range != 0 && (delay + i) % (layers[i].range * 2) == 0 {
        assert Catches(layers, delay, i);
        caught := true;
        return;
      }
    }
  }

  /** `delay` is never caught and every smaller delay is. */
  predicate FirstSafe(layers: seq<Layer>, delay: nat)
  {
    !CaughtAt(layers, delay) && forall d :: 0 <= d < delay ==> CaughtAt(layers, d)
  }

  /**
   * `part2` over the first `fuel` delays (the source counts up until it
   * finds one): the smallest delay at which no scanner catches the packet.
   */
  method Part2(entries: seq<(nat, nat)>, fuel: nat) returns (r: Option<nat>)
    requires Bytes(entries) && Increasing(entries)
    ensures r.Some? ==> exists layers :: Describes(layers, entries) && FirstSafe(layers, r.value)
    ensures r.None? ==> exists layers :: Describes(layers, entries) && forall d :: 0 <= d < fuel ==> CaughtAt(layers, d)
  {
    var parsed := Parse(entries);
    var layers := parsed.value;
    for delay := 0 to fuel
      invariant forall d :: 0 <= d < delay ==> CaughtAt(layers, d)
    {
      var caught := Caught(layers, delay);
      if !caught {
        return Some(delay);
      }
    }
    return None;
  }

  /** A listed layer of range 1 is stored like a depth with no scanner, so it never catches the packet. */
  lemma RangeOneNeverCatches(layers: seq<Layer>, entries: seq<(nat, nat)>, k: nat, delay: nat)
    requires Describes(layers, entries) && Increasing(entries) && k < |entries| && entries[k].1 == 1
    ensures entries[k].0 < |layers| && !Catches(layers, delay, entries[k].0)
  {
    IncreasingBelow(entries, k, |entries| - 1);
  }

  /** The lines of the example. */
  const Example: seq<(nat, nat)> := [(0, 3), (1, 2), (4, 4), (6, 4)]

  /** The example's layers, as `parse` builds them. */
  const ExampleLayers: seq<Layer> :=
    [Layer(0, 2), Layer(1, 1), Layer(2, 0), Layer(3, 0), Layer(4, 3), Layer(5, 0), Layer(6, 3)]

  lemma ExampleParses(e: seq<(nat, nat)>, layers: seq<Layer>)
    requires e == Example && layers == ExampleLayers
    ensures Describes(layers, e)
  {
    assert e[0].0 == 0 && e[1].0 == 1 && e[2].0 == 4 && e[3].0 == 6;
  }

  /** The example's severity is 24 (caught at depths 0 and 6). */
  lemma ExampleSeverity(layers: seq<Layer>)
    requires layers == ExampleLayers
    ensures Severity(layers, 0) == 24
  {
    forall k | 1 <= k <= 7
      ensures layers[..k][..k - 1] == layers[..k - 1] && layers[..k][k - 1] == layers[k - 1]
    {
    }
    assert layers[..7] == layers;
    assert Severity(layers[..1], 0) == 0;
    assert Severity(layers[..2], 0) == 0;
    assert Severity(layers[..3], 0) == 0;
    assert Severity(layers[..4], 0) == 0;
    assert Severity(layers[..5], 0) == 0;
    assert Severity(layers[..6], 0) == 0;
  }

  /** Delaying by 10 picoseconds is the first delay that is never caught. */
  lemma ExampleDelay(layers: seq<Layer>)
    requires layers == ExampleLayers
    ensures FirstSafe(layers, 10)
  {
    forall d | 0 <= d < 10
      ensures CaughtAt(layers, d)
    {
      if d % 4 == 0 {
        assert Catches(layers, d, 0);
      } else if d % 2 == 1 {
        assert Catches(layers, d, 1);
      } else if d == 2 {
        assert Catches(layers, d, 4);
      } else {
        assert Catches(layers, d, 6);
      }
    }
  }
}
