/**
 * 2016 day 11 (src/bin/y2016/day11.rs): generators and microchips carried
 * between four floors by an elevator.  The source packs a floor into a
 * 16-bit flag word: bit 2k is the generator of element k and bit 2k+1 its
 * microchip (k < 7: thulium, plutonium, strontium, promethium, ruthenium,
 * elerium, dilithium), and bit 14 is the elevator.  Here a flag word is
 * the same information split by kind: the elements whose generator bit is
 * set, those whose microchip bit is set, and the elevator bit.  The word's
 * `&`, `|`, `!` (complement within the defined flags), `contains`,
 * `insert` and `remove` act on each part.  A microchip left with another
 * element's generator, and without its own, is destroyed.
 */
module Y2016Day11 {
  import opened Wrappers

  /** Element k, whose generator is bit 2k and whose microchip is bit 2k+1. */
  type Element = k: nat | k < 7

  const Elements: set<Element> := {0, 1, 2, 3, 4, 5, 6}

  /** Every element is one of the seven. */
  lemma InElements(k: Element)
    ensures k in Elements
  {
  }

  /** A flag word: the generators, the microchips and the elevator it holds. */
  datatype Item = Item(gens: set<Element>, chips: set<Element>, elevator: bool)

  const Empty: Item := Item({}, {}, false)

  /** The source's masks `GENERATOR`, `MICROCHIP` and `ELEVATOR`. */
  const Generator: Item := Item(Elements, {}, false)
  const Microchip: Item := Item({}, Elements, false)
  const Elevator: Item := Item({}, {}, true)

  function And(x: Item, y: Item): Item
  {
    Item(x.gens * y.gens, x.chips * y.chips, x.elevator && y.elevator)
  }

  function Or(x: Item, y: Item): Item
  {
    Item(x.gens + y.gens, x.chips + y.chips, x.elevator || y.elevator)
  }

  /** `!`: the defined flags that `x` does not hold. */
  function Not(x: Item): Item
  {
    Item(Elements - x.gens, Elements - x.chips, !x.elevator)
  }

  /** `contains`: every flag of `y` is in `x`. */
  predicate Contains(x: Item, y: Item)
  {
    y.gens <= x.gens && y.chips <= x.chips && (y.elevator ==> x.elevator)
  }

  /** `remove`, which bitflags computes as `x & !y`. */
  function Remove(x: Item, y: Item): Item
  {
    And(x, Not(y))
  }

  /** Intersecting with every element changes nothing. */
  lemma AllElements(s: set<Element>)
    ensures s * Elements == s
  {
    forall k | k in s
      ensures k in Elements
    {
      InElements(k);
    }
  }

  /** `x & !y` takes away exactly the flags of `y`. */
  lemma RemoveIsDifference(x: Item, y: Item)
    ensures Remove(x, y) == Item(x.gens - y.gens, x.chips - y.chips, x.elevator && !y.elevator)
  {
    AllElements(x.gens);
    AllElements(x.chips);
  }

  /** `Floor::set_elevator`. */
  function SetElevator(x: Item, e: bool): Item
  {
    Item(x.gens, x.chips, e)
  }

  /**
   * `to_microchip`: the generator bits shifted one up, so generator k
   * becomes microchip k.  The shifted word has only defined bits, so the
   * `unwrap` never fails.
   */
  function ToMicrochip(x: Item): (r: Item)
    ensures Contains(Microchip, r)
  {
    Item({}, And(x, Generator).gens, false)
  }

  /** `to_generator`: the microchip bits shifted one down. */
  function ToGenerator(x: Item): (r: Item)
    ensures Contains(Generator, r)
  {
    Item(And(x, Microchip).chips, {}, false)
  }

  /**
   * Masking keeps one half, the shifts move each half onto the other and
   * undo each other there.
   */
  lemma ShiftsInverse(x: Item)
    ensures And(x, Generator) == Item(x.gens, {}, false)
    ensures And(x, Microchip) == Item({}, x.chips, false)
    ensures ToMicrochip(x) == Item({}, x.gens, false)
    ensures ToGenerator(x) == Item(x.chips, {}, false)
    ensures ToGenerator(ToMicrochip(x)) == And(x, Generator)
    ensures ToMicrochip(ToGenerator(x)) == And(x, Microchip)
  {
    AllElements(x.gens);
    AllElements(x.chips);
  }

  // ---------------------------------------------------------------------
  // Floor validity
  // ---------------------------------------------------------------------

  /**
   * `Floor::is_valid` as written: after the empty and generator-free
   * cases it asks whether the microchips, shifted onto generators,
   * contain the generators, which is the condition with generator and
   * chip swapped.
   */
  predicate IsValidAsWritten(f: Item): (ok: bool)
    ensures f.gens == {} ==> ok
  {
    ShiftsInverse(f);
    if f == Empty then true
    else if And(f, Generator) == Empty then true
    else Contains(ToGenerator(f), And(f, Generator))
  }

  /** The check as written holds iff there is no generator, or every generator has its chip. */
  lemma IsValidAsWrittenMeans(f: Item)
    ensures IsValidAsWritten(f) <==> f.gens == {} || f.gens <= f.chips
  {
    ShiftsInverse(f);
  }

  /**
   * The check the comment above `is_valid` describes: the floor has no
   * generator, or every microchip on it has its own generator.  The moves
   * below use it when given `Corrected`.
   */
  predicate IsValid(f: Item): (ok: bool)
    ensures f.gens == {} ==> ok
  {
    ShiftsInverse(f);
    if f == Empty then true
    else if And(f, Generator) == Empty then true
    else Contains(And(f, Generator), ToGenerator(f))
  }

  /** A valid floor is one where no microchip is left with a foreign generator. */
  lemma IsValidMeans(f: Item)
    ensures IsValid(f) <==> f.gens == {} || f.chips <= f.gens
  {
    ShiftsInverse(f);
  }

  const Thulium: Element := 0
  const Plutonium: Element := 1

  /**
   * Thulium's generator and chip with plutonium's generator: the chip is
   * protected by its own generator, yet the check as written refuses the
   * floor because the plutonium generator has no chip.
   */
  lemma AsWrittenRejectsSafeFloor()
    ensures IsValid(Item({Thulium, Plutonium}, {Thulium}, false))
    ensures !IsValidAsWritten(Item({Thulium, Plutonium}, {Thulium}, false))
  {
    var f := Item({Thulium, Plutonium}, {Thulium}, false);
    IsValidAsWrittenMeans(f);
    IsValidMeans(f);
    assert Plutonium in f.gens && Plutonium !in f.chips;
  }

  /**
   * Thulium's generator and chip with plutonium's chip: that chip sits
   * with a foreign generator and not its own, yet the check as written
   * accepts the floor.
   */
  lemma AsWrittenAcceptsFriedChip()
    ensures !IsValid(Item({Thulium}, {Thulium, Plutonium}, false))
    ensures IsValidAsWritten(Item({Thulium}, {Thulium, Plutonium}, false))
  {
    var f := Item({Thulium}, {Thulium, Plutonium}, false);
    IsValidAsWrittenMeans(f);
    IsValidMeans(f);
    assert Plutonium in f.chips && Plutonium !in f.gens;
  }

  // ---------------------------------------------------------------------
  // The floor key
  // ---------------------------------------------------------------------

  lemma {:induction false} SubsetCard(a: set<Element>, b: set<Element>)
    requires a <= b
    ensures |a| <= |b|
    decreases |b|
  {
    if a != {} {
      var x :| x in a;
      SubsetCard(a - {x}, b - {x});
    }
  }

  /** There are seven elements. */
  lemma AtMostSeven(s: set<Element>)
    ensures |s| <= 7
  {
    AllElements(s);
    SubsetCard(s, Elements);
    assert |Elements| == 7;
  }

  /**
   * `Floor::to_hashable`: the number of complete pairs (the set bits of
   * the paired generators) and the flags that are not part of a pair.
   * The count is at most 7, so its `as u8` never truncates.
   */
  function ToHashable(f: Item): (r: (nat, Item))
    ensures r.0 <= 7
  {
    var generator := And(f, Generator);
    var microchip := ToGenerator(f);
    var pairs := And(generator, microchip);
    var paired := |pairs.gens|;
    var unpaired := And(f, Not(Or(pairs, ToMicrochip(pairs))));
    AtMostSeven(pairs.gens);
    (paired, unpaired)
  }

  /**
   * The key counts the elements with both flags on the floor and keeps
   * each generator or microchip whose partner is missing, and the
   * elevator.
   */
  lemma HashableMeans(f: Item)
    ensures ToHashable(f).0 == |f.gens * f.chips|
    ensures ToHashable(f).1 == Item(f.gens - f.chips, f.chips - f.gens, f.elevator)
  {
    var both := f.gens * f.chips;
    var covered := Item(both, both, false);
    CoveredOf(f);
    assert ToHashable(f) == (|both|, Remove(f, covered));
    RemoveIsDifference(f, covered);
    DiffInter(f.gens, f.chips);
    DiffInter(f.chips, f.gens);
  }

  /** `pairs | pairs.to_microchip()` in `to_hashable`: both flags of every complete pair. */
  lemma CoveredOf(f: Item)
    ensures var pairs := And(And(f, Generator), ToGenerator(f));
      pairs == Item(f.gens * f.chips, {}, false)
      && Or(pairs, ToMicrochip(pairs)) == Item(f.gens * f.chips, f.gens * f.chips, false)
  {
    PairsOf(f);
    ShiftsInverse(Item(f.gens * f.chips, {}, false));
  }

  lemma DiffInter(a: set<Element>, b: set<Element>)
    ensures a - a * b == a - b && a - b * a == a - b
  {
  }

  /** `generator & microchip` in `to_hashable`: the elements with both flags. */
  lemma PairsOf(f: Item)
    ensures And(And(f, Generator), ToGenerator(f)) == Item(f.gens * f.chips, {}, false)
  {
    ShiftsInverse(f);
  }

  /** The validity test read off a key: no pair and no lone generator, or no lone microchip. */
  predicate KeyValid(h: (nat, Item))
  {
    (h.0 == 0 && h.1.gens == {}) || h.1.chips == {}
  }

  /** A set splits into the part outside another set and the part inside it. */
  lemma Split(a: set<Element>, b: set<Element>)
    ensures a == (a - b) + (a * b)
  {
  }

  /** The key determines whether the floor is valid. */
  lemma ValidByHash(f: Item)
    ensures IsValid(f) <==> KeyValid(ToHashable(f))
  {
    IsValidMeans(f);
    HashableMeans(f);
    Split(f.gens, f.chips);
  }

  /** The key determines whether the floor is empty. */
  lemma EmptyByHash(f: Item)
    ensures f == Empty <==> ToHashable(f) == (0, Empty)
  {
    HashableMeans(f);
    Split(f.gens, f.chips);
    Split(f.chips, f.gens);
  }

  /**
   * Floors with the same key agree on validity, emptiness and the
   * elevator, hold the same unpaired generators and microchips, and the
   * same number of complete pairs.
   */
  lemma SameHashSameFloor(f: Item, g: Item)
    requires ToHashable(f) == ToHashable(g)
    ensures IsValid(f) == IsValid(g)
    ensures (f == Empty) == (g == Empty)
    ensures f.elevator == g.elevator
    ensures f.gens - f.chips == g.gens - g.chips && f.chips - f.gens == g.chips - g.gens
    ensures |f.gens * f.chips| == |g.gens * g.chips|
  {
    ValidByHash(f);
    ValidByHash(g);
    EmptyByHash(f);
    EmptyByHash(g);
    HashableMeans(f);
    HashableMeans(g);
  }

  // ---------------------------------------------------------------------
  // Floors and moves
  // ---------------------------------------------------------------------

  /** `Floors`: the four floors, ground floor first. */
  type Floors = fs: seq<Item> | |fs| == 4 witness [Empty, Empty, Empty, Empty]

  /** Every generator and microchip on some floor. */
  function Items(fs: Floors): Item
  {
    SetElevator(Or(Or(fs[0], fs[1]), Or(fs[2], fs[3])), false)
  }

  /**
   * `elevator_floor_idx`: the first floor holding the elevator; None
   * where the source's `unwrap` fails.
   */
  function ElevatorFloor(fs: Floors): (r: Option<nat>)
    ensures r.Some? ==> (r.value < 4 && fs[r.value].elevator
      && forall i :: 0 <= i < r.value ==> !fs[i].elevator)
    ensures r.None? ==> forall i :: 0 <= i < 4 ==> !fs[i].elevator
  {
    if fs[0].elevator then Some(0)
    else if fs[1].elevator then Some(1)
    else if fs[2].elevator then Some(2)
    else if fs[3].elevator then Some(3)
    else None
  }

  /** `x & y` is empty. */
  predicate Disjoint(x: Item, y: Item)
  {
    x.gens !! y.gens && x.chips !! y.chips && !(x.elevator && y.elevator)
  }

  /**
   * A consistent arrangement: no flag on two floors, so each generator,
   * microchip and the elevator is in one place at most, and the elevator
   * somewhere.
   */
  ghost predicate WellFormed(fs: Floors)
  {
    (forall i, j :: 0 <= i < 4 && 0 <= j < 4 && i != j ==> Disjoint(fs[i], fs[j]))
    && ElevatorFloor(fs).Some?
  }

  /** The second item of a move, or no flag. */
  function Second(b: Option<Item>): Item
  {
    if b.Some? then b.value else Empty
  }

  /** `Floor::departing_with`: the floor without the elevator, `a` and `b`. */
  function DepartingWith(f: Item, a: Item, b: Option<Item>): (r: Item)
    ensures r == Item(f.gens - a.gens - Second(b).gens, f.chips - a.chips - Second(b).chips, false)
  {
    var g := Remove(SetElevator(f, false), a);
    RemoveIsDifference(SetElevator(f, false), a);
    if b.Some? then
      RemoveIsDifference(g, b.value);
      Remove(g, b.value)
    else g
  }

  /**
   * `Floors::moving`: `from` departs with the elevator, `a` and `b`; then
   * `to` gains all three.  The other floors are untouched.
   */
  function Moving(fs: Floors, from: nat, to: nat, a: Item, b: Option<Item>): (r: Floors)
    requires from < 4 && to < 4
    ensures forall i :: 0 <= i < 4 && i != from && i != to ==> r[i] == fs[i]
    ensures Contains(r[to], Or(Elevator, Or(a, Second(b))))
    ensures from != to ==> r[from] == DepartingWith(fs[from], a, b)
  {
    var floors := fs[from := DepartingWith(fs[from], a, b)];
    var dest := Or(SetElevator(floors[to], true), a);
    floors[to := if b.Some? then Or(dest, b.value) else dest]
  }

  /**
   * Moving items held on the elevator's floor to another floor keeps the
   * arrangement consistent and the set of items, places the elevator on
   * `to`, and changes the two floors by exactly the moved items.
   */
  lemma MovingCarries(fs: Floors, from: nat, to: nat, a: Item, b: Option<Item>)
    requires WellFormed(fs) && from < 4 && to < 4 && from != to
    requires fs[from].elevator
    requires !a.elevator && !Second(b).elevator && Contains(fs[from], Or(a, Second(b)))
    ensures WellFormed(Moving(fs, from, to, a, b))
    ensures Items(Moving(fs, from, to, a, b)) == Items(fs)
    ensures ElevatorFloor(Moving(fs, from, to, a, b)) == Some(to)
    ensures Moving(fs, from, to, a, b)[from]
      == Item(fs[from].gens - a.gens - Second(b).gens, fs[from].chips - a.chips - Second(b).chips, false)
    ensures Moving(fs, from, to, a, b)[to]
      == Item(fs[to].gens + a.gens + Second(b).gens, fs[to].chips + a.chips + Second(b).chips, true)
  {
    var r := Moving(fs, from, to, a, b);
    var m := Or(a, Second(b));
    assert r[to] == Item(fs[to].gens + m.gens, fs[to].chips + m.chips, true);
    MovingKeepsItems(fs, from, to, a, b);
    assert Disjoint(fs[from], fs[to]);
    forall i, j | 0 <= i < 4 && 0 <= j < 4 && i != j
      ensures Disjoint(r[i], r[j])
    {
      assert Disjoint(fs[i], fs[j]);
      assert i == from || Disjoint(fs[from], fs[i]);
      assert j == from || Disjoint(fs[from], fs[j]);
    }
    forall i | 0 <= i < 4 && i != to
      ensures !r[i].elevator
    {
      assert i == from || Disjoint(fs[from], fs[i]);
    }
  }

  /** What leaves `from` arrives on `to`, so the items stay the same. */
  lemma MovingKeepsItems(fs: Floors, from: nat, to: nat, a: Item, b: Option<Item>)
    requires from < 4 && to < 4 && from != to
    requires Contains(fs[from], Or(a, Second(b)))
    ensures Items(Moving(fs, from, to, a, b)) == Items(fs)
  {
    var r := Moving(fs, from, to, a, b);
    var m := Or(a, Second(b));
    assert r[to] == Item(fs[to].gens + m.gens, fs[to].chips + m.chips, true);
    assert r[from] == Item(fs[from].gens - m.gens, fs[from].chips - m.chips, false);
  }

  /** Which floor check a move applies: `is_valid` as written (day11.rs:184) or as its comment intends. */
  datatype Check = AsWritten | Corrected

  /** The destination check of a move. */
  predicate Passes(check: Check, f: Item)
  {
    if check.AsWritten? then IsValidAsWritten(f) else IsValid(f)
  }

  /**
   * `Floors::move_down`: nothing from the ground floor, nothing onto an
   * empty floor, and nothing that leaves the floor below failing the check.
   * The source calls `is_valid` as written; `Corrected` is the intended check.
   */
  function MoveDown(fs: Floors, from: nat, a: Item, b: Option<Item>, check: Check): (r: Option<Floors>)
    requires from < 4
    ensures r.None? <==> (from == 0 || fs[from - 1] == Empty
      || !Passes(check, Moving(fs, from, from - 1, a, b)[from - 1]))
    ensures r.Some? ==> r.value == Moving(fs, from, from - 1, a, b)
  {
    if from == 0 then None
    else if fs[from - 1] == Empty then None
    else
      var floors := Moving(fs, from, from - 1, a, b);
      if Passes(check, floors[from - 1]) then Some(floors) else None
  }

  /** `Floors::move_up`: nothing from the top floor, nothing that leaves the floor above failing the check. */
  function MoveUp(fs: Floors, from: nat, a: Item, b: Option<Item>, check: Check): (r: Option<Floors>)
    requires from < 4
    ensures r.None? <==> from + 1 >= 4 || !Passes(check, Moving(fs, from, from + 1, a, b)[from + 1])
    ensures r.Some? ==> r.value == Moving(fs, from, from + 1, a, b)
  {
    if from + 1 >= 4 then None
    else
      var floors := Moving(fs, from, from + 1, a, b);
      if Passes(check, floors[from + 1]) then Some(floors) else None
  }

  /**
   * A move the elevator makes with items from its own floor keeps the
   * arrangement consistent and the items, and leaves the elevator on the
   * destination.  With the corrected check no microchip there is with a
   * foreign generator; with the check as written every generator there has
   * its chip.
   */
  lemma MovesAreSafe(fs: Floors, from: nat, a: Item, b: Option<Item>, up: bool, check: Check)
    requires WellFormed(fs) && ElevatorFloor(fs) == Some(from)
    requires !a.elevator && !Second(b).elevator && Contains(fs[from], Or(a, Second(b)))
    ensures var r := if up then MoveUp(fs, from, a, b, check) else MoveDown(fs, from, a, b, check);
      var to := if up then from + 1 else from - 1;
      r.Some? ==>
        WellFormed(r.value) && Items(r.value) == Items(fs) && ElevatorFloor(r.value) == Some(to)
        && (check.Corrected? ==> r.value[to].gens == {} || r.value[to].chips <= r.value[to].gens)
        && (check.AsWritten? ==> r.value[to].gens == {} || r.value[to].gens <= r.value[to].chips)
  {
    var r := if up then MoveUp(fs, from, a, b, check) else MoveDown(fs, from, a, b, check);
    if r.Some? {
      var to := if up then from + 1 else from - 1;
      MovingCarries(fs, from, to, a, b);
      IsValidMeans(r.value[to]);
      IsValidAsWrittenMeans(r.value[to]);
    }
  }

  /** Thulium's generator and chip on the ground floor with the elevator, plutonium's generator on the first. */
  const Shielded: Floors := [Item({Thulium}, {Thulium}, true), Item({Plutonium}, {}, false), Empty, Empty]

  /**
   * The source's moves use the check as written, and so refuse a safe move:
   * carrying thulium's generator and chip up to plutonium's generator.
   */
  lemma AsWrittenRefusesSafeMove()
    ensures MoveUp(Shielded, 0, Item({Thulium}, {Thulium}, false), None, Corrected).Some?
    ensures MoveUp(Shielded, 0, Item({Thulium}, {Thulium}, false), None, AsWritten).None?
  {
    var r := Moving(Shielded, 0, 1, Item({Thulium}, {Thulium}, false), None);
    assert r[1] == Item({Plutonium, Thulium}, {Thulium}, true);
    IsValidMeans(r[1]);
    IsValidAsWrittenMeans(r[1]);
    assert Plutonium !in r[1].chips;
  }

  /** Thulium's generator, plutonium's generator and chip, and the elevator on the ground floor. */
  const Lopsided: Floors := [Item({Thulium, Plutonium}, {Plutonium}, true), Empty, Empty, Empty]

  /**
   * Only the destination is checked: taking plutonium's generator up
   * leaves plutonium's chip with thulium's generator on the ground floor.
   */
  lemma MoveChecksOnlyDestination()
    ensures MoveUp(Lopsided, 0, Item({Plutonium}, {}, false), None, Corrected).Some?
    ensures !IsValid(MoveUp(Lopsided, 0, Item({Plutonium}, {}, false), None, Corrected).value[0])
  {
    var r := Moving(Lopsided, 0, 1, Item({Plutonium}, {}, false), None);
    assert r[1] == Item({Plutonium}, {}, true);
    assert r[0] == Item({Thulium}, {Plutonium}, false);
    IsValidMeans(r[1]);
    IsValidMeans(r[0]);
    assert Plutonium !in r[0].gens;
  }

  /** Whether every floor of `s` is empty (no item and no elevator). */
  function AllEmpty(s: seq<Item>): (r: bool)
    ensures r <==> forall i :: 0 <= i < |s| ==> s[i] == Empty
  {
    if s == [] then true else s[0] == Empty && AllEmpty(s[1..])
  }

  /** `State::is_done`: all floors but the top one are empty. */
  predicate IsDone(fs: Floors)
  {
    AllEmpty(fs[..3])
  }

  /** `is_done` looks at the three lower floors. */
  lemma IsDoneFloors(fs: Floors)
    ensures IsDone(fs) <==> fs[0] == Empty && fs[1] == Empty && fs[2] == Empty
  {
    var low := fs[..3];
    assert low[0] == fs[0] && low[1] == fs[1] && low[2] == fs[2];
  }

  /** Done means every item and the elevator are on the top floor. */
  lemma IsDoneMeans(fs: Floors)
    requires WellFormed(fs)
    ensures IsDone(fs) <==> Contains(fs[3], Or(Items(fs), Elevator))
  {
    assert Disjoint(fs[0], fs[3]) && Disjoint(fs[1], fs[3]) && Disjoint(fs[2], fs[3]);
    IsDoneFloors(fs);
  }

  /** `Floors::eq`: floor by floor, the same key. */
  predicate SameFloors(fs: Floors, gs: Floors)
  {
    ToHashable(fs[0]) == ToHashable(gs[0])
    && ToHashable(fs[1]) == ToHashable(gs[1])
    && ToHashable(fs[2]) == ToHashable(gs[2])
    && ToHashable(fs[3]) == ToHashable(gs[3])
  }

  /**
   * Arrangements the search treats as equal agree on what it looks at:
   * whether they are done, where the elevator is, and which floors are
   * valid.
   */
  lemma SameFloorsAgree(fs: Floors, gs: Floors)
    requires SameFloors(fs, gs)
    ensures IsDone(fs) == IsDone(gs)
    ensures ElevatorFloor(fs) == ElevatorFloor(gs)
    ensures forall i :: 0 <= i < 4 ==> IsValid(fs[i]) == IsValid(gs[i])
  {
    SameHashSameFloor(fs[0], gs[0]);
    SameHashSameFloor(fs[1], gs[1]);
    SameHashSameFloor(fs[2], gs[2]);
    SameHashSameFloor(fs[3], gs[3]);
    IsDoneFloors(fs);
    IsDoneFloors(gs);
    forall i | 0 <= i < 4
      ensures IsValid(fs[i]) == IsValid(gs[i])
    {
      if i == 0 {
      } else if i == 1 {
      } else if i == 2 {
      } else {
        assert i == 3;
      }
    }
  }

  /** What `Floors::hash` feeds the hasher: the four floor keys. */
  datatype FloorsKey = FloorsKey(k0: (nat, Item), k1: (nat, Item), k2: (nat, Item), k3: (nat, Item))

  /** The value the hash set tells arrangements apart by. */
  function Key(fs: Floors): FloorsKey
  {
    FloorsKey(ToHashable(fs[0]), ToHashable(fs[1]), ToHashable(fs[2]), ToHashable(fs[3]))
  }

  /** The hash set's equality is `Floors::eq`. */
  lemma KeyIsSameFloors(fs: Floors, gs: Floors)
    ensures Key(fs) == Key(gs) <==> SameFloors(fs, gs)
  {
  }

  /**
   * The puzzle input: thulium's generator and chip with plutonium's and
   * strontium's generators and the elevator; plutonium's and strontium's
   * chips; promethium and ruthenium complete; nothing.
   */
  const Input: Floors := [
    Item({0, 1, 2}, {0}, true),
    Item({}, {1, 2}, false),
    Item({3, 4}, {3, 4}, false),
    Empty
  ]

  /**
   * The input's floors are all valid; the check as written would refuse
   * its ground floor, whose plutonium and strontium generators have no
   * chip there.
   */
  lemma InputIsValid()
    ensures WellFormed(Input) && !IsDone(Input) && ElevatorFloor(Input) == Some(0)
    ensures forall i :: 0 <= i < 4 ==> IsValid(Input[i])
    ensures !IsValidAsWritten(Input[0])
  {
    forall i | 0 <= i < 4
      ensures IsValid(Input[i])
    {
      IsValidMeans(Input[i]);
    }
    IsValidAsWrittenMeans(Input[0]);
    assert 1 in Input[0].gens && 1 !in Input[0].chips;
  }

  // ---------------------------------------------------------------------
  // ItemIter
  // ---------------------------------------------------------------------

  /** A bit position of a generator or microchip. */
  type Bit = j: nat | j < 14

  /** The single flag at bit j: generator j / 2 for even j, microchip j / 2 for odd j. */
  function Flag(j: Bit): (r: Item)
    ensures !r.elevator
  {
    var k: Element := j / 2;
    if j % 2 == 0 then Item({k}, {}, false) else Item({}, {k}, false)
  }

  /** Whether `x` holds the flag at bit j. */
  predicate Holds(x: Item, j: Bit)
  {
    Contains(x, Flag(j))
  }

  /** Bits 2k and 2k+1 are element k's generator and microchip. */
  lemma FlagOf(k: Element)
    ensures Flag(2 * k) == Item({k}, {}, false)
    ensures Flag(2 * k + 1) == Item({}, {k}, false)
  {
    assert (2 * k) / 2 == k && (2 * k) % 2 == 0;
    assert (2 * k + 1) / 2 == k && (2 * k + 1) % 2 == 1;
  }

  /** Different bits are different flags. */
  lemma FlagsDistinct(i: Bit, j: Bit)
    requires i != j
    ensures Flag(i) != Flag(j)
  {
    if i % 2 == j % 2 {
      assert i / 2 != j / 2;
      assert i / 2 in Flag(i).gens + Flag(i).chips;
    }
  }

  /** Removing the flag at bit j changes no other bit and clears bit j. */
  lemma HoldsAfterRemove(x: Item, j: Bit, i: Bit)
    ensures Holds(Remove(x, Flag(j)), i) <==> Holds(x, i) && i != j
  {
    RemoveIsDifference(x, Flag(j));
    if i != j {
      FlagsDistinct(i, j);
      if i % 2 == j % 2 {
        assert i / 2 != j / 2;
      }
    }
  }

  /** The first item flag at bit j or above that `x` holds. */
  function FirstFrom(x: Item, j: nat): (r: Option<Bit>)
    requires j <= 14
    ensures r.Some? ==> (j <= r.value < 14 && Holds(x, r.value)
      && forall i :: j <= i < r.value ==> !Holds(x, i))
    ensures r.None? ==> forall i :: j <= i < 14 ==> !Holds(x, i)
    decreases 14 - j
  {
    if j == 14 then None
    else if Holds(x, j) then Some(j)
    else FirstFrom(x, j + 1)
  }

  /** The bits of the item flags `x` holds at j or above, in increasing order. */
  function FlagsFrom(x: Item, j: nat): seq<Bit>
    requires j <= 14
    decreases 14 - j
  {
    if j == 14 then []
    else if Holds(x, j) then [j] + FlagsFrom(x, j + 1)
    else FlagsFrom(x, j + 1)
  }

  /**
   * The sequence holds exactly the bits at j or above that `x` holds,
   * each once, in increasing order.
   */
  lemma {:induction false} FlagsFromMeans(x: Item, j: nat)
    requires j <= 14
    ensures forall n :: 0 <= n < |FlagsFrom(x, j)| ==> j <= FlagsFrom(x, j)[n] < 14 && Holds(x, FlagsFrom(x, j)[n])
    ensures forall n, m :: 0 <= n < m < |FlagsFrom(x, j)| ==> FlagsFrom(x, j)[n] < FlagsFrom(x, j)[m]
    ensures forall i :: j <= i < 14 && Holds(x, i) ==> i in FlagsFrom(x, j)
    decreases 14 - j
  {
    if j < 14 {
      FlagsFromMeans(x, j + 1);
    }
  }

  /** Clearing bit j changes nothing above it. */
  lemma {:induction false} FlagsAbove(x: Item, j: nat, i: nat)
    requires j < 14 && j < i <= 14
    ensures FlagsFrom(Remove(x, Flag(j)), i) == FlagsFrom(x, i)
    decreases 14 - i
  {
    if i < 14 {
      FlagsAbove(x, j, i + 1);
      HoldsAfterRemove(x, j, i);
    }
  }

  /** Below the first held flag, both sequences start where that flag is. */
  lemma {:induction false} FlagsSkip(x: Item, i: nat, j: nat)
    requires i <= j < 14 && forall n :: i <= n < j ==> !Holds(x, n)
    ensures FlagsFrom(x, i) == FlagsFrom(x, j)
    ensures FlagsFrom(Remove(x, Flag(j)), i) == FlagsFrom(Remove(x, Flag(j)), j)
    decreases j - i
  {
    if i < j {
      FlagsSkip(x, i + 1, j);
      HoldsAfterRemove(x, j, i);
    }
  }

  /** Taking the first flag leaves the rest of the sequence. */
  lemma FirstThenRest(x: Item)
    ensures FirstFrom(x, 0).None? <==> FlagsFrom(x, 0) == []
    ensures FirstFrom(x, 0).Some? ==> (FlagsFrom(x, 0) ==
      [FirstFrom(x, 0).value] + FlagsFrom(Remove(x, Flag(FirstFrom(x, 0).value)), 0))
  {
    var f := FirstFrom(x, 0);
    if f.Some? {
      var j: nat := f.value;
      FlagsSkip(x, 0, j);
      FlagsAbove(x, j, j + 1);
      HoldsAfterRemove(x, j, j);
    } else {
      NoFlagsFrom(x, 0);
    }
  }

  /** What `next` returns is the head of the drained sequence, and what it leaves is the tail. */
  lemma NextTakesHead(before: Item, r: Option<Item>, after: Item)
    requires FirstFrom(before, 0).None? ==> r.None? && after == before
    requires FirstFrom(before, 0).Some? ==>
      r == Some(Flag(FirstFrom(before, 0).value))
      && after == Remove(before, Flag(FirstFrom(before, 0).value))
    ensures r.None? ==> FlagsFrom(before, 0) == []
    ensures r.Some? ==> (FlagsFrom(before, 0) != [] && r.value == Flag(FlagsFrom(before, 0)[0])
      && FlagsFrom(after, 0) == FlagsFrom(before, 0)[1..])
  {
    FirstThenRest(before);
  }

  /** No flag held from bit j on: nothing to drain. */
  lemma {:induction false} NoFlagsFrom(x: Item, j: nat)
    requires j <= 14 && forall i :: j <= i < 14 ==> !Holds(x, i)
    ensures FlagsFrom(x, j) == []
    decreases 14 - j
  {
    if j < 14 {
      NoFlagsFrom(x, j + 1);
    }
  }

  /** `ItemIter`: the items of a flag word, one by one, in the order `next` tests them. */
  class ItemIter {
    var item: Item

    constructor (item: Item)
      ensures this.item == item
    {
      this.item := item;
    }

    /** `next`: the first item flag still held, removed from the word. */
    method Next() returns (r: Option<Item>)
      modifies this
      ensures FirstFrom(old(item), 0).None? ==> r.None? && item == old(item)
      ensures FirstFrom(old(item), 0).Some? ==>
        r == Some(Flag(FirstFrom(old(item), 0).value))
        && item == Remove(old(item), Flag(FirstFrom(old(item), 0).value))
    {
      for j := 0 to 14
        invariant item == old(item) && FirstFrom(item, 0) == FirstFrom(item, j)
      {
        if Contains(item, Flag(j)) {
          item := Remove(item, Flag(j));
          return Some(Flag(j));
        }
      }
      return None;
    }
  }

  /**
   * `for a in f.into_iter()`: every item flag of `x` in turn, lowest bit
   * first.
   */
  method Drain(x: Item) returns (ys: seq<Item>)
    ensures |ys| == |FlagsFrom(x, 0)|
    ensures forall n :: 0 <= n < |ys| ==> ys[n] == Flag(FlagsFrom(x, 0)[n])
  {
    var it := new ItemIter(x);
    ghost var all := FlagsFrom(x, 0);
    ys := [];
    while true
      invariant |ys| <= |all|
      invariant forall n :: 0 <= n < |ys| ==> ys[n] == Flag(all[n])
      invariant FlagsFrom(it.item, 0) == all[|ys|..]
      decreases |all| - |ys|
    {
      ghost var before := it.item;
      var r := it.Next();
      NextTakesHead(before, r, it.item);
      if r.None? {
        return;
      }
      ys := ys + [r.value];
    }
  }

  /**
   * The flags drained are distinct, each held by the word, never the
   * elevator, and every generator and microchip of the word is among
   * them.
   */
  lemma DrainYieldsEachOnce(x: Item)
    ensures forall n, m :: 0 <= n < m < |FlagsFrom(x, 0)| ==> Flag(FlagsFrom(x, 0)[n]) != Flag(FlagsFrom(x, 0)[m])
    ensures forall n :: 0 <= n < |FlagsFrom(x, 0)| ==>
      Contains(x, Flag(FlagsFrom(x, 0)[n])) && !Flag(FlagsFrom(x, 0)[n]).elevator
    ensures forall k: Element :: k in x.gens ==> 2 * k in FlagsFrom(x, 0)
    ensures forall k: Element :: k in x.chips ==> 2 * k + 1 in FlagsFrom(x, 0)
  {
    DrainDistinct(x);
    DrainCovers(x);
    FlagsFromMeans(x, 0);
  }

  lemma DrainDistinct(x: Item)
    ensures forall n, m :: 0 <= n < m < |FlagsFrom(x, 0)| ==> Flag(FlagsFrom(x, 0)[n]) != Flag(FlagsFrom(x, 0)[m])
  {
    var fl := FlagsFrom(x, 0);
    FlagsFromMeans(x, 0);
    forall n, m | 0 <= n < m < |fl|
      ensures Flag(fl[n]) != Flag(fl[m])
    {
      FlagsDistinct(fl[n], fl[m]);
    }
  }

  lemma DrainCovers(x: Item)
    ensures forall k: Element :: k in x.gens ==> 2 * k in FlagsFrom(x, 0)
    ensures forall k: Element :: k in x.chips ==> 2 * k + 1 in FlagsFrom(x, 0)
  {
    forall k: Element | k in x.gens
      ensures 2 * k in FlagsFrom(x, 0)
    {
      DrainCoversOne(x, k);
    }
    forall k: Element | k in x.chips
      ensures 2 * k + 1 in FlagsFrom(x, 0)
    {
      DrainCoversOne(x, k);
    }
  }

  lemma DrainCoversOne(x: Item, k: Element)
    ensures k in x.gens ==> 2 * k in FlagsFrom(x, 0)
    ensures k in x.chips ==> 2 * k + 1 in FlagsFrom(x, 0)
  {
    var g, c := 2 * k, 2 * k + 1;
    FlagOf(k);
    FlagsFromMeans(x, 0);
    assert k in x.gens ==> Holds(x, g);
    assert k in x.chips ==> Holds(x, c);
  }

  // ---------------------------------------------------------------------
  // Executor
  // ---------------------------------------------------------------------

  /** `State`: the steps taken and the arrangement reached. */
  datatype State = State(steps: nat, floors: Floors)

  /** `cmp::min`. */
  function Min(a: nat, b: nat): (r: nat)
    ensures r <= a && r <= b && (r == a || r == b)
  {
    if a < b then a else b
  }

  /** `usize::MAX` on a 64-bit target, the initial best. */
  const UsizeMax: nat := 0xFFFF_FFFF_FFFF_FFFF

  /** The keys of the queued states, in queue order. */
  function Keys(p: seq<State>): (ks: seq<FloorsKey>)
    ensures |ks| == |p| && forall n :: 0 <= n < |p| ==> ks[n] == Key(p[n].floors)
  {
    seq(|p|, n requires 0 <= n < |p| => Key(p[n].floors))
  }

  /** Every entry of `ks` is in `vis` and no entry occurs twice. */
  ghost predicate RecordedOnce<K>(ks: seq<K>, vis: set<K>)
  {
    (forall n :: 0 <= n < |ks| ==> ks[n] in vis)
    && (forall n, m :: 0 <= n < m < |ks| ==> ks[n] != ks[m])
  }

  lemma PushRecorded<K>(ks: seq<K>, vis: set<K>, k: K)
    requires RecordedOnce(ks, vis) && k !in vis
    ensures RecordedOnce(ks + [k], vis + {k})
  {
    var q := ks + [k];
    forall n, m | 0 <= n < m < |q|
      ensures q[n] != q[m]
    {
      assert q[n] == ks[n];
      if m == |ks| {
        assert q[n] in vis;
      }
    }
  }

  lemma RemoveRecorded<K>(ks: seq<K>, vis: set<K>, best: nat)
    requires RecordedOnce(ks, vis) && best < |ks|
    ensures RecordedOnce(ks[..best] + ks[best + 1..], vis)
  {
    var q := ks[..best] + ks[best + 1..];
    forall n | 0 <= n < |q|
      ensures q[n] == ks[if n < best then n else n + 1]
    {
    }
  }

  /** Every queued state is unfinished, has its key recorded, and no key is queued twice. */
  ghost predicate Queued(p: seq<State>, visited: set<FloorsKey>)
  {
    (forall n :: 0 <= n < |p| ==> !IsDone(p[n].floors))
    && RecordedOnce(Keys(p), visited)
  }

  /** Recording the key of an unfinished state, and queuing it when the key is new, keeps the queue sound. */
  lemma QueuedEnqueue(p: seq<State>, visited: set<FloorsKey>, s: State)
    requires Queued(p, visited) && !IsDone(s.floors)
    ensures Queued(p + (if Key(s.floors) in visited then [] else [s]), visited + {Key(s.floors)})
  {
    if Key(s.floors) in visited {
      SetAddPresent(visited, Key(s.floors));
      assert p + [] == p;
    } else {
      QueuedPush(p, visited, s);
    }
  }

  /** Queuing an unfinished state under a new key, and recording the key, keeps the queue sound. */
  lemma QueuedPush(p: seq<State>, visited: set<FloorsKey>, s: State)
    requires Queued(p, visited) && !IsDone(s.floors) && Key(s.floors) !in visited
    ensures Queued(p + [s], visited + {Key(s.floors)})
  {
    KeysAppend(p, s);
    PushRecorded(Keys(p), visited, Key(s.floors));
    var q := p + [s];
    forall n | 0 <= n < |p|
      ensures !IsDone(q[n].floors)
    {
      assert q[n] == p[n];
    }
    assert q[|p|] == s;
  }

  lemma KeysAppend(p: seq<State>, s: State)
    ensures Keys(p + [s]) == Keys(p) + [Key(s.floors)]
  {
    var q := p + [s];
    var ks := Keys(p) + [Key(s.floors)];
    forall n | 0 <= n < |p|
      ensures Keys(q)[n] == ks[n]
    {
      assert q[n] == p[n];
    }
    assert q[|p|] == s;
    assert Keys(q)[|p|] == ks[|p|];
  }

  /** Taking one state off the queue keeps the rest sound. */
  lemma QueuedRemove(p: seq<State>, visited: set<FloorsKey>, best: nat)
    requires Queued(p, visited) && best < |p|
    ensures Queued(p[..best] + p[best + 1..], visited)
  {
    var q := p[..best] + p[best + 1..];
    RemovedKeepsOthers(p, best);
    RemoveRecorded(Keys(p), visited, best);
    var ks := Keys(p)[..best] + Keys(p)[best + 1..];
    assert Keys(q) == ks by {
      RemovedKeepsOthers(Keys(p), best);
      forall n | 0 <= n < |q|
        ensures Keys(q)[n] == ks[n]
      {
        if n < best {
          assert q[n] == p[n];
        } else {
          assert q[n] == p[n + 1];
        }
      }
    }
    forall n | 0 <= n < |q|
      ensures !IsDone(q[n].floors)
    {
      if n < best {
        assert q[n] == p[n];
      } else {
        assert q[n] == p[n + 1];
      }
    }
  }

  /**
   * `Executor`: the fewest steps of a finished arrangement so far, the
   * keys of the arrangements already queued, and the queue (a binary heap
   * in the source; here its contents, in no particular order).
   */
  class Executor {
    var minSteps: nat
    var visited: set<FloorsKey>
    var potential: seq<State>

    /** Every queued state is unfinished, has its key recorded, and no key is queued twice. */
    ghost predicate Valid()
      reads this
    {
      minSteps <= UsizeMax && Queued(potential, visited)
    }

    constructor ()
      ensures Valid() && minSteps == UsizeMax && visited == {} && potential == []
    {
      minSteps := UsizeMax;
      visited := {};
      potential := [];
    }

    /**
     * `push_state`: a state slower than the best finish is dropped; a
     * finished one lowers the best; any other is queued if its key is new.
     */
    method PushState(state: State)
      requires Valid()
      modifies this
      ensures Valid()
      ensures state.steps > old(minSteps) ==>
        minSteps == old(minSteps) && visited == old(visited) && potential == old(potential)
      ensures state.steps <= old(minSteps) && IsDone(state.floors) ==>
        minSteps == state.steps && visited == old(visited) && potential == old(potential)
      ensures state.steps <= old(minSteps) && !IsDone(state.floors) ==>
        minSteps == old(minSteps) && visited == old(visited) + {Key(state.floors)}
        && potential == old(potential) + (if Key(state.floors) in old(visited) then [] else [state])
    {
      if state.steps > minSteps {
        return;
      }
      if IsDone(state.floors) {
        minSteps := Min(minSteps, state.steps);
        return;
      }
      Enqueue(state);
    }

    /** The last case of `push_state`: `visited.insert`, and the push when the key was new. */
    method Enqueue(state: State)
      requires Valid() && !IsDone(state.floors)
      modifies this
      ensures Valid() && minSteps == old(minSteps) && visited == old(visited) + {Key(state.floors)}
      ensures potential == old(potential) + (if Key(state.floors) in old(visited) then [] else [state])
    {
      var key := Key(state.floors);
      QueuedEnqueue(potential, visited, state);
      potential := potential + (if key in visited then [] else [state]);
      visited := visited + {key};
    }

    /** `next_state`: a queued state with the fewest steps, taken off the queue. */
    method NextState() returns (r: Option<State>)
      requires Valid()
      modifies this
      ensures Valid() && minSteps == old(minSteps) && visited == old(visited)
      ensures old(potential) == [] ==> r.None? && potential == []
      ensures old(potential) != [] ==> (r.Some?
        && (forall n :: 0 <= n < |old(potential)| ==> r.value.steps <= old(potential)[n].steps)
        && multiset(potential) + multiset{r.value} == multiset(old(potential)))
    {
      if potential == [] {
        return None;
      }
      var best := FewestSteps(potential);
      r := Some(potential[best]);
      QueuedRemove(potential, visited, best);
      RemovedMultiset(potential, best);
      potential := potential[..best] + potential[best + 1..];
    }
  }

  /** The position of a state with the fewest steps, which the heap's `pop` returns. */
  method FewestSteps(p: seq<State>) returns (best: nat)
    requires p != []
    ensures best < |p| && forall m :: 0 <= m < |p| ==> p[best].steps <= p[m].steps
  {
    best := 0;
    for n := 1 to |p|
      invariant best < |p|
      invariant forall m :: 0 <= m < n ==> p[best].steps <= p[m].steps
    {
      if p[n].steps < p[best].steps {
        best := n;
      }
    }
  }

  /** Taking one entry off a sequence removes one occurrence from its multiset. */
  lemma RemovedMultiset<T>(p: seq<T>, best: nat)
    requires best < |p|
    ensures multiset(p[..best] + p[best + 1..]) + multiset{p[best]} == multiset(p)
  {
    assert p == p[..best] + [p[best]] + p[best + 1..];
  }

  /** Adding an element already present changes nothing. */
  lemma SetAddPresent<T>(s: set<T>, x: T)
    requires x in s
    ensures s + {x} == s
  {
  }

  /** Taking one entry off a sequence keeps the others, in order. */
  lemma RemovedKeepsOthers<T>(p: seq<T>, best: nat)
    requires best < |p|
    ensures forall n :: 0 <= n < best ==> (p[..best] + p[best + 1..])[n] == p[n]
    ensures forall n :: best < n < |p| ==> (p[..best] + p[best + 1..])[n - 1] == p[n]
  {
  }
}
