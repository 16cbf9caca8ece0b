/**
 * 2018 day 16 (y2018/src/bin/day16.rs): samples of one instruction each,
 * with the registers before and after.  Part 1 counts the samples that
 * three or more opcodes explain; part 2 narrows each opcode number down to
 * one opcode and runs the program with that table.
 */
module Y2018Day16 {
  import opened Wrappers
  import opened Y2018Registers
  import opened Y2018OpCodes

  /** `Sample`: the registers before, the instruction, the registers after. */
  datatype Sample = Sample(before: Regs, op: RawOp, after: Regs)

  /** `OPS`: the opcodes in the order whose indices part 2 works with. */
  const Ops: seq<Opcode> := [Addr, Addi, Mulr, Muli, Banr, Bani, Borr, Bori, Setr, Seti, Gtir, Gtri, Gtrr, Eqir, Eqri, Eqrr]

  /** All three operands name registers, so no opcode panics on the instruction. */
  predicate Operands(raw: RawOp)
  {
    raw.a < 6 && raw.b < 6 && raw.c < 6
  }

  predicate AllOperands(samples: seq<Sample>)
  {
    forall i :: 0 <= i < |samples| ==> Operands(samples[i].op)
  }

  /** `check`: the opcode, run on a copy of the registers before, gives the registers after. */
  predicate Check(s: Sample, op: Opcode)
    requires Operands(s.op)
  {
    Exec(op, s.op, s.before) == s.after
  }

  // ---------------------------------------------------------------------
  // Part 1.

  /** For each opcode of `OPS`, whether the sample is consistent with it. */
  function Flags(s: Sample): (b: seq<bool>)
    requires Operands(s.op)
    ensures |b| == 16 && forall i :: 0 <= i < 16 ==> b[i] == Check(s, Ops[i])
  {
    seq(16, i requires 0 <= i < 16 => Check(s, Ops[i]))
  }

  /** How many of the first k flags are set. */
  function Count(b: seq<bool>, k: nat): (n: nat)
    requires k <= |b|
    ensures n <= k
  {
    if k == 0 then 0 else Count(b, k - 1) + if b[k - 1] then 1 else 0
  }

  /** The count is the size of the set of indices whose flag is set. */
  lemma {:induction false} CountIsSize(b: seq<bool>, k: nat)
    requires k <= |b|
    ensures Count(b, k) == |set i | 0 <= i < k && b[i]|
  {
    if k > 0 {
      CountIsSize(b, k - 1);
      var below := set i | 0 <= i < k - 1 && b[i];
      if b[k - 1] {
        assert (set i | 0 <= i < k && b[i]) == below + {k - 1};
      } else {
        assert (set i | 0 <= i < k && b[i]) == below;
      }
    }
  }

  /** How many opcodes of `OPS` the sample is consistent with. */
  function Worked(s: Sample): nat
    requires Operands(s.op)
  {
    Count(Flags(s), 16)
  }

  /** The indices into `OPS` of the opcodes the sample is consistent with. */
  function Consistent(s: Sample): set<nat>
    requires Operands(s.op)
  {
    set i | 0 <= i < 16 && Check(s, Ops[i])
  }

  /** The count is the number of distinct opcodes consistent with the sample. */
  lemma WorkedCounts(s: Sample)
    requires Operands(s.op)
    ensures Worked(s) == |Consistent(s)| <= 16
  {
    var b := Flags(s);
    CountIsSize(b, 16);
    assert Consistent(s) == set i | 0 <= i < 16 && b[i];
  }

  /** The inner loop of `part1`. */
  method CountWorked(s: Sample) returns (worked: nat)
    requires Operands(s.op)
    ensures worked == Worked(s)
  {
    worked := 0;
    for k := 0 to 16
      invariant worked == Count(Flags(s), k)
    {
      if Check(s, Ops[k]) {
        worked := worked + 1;
      }
    }
  }

  /** The samples three or more opcodes are consistent with. */
  function Ambiguous(samples: seq<Sample>): (n: nat)
    requires AllOperands(samples)
    ensures n <= |samples|
  {
    if samples == [] then 0
    else
      var last := samples[|samples| - 1];
      Ambiguous(samples[..|samples| - 1]) + if Worked(last) >= 3 then 1 else 0
  }

  /** `part1`. */
  method Part1(samples: seq<Sample>) returns (count: nat)
    requires AllOperands(samples)
    ensures count == Ambiguous(samples)
  {
    count := 0;
    for i := 0 to |samples|
      invariant count == Ambiguous(samples[..i])
    {
      assert samples[..i + 1][..i] == samples[..i];
      var worked := CountWorked(samples[i]);
      if worked >= 3 {
        count := count + 1;
      }
    }
    assert samples[..|samples|] == samples;
  }

  /** The sample of the example: before [3, 2, 1, 1], `9 2 1 2`, after [3, 2, 2, 1]. */
  function ExampleSample(): Sample
  {
    Sample([3, 2, 1, 1, 0, 0], RawOp(9, 2, 1, 2), [3, 2, 2, 1, 0, 0])
  }

  /** Of the arithmetic and bitwise opcodes, only `addi` and `mulr` explain the example. */
  lemma ExampleArithmetic(s: Sample)
    requires s == ExampleSample()
    ensures Flags(s)[..8] == [false, true, true, false, false, false, false, false]
  {
    assert And(1, 2) == 0 && And(1, 1) == 1 && Or(1, 2) == 3 && Or(1, 1) == 1;
  }

  /** Of the copies and comparisons, only `seti` explains the example. */
  lemma ExampleComparisons(s: Sample)
    requires s == ExampleSample()
    ensures Flags(s)[8..] == [false, true, false, false, false, false, false, false]
  {
  }

  /** Exactly `addi`, `mulr` and `seti` explain it. */
  lemma ExampleConsistent(s: Sample)
    requires s == ExampleSample()
    ensures Consistent(s) == {1, 2, 9}
  {
    var b := Flags(s);
    ExampleArithmetic(s);
    ExampleComparisons(s);
    assert b == b[..8] + b[8..];
    assert forall i :: 0 <= i < 16 ==> (b[i] <==> i == 1 || i == 2 || i == 9);
  }

  /** So the example's part 1 is 1. */
  lemma ExampleAmbiguous(s: Sample)
    requires s == ExampleSample()
    ensures Ambiguous([s]) == 1
  {
    ExampleConsistent(s);
    WorkedCounts(s);
    assert |{1, 2, 9}| == 3;
    assert [s][..0] == [];
  }

  // ---------------------------------------------------------------------
  // Part 2: narrowing the codes.

  /** `by_code[code]`: the samples with that opcode number, in order. */
  function WithCode(samples: seq<Sample>, code: nat): (g: seq<Sample>)
    ensures forall i :: 0 <= i < |g| ==> g[i] in samples && g[i].op.code == code
  {
    if samples == [] then []
    else
      var last := samples[|samples| - 1];
      WithCode(samples[..|samples| - 1], code) + if last.op.code == code then [last] else []
  }

  /** The grouping loop of `part2`: indexing `by_code` with a code of 16 or more panics. */
  method Group(samples: seq<Sample>) returns (byCode: seq<seq<Sample>>)
    requires forall i :: 0 <= i < |samples| ==> samples[i].op.code < 16
    ensures |byCode| == 16 && forall c :: 0 <= c < 16 ==> byCode[c] == WithCode(samples, c)
  {
    byCode := seq(16, c => []);
    for i := 0 to |samples|
      invariant |byCode| == 16 && forall c :: 0 <= c < 16 ==> byCode[c] == WithCode(samples[..i], c)
    {
      assert samples[..i + 1][..i] == samples[..i];
      var code := samples[i].op.code;
      byCode := byCode[code := byCode[code] + [samples[i]]];
    }
    assert samples[..|samples|] == samples;
  }

  /** Every sample of the group is consistent with the opcode. */
  predicate AllCheck(group: seq<Sample>, op: Opcode)
    requires AllOperands(group)
  {
    forall i :: 0 <= i < |group| ==> Check(group[i], op)
  }

  /** The indices into `OPS` of the opcodes consistent with every sample of code c. */
  function Candidates(samples: seq<Sample>, c: nat): set<nat>
    requires AllOperands(samples)
  {
    GroupOperands(samples, c);
    set i | 0 <= i < 16 && AllCheck(WithCode(samples, c), Ops[i])
  }

  lemma GroupOperands(samples: seq<Sample>, c: nat)
    requires AllOperands(samples)
    ensures AllOperands(WithCode(samples, c))
  {
    var g := WithCode(samples, c);
    forall i | 0 <= i < |g|
      ensures Operands(g[i].op)
    {
      var k :| 0 <= k < |samples| && samples[k] == g[i];
    }
  }

  /** The candidate sets `part2` starts from. */
  function Initial(samples: seq<Sample>): (codes: seq<set<nat>>)
    requires AllOperands(samples)
    ensures |codes| == 16
  {
    seq(16, c requires 0 <= c < 16 => Candidates(samples, c))
  }

  /** Candidates for code c among the opcodes before op. */
  function CandidatesBelow(samples: seq<Sample>, c: nat, op: nat): set<nat>
    requires AllOperands(samples)
  {
    GroupOperands(samples, c);
    set i | 0 <= i < op && i < 16 && AllCheck(WithCode(samples, c), Ops[i])
  }

  /** Moving past one more opcode adds it exactly when it explains every sample of the code. */
  lemma BelowStep(samples: seq<Sample>, c: nat, op: nat)
    requires AllOperands(samples) && op < 16
    ensures AllOperands(WithCode(samples, c))
    ensures CandidatesBelow(samples, c, op + 1)
      == CandidatesBelow(samples, c, op) + if AllCheck(WithCode(samples, c), Ops[op]) then {op} else {}
  {
    GroupOperands(samples, c);
  }

  /**
   * The nested loops of `part2` that insert op_idx into the set of every
   * code whose samples it explains; `samples[0]` panics on a code without
   * samples, which the precondition rules out.
   */
  method InitialCodes(samples: seq<Sample>, byCode: seq<seq<Sample>>) returns (codes: seq<set<nat>>)
    requires AllOperands(samples)
    requires |byCode| == 16 && forall c :: 0 <= c < 16 ==> byCode[c] == WithCode(samples, c)
    requires forall c :: 0 <= c < 16 ==> byCode[c] != []
    ensures codes == Initial(samples)
  {
    codes := seq(16, c => {});
    for opIdx := 0 to 16
      invariant |codes| == 16 && forall c :: 0 <= c < 16 ==> codes[c] == CandidatesBelow(samples, c, opIdx)
    {
      codes := AddOp(samples, byCode, codes, opIdx);
    }
    assert forall c :: 0 <= c < 16 ==> CandidatesBelow(samples, c, 16) == Candidates(samples, c);
  }

  /** One round of the outer loop: op_idx joins the set of every code it explains. */
  method AddOp(samples: seq<Sample>, byCode: seq<seq<Sample>>, codes: seq<set<nat>>, opIdx: nat) returns (next: seq<set<nat>>)
    requires AllOperands(samples) && opIdx < 16
    requires |byCode| == 16 && forall c :: 0 <= c < 16 ==> byCode[c] == WithCode(samples, c)
    requires forall c :: 0 <= c < 16 ==> byCode[c] != []
    requires |codes| == 16 && forall c :: 0 <= c < 16 ==> codes[c] == CandidatesBelow(samples, c, opIdx)
    ensures |next| == 16 && forall c :: 0 <= c < 16 ==> next[c] == CandidatesBelow(samples, c, opIdx + 1)
  {
    next := codes;
    for g := 0 to 16
      invariant |next| == 16
      invariant forall c :: 0 <= c < g ==> next[c] == CandidatesBelow(samples, c, opIdx + 1)
      invariant forall c :: g <= c < 16 ==> next[c] == CandidatesBelow(samples, c, opIdx)
    {
      next := AddToGroup(samples, byCode[g], next, g, opIdx);
    }
  }

  /** The body of the `for (_, samples) in &by_code` loop, for the group of code g. */
  method AddToGroup(samples: seq<Sample>, group: seq<Sample>, codes: seq<set<nat>>, g: nat, opIdx: nat) returns (next: seq<set<nat>>)
    requires AllOperands(samples) && opIdx < 16 && g < 16
    requires group == WithCode(samples, g) && group != []
    requires |codes| == 16 && codes[g] == CandidatesBelow(samples, g, opIdx)
    ensures next == codes[g := CandidatesBelow(samples, g, opIdx + 1)]
  {
    GroupOperands(samples, g);
    var all := AllExplain(group, Ops[opIdx]);
    var code := group[0].op.code;
    assert code == g;
    BelowStep(samples, g, opIdx);
    if all {
      next := codes[code := codes[code] + {opIdx}];
    } else {
      assert CandidatesBelow(samples, g, opIdx + 1) == codes[g];
      next := codes;
    }
  }

  /** The `all` over a code's samples: does the opcode explain every one? */
  method AllExplain(group: seq<Sample>, op: Opcode) returns (all: bool)
    requires AllOperands(group)
    ensures all == AllCheck(group, op)
  {
    all := true;
    for k := 0 to |group|
      invariant all <==> forall j :: 0 <= j < k ==> Check(group[j], op)
    {
      if !Check(group[k], op) {
        all := false;
      }
    }
  }

  /** No code has more than one candidate left: the `while` condition fails. */
  predicate Settled(codes: seq<set<nat>>)
  {
    forall c :: 0 <= c < |codes| ==> |codes[c]| <= 1
  }

  /** `unique`: the candidates of the codes that have only one. */
  function Unique(codes: seq<set<nat>>): set<nat>
  {
    if codes == [] then {}
    else
      var last := codes[|codes| - 1];
      Unique(codes[..|codes| - 1]) + if |last| == 1 then last else {}
  }

  /** A unique candidate is the only candidate of some code. */
  lemma {:induction false} UniqueFrom(codes: seq<set<nat>>, x: nat) returns (d: nat)
    requires x in Unique(codes)
    ensures d < |codes| && x in codes[d] && |codes[d]| == 1
  {
    var n := |codes| - 1;
    if x in Unique(codes[..n]) {
      d := UniqueFrom(codes[..n], x);
    } else {
      d := n;
    }
  }

  /** The only candidate of a code is unique. */
  lemma {:induction false} UniqueHas(codes: seq<set<nat>>, d: nat, x: nat)
    requires d < |codes| && x in codes[d] && |codes[d]| == 1
    ensures x in Unique(codes)
  {
    var n := |codes| - 1;
    if d < n {
      assert codes[..n][d] == codes[d];
      UniqueHas(codes[..n], d, x);
    }
  }

  /** One pass of the `while` body: every code with several candidates loses the unique ones. */
  function Round(codes: seq<set<nat>>): (next: seq<set<nat>>)
    ensures |next| == |codes|
  {
    seq(|codes|, c requires 0 <= c < |codes| => if |codes[c]| == 1 then codes[c] else codes[c] - Unique(codes))
  }

  /** The `for code in &mut codes` loop. */
  method Prune(codes: seq<set<nat>>) returns (next: seq<set<nat>>)
    ensures next == Round(codes)
  {
    var unique := Unique(codes);
    next := codes;
    for c := 0 to |codes|
      invariant |next| == |codes|
      invariant forall d :: 0 <= d < c ==> next[d] == Round(codes)[d]
      invariant forall d :: c <= d < |codes| ==> next[d] == codes[d]
    {
      if |next[c]| == 1 {
        continue;
      }
      next := next[c := next[c] - unique];
    }
  }

  /** The `while` loop, with at most fuel rounds: None when the fuel runs out first. */
  function Settle(codes: seq<set<nat>>, fuel: nat): Option<seq<set<nat>>>
    decreases fuel
  {
    if Settled(codes) then Some(codes)
    else if fuel == 0 then None
    else Settle(Round(codes), fuel - 1)
  }

  method Eliminate(codes: seq<set<nat>>, fuel: nat) returns (r: Option<seq<set<nat>>>)
    ensures r == Settle(codes, fuel)
  {
    var current := codes;
    var left := fuel;
    while !Settled(current)
      invariant Settle(current, left) == Settle(codes, fuel)
      decreases left
    {
      if left == 0 {
        return None;
      }
      current := Prune(current);
      left := left - 1;
    }
    return Some(current);
  }

  /** When settling succeeds, no code has more than one candidate left. */
  lemma {:induction false} SettleSettles(codes: seq<set<nat>>, fuel: nat)
    requires Settle(codes, fuel).Some?
    ensures Settled(Settle(codes, fuel).value) && |Settle(codes, fuel).value| == |codes|
    decreases fuel
  {
    if !Settled(codes) {
      var next := Round(codes);
      SettleSettles(next, fuel - 1);
    }
  }

  /** Settling only removes candidates. */
  lemma {:induction false} SettleShrinks(codes: seq<set<nat>>, fuel: nat, c: nat)
    requires Settle(codes, fuel).Some? && c < |codes|
    ensures c < |Settle(codes, fuel).value| && Settle(codes, fuel).value[c] <= codes[c]
    decreases fuel
  {
    if !Settled(codes) {
      var next := Round(codes);
      assert next[c] <= codes[c];
      SettleShrinks(next, fuel - 1, c);
    }
  }

  // ---------------------------------------------------------------------
  // Why the narrowing is right.

  /** A one-to-one table from the 16 codes to indices into `OPS`. */
  predicate Assignment(truth: seq<nat>)
  {
    |truth| == 16 && (forall c :: 0 <= c < 16 ==> truth[c] < 16)
    && forall c, d :: 0 <= c < d < 16 ==> truth[c] != truth[d]
  }

  /** The table is still possible: each code's opcode is among its candidates. */
  predicate Admits(codes: seq<set<nat>>, truth: seq<nat>)
  {
    |codes| == |truth| && forall c :: 0 <= c < |codes| ==> truth[c] in codes[c]
  }

  /** The table explains every sample. */
  predicate Explains(samples: seq<Sample>, truth: seq<nat>)
    requires AllOperands(samples) && Assignment(truth)
    requires forall i :: 0 <= i < |samples| ==> samples[i].op.code < 16
  {
    forall i :: 0 <= i < |samples| ==> Check(samples[i], Ops[truth[samples[i].op.code]])
  }

  /** A table that explains the samples survives the first filter. */
  lemma InitialAdmits(samples: seq<Sample>, truth: seq<nat>)
    requires AllOperands(samples) && Assignment(truth)
    requires forall i :: 0 <= i < |samples| ==> samples[i].op.code < 16
    requires Explains(samples, truth)
    ensures Admits(Initial(samples), truth)
  {
    forall c | 0 <= c < 16
      ensures truth[c] in Initial(samples)[c]
    {
      var g := WithCode(samples, c);
      GroupOperands(samples, c);
      forall j | 0 <= j < |g|
        ensures Check(g[j], Ops[truth[c]])
      {
        var k :| 0 <= k < |samples| && samples[k] == g[j];
      }
    }
  }

  /** A round never removes a code's true opcode: a unique candidate belongs to its own code. */
  lemma RoundAdmits(codes: seq<set<nat>>, truth: seq<nat>)
    requires Assignment(truth) && Admits(codes, truth)
    ensures Admits(Round(codes), truth)
  {
    forall c | 0 <= c < |codes| && |codes[c]| != 1
      ensures truth[c] !in Unique(codes)
    {
      if truth[c] in Unique(codes) {
        var d := UniqueFrom(codes, truth[c]);
        Single(codes[d], truth[c], truth[d]);
      }
    }
  }

  /** A set with one element has no other. */
  lemma Single(s: set<nat>, x: nat, y: nat)
    requires |s| == 1 && x in s && y in s
    ensures x == y
  {
    var t := s - {x};
    assert s * {x} == {x};
    assert |t| == 0;
    assert x != y ==> y in t;
  }

  lemma {:induction false} SettleAdmits(codes: seq<set<nat>>, fuel: nat, truth: seq<nat>)
    requires Assignment(truth) && Admits(codes, truth) && Settle(codes, fuel).Some?
    ensures Admits(Settle(codes, fuel).value, truth)
    decreases fuel
  {
    if !Settled(codes) {
      var next := Round(codes);
      RoundAdmits(codes, truth);
      SettleAdmits(next, fuel - 1, truth);
    }
  }

  /** Once settled, a possible table is the only one: each code has exactly its true opcode left. */
  lemma SettledIsTruth(codes: seq<set<nat>>, truth: seq<nat>, c: nat)
    requires Settled(codes) && Admits(codes, truth) && c < |codes|
    ensures codes[c] == {truth[c]}
  {
    assert truth[c] in codes[c];
    if |codes[c]| == 0 {
      assert false;
    }
    forall y | y in codes[c]
      ensures y == truth[c]
    {
      Single(codes[c], y, truth[c]);
    }
    assert codes[c] == {truth[c]};
  }

  // ---------------------------------------------------------------------
  // Part 2: running the program.

  /** Every instruction of the program names registers and a code below 16. */
  predicate Program(program: seq<RawOp>)
  {
    forall i :: 0 <= i < |program| ==> Operands(program[i]) && program[i].code < 16
  }

  /** A table of 16 indices into `OPS`. */
  predicate Table(codeMap: seq<nat>)
  {
    |codeMap| == 16 && forall c :: 0 <= c < 16 ==> codeMap[c] < 16
  }

  /** The registers after the program, each instruction run as the opcode the table gives its code. */
  function RunOps(program: seq<RawOp>, codeMap: seq<nat>, r: Regs): Regs
    requires Program(program) && Table(codeMap)
  {
    if program == [] then r
    else
      var last := program[|program| - 1];
      Exec(Ops[codeMap[last.code]], last, RunOps(program[..|program| - 1], codeMap, r))
  }

  /** The last loop of `part2`, on `Registers::default()`; the answer is register 0. */
  method RunProgram(program: seq<RawOp>, codeMap: seq<nat>) returns (r0: Word)
    requires Program(program) && Table(codeMap)
    ensures r0 == RunOps(program, codeMap, Zero())[0]
  {
    var regs := new Word[6](i => 0);
    assert regs[..] == Zero();
    for i := 0 to |program|
      invariant regs[..] == RunOps(program[..i], codeMap, Zero())
    {
      assert program[..i + 1][..i] == program[..i];
      var raw := program[i];
      Apply(Ops[codeMap[raw.code]], raw, regs);
    }
    assert program[..|program|] == program;
    r0 := regs[0];
  }

  /** Every code has at least one candidate left. */
  predicate NoneEmpty(codes: seq<set<nat>>)
  {
    forall c :: 0 <= c < |codes| ==> codes[c] != {}
  }

  /**
   * `part2`: 0 for the example; otherwise group, filter, narrow, build
   * `code_map` and run.  None where the narrowing runs out of fuel or
   * leaves a code with no candidate (`unwrap` on an empty set panics).
   */
  method Part2(samples: seq<Sample>, program: seq<RawOp>, example: bool, fuel: nat) returns (r: Option<Word>)
    requires AllOperands(samples) && Program(program)
    requires forall i :: 0 <= i < |samples| ==> samples[i].op.code < 16
    requires forall c :: 0 <= c < 16 ==> WithCode(samples, c) != []
    ensures example ==> r == Some(0)
    ensures !example ==> (r.Some? <==> Settle(Initial(samples), fuel).Some? && NoneEmpty(Settle(Initial(samples), fuel).value))
    ensures !example && r.Some? ==> forall truth :: Assignment(truth) && Explains(samples, truth) ==> r.value == RunOps(program, truth, Zero())[0]
  {
    if example {
      return Some(0);
    }
    var byCode := Group(samples);
    var codes := InitialCodes(samples, byCode);
    var settled := Eliminate(codes, fuel);
    if settled.None? {
      return None;
    }
    SettleSettles(codes, fuel);
    var sets := settled.value;
    var codeMap: seq<nat> := seq(16, c => 99);
    for code := 0 to 16
      invariant |codeMap| == 16
      invariant forall c :: 0 <= c < code ==> codeMap[c] in sets[c]
      invariant forall c :: 0 <= c < code ==> sets[c] != {}
    {
      if sets[code] == {} {
        return None;
      }
      var valid :| valid in sets[code];
      codeMap := codeMap[code := valid];
    }
    assert Table(codeMap) by {
      forall c | 0 <= c < 16
        ensures codeMap[c] < 16
      {
        SettleShrinks(codes, fuel, c);
        assert codeMap[c] in codes[c];
      }
    }
    var r0 := RunProgram(program, codeMap);
    forall truth | Assignment(truth) && Explains(samples, truth)
      ensures r0 == RunOps(program, truth, Zero())[0]
    {
      InitialAdmits(samples, truth);
      SettleAdmits(codes, fuel, truth);
      forall c | 0 <= c < 16
        ensures codeMap[c] == truth[c]
      {
        SettledIsTruth(sets, truth, c);
      }
      assert codeMap == truth;
    }
    return Some(r0);
  }
}
