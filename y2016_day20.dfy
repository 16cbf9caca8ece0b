/**
 * 2016 day 20 (src/bin/y2016/day20.rs): the firewall blacklist.  Each rule
 * blocks an inclusive range of 32-bit addresses; the scans walk the
 * addresses upwards, jumping to the end of the first rule that blocks the
 * current one.
 */
module Y2016Day20 {
  import opened Wrappers

  const Max: nat := 0xFFFF_FFFF

  /** `u32`. */
  type U32 = x: nat | x <= Max

  /** Rule (a, b) blocks the addresses a to b, both included. */
  predicate Blocks(rule: (U32, U32), i: nat)
  {
    rule.0 <= i <= rule.1
  }

  /** No rule blocks address i. */
  predicate Allowed(blacklist: seq<(U32, U32)>, i: nat)
  {
    forall k :: 0 <= k < |blacklist| ==> !Blocks(blacklist[k], i)
  }

  /** The inner `for`: the first rule blocking i, if any. */
  method FirstBlocking(blacklist: seq<(U32, U32)>, i: nat) returns (k: Option<nat>)
    ensures k.None? <==> Allowed(blacklist, i)
    ensures k.Some? ==> k.value < |blacklist| && Blocks(blacklist[k.value], i)
    ensures k.Some? ==> forall j :: 0 <= j < k.value ==> !Blocks(blacklist[j], i)
  {
    for j := 0 to |blacklist|
      invariant forall j' :: 0 <= j' < j ==> !Blocks(blacklist[j'], i)
    {
      var (a, b) := blacklist[j];
      if a <= i && i <= b {
        return Some(j);
      }
    }
    return None;
  }

  /** Every address below n is blocked. */
  predicate AllBlockedBelow(blacklist: seq<(U32, U32)>, n: nat)
  {
    forall w :: 0 <= w < n ==> !Allowed(blacklist, w)
  }

  /** Jumping past a blocking rule: every address from i to the rule's end is blocked by it. */
  lemma JumpBlocked(blacklist: seq<(U32, U32)>, i: nat, k: nat)
    requires AllBlockedBelow(blacklist, i) && k < |blacklist| && Blocks(blacklist[k], i)
    ensures AllBlockedBelow(blacklist, blacklist[k].1 as nat + 1)
  {
    forall w | 0 <= w <= blacklist[k].1
      ensures !Allowed(blacklist, w)
    {
      if w >= i {
        assert Blocks(blacklist[k], w);
      }
    }
  }

  /**
   * `part1`: the lowest address no rule blocks.  None when every address is
   * blocked: the `i += 1` past `u32::MAX` overflows.
   */
  method Part1(blacklist: seq<(U32, U32)>) returns (r: Option<U32>)
    ensures r.Some? ==> Allowed(blacklist, r.value) && AllBlockedBelow(blacklist, r.value)
    ensures r.None? ==> AllBlockedBelow(blacklist, Max + 1)
  {
    var i: U32 := 0;
    while true
      invariant AllBlockedBelow(blacklist, i)
      decreases Max - i
    {
      var k := FirstBlocking(blacklist, i);
      if k.None? {
        return Some(i);
      }
      JumpBlocked(blacklist, i, k.value);
      i := blacklist[k.value].1;
      if i == Max {
        return None;
      }
      i := i + 1;
    }
  }

  /** The number of allowed addresses below n. */
  function AllowedBelow(blacklist: seq<(U32, U32)>, n: nat): (c: nat)
    ensures c <= n
  {
    if n == 0 then 0 else AllowedBelow(blacklist, n - 1) + (if Allowed(blacklist, n - 1) then 1 else 0)
  }

  /** Blocked addresses add nothing to the count. */
  lemma {:induction false} SkipBlocked(blacklist: seq<(U32, U32)>, i: nat, n: nat)
    requires i <= n && forall w :: i <= w < n ==> !Allowed(blacklist, w)
    ensures AllowedBelow(blacklist, n) == AllowedBelow(blacklist, i)
    decreases n - i
  {
    if i < n {
      SkipBlocked(blacklist, i, n - 1);
    }
  }

  /** The count is zero exactly when every address below n is blocked: `part2` finds none exactly when `part1` fails. */
  lemma {:induction false} NoneAllowed(blacklist: seq<(U32, U32)>, n: nat)
    ensures AllowedBelow(blacklist, n) == 0 <==> AllBlockedBelow(blacklist, n)
  {
    if n > 0 {
      NoneAllowed(blacklist, n - 1);
      if AllowedBelow(blacklist, n) == 0 {
        forall w | 0 <= w < n
          ensures !Allowed(blacklist, w)
        {
          if w < n - 1 {
            assert !Allowed(blacklist, w);
          }
        }
      }
    }
  }

  /** With no rules every address is allowed; the count is then the whole range. */
  lemma {:induction false} NoRulesAllowAll(blacklist: seq<(U32, U32)>, n: nat)
    requires blacklist == []
    ensures AllowedBelow(blacklist, n) == n
  {
    if n > 0 {
      NoRulesAllowAll(blacklist, n - 1);
    }
  }

  /**
   * `part2`: the number of allowed addresses from 0 to `u32::MAX`; the scan
   * stops at the last address instead of stepping past it.
   */
  method Part2(blacklist: seq<(U32, U32)>) returns (allowed: nat)
    ensures allowed == AllowedBelow(blacklist, Max + 1)
  {
    allowed := 0;
    var i: U32 := 0;
    while true
      invariant allowed == AllowedBelow(blacklist, i)
      decreases Max - i
    {
      var k := FirstBlocking(blacklist, i);
      var start := i;
      if k.None? {
        allowed := allowed + 1;
      } else {
        i := blacklist[k.value].1;
        BlockedRun(blacklist, start, k.value);
      }
      if i == Max {
        return;
      }
      i := i + 1;
    }
  }

  /** The count after the addresses from i to the end of a rule blocking i is the count below i. */
  lemma BlockedRun(blacklist: seq<(U32, U32)>, i: nat, k: nat)
    requires k < |blacklist| && Blocks(blacklist[k], i)
    ensures AllowedBelow(blacklist, blacklist[k].1 as nat + 1) == AllowedBelow(blacklist, i)
  {
    forall w | i <= w < blacklist[k].1 as nat + 1
      ensures !Allowed(blacklist, w)
    {
      assert Blocks(blacklist[k], w);
    }
    SkipBlocked(blacklist, i, blacklist[k].1 as nat + 1);
  }
}
