/** Error reporting in a checked cycle: status reads cut its bus operations into groups. */
module Groups {
  import opened Format
  import opened Master
  import opened Meaning
  import opened Flush
  import opened Device

  /** Bus operations reported by each status read, in order, from operation `i` on. */
  function Sizes(p: Port, checked: bool, ops: seq<Op>, i: nat, n: nat): seq<nat>
    requires Pending(p, checked, ops, i, n)
    decreases |ops| - i, n
  {
    PlanIsGood(p, checked, ops, i, n);
    var plan := PlanRecord(p, checked, ops, i, n);
    var rest := if plan.last then [] else Sizes(p, checked, ops, i + plan.wcount + plan.rcount, plan.n);
    if plan.status then [n + Spent(ops, i, plan.wcount)] + rest else rest
  }

  /** Bus operations from `i` on. */
  function BusFrom(ops: seq<Op>, i: nat): nat
    requires i <= |ops|
    decreases |ops| - i
  {
    if i == |ops| then 0 else Cost(ops[i]) + BusFrom(ops, i + 1)
  }

  function Sum(s: seq<nat>): nat {
    if s == [] then 0 else s[0] + Sum(s[1..])
  }

  lemma {:induction false} SpentIs(ops: seq<Op>, i: nat, count: nat)
    requires i + count <= |ops| && OneSpace(ops, i, count)
    ensures BusFrom(ops, i) == Spent(ops, i, count) + BusFrom(ops, i + count)
    decreases count
  {
    if count > 0 {
      if count > 1 {
        assert Cost(ops[i + 1]) == Cost(ops[i]);
      }
      SpentIs(ops, i + 1, count - 1);
    }
  }

  /** What one planned record does to the accounts. */
  lemma RecordAccounts(p: Port, checked: bool, ops: seq<Op>, i: nat, n: nat)
    requires Pending(p, checked, ops, i, n)
    ensures var plan := PlanRecord(p, checked, ops, i, n);
            var j, group := i + plan.wcount + plan.rcount, n + Spent(ops, i, plan.wcount);
            && j <= |ops|
            && (plan.status ==> checked && 0 < group <= MaxOps(p) && (group == MaxOps(p) || plan.last))
            && n + BusFrom(ops, i) == (if plan.status then group else 0) + plan.n + BusFrom(ops, j)
            && (plan.last ==> j == |ops| && (checked ==> plan.n == 0))
            && (!plan.last ==> Pending(p, checked, ops, j, plan.n) && (|ops| - j < |ops| - i || plan.n < n))
  {
    PlanIsGood(p, checked, ops, i, n);
    var plan := PlanRecord(p, checked, ops, i, n);
    RecordSpaces(p, checked, ops, i, n, plan);
    SpentIs(ops, i, plan.wcount);
    SpentIs(ops, i + plan.wcount, plan.rcount);
    hide WriteCount, ReadCount, GoodWrites, GoodReads, BusFrom;
  }

  /** Every group full but the last, and none empty. */
  ghost predicate FullGroups(s: seq<nat>, most: nat) {
    && (forall k :: 0 <= k < |s| ==> 0 < s[k] <= most)
    && (forall k :: 0 <= k < |s| - 1 ==> s[k] == most)
  }

  lemma OneMore(g: nat, s: seq<nat>, most: nat)
    requires FullGroups(s, most) && 0 < g <= most && (s != [] ==> g == most)
    ensures FullGroups([g] + s, most) && Sum([g] + s) == g + Sum(s)
  {
    assert ([g] + s)[1..] == s;
  }

  lemma SizesStep(p: Port, checked: bool, ops: seq<Op>, i: nat, n: nat)
    requires Pending(p, checked, ops, i, n)
    ensures var plan := PlanRecord(p, checked, ops, i, n);
            var j, group := i + plan.wcount + plan.rcount, n + Spent(ops, i, plan.wcount);
            && (!plan.last ==> Pending(p, checked, ops, j, plan.n))
            && var rest := if plan.last then [] else Sizes(p, checked, ops, j, plan.n);
            Sizes(p, checked, ops, i, n) == if plan.status then [group] + rest else rest
  {
    hide PlanRecord, GoodPlan;
    PlanIsGood(p, checked, ops, i, n);
    PlanBounds(p, checked, ops, i, n, PlanRecord(p, checked, ops, i, n));
  }

  /** GROUPS. Every bus operation is in exactly one group; groups have as many operations as the
      data port has bits, except that the last may be smaller; none is empty. Without checking
      there are none. */
  lemma {:induction false} GroupsAreFull(p: Port, checked: bool, ops: seq<Op>, i: nat, n: nat)
    requires Pending(p, checked, ops, i, n)
    ensures var s := Sizes(p, checked, ops, i, n);
            && (if checked then Sum(s) == n + BusFrom(ops, i) else s == [])
            && FullGroups(s, MaxOps(p))
    decreases |ops| - i, n
  {
    hide *;
    RecordAccounts(p, checked, ops, i, n);
    SizesStep(p, checked, ops, i, n);
    var plan := PlanRecord(p, checked, ops, i, n);
    var j, group := i + plan.wcount + plan.rcount, n + Spent(ops, i, plan.wcount);
    NoGroups(ops, MaxOps(p));
    if !plan.last {
      GroupsAreFull(p, checked, ops, j, plan.n);
    }
    var rest := if plan.last then [] else Sizes(p, checked, ops, j, plan.n);
    if plan.status {
      OneMore(group, rest, MaxOps(p));
    }
  }

  lemma NoGroups(ops: seq<Op>, most: nat)
    ensures Sum([]) == 0 && FullGroups([], most) && BusFrom(ops, |ops|) == 0
  {
  }
}
