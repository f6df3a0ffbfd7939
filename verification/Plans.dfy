/** Which operations a record takes, told over the fields of the operations: as many as chain, and it
    stops only for a reason. */
module Plans {
  import opened Bytes
  import opened Format
  import opened Master
  import opened EndToEnd

  /** The address where the `m`-th write of a record must be: the first one's, or `m` words on. */
  function Expected(p: Port, first: nat, fifo: bool, m: nat): nat {
    if fifo then first else (first + m * p.data) % 0x1_0000_0000_0000_0000
  }

  /** The same kind of access: space, size and byte order. */
  predicate Alike(a: Op, b: Op) { a.write == b.write && a.cfg == b.cfg && a.size == b.size && a.endian == b.endian }

  /** Bus operations waiting for an error bit after `count` more operations like `op`. */
  function Awaiting(n: nat, op: Op, count: nat): nat { if op.cfg then n else n + count }

  /** In a checked cycle there are as many as one error word reports. */
  predicate GroupFull(p: Port, checked: bool, n: nat) { checked && n >= 8 * p.data }

  /** The `m`-th operation after the `i`-th continues its writes. */
  predicate Continues(p: Port, ops: seq<Op>, i: nat, fifo: bool, m: nat) {
    i + m < |ops| && Alike(ops[i + m], ops[i]) && ops[i + m].addr == Expected(p, ops[i].addr, fifo, m)
  }

  /** The `m`-th operation after the `j`-th continues its reads. */
  predicate Follows(p: Port, ops: seq<Op>, j: nat, m: nat) {
    j + m < |ops| && Alike(ops[j + m], ops[j]) && SameLanes(p, ops[j + m], ops[j])
  }

  /** `w` writes from `i` on chain, all to one address if `fifo`. */
  ghost predicate ChainedWrites(p: Port, checked: bool, ops: seq<Op>, i: nat, n: nat, w: nat, fifo: bool) {
    && w <= 255 && i + w <= |ops|
    && (w > 0 ==> ops[i].write && !GroupFull(p, checked, Awaiting(n, ops[i], w - 1)))
    && (forall m :: 0 < m < w ==> Continues(p, ops, i, fifo, m))
    && (fifo <==> w >= 2 && ops[i + 1].addr == ops[i].addr)
  }

  /** Why there are not more. */
  ghost predicate WritesEnd(p: Port, checked: bool, ops: seq<Op>, i: nat, n: nat, w: nat, fifo: bool)
    requires i + w <= |ops|
  {
    || i + w == |ops| || w == 255 || !ops[i + w].write
    || GroupFull(p, checked, if w == 0 then n else Awaiting(n, ops[i], w))
    || (w == 1 && !Continues(p, ops, i, true, 1) && !Continues(p, ops, i, false, 1))
    || (w >= 2 && !Continues(p, ops, i, fifo, w))
  }

  /** `r` reads from `j` on chain, in a record that begins at `i`. */
  ghost predicate ChainedReads(p: Port, checked: bool, ops: seq<Op>, i: nat, j: nat, n: nat, r: nat)
    requires i <= j
  {
    && r <= 255 && j + r <= |ops|
    && (r > 0 ==> !ops[j].write && !GroupFull(p, checked, Awaiting(n, ops[j], r - 1)))
    && (r > 0 && i < j ==> SameLanes(p, ops[j], ops[i]))
    && (forall m :: 0 < m < r ==> Follows(p, ops, j, m))
  }

  /** Same size, byte order and place in the bus word. */
  predicate SameLanes(p: Port, a: Op, b: Op) {
    a.size == b.size && a.endian == b.endian && a.addr % p.data == b.addr % p.data
  }

  ghost predicate ReadsEnd(p: Port, checked: bool, ops: seq<Op>, i: nat, j: nat, n: nat, r: nat)
    requires i <= j && j + r <= |ops|
  {
    || j + r == |ops| || r == 255 || ops[j + r].write
    || GroupFull(p, checked, if r == 0 then n else Awaiting(n, ops[j], r))
    || (r == 0 && i < j && !SameLanes(p, ops[j], ops[i]))
    || (r > 0 && !Follows(p, ops, j, r))
  }

  /** The whole plan of a record. The error read is added to a record that reads nothing else, writes
      nothing or whole words, and has a full group or the last operations to report on. */
  ghost predicate Planned(p: Port, checked: bool, ops: seq<Op>, i: nat, n: nat, plan: Plan) {
    var j := i + plan.wcount;
    && ChainedWrites(p, checked, ops, i, n, plan.wcount, plan.fifo)
    && WritesEnd(p, checked, ops, i, n, plan.wcount, plan.fifo)
    && var n1 := if plan.wcount == 0 then n else Awaiting(n, ops[i], plan.wcount);
    && ChainedReads(p, checked, ops, i, j, n1, plan.rcount)
    && ReadsEnd(p, checked, ops, i, j, n1, plan.rcount)
    && var n2 := if plan.rcount == 0 then n1 else Awaiting(n1, ops[j], plan.rcount);
    var over := j + plan.rcount == |ops|;
    && (plan.status <==> checked && plan.rcount == 0 && (plan.wcount > 0 ==> ops[i].size == p.data)
                         && (n2 >= 8 * p.data || (over && n2 > 0)))
    && plan.n == (if plan.status then 0 else n2)
    && (plan.last <==> over && (checked ==> plan.n == 0))
  }

  ghost predicate Reachable(ops: seq<Op>) { forall k :: 0 <= k < |ops| ==> ops[k].addr < TWO64 }

  lemma {:induction false} RunEnds(p: Port, checked: bool, ops: seq<Op>, i: nat, k: nat, n: nat, step: nat)
    requires i < |ops| && 1 <= k <= MAX_COUNT && i + k <= |ops|
    ensures var c := WriteRun(p, checked, ops, i, k, n, step);
            && k <= c && i + c <= |ops|
            && !(JoinsWrites(p, ops, i, c, step) && c < MAX_COUNT && !Full(p, checked, Awaiting(n, ops[i], c - k)))
    decreases |ops| - (i + k)
  {
    hide JoinsWrites;
    if JoinsWrites(p, ops, i, k, step) && k < MAX_COUNT && !Full(p, checked, n) {
      JoinsWithin(p, ops, i, k, step);
      RunEnds(p, checked, ops, i, k + 1, n + Cost(ops[i]), step);
    }
  }

  lemma {:induction false} ReadRunEnds(p: Port, checked: bool, ops: seq<Op>, j: nat, k: nat, n: nat)
    requires j < |ops| && 1 <= k <= MAX_COUNT && j + k <= |ops|
    ensures var c := ReadRun(p, checked, ops, j, k, n);
            && k <= c && j + c <= |ops|
            && !(JoinsReads(p, ops, j, c) && c < MAX_COUNT && !Full(p, checked, Awaiting(n, ops[j], c - k)))
    decreases |ops| - (j + k)
  {
    hide JoinsReads;
    if JoinsReads(p, ops, j, k) && k < MAX_COUNT && !Full(p, checked, n) {
      FollowsWithin(p, ops, j, k);
      ReadRunEnds(p, checked, ops, j, k + 1, n + Cost(ops[j]));
    }
  }

  lemma JoinsWithin(p: Port, ops: seq<Op>, i: nat, k: nat, step: nat)
    requires i < |ops| && JoinsWrites(p, ops, i, k, step)
    ensures i + k < |ops|
  {
  }

  lemma FollowsWithin(p: Port, ops: seq<Op>, j: nat, k: nat)
    requires j < |ops| && JoinsReads(p, ops, j, k)
    ensures j + k < |ops|
  {
  }

  /** Joining the writes of a record, in terms of the operations. */
  lemma JoinsIff(p: Port, ops: seq<Op>, i: nat, m: nat, fifo: bool)
    requires Reachable(ops) && i < |ops| && ops[i].write
    ensures JoinsWrites(p, ops, i, m, Step(p, fifo)) <==> Continues(p, ops, i, fifo, m)
  {
  }

  lemma WritesPlanned(p: Port, checked: bool, ops: seq<Op>, i: nat, n: nat)
    requires Pending(p, checked, ops, i, n) && Reachable(ops)
    ensures var plan := PlanRecord(p, checked, ops, i, n);
            && ChainedWrites(p, checked, ops, i, n, plan.wcount, plan.fifo)
            && WritesEnd(p, checked, ops, i, n, plan.wcount, plan.fifo)
  {
    hide ReadCount, WriteRun, JoinsWrites, Continues, Step;
    WriteCountFacts(p, checked, ops, i, n);
    var w := WriteCount(p, checked, ops, i, n);
    if w > 0 {
      var first := StartsFifo(p, checked, ops, i, n);
      RunEnds(p, checked, ops, i, 1, n + Cost(ops[i]), Step(p, first));
      forall m: nat, f ensures JoinsWrites(p, ops, i, m, Step(p, f)) <==> Continues(p, ops, i, f, m) {
        JoinsIff(p, ops, i, m, f);
      }
      FirstTwo(p, ops, i);
    }
  }

  lemma FirstTwo(p: Port, ops: seq<Op>, i: nat)
    requires Reachable(ops) && i < |ops|
    ensures Step(p, true) == 0
    ensures Continues(p, ops, i, true, 1) ==> ops[i + 1].addr == ops[i].addr
    ensures Continues(p, ops, i, false, 1) ==> ops[i + 1].addr != ops[i].addr
  {
  }

  lemma ReadsPlanned(p: Port, checked: bool, ops: seq<Op>, i: nat, j: nat, n: nat)
    requires i <= j <= |ops| && (checked ==> n <= MaxOps(p))
    ensures var r := ReadCount(p, checked, ops, i, j, n);
            ChainedReads(p, checked, ops, i, j, n, r) && ReadsEnd(p, checked, ops, i, j, n, r)
  {
    hide ReadRun, JoinsReads, Follows;
    ReadCountFacts(p, checked, ops, i, j, n);
    if ReadCount(p, checked, ops, i, j, n) > 0 {
      ReadRunEnds(p, checked, ops, j, 1, n + Cost(ops[j]));
      forall m: nat ensures JoinsReads(p, ops, j, m) <==> Follows(p, ops, j, m) {
        FollowsIff(p, ops, j, m);
      }
    }
  }

  lemma FollowsIff(p: Port, ops: seq<Op>, j: nat, m: nat)
    requires j < |ops| && !ops[j].write
    ensures JoinsReads(p, ops, j, m) <==> Follows(p, ops, j, m)
  {
  }

  /** EVERY RECORD IS AS LONG AS IT CAN BE. */
  lemma PlanIsLongest(p: Port, checked: bool, ops: seq<Op>, i: nat, n: nat)
    requires Pending(p, checked, ops, i, n) && Reachable(ops)
    ensures Planned(p, checked, ops, i, n, PlanRecord(p, checked, ops, i, n))
  {
    hide ChainedWrites, WritesEnd, ChainedReads, ReadsEnd, WriteCount, ReadCount;
    WriteCountFacts(p, checked, ops, i, n);
    WritesPlanned(p, checked, ops, i, n);
    var w := WriteCount(p, checked, ops, i, n);
    ReadsPlanned(p, checked, ops, i, i + w, n + Spent(ops, i, w));
    ReadCountFacts(p, checked, ops, i, i + w, n + Spent(ops, i, w));
  }

  /* ---------- and that determines it ---------- */

  lemma WritesGoOn(p: Port, checked: bool, ops: seq<Op>, i: nat, n: nat, a: nat, f: bool, b: nat, g: bool)
    requires ChainedWrites(p, checked, ops, i, n, a, f) && ChainedWrites(p, checked, ops, i, n, b, g) && a < b
    ensures !WritesEnd(p, checked, ops, i, n, a, f)
  {
    hide Expected;
    assert a >= 1 ==> Continues(p, ops, i, g, a);
  }

  lemma NoMoreWrites(p: Port, checked: bool, ops: seq<Op>, i: nat, n: nat, a: nat, f: bool, b: nat, g: bool)
    requires ChainedWrites(p, checked, ops, i, n, a, f) && WritesEnd(p, checked, ops, i, n, a, f)
    requires ChainedWrites(p, checked, ops, i, n, b, g)
    ensures b <= a
  {
    hide ChainedWrites, WritesEnd;
    if a < b {
      WritesGoOn(p, checked, ops, i, n, a, f, b, g);
    }
  }

  lemma ReadsGoOn(p: Port, checked: bool, ops: seq<Op>, i: nat, j: nat, n: nat, a: nat, b: nat)
    requires i <= j && ChainedReads(p, checked, ops, i, j, n, a) && ChainedReads(p, checked, ops, i, j, n, b) && a < b
    ensures !ReadsEnd(p, checked, ops, i, j, n, a)
  {
    hide SameLanes;
    assert a >= 1 ==> Follows(p, ops, j, a);
  }

  lemma NoMoreReads(p: Port, checked: bool, ops: seq<Op>, i: nat, j: nat, n: nat, a: nat, b: nat)
    requires i <= j && ChainedReads(p, checked, ops, i, j, n, a) && ReadsEnd(p, checked, ops, i, j, n, a)
    requires ChainedReads(p, checked, ops, i, j, n, b)
    ensures b <= a
  {
    hide ChainedReads, ReadsEnd;
    if a < b {
      ReadsGoOn(p, checked, ops, i, j, n, a, b);
    }
  }

  /** There is exactly one such plan. */
  lemma PlannedOnce(p: Port, checked: bool, ops: seq<Op>, i: nat, n: nat, a: Plan, b: Plan)
    requires Planned(p, checked, ops, i, n, a) && Planned(p, checked, ops, i, n, b)
    ensures a == b
  {
    NoMoreWrites(p, checked, ops, i, n, a.wcount, a.fifo, b.wcount, b.fifo);
    NoMoreWrites(p, checked, ops, i, n, b.wcount, b.fifo, a.wcount, a.fifo);
    var j, n1 := i + a.wcount, if a.wcount == 0 then n else Awaiting(n, ops[i], a.wcount);
    SameFifo(p, checked, ops, i, n, a.wcount, a.fifo, b.fifo);
    NoMoreReads(p, checked, ops, i, j, n1, a.rcount, b.rcount);
    NoMoreReads(p, checked, ops, i, j, n1, b.rcount, a.rcount);
    hide ChainedWrites, WritesEnd, ChainedReads, ReadsEnd;
  }

  lemma SameFifo(p: Port, checked: bool, ops: seq<Op>, i: nat, n: nat, w: nat, f: bool, g: bool)
    requires ChainedWrites(p, checked, ops, i, n, w, f) && ChainedWrites(p, checked, ops, i, n, w, g)
    ensures f == g
  {
  }

  /* ---------- so much fits one record ---------- */

  /** The writes go to consecutive words. */
  ghost predicate Consecutive(p: Port, ops: seq<Op>) {
    forall m :: 0 <= m < |ops| ==>
      ops[m].write && Alike(ops[m], ops[0]) && ops[m].addr == ops[0].addr + m * p.data < TWO64
  }

  lemma ConsecutivePlan(p: Port, ops: seq<Op>)
    requires 1 <= |ops| <= 255 && Consecutive(p, ops)
    ensures Pending(p, false, ops, 0, 0)
    ensures var plan := PlanRecord(p, false, ops, 0, 0);
            plan.wcount == |ops| && plan.rcount == 0 && !plan.status && plan.last
  {
    var w := |ops|;
    var n := Awaiting(0, ops[0], w);
    var plan := Plan(false, w, 0, false, true, n);
    assert Reachable(ops);
    forall m | 0 < m < w ensures Continues(p, ops, 0, false, m) {
      assert ops[0 + m] == ops[m];
    }
    if w >= 2 {
      assert ops[1].addr == ops[0].addr + 1 * p.data;
    }
    assert Planned(p, false, ops, 0, 0, plan);
    PlanIsLongest(p, false, ops, 0, 0);
    PlannedOnce(p, false, ops, 0, 0, plan, PlanRecord(p, false, ops, 0, 0));
  }

  /** An unchecked cycle of up to 255 writes to consecutive words is one record: a header, a base
      address and the values. */
  lemma ConsecutiveWritesSize(p: Port, ops: seq<Op>, rba: nat)
    requires ValidOps(p, ops) && ReturnAddress(rba) && 1 <= |ops| <= 255 && Consecutive(p, ops)
    ensures |CycleBytes(p, false, ops, rba)| == HeadAlign(p) + Align(p) * (1 + |ops|)
  {
    ConsecutivePlan(p, ops);
    CycleRecordsFit(p, false, ops, 0, 0, rba);
    var plan := PlanRecord(p, false, ops, 0, 0);
    hide PlanRecord, Fits, Serialize, AllFit, Consecutive;
    PlanIsGood(p, false, ops, 0, 0);
    var rec := MakeRecord(p, ops, 0, plan, rba);
    assert CycleRecords(p, false, ops, 0, 0, rba) == [rec] + [];
    OneRecordSize(p, rec, |ops|);
  }

  lemma OneRecordSize(p: Port, rec: Record, count: nat)
    requires AllFit(p, [rec]) && rec.raddrs == [] && |rec.wvals| == count > 0
    ensures |SerializeAll(p, [rec])| == HeadAlign(p) + Align(p) * (1 + count)
  {
    assert Fits(p, rec);
    hide Fits, Serialize;
    SerializeOne(p, rec);
    SerializedSize(p, rec);
  }
}
