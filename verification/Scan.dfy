/** The master's scan for the next record, as the source's two nested cursor loops. */
module Scan {
  import opened Bytes
  import opened Format
  import opened Master

  /** Count the writes the next record takes, starting at operation `i`. */
  method ScanWrites(p: Port, checked: bool, ops: seq<Op>, i: nat, n: nat) returns (wcount: nat, fifo: bool, used: nat)
    requires i <= |ops| && (checked ==> n <= MaxOps(p))
    ensures wcount == WriteCount(p, checked, ops, i, n)
    ensures fifo == PlanRecord(p, checked, ops, i, n).fifo
    ensures (wcount > 0 ==> i < |ops|) && used == n + Spent(ops, i, wcount)
  {
    hide ReadCount, ReadRun;
    wcount, fifo, used := 0, false, n;
    if Full(p, checked, used) || i == |ops| || !ops[i].write {
      return;
    }
    var wcfg, bwa := ops[i].cfg, ops[i].addr;
    wcount := 1;
    if !wcfg { used := used + 1; }
    var scan := i + 1;
    if Full(p, checked, used) || scan == |ops| || !ops[scan].write || ops[scan].cfg != wcfg
        || !SameFormat(ops[scan], ops[i]) {
      SingleWrite(p, checked, ops, i, used);
      return;
    }
    if ops[scan].addr == Wrap64(bwa) {
      fifo := true;
    } else {
      bwa := Wrap64(bwa + p.data);
      if ops[scan].addr != bwa {
        SingleWrite(p, checked, ops, i, used);
        return;
      }
    }
    assert JoinsWrites(p, ops, i, 1, Step(p, fifo)) by { NextStep(p, ops[i].addr, 1, fifo); }
    wcount := 2;
    if !wcfg { used := used + 1; }
    wcount, used := ExtendWrites(p, checked, ops, i, used, fifo);
  }

  /** Two writes already chain; count how many more follow. */
  method ExtendWrites(p: Port, checked: bool, ops: seq<Op>, i: nat, n: nat, fifo: bool) returns (wcount: nat, used: nat)
    requires i + 2 <= |ops|
    ensures wcount == WriteRun(p, checked, ops, i, 2, n, Step(p, fifo))
    ensures wcount >= 2 && used == n + (wcount - 2) * Cost(ops[i])
  {
    hide JoinsWrites, Wrap64, WriteRun, SameFormat, Full;
    var wcfg, bwa := ops[i].cfg, if fifo then ops[i].addr else Wrap64(ops[i].addr + p.data);
    ghost var step := Step(p, fifo);
    wcount, used := 2, n;
    var scan := i + 2;
    while scan < |ops|
      invariant i + wcount == scan <= |ops| && 2 <= wcount <= MAX_COUNT
      invariant used == n + (wcount - 2) * Cost(ops[i])
      invariant bwa == if fifo then ops[i].addr else Wrap64(ops[i].addr + (wcount - 1) * step)
      invariant WriteRun(p, checked, ops, i, wcount, used, step) == WriteRun(p, checked, ops, i, 2, n, step)
      decreases |ops| - scan
    {
      NextStep(p, ops[i].addr, wcount, fifo);
      JoinMeans(p, ops, i, wcount, step);
      RunStep(p, checked, ops, i, wcount, used, step);
      CostTimes(ops[i], wcount - 2);
      if !fifo { bwa := Wrap64(bwa + p.data); }
      if ops[scan].addr != Wrap64(bwa) { break; }
      if !ops[scan].write { break; }
      if ops[scan].cfg != wcfg { break; }
      if !SameFormat(ops[scan], ops[i]) { break; }
      if wcount >= 255 { break; }
      if Full(p, checked, used) { break; }
      if !wcfg { used := used + 1; }
      wcount := wcount + 1;
      scan := scan + 1;
    }
    if scan == |ops| {
      JoinsEnd(p, ops, i, wcount, step);
      RunStep(p, checked, ops, i, wcount, used, step);
    }
  }

  lemma JoinMeans(p: Port, ops: seq<Op>, i: nat, k: nat, step: nat)
    requires i + k < |ops|
    ensures JoinsWrites(p, ops, i, k, step) <==>
              ops[i + k].addr == Wrap64(ops[i].addr + k * step) && ops[i + k].write && ops[i + k].cfg == ops[i].cfg
              && SameFormat(ops[i + k], ops[i])
  {
  }

  lemma RunStep(p: Port, checked: bool, ops: seq<Op>, i: nat, k: nat, n: nat, step: nat)
    requires i < |ops|
    ensures WriteRun(p, checked, ops, i, k, n, step) ==
              if JoinsWrites(p, ops, i, k, step) && k < MAX_COUNT && !Full(p, checked, n)
              then WriteRun(p, checked, ops, i, k + 1, n + Cost(ops[i]), step) else k
  {
  }

  lemma CostTimes(op: Op, k: nat)
    ensures (k + 1) * Cost(op) == k * Cost(op) + if op.cfg then 0 else 1
  {
  }

  lemma JoinsEnd(p: Port, ops: seq<Op>, i: nat, k: nat, step: nat)
    requires i < |ops| && i + k == |ops|
    ensures !JoinsWrites(p, ops, i, k, step)
  {
  }

  lemma SingleWrite(p: Port, checked: bool, ops: seq<Op>, i: nat, used: nat)
    requires i < |ops|
    requires || Full(p, checked, used) || (!JoinsWrites(p, ops, i, 1, 0) && !JoinsWrites(p, ops, i, 1, p.data))
    ensures WriteRun(p, checked, ops, i, 1, used, 0) == 1 && WriteRun(p, checked, ops, i, 1, used, p.data) == 1
  {
  }

  lemma NextStep(p: Port, base: nat, k: nat, fifo: bool)
    requires k > 0
    ensures fifo ==> Wrap64(base + k * Step(p, fifo)) == Wrap64(base)
    ensures !fifo ==> Wrap64(Wrap64(base + (k - 1) * Step(p, fifo)) + p.data) == Wrap64(base + k * Step(p, fifo))
    ensures !fifo ==> Wrap64(Wrap64(base + k * Step(p, fifo))) == Wrap64(base + k * Step(p, fifo))
  {
    if !fifo {
      WrapStep(base + (k - 1) * p.data, p.data);
      assert base + (k - 1) * p.data + p.data == base + k * p.data;
    }
  }

  /** Count the reads that follow at operation `j` of a record that starts at `i`. */
  method ScanReads(p: Port, checked: bool, ops: seq<Op>, i: nat, j: nat, n: nat) returns (rcount: nat, used: nat)
    requires i <= j <= |ops| && (checked ==> n <= MaxOps(p))
    ensures rcount == ReadCount(p, checked, ops, i, j, n)
    ensures (rcount > 0 ==> j < |ops|) && used == n + Spent(ops, j, rcount)
  {
    rcount, used := 0, n;
    if Full(p, checked, used) || j == |ops| || ops[j].write
       || (i < j && (!SameFormat(ops[j], ops[i]) || ops[j].addr % p.data != Low(p, ops[i]))) {
      return;
    }
    var rcfg, low := ops[j].cfg, ops[j].addr % p.data;
    if !rcfg { used := used + 1; }
    rcount := 1;
    var scan := j + 1;
    while scan < |ops|
      invariant j + rcount == scan <= |ops| && 1 <= rcount <= MAX_COUNT
      invariant used == n + Spent(ops, j, rcount) && (checked ==> used <= MaxOps(p))
      invariant ReadRun(p, checked, ops, j, rcount, used) == ReadCount(p, checked, ops, i, j, n)
      decreases |ops| - scan
    {
      if ops[scan].write { break; }
      if ops[scan].cfg != rcfg { break; }
      if !SameFormat(ops[scan], ops[j]) { break; }
      if ops[scan].addr % p.data != low { break; }
      if rcount >= 255 { break; }
      if Full(p, checked, used) { break; }
      if !rcfg { used := used + 1; }
      rcount := rcount + 1;
      scan := scan + 1;
    }
  }

  /** The next record's plan. */
  method ScanRecord(p: Port, checked: bool, ops: seq<Op>, i: nat, n: nat) returns (plan: Plan)
    requires Pending(p, checked, ops, i, n)
    ensures plan == PlanRecord(p, checked, ops, i, n)
  {
    WriteCountFacts(p, checked, ops, i, n);
    var wcount, fifo, used := ScanWrites(p, checked, ops, i, n);
    ReadCountFacts(p, checked, ops, i, i + wcount, used);
    hide WriteCount, ReadCount;
    var rcount;
    rcount, used := ScanReads(p, checked, ops, i, i + wcount, used);
    var scan := i + wcount + rcount;
    var status := rcount == 0 && (wcount == 0 || ops[i].size == p.data)
                  && (Full(p, checked, used) || (scan == |ops| && checked && used > 0));
    var last := scan == |ops| && (!checked || used == 0 || status);
    plan := Plan(fifo, wcount, rcount, status, last, if status then 0 else used);
  }
}
