/** Flushing a device's queue: what becomes of each queued cycle, cycle by cycle and without any
    buffer. `Sender` proves that the buffered, packet-splitting code does exactly this. */
module Flush {
  import opened Bytes
  import opened Widths
  import opened Format
  import opened Master
  import opened ReadWrite
  import opened EndToEnd

  /** A closed cycle waiting to be sent. A dead one ran out of memory while it was filled. */
  datatype Queued = Queued(id: nat, dead: bool, requests: seq<Request>, checked: bool)

  /** A user callback: the cycle, the operation handed to the user, and the status. */
  datatype Callback = Callback(id: nat, op: Option<nat>, status: Status)

  /** A sent cycle whose reply is outstanding. */
  datatype InFlight = InFlight(id: nat, rba: nat, deadline: nat, response: Response)

  /** First operation at or after `i` that cannot be sent, and why. */
  function FirstBad(p: Port, requests: seq<Request>, i: nat): Option<(nat, Status)>
    requires i <= |requests|
    decreases |requests| - i
  {
    if i == |requests| then None
    else
      match Validate(p, requests[i])
      case Accepted(_) => FirstBad(p, requests, i + 1)
      case Rejected(status) => Some((i, status))
  }

  function OpOf(p: Port, r: Request): Op {
    match Validate(p, r)
    case Accepted(op) => op
    case Rejected(_) => Op(true, true, 0, 1, NoEndian, 0)
  }

  /** The operations as they will be sent. */
  function Ops(p: Port, requests: seq<Request>): (ops: seq<Op>)
    ensures |ops| == |requests|
  {
    seq(|requests|, k requires 0 <= k < |requests| => OpOf(p, requests[k]))
  }

  lemma {:induction false} GoodRequests(p: Port, requests: seq<Request>, i: nat)
    requires i <= |requests| && FirstBad(p, requests, i) == None
    ensures forall k :: i <= k < |requests| ==> Validate(p, requests[k]) == Accepted(Ops(p, requests)[k])
    decreases |requests| - i
  {
    hide Validate;
    if i < |requests| {
      GoodRequests(p, requests, i + 1);
    }
  }

  lemma AcceptedOpsValid(p: Port, requests: seq<Request>)
    requires FirstBad(p, requests, 0) == None
    ensures ValidOps(p, Ops(p, requests))
  {
    GoodRequests(p, requests, 0);
    hide Validate, ValidOp;
    var ops := Ops(p, requests);
    forall op | op in ops
      ensures ValidOp(p, op)
    {
      var k :| 0 <= k < |ops| && ops[k] == op;
      ValidateSound(p, requests[k]);
    }
  }

  /* ---------- does the cycle fit a packet ---------- */

  function RecordBytes(p: Port, ops: seq<Op>, i: nat, plan: Plan, rba: nat): seq<byte>
    requires ValidOps(p, ops) && i + plan.wcount + plan.rcount <= |ops|
  {
    var rec := MakeRecord(p, ops, i, plan, rba);
    if Fits(p, rec) then Serialize(p, rec) else []
  }

  /** Bytes of the records from operation `i` on. */
  function TailBytes(p: Port, checked: bool, ops: seq<Op>, i: nat, n: nat, rba: nat): seq<byte>
    requires ValidOps(p, ops) && Pending(p, checked, ops, i, n)
    decreases |ops| - i, n
  {
    PlanIsGood(p, checked, ops, i, n);
    var plan := PlanRecord(p, checked, ops, i, n);
    RecordBytes(p, ops, i, plan, rba)
    + if plan.last then [] else TailBytes(p, checked, ops, i + plan.wcount + plan.rcount, plan.n, rba)
  }

  lemma {:induction false} TailIsCycle(p: Port, checked: bool, ops: seq<Op>, i: nat, n: nat, rba: nat)
    requires ValidOps(p, ops) && Pending(p, checked, ops, i, n) && ReturnAddress(rba)
    ensures AllFit(p, CycleRecords(p, checked, ops, i, n, rba))
    ensures TailBytes(p, checked, ops, i, n, rba) == SerializeAll(p, CycleRecords(p, checked, ops, i, n, rba))
    decreases |ops| - i, n
  {
    hide PlanRecord, Fits, MakeRecord, GoodPlan, Serialize, SerializeAll, CycleRecords, TailBytes, RecordBytes, AllFit,
        ValidOps;
    CycleRecordsFit(p, checked, ops, i, n, rba);
    PlanIsGood(p, checked, ops, i, n);
    var plan := PlanRecord(p, checked, ops, i, n);
    MadeRecordFits(p, checked, ops, i, n, rba, plan);
    PlanBounds(p, checked, ops, i, n, plan);
    TailStep(p, checked, ops, i, n, rba, plan, i + plan.wcount + plan.rcount);
    var rec := MakeRecord(p, ops, i, plan, rba);
    if plan.last {
      SerializeOne(p, rec);
    } else {
      var tail := CycleRecords(p, checked, ops, i + plan.wcount + plan.rcount, plan.n, rba);
      TailIsCycle(p, checked, ops, i + plan.wcount + plan.rcount, plan.n, rba);
      SerializeCons(p, rec, tail);
    }
  }

  lemma TailStep(p: Port, checked: bool, ops: seq<Op>, i: nat, n: nat, rba: nat, plan: Plan, j: nat)
    requires ValidOps(p, ops) && Pending(p, checked, ops, i, n) && plan == PlanRecord(p, checked, ops, i, n)
    requires j == i + plan.wcount + plan.rcount <= |ops| && (!plan.last ==> Pending(p, checked, ops, j, plan.n))
    ensures var rec := MakeRecord(p, ops, i, plan, rba);
            && (Fits(p, rec) ==> RecordBytes(p, ops, i, plan, rba) == Serialize(p, rec))
            && CycleRecords(p, checked, ops, i, n, rba)
               == (if plan.last then [rec] else [rec] + CycleRecords(p, checked, ops, j, plan.n, rba))
            && TailBytes(p, checked, ops, i, n, rba)
               == RecordBytes(p, ops, i, plan, rba) + if plan.last then []
                   else TailBytes(p, checked, ops, j, plan.n, rba)
  {
    hide PlanRecord, Fits, MakeRecord, GoodPlan, Serialize, ValidOps;
    PlanIsGood(p, checked, ops, i, n);
    BytesOfFitting(p, ops, i, plan, rba);
    hide RecordBytes;
  }

  lemma BytesOfFitting(p: Port, ops: seq<Op>, i: nat, plan: Plan, rba: nat)
    requires ValidOps(p, ops) && i + plan.wcount + plan.rcount <= |ops|
    ensures var rec := MakeRecord(p, ops, i, plan, rba);
            Fits(p, rec) ==> RecordBytes(p, ops, i, plan, rba) == Serialize(p, rec)
  {
  }

  lemma SerializeCons(p: Port, rec: Record, tail: seq<Record>)
    requires Fits(p, rec) && AllFit(p, tail)
    ensures AllFit(p, [rec] + tail) && SerializeAll(p, [rec] + tail) == Serialize(p, rec) + SerializeAll(p, tail)
  {
    hide Fits, Serialize;
    assert ([rec] + tail)[1..] == tail;
  }

  lemma PlanBounds(p: Port, checked: bool, ops: seq<Op>, i: nat, n: nat, plan: Plan)
    requires i <= |ops| && GoodPlan(p, checked, ops, i, n, plan)
    ensures i + plan.wcount + plan.rcount <= |ops|
    ensures !plan.last ==> Pending(p, checked, ops, i + plan.wcount + plan.rcount, plan.n)
    ensures !plan.last ==> plan.wcount + plan.rcount > 0 || plan.n < n
  {
  }

  /** The operation at whose record the cycle outgrows `room` bytes, if it does. */
  function Misfit(p: Port, checked: bool, ops: seq<Op>, i: nat, n: nat, rba: nat, room: nat): Option<nat>
    requires ValidOps(p, ops) && Pending(p, checked, ops, i, n)
    decreases |ops| - i, n
  {
    PlanIsGood(p, checked, ops, i, n);
    var plan := PlanRecord(p, checked, ops, i, n);
    var size := |RecordBytes(p, ops, i, plan, rba)|;
    if size > room then Some(i)
    else if plan.last then None
    else Misfit(p, checked, ops, i + plan.wcount + plan.rcount, plan.n, rba, room - size)
  }

  lemma {:induction false} MisfitIff(p: Port, checked: bool, ops: seq<Op>, i: nat, n: nat, rba: nat, room: nat)
    requires ValidOps(p, ops) && Pending(p, checked, ops, i, n)
    ensures Misfit(p, checked, ops, i, n, rba, room) == None <==> |TailBytes(p, checked, ops, i, n, rba)| <= room
    decreases |ops| - i, n
  {
    hide PlanRecord, GoodPlan, RecordBytes;
    PlanIsGood(p, checked, ops, i, n);
    var plan := PlanRecord(p, checked, ops, i, n);
    PlanBounds(p, checked, ops, i, n, plan);
    var size := |RecordBytes(p, ops, i, plan, rba)|;
    if size <= room && !plan.last {
      MisfitIff(p, checked, ops, i + plan.wcount + plan.rcount, plan.n, rba, room - size);
    }
  }

  /* ---------- does the cycle wait for a reply ---------- */

  predicate ReadsBack(recs: seq<Record>) {
    exists k :: 0 <= k < |recs| && recs[k].raddrs != []
  }

  /** Some operation from `i` on returns a value or awaits an error bit. */
  predicate Owed(checked: bool, ops: seq<Op>, i: nat, n: nat) {
    (checked && n > 0) || exists m :: i <= m < |ops| && (!ops[m].write || (checked && !ops[m].cfg))
  }

  lemma OwedStep(p: Port, checked: bool, ops: seq<Op>, i: nat, n: nat, plan: Plan)
    requires i <= |ops| && GoodPlan(p, checked, ops, i, n, plan)
    ensures plan.rcount > 0 || plan.status ==> Owed(checked, ops, i, n)
    ensures plan.rcount == 0 && !plan.status ==>
              (Owed(checked, ops, i, n) <==> Owed(checked, ops, i + plan.wcount, plan.n))
  {
    if plan.rcount > 0 {
      assert !ops[i + plan.wcount].write;
    } else if plan.status && n == 0 {
      assert plan.wcount > 0 && !ops[i].cfg;
    } else if !plan.status {
      forall m | i <= m < i + plan.wcount
        ensures ops[m].write && ops[m].cfg == ops[i].cfg
      {
        WriteFormats(p, checked, ops, i, n, plan, m - i);
      }
      if plan.wcount > 0 && !ops[i].cfg {
        assert plan.n > 0;
      }
    }
  }

  lemma ReadsBackFirst(rec: Record, tail: seq<Record>)
    ensures ReadsBack([rec] + tail) <==> rec.raddrs != [] || ReadsBack(tail)
  {
    var recs := [rec] + tail;
    if rec.raddrs != [] {
      assert recs[0].raddrs != [];
    }
    if ReadsBack(tail) {
      var k :| 0 <= k < |tail| && tail[k].raddrs != [];
      assert recs[k + 1] == tail[k];
    }
    if ReadsBack(recs) && rec.raddrs == [] {
      var k :| 0 <= k < |recs| && recs[k].raddrs != [];
      assert recs[k] == tail[k - 1];
    }
  }

  lemma MadeReads(p: Port, ops: seq<Op>, i: nat, plan: Plan, rba: nat)
    requires ValidOps(p, ops) && i + plan.wcount + plan.rcount <= |ops|
    ensures MakeRecord(p, ops, i, plan, rba).raddrs != [] <==> plan.rcount > 0 || plan.status
  {
  }

  /** A record asks for a reply exactly when something is owed. */
  lemma {:induction false} ReadsBackIff(p: Port, checked: bool, ops: seq<Op>, i: nat, n: nat, rba: nat)
    requires ValidOps(p, ops) && Pending(p, checked, ops, i, n)
    ensures ReadsBack(CycleRecords(p, checked, ops, i, n, rba)) <==> Owed(checked, ops, i, n)
    decreases |ops| - i, n
  {
    hide PlanRecord, GoodPlan, MakeRecord, Owed, ReadsBack;
    PlanIsGood(p, checked, ops, i, n);
    var plan := PlanRecord(p, checked, ops, i, n);
    PlanBounds(p, checked, ops, i, n, plan);
    OwedStep(p, checked, ops, i, n, plan);
    MadeReads(p, ops, i, plan, rba);
    var rec := MakeRecord(p, ops, i, plan, rba);
    if plan.last {
      LastOwesNothing(p, checked, ops, i, n, plan);
      ReadsBackFirst(rec, []);
      assert !ReadsBack([]) by { NoRecords(); }
    } else {
      var i1 := i + plan.wcount + plan.rcount;
      ReadsBackIff(p, checked, ops, i1, plan.n, rba);
      ReadsBackFirst(rec, CycleRecords(p, checked, ops, i1, plan.n, rba));
    }
  }

  lemma NoRecords()
    ensures !ReadsBack([])
  {
  }

  lemma LastOwesNothing(p: Port, checked: bool, ops: seq<Op>, i: nat, n: nat, plan: Plan)
    requires i <= |ops| && GoodPlan(p, checked, ops, i, n, plan) && plan.last
    ensures !Owed(checked, ops, i + plan.wcount + plan.rcount, plan.n)
  {
  }

  lemma StartArrived(checked: bool, ops: seq<Op>)
    ensures AllArrived(Start(checked, ops)) <==> !Owed(checked, ops, 0, 0)
  {
    var r := Start(checked, ops);
    if r.wcur < |ops| { assert !ops[r.wcur].write; }
    if r.scur < |ops| { assert checked && !ops[r.scur].cfg; }
    if AllArrived(r) {
      forall m | 0 <= m < |ops|
        ensures ops[m].write && (checked ==> ops[m].cfg)
      {
        assert r.cells[m].write && (checked ==> r.cells[m].cfg);
      }
    }
  }

  /* ---------- the fate of a cycle ---------- */

  /** Not sent, but reported to the user; sent and already complete; or sent and awaiting a reply. */
  datatype Fate = Reported(op: Option<nat>, status: Status) | Completed(bytes: seq<byte>) | Awaiting(bytes: seq<byte>)

  /** Room for cycles in a packet; streams (`mtu == 0`) have no limit. */
  function Room(p: Port, mtu: nat): nat { if mtu < HeadAlign(p) then 0 else mtu - HeadAlign(p) }

  /** What happens to a cycle depends on nothing but the cycle, the return address on offer and
      whether memory for a response is left. */
  function FateOf(p: Port, mtu: nat, rba: nat, alloc: bool, c: Queued): Fate
    requires ReturnAddress(rba)
  {
    if c.dead then Reported(None, OutOfMemory)
    else if c.requests == [] then Reported(None, Ok)
    else if FirstBad(p, c.requests, 0).Some? then
      var (i, status) := FirstBad(p, c.requests, 0).value;
      Reported(Some(i), status)
    else if !alloc then Reported(None, OutOfMemory)
    else
      AcceptedOpsValid(p, c.requests);
      var ops := Ops(p, c.requests);
      if mtu != 0 && Misfit(p, c.checked, ops, 0, 0, rba, Room(p, mtu)).Some? then
        Reported(Misfit(p, c.checked, ops, 0, 0, rba, Room(p, mtu)), Overflow)
      else if AllArrived(Start(c.checked, ops)) then Completed(CycleBytes(p, c.checked, ops, rba))
      else Awaiting(CycleBytes(p, c.checked, ops, rba))
  }

  /** Return addresses step through the even addresses of the upper half and wrap. */
  function NextAddress(rba: nat): nat {
    var next := (rba + 2) % 0x1_0000;
    if next < 0x8000 then next + 0x8000 else next
  }

  lemma NextAddressReturns(rba: nat)
    requires ReturnAddress(rba)
    ensures ReturnAddress(NextAddress(rba))
  {
  }

  function Deadline(time: nat): nat { (time + 5) % 0x1_0000 }

  /** Running totals of a flush: the next return address, callbacks made, responses issued and
      the byte strings of the cycles sent, each in order. */
  datatype Tally = Tally(rba: nat, callbacks: seq<Callback>, issued: seq<InFlight>, wire: seq<seq<byte>>)

  function Settle(p: Port, mtu: nat, time: nat, alloc: bool, c: Queued, t: Tally): Tally
    requires ReturnAddress(t.rba)
  {
    match FateOf(p, mtu, t.rba, alloc, c)
    case Reported(op, status) => t.(callbacks := t.callbacks + [Callback(c.id, op, status)])
    case Completed(bytes) =>
      t.(callbacks := t.callbacks + [Callback(c.id, Some(0), Ok)], wire := t.wire + [bytes])
    case Awaiting(bytes) =>
      Tally(NextAddress(t.rba), t.callbacks,
            t.issued + [InFlight(c.id, t.rba, Deadline(time), Start(c.checked, Ops(p, c.requests)))],
            t.wire + [bytes])
  }

  /** All cycles of a queue, oldest first. */
  function Account(p: Port, mtu: nat, time: nat, alloc: nat -> bool, queue: seq<Queued>, t: Tally): Tally
    requires ReturnAddress(t.rba)
    decreases |queue|
  {
    if queue == [] then t
    else
      NextAddressReturns(t.rba);
      Account(p, mtu, time, alloc, queue[1..], Settle(p, mtu, time, alloc(queue[0].id), queue[0], t))
  }

  lemma AccountStep(p: Port, mtu: nat, time: nat, alloc: nat -> bool, queue: seq<Queued>, t: Tally)
    requires ReturnAddress(t.rba)
    ensures queue == [] ==> Account(p, mtu, time, alloc, queue, t) == t
    ensures queue != [] ==>
              var u := Settle(p, mtu, time, alloc(queue[0].id), queue[0], t);
              ReturnAddress(u.rba) && Account(p, mtu, time, alloc, queue, t)
                  == Account(p, mtu, time, alloc, queue[1..], u)
  {
    NextAddressReturns(t.rba);
  }

  lemma {:induction false} AccountConcat(p: Port, mtu: nat, time: nat, alloc: nat -> bool, a: seq<Queued>,
                                         b: seq<Queued>, t: Tally)
    requires ReturnAddress(t.rba)
    ensures ReturnAddress(Account(p, mtu, time, alloc, a, t).rba)
    ensures Account(p, mtu, time, alloc, a + b, t)
         == Account(p, mtu, time, alloc, b, Account(p, mtu, time, alloc, a, t))
    decreases |a|
  {
    hide FateOf;
    if a == [] {
      assert a + b == b;
    } else {
      NextAddressReturns(t.rba);
      assert (a + b)[1..] == a[1..] + b;
      AccountConcat(p, mtu, time, alloc, a[1..], b, Settle(p, mtu, time, alloc(a[0].id), a[0], t));
    }
  }

  /** A valid cycle is refused for its size exactly on a packet transport and exactly when its bytes
      and a header exceed the packet size; on a stream never. A refused cycle has no bytes. */
  lemma OverflowIff(p: Port, mtu: nat, rba: nat, c: Queued)
    requires ReturnAddress(rba) && !c.dead && c.requests != [] && FirstBad(p, c.requests, 0) == None
    requires mtu == 0 || mtu >= HeadAlign(p)
    ensures ValidOps(p, Ops(p, c.requests))
    ensures var fate := FateOf(p, mtu, rba, true, c);
            && ((fate.Reported? && fate.status == Overflow) <==>
                mtu != 0 && HeadAlign(p) + |CycleBytes(p, c.checked, Ops(p, c.requests), rba)| > mtu)
            && (fate.Reported? ==> fate.status == Overflow && fate.op.Some?)
            && (!fate.Reported? ==> fate.bytes == CycleBytes(p, c.checked, Ops(p, c.requests), rba))
  {
    hide *;
    AcceptedOpsValid(p, c.requests);
    var ops := Ops(p, c.requests);
    NothingSent(p, c.checked, ops);
    TailIsCycle(p, c.checked, ops, 0, 0, rba);
    MisfitIff(p, c.checked, ops, 0, 0, rba, Room(p, mtu));
    FateCases(p, mtu, rba, c);
  }

  lemma NothingSent(p: Port, checked: bool, ops: seq<Op>)
    requires ops != []
    ensures Pending(p, checked, ops, 0, 0)
  {
  }

  lemma FateCases(p: Port, mtu: nat, rba: nat, c: Queued)
    requires ReturnAddress(rba) && !c.dead && c.requests != [] && FirstBad(p, c.requests, 0) == None
    requires mtu == 0 || mtu >= HeadAlign(p)
    ensures var ops := Ops(p, c.requests);
            && ValidOps(p, ops) && Pending(p, c.checked, ops, 0, 0)
            && AllFit(p, CycleRecords(p, c.checked, ops, 0, 0, rba))
            && CycleBytes(p, c.checked, ops, rba) == SerializeAll(p, CycleRecords(p, c.checked, ops, 0, 0, rba))
            && (mtu != 0 ==> Room(p, mtu) == mtu - HeadAlign(p))
            && var misfit := Misfit(p, c.checked, ops, 0, 0, rba, Room(p, mtu));
               var fate := FateOf(p, mtu, rba, true, c);
            && (if mtu != 0 && misfit.Some? then fate == Reported(misfit, Overflow)
                else !fate.Reported? && fate.bytes == CycleBytes(p, c.checked, ops, rba))
  {
    AcceptedOpsValid(p, c.requests);
    CycleRecordsFit(p, c.checked, Ops(p, c.requests), 0, 0, rba);
    hide FirstBad, Misfit, CycleRecords, Start, Ops, ValidOps, SerializeAll, AllFit;
  }
}
