/** What becomes of a queued cycle and which operation its callback is handed, in terms of the
    requests the user made. */
module Outcomes {
  import opened Widths
  import opened Format
  import opened Lists
  import opened Master
  import opened ReadWrite
  import opened EndToEnd
  import opened Flush
  import opened Replies
  import opened Answers
  import opened Lifecycle
  import opened Moves
  import opened Protocol
  import opened Flushing

  ghost predicate AllAccepted(p: Port, rs: seq<Request>, to: nat)
    requires to <= |rs|
  {
    forall k :: 0 <= k < to ==> Validate(p, rs[k]).Accepted?
  }

  /** The first request that fails validation, and how. */
  ghost predicate FirstRejected(p: Port, rs: seq<Request>, i: nat, status: Status) {
    i < |rs| && Validate(p, rs[i]) == Rejected(status) && AllAccepted(p, rs, i)
  }

  lemma {:induction false} FirstBadFrom(p: Port, rs: seq<Request>, from: nat)
    requires from <= |rs| && AllAccepted(p, rs, from)
    ensures FirstBad(p, rs, from) == None <==> AllAccepted(p, rs, |rs|)
    ensures forall i: nat, status :: FirstBad(p, rs, from) == Some((i, status)) <==> FirstRejected(p, rs, i, status)
    decreases |rs| - from
  {
    hide Validate;
    if from < |rs| {
      if Validate(p, rs[from]).Accepted? {
        FirstBadFrom(p, rs, from + 1);
      }
    }
  }

  /* ---------- cycles that do not fit ---------- */

  /** Operations carried by records; an error read, to an odd address, carries none. */
  function Carried(recs: seq<Record>): nat {
    if recs == [] then 0
    else |recs[0].wvals| + (if recs[0].rbase % 2 == 1 then 0 else |recs[0].raddrs|) + Carried(recs[1..])
  }

  /** A cycle too large for its packet is reported at the first operation of the record that does not
      fit any more. */
  ghost predicate Outgrows(p: Port, recs: seq<Record>, room: nat, i: nat, k: nat)
    requires AllFit(p, recs)
  {
    && k < |recs| && AllFit(p, recs[..k]) && AllFit(p, recs[..k + 1])
    && |SerializeAll(p, recs[..k])| <= room < |SerializeAll(p, recs[..k + 1])|
    && i == Carried(recs[..k])
  }

  ghost predicate OutgrownAt(p: Port, recs: seq<Record>, room: nat, i: nat)
    requires AllFit(p, recs)
  {
    exists k :: Outgrows(p, recs, room, i, k)
  }

  /** The operations a made record carries. */
  lemma MadeCarries(p: Port, checked: bool, ops: seq<Op>, i: nat, n: nat, rba: nat, plan: Plan)
    requires ValidOps(p, ops) && i <= |ops| && GoodPlan(p, checked, ops, i, n, plan) && ReturnAddress(rba)
    ensures i + plan.wcount + plan.rcount <= |ops|
    ensures forall tail :: Carried([MakeRecord(p, ops, i, plan, rba)] + tail) ==
                             plan.wcount + plan.rcount + Carried(tail)
  {
    var rec := MakeRecord(p, ops, i, plan, rba);
    assert |rec.wvals| == plan.wcount && (if rec.rbase % 2 == 1 then 0 else |rec.raddrs|) == plan.rcount;
    forall tail ensures Carried([rec] + tail) == plan.wcount + plan.rcount + Carried(tail) {
      assert ([rec] + tail)[1..] == tail;
    }
  }

  lemma OutgrowsFirst(p: Port, rec: Record, tail: seq<Record>, room: nat)
    requires Fits(p, rec) && AllFit(p, tail) && |Serialize(p, rec)| > room
    ensures AllFit(p, [rec] + tail) && Outgrows(p, [rec] + tail, room, 0, 0)
  {
    hide Fits, Serialize;
    SerializeOne(p, rec);
    var recs := [rec] + tail;
    assert recs[..0] == [] && recs[..1] == [rec];
  }

  lemma OutgrowsLater(p: Port, rec: Record, tail: seq<Record>, room: nat, i: nat, k: nat, carried: nat)
    requires Fits(p, rec) && AllFit(p, tail) && |Serialize(p, rec)| <= room
    requires Outgrows(p, tail, room - |Serialize(p, rec)|, i, k)
    requires forall more :: Carried([rec] + more) == carried + Carried(more)
    ensures AllFit(p, [rec] + tail) && Outgrows(p, [rec] + tail, room, carried + i, k + 1)
  {
    hide Fits, Serialize, SerializeAll, AllFit, Carried;
    var recs := [rec] + tail;
    SerializeCons(p, rec, tail);
    SerializeCons(p, rec, tail[..k]);
    SerializeCons(p, rec, tail[..k + 1]);
    assert recs[..k + 1] == [rec] + tail[..k] && recs[..k + 2] == [rec] + tail[..k + 1];
  }

  lemma {:induction false} MisfitIs(p: Port, checked: bool, ops: seq<Op>, i: nat, n: nat, rba: nat, room: nat)
      returns (k: nat)
    requires ValidOps(p, ops) && Pending(p, checked, ops, i, n) && ReturnAddress(rba)
    requires Misfit(p, checked, ops, i, n, rba, room).Some?
    ensures AllFit(p, CycleRecords(p, checked, ops, i, n, rba))
    ensures var m := Misfit(p, checked, ops, i, n, rba, room).value;
            m >= i && Outgrows(p, CycleRecords(p, checked, ops, i, n, rba), room, m - i, k)
    decreases |ops| - i, n
  {
    hide PlanRecord, Fits, MakeRecord, GoodPlan, Serialize, SerializeAll, CycleRecords, RecordBytes, AllFit, ValidOps,
        Outgrows, Carried, Misfit;
    CycleRecordsFit(p, checked, ops, i, n, rba);
    PlanIsGood(p, checked, ops, i, n);
    var plan := PlanRecord(p, checked, ops, i, n);
    MadeRecordFits(p, checked, ops, i, n, rba, plan);
    PlanBounds(p, checked, ops, i, n, plan);
    MadeCarries(p, checked, ops, i, n, rba, plan);
    var j := i + plan.wcount + plan.rcount;
    TailStep(p, checked, ops, i, n, rba, plan, j);
    MisfitStep(p, checked, ops, i, n, rba, room, plan, j);
    var rec := MakeRecord(p, ops, i, plan, rba);
    var tail := if plan.last then [] else CycleRecords(p, checked, ops, j, plan.n, rba);
    assert [rec] + [] == [rec];
    if !plan.last {
      CycleRecordsFit(p, checked, ops, j, plan.n, rba);
    } else {
      NoneFit(p);
    }
    if |Serialize(p, rec)| > room {
      k := 0;
      OutgrowsFirst(p, rec, tail, room);
    } else {
      k := MisfitIs(p, checked, ops, j, plan.n, rba, room - |Serialize(p, rec)|);
      var m := Misfit(p, checked, ops, j, plan.n, rba, room - |Serialize(p, rec)|).value;
      OutgrowsLater(p, rec, tail, room, m - j, k, plan.wcount + plan.rcount);
      k := k + 1;
    }
  }

  lemma NoneFit(p: Port)
    ensures AllFit(p, [])
  {
  }

  lemma MisfitStep(p: Port, checked: bool, ops: seq<Op>, i: nat, n: nat, rba: nat, room: nat, plan: Plan, j: nat)
    requires ValidOps(p, ops) && Pending(p, checked, ops, i, n) && plan == PlanRecord(p, checked, ops, i, n)
    requires j == i + plan.wcount + plan.rcount <= |ops| && (!plan.last ==> Pending(p, checked, ops, j, plan.n))
    ensures var size := |RecordBytes(p, ops, i, plan, rba)|;
            Misfit(p, checked, ops, i, n, rba, room) ==
              if size > room then Some(i) else if plan.last then None
              else Misfit(p, checked, ops, j, plan.n, rba, room - size)
  {
    hide PlanRecord, RecordBytes, GoodPlan, ValidOps;
    PlanIsGood(p, checked, ops, i, n);
  }

  /* ---------- the fate of a cycle ---------- */

  /** WHAT BECOMES OF A CYCLE. One that ran out of memory is reported so; an empty one is done; one with
      a bad request is reported with the first of these and its fault; a good one without memory for a
      response is reported so. Otherwise it is sent, whole, if it fits, and it awaits a reply exactly
      if something is owed; and if it does not fit it is reported with the operation that outgrew the
      packet. */
  lemma FateExact(p: Port, mtu: nat, rba: nat, alloc: bool, c: Queued)
    requires ReturnAddress(rba) && (mtu == 0 || mtu >= HeadAlign(p))
    ensures var fate, rs := FateOf(p, mtu, rba, alloc, c), c.requests;
            && (c.dead ==> fate == Reported(None, OutOfMemory))
            && (!c.dead && rs == [] ==> fate == Reported(None, Ok))
            && (forall i: nat, status ::
                  !c.dead && FirstRejected(p, rs, i, status) ==> fate == Reported(Some(i), status))
            && (!c.dead && rs != [] && AllAccepted(p, rs, |rs|) ==>
                  && ValidOps(p, Ops(p, rs)) && AllFit(p, CycleRecords(p, c.checked, Ops(p, rs), 0, 0, rba))
                  && var ops, bytes := Ops(p, rs), CycleBytes(p, c.checked, Ops(p, rs), rba);
                  if !alloc then fate == Reported(None, OutOfMemory)
                  else if mtu == 0 || HeadAlign(p) + |bytes| <= mtu then
                    fate == if Owed(c.checked, ops, 0, 0) then Fate.Awaiting(bytes) else Completed(bytes)
                  else
                    && fate.Reported? && fate.status == Overflow && fate.op.Some?
                    && OutgrownAt(p, CycleRecords(p, c.checked, ops, 0, 0, rba), mtu - HeadAlign(p), fate.op.value))
  {
    FirstBadFrom(p, c.requests, 0);
    hide *;
    if !c.dead && c.requests != [] && AllAccepted(p, c.requests, |c.requests|) {
      GoodFate(p, mtu, rba, alloc, c);
    } else {
      EarlyFate(p, mtu, rba, alloc, c);
    }
  }

  lemma EarlyFate(p: Port, mtu: nat, rba: nat, alloc: bool, c: Queued)
    requires ReturnAddress(rba)
    ensures c.dead ==> FateOf(p, mtu, rba, alloc, c) == Reported(None, OutOfMemory)
    ensures !c.dead && c.requests == [] ==> FateOf(p, mtu, rba, alloc, c) == Reported(None, Ok)
    ensures !c.dead && c.requests != [] && FirstBad(p, c.requests, 0).Some? ==>
              FateOf(p, mtu, rba, alloc, c)
                == Reported(Some(FirstBad(p, c.requests, 0).value.0), FirstBad(p, c.requests, 0).value.1)
  {
    hide FirstBad;
  }

  lemma GoodFate(p: Port, mtu: nat, rba: nat, alloc: bool, c: Queued)
    requires ReturnAddress(rba) && (mtu == 0 || mtu >= HeadAlign(p))
    requires !c.dead && c.requests != [] && FirstBad(p, c.requests, 0) == None
    ensures ValidOps(p, Ops(p, c.requests))
    ensures AllFit(p, CycleRecords(p, c.checked, Ops(p, c.requests), 0, 0, rba))
    ensures var ops, fate := Ops(p, c.requests), FateOf(p, mtu, rba, alloc, c);
            var bytes := CycleBytes(p, c.checked, ops, rba);
            if !alloc then fate == Reported(None, OutOfMemory)
            else if mtu == 0 || HeadAlign(p) + |bytes| <= mtu then
              fate == if Owed(c.checked, ops, 0, 0) then Fate.Awaiting(bytes) else Completed(bytes)
            else
              && fate.Reported? && fate.status == Overflow && fate.op.Some?
              && OutgrownAt(p, CycleRecords(p, c.checked, ops, 0, 0, rba), mtu - HeadAlign(p), fate.op.value)
  {
    hide *;
    FateCases(p, mtu, rba, c);
    OverflowIff(p, mtu, rba, c);
    var ops := Ops(p, c.requests);
    StartArrived(c.checked, ops);
    AllocMatters(p, mtu, rba, alloc, c);
    if alloc && !(mtu == 0 || HeadAlign(p) + |CycleBytes(p, c.checked, ops, rba)| <= mtu) {
      var k := MisfitIs(p, c.checked, ops, 0, 0, rba, Room(p, mtu));
      var i := Misfit(p, c.checked, ops, 0, 0, rba, Room(p, mtu)).value;
      AtSome(p, CycleRecords(p, c.checked, ops, 0, 0, rba), mtu - HeadAlign(p), i, k);
    }
  }

  lemma AtSome(p: Port, recs: seq<Record>, room: nat, i: nat, k: nat)
    requires AllFit(p, recs) && Outgrows(p, recs, room, i, k)
    ensures OutgrownAt(p, recs, room, i)
  {
    hide AllFit, Outgrows;
  }

  lemma AllocMatters(p: Port, mtu: nat, rba: nat, alloc: bool, c: Queued)
    requires ReturnAddress(rba) && !c.dead && c.requests != [] && FirstBad(p, c.requests, 0) == None
    ensures ValidOps(p, Ops(p, c.requests))
    ensures !alloc ==> FateOf(p, mtu, rba, alloc, c) == Reported(None, OutOfMemory)
    ensures var ops, fate := Ops(p, c.requests), FateOf(p, mtu, rba, true, c);
            !fate.Reported? ==>
              fate == if AllArrived(Start(c.checked, ops)) then Completed(fate.bytes) else Fate.Awaiting(fate.bytes)
  {
    AcceptedOpsValid(p, c.requests);
    hide FirstBad, Misfit, CycleBytes, Start, AllArrived, Ops, ValidOps;
  }

  /* ---------- callbacks ---------- */

  /** The cycle's bytes go out, and if it awaits a reply so does its response; or it is called back; or
      both. `op` counts the requests from 0. */
  ghost predicate ToldOnly(t: Tally, u: Tally, id: nat, op: Option<nat>, status: Status) {
    u == t.(callbacks := t.callbacks + [Callback(id, op, status)])
  }

  /** THE CALLBACK OF A FLUSH. In terms of the user's requests: what a cycle adds to the account. */
  lemma SettleExact(p: Port, mtu: nat, time: nat, alloc: bool, c: Queued, t: Tally)
    requires ReturnAddress(t.rba) && (mtu == 0 || mtu >= HeadAlign(p))
    ensures var u, rs := Settle(p, mtu, time, alloc, c, t), c.requests;
            && (c.dead ==> ToldOnly(t, u, c.id, None, OutOfMemory))
            && (!c.dead && rs == [] ==> ToldOnly(t, u, c.id, None, Ok))
            && (forall i: nat, status ::
                  !c.dead && FirstRejected(p, rs, i, status) ==> ToldOnly(t, u, c.id, Some(i), status))
            && (!c.dead && rs != [] && AllAccepted(p, rs, |rs|) ==>
                  && ValidOps(p, Ops(p, rs)) && AllFit(p, CycleRecords(p, c.checked, Ops(p, rs), 0, 0, t.rba))
                  && var ops, bytes := Ops(p, rs), CycleBytes(p, c.checked, Ops(p, rs), t.rba);
                  if !alloc then ToldOnly(t, u, c.id, None, OutOfMemory)
                  else if mtu != 0 && HeadAlign(p) + |bytes| > mtu then
                    exists i :: ToldOnly(t, u, c.id, Some(i), Overflow)
                       && OutgrownAt(p, CycleRecords(p, c.checked, ops, 0, 0, t.rba), mtu - HeadAlign(p), i)
                  else
                    && u.wire == t.wire + [bytes]
                    && if Owed(c.checked, ops, 0, 0) then
                         u.callbacks == t.callbacks && |u.issued| == |t.issued| + 1 && t.issued <= u.issued
                       else u.callbacks == t.callbacks + [Callback(c.id, Some(0), Ok)] && u.issued == t.issued)
  {
    FateExact(p, mtu, t.rba, alloc, c);
    hide FateOf, AllAccepted, FirstRejected, OutgrownAt, CycleBytes, CycleRecords, Owed, AllFit, ValidOps, Ops, Start;
  }

  /** The operation handed to the user in the protocol: the one of that number. */
  ghost predicate Reports(s: State, t: State, id: nat, handed: nat, status: Status) {
    t.log == s.log + [Report(id, handed, status)]
  }

  lemma SendHands(s: State, d: nat, slot: nat)
    requires Sound(s) && Legal(s, Flushed(d, slot))
    requires s.peers[d].mtu == 0 || s.peers[d].mtu >= HeadAlign(s.peers[d].port)
    ensures Good(s) && Oldest(s, d) in s.cycles && Chained(s, Oldest(s, d))
    ensures var c, t, p, mtu := Oldest(s, d), Send(s, d, slot), s.peers[d].port, s.peers[d].mtu;
            var rs, chain, checked := QueuedOf(s, c).requests, s.cycles[c].chain, s.cycles[c].checked;
            && var id := s.cycles[c].id;
            && |rs| == |chain|
            && (id in s.dead ==> Reports(s, t, id, NULL, OutOfMemory))
            && (id !in s.dead && chain == [] ==> Reports(s, t, id, NULL, Ok))
            && (forall i: nat, status ::
                  id !in s.dead && FirstRejected(p, rs, i, status) ==>
                    i < |chain| && Reports(s, t, id, chain[i], status))
            && (id !in s.dead && chain != [] && AllAccepted(p, rs, |rs|) ==>
                  && ValidOps(p, Ops(p, rs)) && ReturnAddress(s.rba)
                  && AllFit(p, CycleRecords(p, checked, Ops(p, rs), 0, 0, s.rba))
                  && var ops, bytes := Ops(p, rs), CycleBytes(p, checked, Ops(p, rs), s.rba);
                  if slot == NULL then Reports(s, t, id, NULL, OutOfMemory)
                  else if mtu != 0 && HeadAlign(p) + |bytes| > mtu then
                    exists i :: Reports(s, t, id, At(chain, i), Overflow)
                       && OutgrownAt(p, CycleRecords(p, checked, ops, 0, 0, s.rba), mtu - HeadAlign(p), i)
                  else if Owed(checked, ops, 0, 0) then t.log == s.log
                  else Reports(s, t, id, chain[0], Ok))
  {
    hide Sound, Good, Unused, FateOf, Send, AllAccepted, FirstRejected, OutgrownAt, CycleBytes, CycleRecords, Owed,
        AllFit, ValidOps, Ops, Start;
    SoundIsGood(s);
    SendCases(s, d, slot);
    var c := Oldest(s, d);
    QueuedIs(s, c);
    hide QueuedOf, Chained;
    FateExact(s.peers[d].port, s.peers[d].mtu, s.rba, slot != NULL, QueuedOf(s, c));
    RejectedWithin(s.peers[d].port, QueuedOf(s, c).requests);
  }

  lemma RejectedWithin(p: Port, rs: seq<Request>)
    ensures forall i: nat, status :: FirstRejected(p, rs, i, status) ==> i < |rs|
  {
    hide Validate;
  }

  lemma QueuedIs(s: State, c: nat)
    requires Good(s) && c in s.cycles && Chained(s, c)
    ensures var q := QueuedOf(s, c);
            && q.id == s.cycles[c].id && q.checked == s.cycles[c].checked && |q.requests| == |s.cycles[c].chain|
            && (q.dead <==> s.cycles[c].id in s.dead)
  {
    DeadTag(s, c);
    hide Good;
  }

  /** Callbacks of replies, timeouts and closing devices hand out the cycle's first operation; the null
      index if it has none, and its own if it ran out of memory. */
  lemma HeadIs(s: State, c: nat)
    requires Good(s) && c in s.cycles
    ensures s.cycles[c].head ==
              if s.cycles[c].id in s.dead then c else if s.cycles[c].chain == [] then NULL else s.cycles[c].chain[0]
  {
    hide Homes, Fates, InOrder, Apart, Listed;
    assert ChainOk(c, s.cycles[c], s.ops, s.dead);
  }

  lemma FinishHands(s: State, k: nat, status: Status)
    requires Good(s) && k < |s.queue|
    ensures var c := s.queue[k].cycle;
            && c in s.cycles
            && Reports(s, Finish(s, k, status), s.cycles[c].id,
                       if s.cycles[c].id in s.dead then c
                       else if s.cycles[c].chain == [] then NULL else s.cycles[c].chain[0], status)
  {
    hide Good, Finish;
    FinishSound(s, k, status);
    HeadIs(s, s.queue[k].cycle);
  }

  /** Nothing in the response waits for a write-back of this kind: a value, or a status word. */
  predicate Unawaited(r: Response, addr: nat) {
    if addr % 2 == 0 then r.wcur == |r.cells| else forall m :: r.scur <= m < |r.cells| ==> r.cells[m].cfg
  }

  /** THE CALLBACK OF A REPLY. A write-back that its response does not wait for fails the cycle; one that
      is the last it waits for calls it back, with a segfault exactly if an operation is marked; any
      other makes no callback. */
  lemma AnswerTells(s: State, size: nat, addr: nat, value: nat)
    requires Sound(s) && size > 0
    ensures Good(s)
    ensures var k, t := Find(Entries(s.queue), TargetOf(addr)), Answer(s, size, addr, value);
            if k == |s.queue| then t == s
            else
              && var r, id := s.queue[k].entry.response, s.queue[k].entry.id;
              && Cursors(r)
              && var after := Apply(r, size, addr, value).r;
              if Unawaited(r, addr) then Tells(s, t, id, Fail)
              else if after.wcur == after.scur == |after.cells| then
                Tells(s, t, id, if exists m :: 0 <= m < |after.cells| && after.cells[m].error then Segfault else Ok)
              else t.log == s.log
  {
    hide Good, Settled, Quiet, Apply, TargetOf, Finish, Answer;
    SoundIsGood(s);
    AnswerCases(s, size, addr, value);
    var k := Find(Entries(s.queue), TargetOf(addr));
    if k < |s.queue| {
      var r := s.queue[k].entry.response;
      ApplyTells(r, size, addr, value);
      var step := Apply(r, size, addr, value);
      if step.done.Some? {
        FinishSound(Update(s, k, step.r), k, step.done.value);
        UpdatedEntry(s, k, step.r);
      }
      hide Update, Unawaited;
    }
  }

  lemma UpdatedEntry(s: State, k: nat, r: Response)
    requires k < |s.queue|
    ensures |Update(s, k, r).queue| == |s.queue| && Update(s, k, r).queue[k].entry.id == s.queue[k].entry.id
    ensures Update(s, k, r).log == s.log
  {
  }

  /** One callback more, for this cycle and with this status. */
  ghost predicate Tells(s: State, t: State, id: nat, status: Status) {
    exists handed :: t.log == s.log + [Report(id, handed, status)]
  }

  lemma ApplyTells(r: Response, size: nat, addr: nat, value: nat)
    requires Cursors(r) && size > 0
    ensures var step := Apply(r, size, addr, value);
            if Unawaited(r, addr) then step.done == Some(Fail)
            else if step.r.wcur == step.r.scur == |step.r.cells| then
              step.done == Some(if exists m :: 0 <= m < |step.r.cells| && step.r.cells[m].error then Segfault else Ok)
            else step.done == None
  {
    if addr % 2 == 0 {
      ValueArrives(r, size, addr, value);
    } else {
      StatusArrives(r, size, addr, value);
    }
    hide Apply, TestBit, Count;
  }
}
