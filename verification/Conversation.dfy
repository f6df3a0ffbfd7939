/** Whole conversations: any number of cycles sent together, executed by the slave, and answered
    to a queue of responses that may hold others. */
module Conversation {
  import opened Bytes
  import opened Widths
  import opened Format
  import opened Slave
  import opened Master
  import opened Meaning
  import opened ReadWrite
  import opened EndToEnd
  import opened Flush
  import opened Replies
  import opened Claims
  import opened Device

  /** A cycle as sent: validated operations and the return address given to it. */
  datatype Sent = Sent(id: nat, checked: bool, ops: seq<Op>, rba: nat)

  predicate Sendable(p: Port, c: Sent) {
    ValidOps(p, c.ops) && c.ops != [] && ReturnAddress(c.rba)
  }

  ghost predicate AllSendable(p: Port, batch: seq<Sent>) {
    forall i :: 0 <= i < |batch| ==> Sendable(p, batch[i])
  }

  function Wire(p: Port, batch: seq<Sent>): seq<byte>
    requires AllSendable(p, batch)
  {
    if batch == [] then [] else CycleBytes(p, batch[0].checked, batch[0].ops, batch[0].rba) + Wire(p, batch[1..])
  }

  predicate Awaits(c: Sent) { !AllArrived(Start(c.checked, c.ops)) }

  /** The responses issued for a batch. */
  function Issued(time: nat, batch: seq<Sent>): seq<InFlight> {
    if batch == [] then []
    else (if Awaits(batch[0]) then
        [InFlight(batch[0].id, batch[0].rba, Deadline(time), Start(batch[0].checked, batch[0].ops))] else [])
         + Issued(time, batch[1..])
  }

  /** The slave's session after one cycle. */
  function AfterCycle(p: Port, bus: Bus, s: Session, c: Sent): Session
    requires Sendable(p, c)
  {
    RunRecords(p, bus, s, CycleRecords(p, c.checked, c.ops, 0, 0, c.rba))
  }

  function AfterBatch(p: Port, bus: Bus, s: Session, batch: seq<Sent>): Session
    requires AllSendable(p, batch)
    decreases |batch|
  {
    if batch == [] then s else AfterBatch(p, bus, AfterCycle(p, bus, s, batch[0]), batch[1..])
  }

  /** The plain meaning of a batch: every operation of every cycle, in order. */
  function DirectAll(p: Port, bus: Bus, x: Exec, batch: seq<Sent>): Exec
    requires AllSendable(p, batch)
    decreases |batch|
  {
    if batch == [] then x
    else DirectAll(p, bus, Direct(p, bus, batch[0].checked, batch[0].ops, 0, 0, batch[0].rba, Progress(x, [])).x,
        batch[1..])
  }

  /** The slave executes a batch, whatever bytes follow it: exactly its operations, in order. */
  lemma {:induction false} SlaveExecutesBatch(p: Port, bus: Bus, s: Session, batch: seq<Sent>, more: seq<byte>)
    requires AllSendable(p, batch)
    ensures Run(p, bus, s, Wire(p, batch) + more) == Run(p, bus, AfterBatch(p, bus, s, batch), more)
    ensures AfterBatch(p, bus, s, batch).x == DirectAll(p, bus, s.x, batch)
    ensures s.replies <= AfterBatch(p, bus, s, batch).replies
    decreases |batch|
  {
    hide CycleBytes, Direct, Run, RunRecords, CycleRecords, Sendable;
    if batch == [] {
      assert [] + more == more;
    } else {
      var c, rest := batch[0], batch[1..];
      assert Sendable(p, c);
      SendableParts(p, c);
      SlaveExecutesCycle(p, bus, c.checked, c.ops, c.rba, s, Wire(p, rest) + more);
      SlaveExecutesBatch(p, bus, AfterCycle(p, bus, s, c), rest, more);
      assert Wire(p, batch) + more == CycleBytes(p, c.checked, c.ops, c.rba) + (Wire(p, rest) + more);
    }
  }

  lemma SendableParts(p: Port, c: Sent)
    requires Sendable(p, c)
    ensures ValidOps(p, c.ops) && c.ops != [] && ReturnAddress(c.rba)
  {
  }

  /* ---------- write-backs to a queue of responses ---------- */

  lemma DeliverCursors(q: seq<InFlight>, size: nat, addr: nat, value: nat)
    requires AllCursors(q)
    ensures AllCursors(Deliver(q, size, addr, value).0)
  {
    DeliverCases(q, size, addr, value);
    var k := Find(q, TargetOf(addr));
    if k < |q| {
      ApplyKeepsOps(q[k].response, size, addr, value);
      hide Apply, Deliver;
    }
  }

  /** Deliver write-backs one after another; also the cycles finished, in order. */
  function DeliverAll(q: seq<InFlight>, writes: seq<Access>): (seq<InFlight>, seq<Finished>)
    requires AllCursors(q)
    decreases |writes|
  {
    if writes == [] then (q, [])
    else
      match writes[0]
      case ConfigWrite(size, addr, value) =>
        DeliverCursors(q, size, addr, value);
        var (next, done) := Deliver(q, size, addr, value);
        var (last, more) := DeliverAll(next, writes[1..]);
        (last, (if done.Some? then [done.value] else []) + more)
      case _ => DeliverAll(q, writes[1..])
  }

  lemma DeliverAllStep(q: seq<InFlight>, w: Access, writes: seq<Access>)
    requires AllCursors(q) && w.ConfigWrite?
    ensures AllCursors(Deliver(q, w.size, w.addr, w.value).0)
    ensures var (next, done) := Deliver(q, w.size, w.addr, w.value);
            DeliverAll(q, [w] + writes) ==
              (DeliverAll(next, writes).0, (if done.Some? then [done.value] else []) + DeliverAll(next, writes).1)
  {
    DeliverCursors(q, w.size, w.addr, w.value);
    assert ([w] + writes)[1..] == writes;
    hide Deliver;
  }

  ghost predicate AllTo(rba: nat, writes: seq<Access>) {
    forall w :: w in writes ==> w.ConfigWrite? && TargetOf(w.addr) == rba
  }

  /** Everything a cycle sends back goes to its own address. */
  lemma {:induction false} BackTargets(p: Port, bus: Bus, checked: bool, ops: seq<Op>, i: nat, n: nat, rba: nat,
                                       g: Progress)
    requires ValidOps(p, ops) && i <= |ops| && ReturnAddress(rba) && AllTo(rba, g.back)
    ensures AllTo(rba, Direct(p, bus, checked, ops, i, n, rba, g).back)
    decreases |ops| - i, n
  {
    hide AllTo, DoOp, DoStatus;
    if Full(p, checked, n) {
      StatusTarget(p, rba, g);
      BackTargets(p, bus, checked, ops, i, 0, rba, DoStatus(p, rba, g));
    } else if i == |ops| {
      StatusTarget(p, rba, g);
    } else {
      assert ValidOp(p, ops[i]);
      OpTarget(p, bus, rba, ops[i], g);
      BackTargets(p, bus, checked, ops, i + 1, n + Cost(ops[i]), rba, DoOp(p, bus, rba, ops[i], g));
    }
  }

  lemma AllToSnoc(rba: nat, writes: seq<Access>, w: Access)
    requires AllTo(rba, writes) && w.ConfigWrite? && TargetOf(w.addr) == rba
    ensures AllTo(rba, writes + [w])
  {
  }

  lemma StatusTarget(p: Port, rba: nat, g: Progress)
    requires ReturnAddress(rba) && AllTo(rba, g.back)
    ensures AllTo(rba, DoStatus(p, rba, g).back)
  {
    TargetOfStatus(rba);
    AllToSnoc(rba, g.back, ConfigWrite(p.data, rba + 1, g.x.error % Pow256(p.data)));
  }

  lemma OpTarget(p: Port, bus: Bus, rba: nat, op: Op, g: Progress)
    requires ValidOp(p, op) && ReturnAddress(rba) && AllTo(rba, g.back)
    ensures AllTo(rba, DoOp(p, bus, rba, op, g).back)
  {
    TargetOfStatus(rba);
    hide AddressB, AddressL, ReadConfig, Pow256, ConfigAddress, AllTo, TargetOf;
    if !op.write {
      if op.cfg {
        AllToSnoc(rba, g.back, ConfigWrite(op.size, rba,
            ReadConfig(op.size, ConfigAddress(p, op), g.x.error) % Pow256(op.size)));
      } else {
        AllToSnoc(rba, g.back, ConfigWrite(op.size, rba, bus(g.x.count).value % Pow256(op.size)));
      }
    }
  }

  lemma CycleTargets(p: Port, bus: Bus, s: Session, c: Sent)
    requires Sendable(p, c)
    ensures var t := AfterCycle(p, bus, s, c); s.replies <= t.replies && AllTo(c.rba, Delivered(p, NewReplies(s, t)))
  {
    hide Direct, RunRecords, CycleRecords, Delivered;
    PackingPreservesMeaning(p, bus, c.checked, c.ops, 0, 0, c.rba, s, []);
    BackTargets(p, bus, c.checked, c.ops, 0, 0, c.rba, Progress(s.x, []));
    var writes := Delivered(p, NewReplies(s, AfterCycle(p, bus, s, c)));
    assert [] + writes == writes;
  }

  /** Write-backs to the address of the `k`-th response, which no older one has, drive that
      response alone; when its callback is due it leaves the queue. */
  lemma {:induction false} DeliverIsFeed(q: seq<InFlight>, k: nat, writes: seq<Access>)
    requires AllCursors(q) && k < |q| && Find(q, q[k].rba) == k && AllTo(q[k].rba, writes) && Cursors(q[k].response)
    ensures var f := Feed(q[k].response, q[k].rba, writes);
            f.Called? && f.unread == [] ==>
              DeliverAll(q, writes) == (q[..k] + q[k + 1..], [Finished(q[k].id, f.r.cells, f.status)])
    decreases |writes|
  {
    hide Apply, Deliver, AllCursors, Find, Cursors, HasError;
    if writes != [] {
      var w, rest := writes[0], writes[1..];
      var e := q[k];
      assert w in writes && w.ConfigWrite? && TargetOf(w.addr) == e.rba;
      assert writes == [w] + rest;
      assert AllTo(e.rba, rest) by { assert forall x :: x in rest ==> x in writes; }
      DeliverCases(q, w.size, w.addr, w.value);
      DeliverAllStep(q, w, rest);
      ApplyKeepsOps(e.response, w.size, w.addr, w.value);
      FeedNext(e.response, e.rba, w, rest);
      var step := Apply(e.response, w.size, w.addr, w.value);
      var next := q[k := e.(response := step.r)];
      if step.done.None? {
        FindSame(q, next, e.rba);
        DeliverIsFeed(next, k, rest);
        assert [] + DeliverAll(next, rest).1 == DeliverAll(next, rest).1;
        assert next[..k] == q[..k] && next[k + 1..] == q[k + 1..];
      } else if rest == [] {
        assert next[..k] == q[..k] && next[k + 1..] == q[k + 1..];
        var x := Finished(e.id, step.r.cells, step.done.value);
        assert DeliverAll(q[..k] + q[k + 1..], rest) == (q[..k] + q[k + 1..], []);
        assert [x] + [] == [x];
      }
    }
  }

  lemma FindSame(a: seq<InFlight>, b: seq<InFlight>, target: nat)
    requires |a| == |b| && forall i :: 0 <= i < |a| ==> a[i].rba == b[i].rba
    ensures Find(a, target) == Find(b, target)
  {
    FindIs(b, target, Find(a, target));
  }

  /* ---------- the whole conversation ---------- */

  /** Cycles finished in order, each with its own results: every read its own access's value, the
      error flags and the status those of its own accesses. */
  ghost predicate AllRight(p: Port, bus: Bus, s: Session, batch: seq<Sent>, done: seq<Finished>)
    requires AllSendable(p, batch)
    decreases |batch|
  {
    if batch == [] then done == []
    else
      var c := batch[0];
      var t := AfterCycle(p, bus, s, c);
      if Awaits(c) then
        && done != [] && done[0].id == c.id
        && Right(p, bus, c.checked, s.x.error, s.x.count, c.ops, done[0].cells, done[0].status)
        && AllRight(p, bus, t, batch[1..], done[1..])
      else AllRight(p, bus, t, batch[1..], done)
  }

  /** No two responses have the same address. */
  ghost predicate Separate(q: seq<InFlight>) {
    forall i, j :: 0 <= i < j < |q| ==> q[i].rba != q[j].rba
  }

  /** Responses issued within 2^14 claims of each other are separate. */
  lemma ClaimsSeparate(q: seq<InFlight>, claims: seq<nat>)
    requires Claimed(q, claims) && (q != [] ==> claims[|q| - 1] - claims[0] < CYCLE)
    ensures Separate(q)
  {
    hide Claim;
    forall i, j | 0 <= i < j < |q| ensures q[i].rba != q[j].rba {
      ClaimsMeet(claims[i], claims[j]);
      assert claims[0] <= claims[i] < claims[j] <= claims[|q| - 1];
    }
  }

  lemma SeparateFinds(q: seq<InFlight>, k: nat)
    requires Separate(q) && k < |q|
    ensures Find(q, q[k].rba) == k
  {
    FindIs(q, q[k].rba, k);
  }

  lemma SeparateWithout(q: seq<InFlight>, e: InFlight, rest: seq<InFlight>)
    requires Separate(q + ([e] + rest))
    ensures Separate(q + rest)
  {
    var r, all := q + rest, q + ([e] + rest);
    forall i, j | 0 <= i < j < |r| ensures r[i].rba != r[j].rba {
      assert r[i] == all[if i < |q| then i else i + 1] && r[j] == all[if j < |q| then j else j + 1];
    }
  }

  lemma {:induction false} DeliverAllConcat(q: seq<InFlight>, a: seq<Access>, b: seq<Access>)
    requires AllCursors(q)
    ensures AllCursors(DeliverAll(q, a).0)
    ensures DeliverAll(q, a + b)
            == (DeliverAll(DeliverAll(q, a).0, b).0, DeliverAll(q, a).1 + DeliverAll(DeliverAll(q, a).0, b).1)
    decreases |a|
  {
    hide Deliver, AllCursors;
    if a == [] {
      assert a + b == b;
      assert [] + DeliverAll(q, b).1 == DeliverAll(q, b).1;
    } else {
      assert (a + b)[0] == a[0] && (a + b)[1..] == a[1..] + b;
      match a[0]
      case ConfigWrite(size, addr, value) =>
        DeliverCursors(q, size, addr, value);
        var (next, done) := Deliver(q, size, addr, value);
        DeliverAllConcat(next, a[1..], b);
        var x, y := if done.Some? then [done.value] else [], DeliverAll(next, a[1..]).1;
        var z := DeliverAll(DeliverAll(next, a[1..]).0, b).1;
        assert (x + y) + z == x + (y + z);
      case _ => DeliverAllConcat(q, a[1..], b);
    }
  }

  /** The replies to one cycle finish its response alone and correctly, or are none at all. */
  lemma CycleAnswered(p: Port, bus: Bus, s: Session, c: Sent, q: seq<InFlight>, k: nat)
    requires Sendable(p, c) && AllCursors(q) && Separate(q)
    requires Awaits(c) ==> k < |q| && q[k].id == c.id && q[k].rba == c.rba && q[k].response == Start(c.checked, c.ops)
    ensures var t := AfterCycle(p, bus, s, c);
            && s.replies <= t.replies
            && var (last, done) := DeliverAll(q, Delivered(p, NewReplies(s, t)));
            if Awaits(c) then
              && last == q[..k] + q[k + 1..] && |done| == 1 && done[0].id == c.id
              && Right(p, bus, c.checked, s.x.error, s.x.count, c.ops, done[0].cells, done[0].status)
            else last == q && done == []
  {
    hide Direct, RunRecords, CycleRecords, Delivered, Feed, Right, AllCursors, AllTo, Start, AllArrived, Separate, Find;
    RepliesCompleteCycle(p, bus, c.checked, c.ops, c.rba, s);
    CycleTargets(p, bus, s, c);
    if Awaits(c) {
      SeparateFinds(q, k);
      DeliverIsFeed(q, k, Delivered(p, NewReplies(s, AfterCycle(p, bus, s, c))));
    }
  }

  lemma NewRepliesSplit(p: Port, s: Session, t: Session, u: Session)
    requires s.replies <= t.replies <= u.replies
    ensures s.replies <= u.replies
    ensures Delivered(p, NewReplies(s, u)) == Delivered(p, NewReplies(s, t)) + Delivered(p, NewReplies(t, u))
  {
    assert NewReplies(s, u) == NewReplies(s, t) + NewReplies(t, u);
    DeliveredConcat(p, NewReplies(s, t), NewReplies(t, u));
  }

  lemma IssuedFirst(time: nat, batch: seq<Sent>)
    requires batch != []
    ensures Issued(time, batch) ==
              if Awaits(batch[0]) then
                [InFlight(batch[0].id, batch[0].rba, Deadline(time),
                    Start(batch[0].checked, batch[0].ops))] + Issued(time, batch[1..])
              else Issued(time, batch[1..])
  {
    assert [] + Issued(time, batch[1..]) == Issued(time, batch[1..]);
  }

  lemma WithoutFirst(q: seq<InFlight>, e: InFlight, rest: seq<InFlight>)
    ensures (q + ([e] + rest))[|q|] == e
    ensures (q + ([e] + rest))[..|q|] + (q + ([e] + rest))[|q| + 1..] == q + rest
  {
  }

  lemma CursorsWithout(q: seq<InFlight>, e: InFlight, rest: seq<InFlight>)
    requires AllCursors(q + ([e] + rest))
    ensures AllCursors(q + rest)
  {
    forall x | x in q + rest ensures Cursors(x.response) { assert x in q + ([e] + rest); }
  }

  /** THE CONVERSATION. Send any cycles together while other responses may be in flight, let the
      slave run them against any devices and answer: delivering its replies takes exactly the
      responses issued for these cycles out of the queue, oldest first, each called back with
      exactly its own results, and leaves all others, older and newer, as they were. */
  lemma {:induction false} BatchAnswered(p: Port, bus: Bus, s: Session, batch: seq<Sent>, time: nat, q: seq<InFlight>,
                                         r: seq<InFlight>)
    requires AllSendable(p, batch)
    requires Separate(q + (Issued(time, batch) + r)) && AllCursors(q + (Issued(time, batch) + r))
    ensures var t := AfterBatch(p, bus, s, batch);
            && s.replies <= t.replies
            && var (last, done) := DeliverAll(q + (Issued(time, batch) + r), Delivered(p, NewReplies(s, t)));
            last == q + r && AllRight(p, bus, s, batch, done)
    decreases |batch|
  {
    hide *;
    if batch == [] {
      EmptyBatch(p, bus, s, batch, time, q, r);
    } else {
      var c, rest := batch[0], batch[1..];
      BatchStep(p, bus, s, batch);
      IssuedFirst(time, batch);
      var t := AfterCycle(p, bus, s, c);
      var u := AfterBatch(p, bus, t, rest);
      var later := Issued(time, rest) + r;
      var all, less := q + (Issued(time, batch) + r), q + later;
      if Awaits(c) {
        var e := InFlight(c.id, c.rba, Deadline(time), Start(c.checked, c.ops));
        assert Issued(time, batch) + r == [e] + later;
        WithoutFirst(q, e, later);
        CursorsWithout(q, e, later);
        SeparateWithout(q, e, later);
      }
      CycleAnswered(p, bus, s, c, all, |q|);
      BatchAnswered(p, bus, t, rest, time, q, r);
      NewRepliesSplit(p, s, t, u);
      var d1, d2 := Delivered(p, NewReplies(s, t)), Delivered(p, NewReplies(t, u));
      DeliverAllConcat(all, d1, d2);
      AllRightStep(p, bus, s, batch, DeliverAll(all, d1).1, DeliverAll(less, d2).1);
    }
  }

  lemma EmptyBatch(p: Port, bus: Bus, s: Session, batch: seq<Sent>, time: nat, q: seq<InFlight>, r: seq<InFlight>)
    requires batch == [] && AllCursors(q + (Issued(time, batch) + r))
    ensures AllSendable(p, batch) && q + (Issued(time, batch) + r) == q + r && AllCursors(q + r)
    ensures AfterBatch(p, bus, s, batch) == s && DeliverAll(q + r, Delivered(p, NewReplies(s, s))) == (q + r, [])
    ensures AllRight(p, bus, s, batch, [])
  {
    assert [] + r == r;
    assert NewReplies(s, s) == [];
  }

  lemma BatchStep(p: Port, bus: Bus, s: Session, batch: seq<Sent>)
    requires AllSendable(p, batch) && batch != []
    ensures Sendable(p, batch[0]) && ValidOps(p, batch[0].ops) && AllSendable(p, batch[1..])
    ensures AfterBatch(p, bus, s, batch) == AfterBatch(p, bus, AfterCycle(p, bus, s, batch[0]), batch[1..])
  {
    hide ValidOps, AfterCycle;
  }

  lemma AllRightStep(p: Port, bus: Bus, s: Session, batch: seq<Sent>, first: seq<Finished>, more: seq<Finished>)
    requires AllSendable(p, batch) && batch != [] && Sendable(p, batch[0]) && AllSendable(p, batch[1..])
    requires AllRight(p, bus, AfterCycle(p, bus, s, batch[0]), batch[1..], more)
    requires var c := batch[0];
             if Awaits(c) then
               |first| == 1 && first[0].id == c.id && ValidOps(p, c.ops)
               && Right(p, bus, c.checked, s.x.error, s.x.count, c.ops, first[0].cells, first[0].status)
             else first == []
    ensures AllRight(p, bus, s, batch, first + more)
  {
    hide Awaits, Right, AfterCycle, Sendable, AllSendable, ValidOps;
    assert |first| == 1 ==> (first + more)[0] == first[0] && (first + more)[1..] == more;
    assert first == [] ==> first + more == more;
  }

  /* ---------- what a flush sends is such a batch ---------- */

  /** The cycles of a queue that a flush sends. */
  function Accepted(p: Port, mtu: nat, alloc: nat -> bool, queue: seq<Queued>, rba: nat): seq<Sent>
    requires ReturnAddress(rba)
    decreases |queue|
  {
    if queue == [] then []
    else
      var c := queue[0];
      NextAddressReturns(rba);
      match FateOf(p, mtu, rba, alloc(c.id), c)
      case Reported(_, _) => Accepted(p, mtu, alloc, queue[1..], rba)
      case Completed(_) => [Sent(c.id, c.checked, Ops(p, c.requests), rba)] + Accepted(p, mtu, alloc, queue[1..], rba)
      case Awaiting(_) => [Sent(c.id, c.checked, Ops(p, c.requests), rba)] + Accepted(p, mtu, alloc, queue[1..],
          NextAddress(rba))
  }

  /** The byte strings of a batch, one for each cycle. */
  function Pieces(p: Port, batch: seq<Sent>): (r: seq<seq<byte>>)
    requires AllSendable(p, batch)
    decreases |batch|
  {
    if batch == [] then [] else [CycleBytes(p, batch[0].checked, batch[0].ops, batch[0].rba)] + Pieces(p, batch[1..])
  }

  lemma FateSends(p: Port, mtu: nat, rba: nat, alloc: bool, c: Queued)
    requires ReturnAddress(rba)
    ensures var sent := Sent(c.id, c.checked, Ops(p, c.requests), rba);
            match FateOf(p, mtu, rba, alloc, c)
            case Reported(_, _) => true
            case Completed(bytes) =>
              Sendable(p, sent) && !Awaits(sent) && bytes == CycleBytes(p, sent.checked, sent.ops, sent.rba)
            case Awaiting(bytes) =>
              Sendable(p, sent) && Awaits(sent) && bytes == CycleBytes(p, sent.checked, sent.ops, sent.rba)
  {
    if FirstBad(p, c.requests, 0) == None {
      AcceptedOpsValid(p, c.requests);
    }
    hide FirstBad, CycleBytes, Misfit, ValidOps;
  }

  lemma SendableMore(p: Port, c: Sent, rest: seq<Sent>)
    requires Sendable(p, c) && AllSendable(p, rest)
    ensures AllSendable(p, [c] + rest) && ([c] + rest)[1..] == rest
  {
    hide Sendable;
  }

  /** A flush puts exactly the accepted cycles on the wire and issues exactly their responses. */
  lemma {:induction false} FlushIsBatch(p: Port, mtu: nat, time: nat, alloc: nat -> bool, queue: seq<Queued>, t: Tally)
    requires ReturnAddress(t.rba)
    ensures var batch, u := Accepted(p, mtu, alloc, queue, t.rba), Account(p, mtu, time, alloc, queue, t);
            AllSendable(p, batch) && u.wire == t.wire + Pieces(p, batch) && u.issued == t.issued + Issued(time, batch)
    decreases |queue|
  {
    hide FateOf, CycleBytes, Sendable, AllSendable, Awaits, Start, Ops, NextAddress, Settle, Issued, Account, Accepted,
        Pieces;
    AccountStep(p, mtu, time, alloc, queue, t);
    AcceptedStep(p, mtu, alloc, queue, t.rba);
    if queue == [] {
      NothingIssued(p, time);
    } else {
      var c, u := queue[0], Settle(p, mtu, time, alloc(queue[0].id), queue[0], t);
      NextAddressReturns(t.rba);
      FateSends(p, mtu, t.rba, alloc(c.id), c);
      SettleSends(p, mtu, time, alloc(c.id), c, t);
      FlushIsBatch(p, mtu, time, alloc, queue[1..], u);
      var sent, rest := Sent(c.id, c.checked, Ops(p, c.requests), t.rba), Accepted(p, mtu, alloc, queue[1..], u.rba);
      if !FateOf(p, mtu, t.rba, alloc(c.id), c).Reported? {
        SendableMore(p, sent, rest);
        PiecesFirst(p, sent, rest);
        IssuedFirst(time, [sent] + rest);
      }
    }
  }

  lemma NothingIssued(p: Port, time: nat)
    ensures Issued(time, []) == [] && AllSendable(p, []) && Pieces(p, []) == []
  {
  }

  lemma PiecesFirst(p: Port, c: Sent, rest: seq<Sent>)
    requires Sendable(p, c) && AllSendable(p, rest) && AllSendable(p, [c] + rest)
    ensures Pieces(p, [c] + rest) == [CycleBytes(p, c.checked, c.ops, c.rba)] + Pieces(p, rest)
  {
    hide Sendable;
    assert ([c] + rest)[1..] == rest;
  }

  lemma AcceptedStep(p: Port, mtu: nat, alloc: nat -> bool, queue: seq<Queued>, rba: nat)
    requires ReturnAddress(rba)
    ensures ReturnAddress(NextAddress(rba))
    ensures if queue == [] then Accepted(p, mtu, alloc, queue, rba) == []
            else
              var c := queue[0];
              var sent := Sent(c.id, c.checked, Ops(p, c.requests), rba);
              Accepted(p, mtu, alloc, queue, rba) ==
                match FateOf(p, mtu, rba, alloc(c.id), c)
                case Reported(_, _) => Accepted(p, mtu, alloc, queue[1..], rba)
                case Completed(_) => [sent] + Accepted(p, mtu, alloc, queue[1..], rba)
                case Awaiting(_) => [sent] + Accepted(p, mtu, alloc, queue[1..], NextAddress(rba))
  {
    NextAddressReturns(rba);
    hide FateOf;
  }

  /** What settling a cycle adds to the wire and to the responses. */
  lemma SettleSends(p: Port, mtu: nat, time: nat, alloc: bool, c: Queued, t: Tally)
    requires ReturnAddress(t.rba)
    ensures var u := Settle(p, mtu, time, alloc, c, t);
            match FateOf(p, mtu, t.rba, alloc, c)
            case Reported(_, _) => u.rba == t.rba && u.wire == t.wire && u.issued == t.issued
            case Completed(bytes) => u.rba == t.rba && u.wire == t.wire + [bytes] && u.issued == t.issued
            case Awaiting(bytes) =>
              && u.rba == NextAddress(t.rba) && u.wire == t.wire + [bytes]
              && u.issued == t.issued + [InFlight(c.id, t.rba, Deadline(time), Start(c.checked, Ops(p, c.requests)))]
  {
    hide FateOf, Start, Ops, NextAddress;
  }

  /* ---------- bytes in, bytes out ---------- */

  /** What a batch looks like on the wire is the concatenation of its pieces. */
  lemma {:induction false} WireIs(p: Port, batch: seq<Sent>)
    requires AllSendable(p, batch)
    ensures Wire(p, batch) == Concat(Pieces(p, batch))
    decreases |batch|
  {
    hide CycleBytes, Sendable;
    if batch != [] {
      WireIs(p, batch[1..]);
      assert Pieces(p, batch)[1..] == Pieces(p, batch[1..]);
    }
  }

  /** A batch leaves well-formed replies. */
  lemma {:induction false} BatchReplies(p: Port, bus: Bus, s: Session, batch: seq<Sent>)
    requires AllSendable(p, batch) && AllFit(p, s.replies) && Closed(s)
    ensures var t := AfterBatch(p, bus, s, batch);
            && s.replies <= t.replies && AllFit(p, t.replies) && Closed(t) && WritesOnly(NewReplies(s, t))
            && (batch != [] ==> t.end && (t.replies != [] ==> t.replies[|t.replies| - 1].cyc))
    decreases |batch|
  {
    hide Sendable, WritesOnly, NewReplies, Closed, AllFit, CycleRecords, RunRecords, AfterCycle;
    if batch == [] {
      NothingNew(s);
    } else {
      var c, t := batch[0], AfterCycle(p, bus, s, batch[0]);
      BatchStep(p, bus, s, batch);
      OneCycle(p, bus, s, c);
      BatchReplies(p, bus, t, batch[1..]);
      NoReadsJoin(s, t, AfterBatch(p, bus, t, batch[1..]));
    }
  }

  lemma OneCycle(p: Port, bus: Bus, s: Session, c: Sent)
    requires Sendable(p, c) && AllFit(p, s.replies) && Closed(s)
    ensures var t := AfterCycle(p, bus, s, c);
            && s.replies <= t.replies && AllFit(p, t.replies) && Closed(t) && WritesOnly(NewReplies(s, t))
            && t.end && (t.replies != [] ==> t.replies[|t.replies| - 1].cyc)
  {
    hide ValidOps, WritesOnly, NewReplies, Closed, AllFit, CycleRecords, RunRecords;
    CycleReplies(p, bus, c.checked, c.ops, c.rba, s);
  }

  /** The bytes of a batch make a fresh call of the slave perform exactly its operations and leave
      nothing over; the bytes of its reply make the master's own record loop write back exactly what
      the replies deliver. */
  lemma BatchServed(p: Port, bus: Bus, batch: seq<Sent>, mbus: Bus, m: Session)
    requires AllSendable(p, batch)
    ensures var (t, rest) := Run(p, bus, IDLE, Wire(p, batch));
            && t == AfterBatch(p, bus, IDLE, batch) && NewReplies(IDLE, t) == t.replies
            && rest == [] && t.end && t.x == DirectAll(p, bus, IDLE.x, batch) && AllFit(p, t.replies)
            && (t.replies != [] ==> t.replies[|t.replies| - 1].cyc)
            && var (n, left) := Run(p, mbus, m, SerializeAll(p, t.replies));
            left == [] && n.x.trace == m.x.trace + Delivered(p, t.replies)
  {
    hide Run, Wire, AfterBatch, DirectAll, AllFit, Closed, Delivered, WritesOnly, SerializeAll, AllSendable;
    var t, input := AfterBatch(p, bus, IDLE, batch), Wire(p, batch);
    IdleIsClosed(p);
    SlaveExecutesBatch(p, bus, IDLE, batch, []);
    assert input + [] == input;
    NothingToRun(p, bus, t);
    BatchReplies(p, bus, IDLE, batch);
    EmptyEnds(p, bus, batch);
    AllNew(t);
    RepliesRead(p, mbus, m, t.replies);
  }

  /** THE CONVERSATION IN BYTES. What the master's record loop writes back when it reads the bytes of
      the slave's reply to the bytes of a batch finishes, in order and correctly, the responses
      issued for the batch - whatever other responses, older and newer, are in flight. */
  lemma BatchConversation(p: Port, bus: Bus, batch: seq<Sent>, time: nat, q: seq<InFlight>, r: seq<InFlight>,
                          mbus: Bus, m: Session)
    requires AllSendable(p, batch)
    requires Separate(q + (Issued(time, batch) + r)) && AllCursors(q + (Issued(time, batch) + r))
    ensures var (t, rest) := Run(p, bus, IDLE, Wire(p, batch));
            && rest == [] && t.end && t.x == DirectAll(p, bus, IDLE.x, batch) && AllFit(p, t.replies)
            && var (n, left) := Run(p, mbus, m, SerializeAll(p, t.replies));
            var writes := Delivered(p, t.replies);
            && left == [] && n.x.trace == m.x.trace + writes
            && var (last, done) := DeliverAll(q + (Issued(time, batch) + r), writes);
            last == q + r && AllRight(p, bus, IDLE, batch, done)
  {
    hide *;
    BatchServed(p, bus, batch, mbus, m);
    BatchAnswered(p, bus, IDLE, batch, time, q, r);
  }

  lemma IdleIsClosed(p: Port)
    ensures AllFit(p, IDLE.replies) && Closed(IDLE) && IDLE.end && IDLE.replies == []
  {
  }

  lemma EmptyEnds(p: Port, bus: Bus, batch: seq<Sent>)
    requires AllSendable(p, batch)
    ensures batch == [] ==> AfterBatch(p, bus, IDLE, batch) == IDLE
  {
  }

  lemma AllNew(t: Session)
    ensures NewReplies(IDLE, t) == t.replies
  {
    assert t.replies[0..] == t.replies;
  }

  /** What a flush gives a stream transport is one such batch. */
  lemma FlushedStream(p: Port, time: nat, alloc: nat -> bool, queue: seq<Queued>, t: Tally, sends: seq<seq<byte>>)
    requires ReturnAddress(t.rba) && t.wire == [] && t.issued == []
    requires Concat(sends) == Concat(Account(p, 0, time, alloc, queue, t).wire)
    ensures var batch := Accepted(p, 0, alloc, queue, t.rba);
            && AllSendable(p, batch) && Concat(sends) == Wire(p, batch)
            && Account(p, 0, time, alloc, queue, t).issued == Issued(time, batch)
  {
    hide Accepted, Account, Pieces, Wire, Issued, AllSendable, Concat;
    FlushIsBatch(p, 0, time, alloc, queue, t);
    var batch := Accepted(p, 0, alloc, queue, t.rba);
    WireIs(p, batch);
    assert [] + Pieces(p, batch) == Pieces(p, batch) && [] + Issued(time, batch) == Issued(time, batch);
  }

  function JoinSent(groups: seq<seq<Sent>>): seq<Sent> {
    if groups == [] then [] else groups[0] + JoinSent(groups[1..])
  }

  /** Cut a batch the way its pieces are cut into packets. */
  function Regroup(batch: seq<Sent>, packets: seq<seq<seq<byte>>>): (groups: seq<seq<Sent>>)
    requires |batch| == |Join(packets)|
    ensures |groups| == |packets|
  {
    if packets == [] then []
    else [batch[..|packets[0]|]] + Regroup(batch[|packets[0]|..], packets[1..])
  }

  lemma {:induction false} PiecesSplit(p: Port, batch: seq<Sent>, n: nat)
    requires AllSendable(p, batch) && n <= |batch|
    ensures AllSendable(p, batch[..n]) && AllSendable(p, batch[n..]) && |Pieces(p, batch)| == |batch|
    ensures Pieces(p, batch) == Pieces(p, batch[..n]) + Pieces(p, batch[n..]) && |Pieces(p, batch[..n])| == n
    decreases |batch|
  {
    hide CycleBytes, Sendable;
    if batch != [] {
      if n == 0 {
        PiecesSplit(p, batch[1..], 0);
        assert batch[..0] == [] && batch[0..] == batch;
      } else {
        PiecesSplit(p, batch[1..], n - 1);
        assert batch[..n][0] == batch[0] && batch[..n][1..] == batch[1..][..n - 1] && batch[n..] == batch[1..][n - 1..];
      }
    } else {
      assert batch[..n] == [] && batch[n..] == [];
    }
  }

  lemma CutEquals<T>(a: seq<T>, b: seq<T>, c: seq<T>, d: seq<T>)
    requires a + b == c + d && |a| == |c|
    ensures a == c && b == d
  {
    assert a == (a + b)[..|a|] && c == (c + d)[..|c|] && b == (a + b)[|a|..] && d == (c + d)[|c|..];
  }

  /** Each packet carries whole cycles of the batch, in order, and all of them together the batch. */
  lemma {:induction false} RegroupFits(p: Port, batch: seq<Sent>, packets: seq<seq<seq<byte>>>)
    requires AllSendable(p, batch) && Pieces(p, batch) == Join(packets)
    ensures |batch| == |Join(packets)|
    ensures var groups := Regroup(batch, packets);
            && JoinSent(groups) == batch
            && forall k :: 0 <= k < |groups| ==> AllSendable(p, groups[k]) && Pieces(p, groups[k]) == packets[k]
    decreases |packets|
  {
    hide Pieces, AllSendable;
    PiecesSplit(p, batch, 0);
    if packets != [] {
      var n := |packets[0]|;
      PiecesSplit(p, batch, n);
      CutEquals(Pieces(p, batch[..n]), Pieces(p, batch[n..]), packets[0], Join(packets[1..]));
      RegroupFits(p, batch[n..], packets[1..]);
      assert batch == batch[..n] + batch[n..];
      assert Regroup(batch, packets)[1..] == Regroup(batch[n..], packets[1..]);
    }
  }

  /** What a flush gives a packet transport is such a batch cut into packets: behind its header each
      packet has the bytes of consecutive whole cycles. */
  lemma FlushedPackets(p: Port, mtu: nat, time: nat, alloc: nat -> bool, queue: seq<Queued>, t: Tally,
                       sent: seq<seq<byte>>, packets: seq<seq<seq<byte>>>)
    requires ReturnAddress(t.rba) && t.wire == [] && t.issued == []
    requires ArePackets(p, mtu, sent, packets) && Join(packets) == Account(p, mtu, time, alloc, queue, t).wire
    ensures var batch := Accepted(p, mtu, alloc, queue, t.rba);
            && AllSendable(p, batch) && Account(p, mtu, time, alloc, queue, t).issued == Issued(time, batch)
            && |batch| == |Join(packets)|
            && var groups := Regroup(batch, packets);
            && |groups| == |sent| && JoinSent(groups) == batch
            && forall k :: 0 <= k < |sent| ==>
                 && AllSendable(p, groups[k]) && HeadAlign(p) <= |sent[k]|
                 && sent[k][HeadAlign(p)..] == Wire(p, groups[k])
  {
    hide Accepted, Account, Pieces, Wire, Issued, AllSendable, Concat, Regroup, Join, JoinSent, IsHeader;
    FlushIsBatch(p, mtu, time, alloc, queue, t);
    var batch := Accepted(p, mtu, alloc, queue, t.rba);
    assert [] + Pieces(p, batch) == Pieces(p, batch) && [] + Issued(time, batch) == Issued(time, batch);
    RegroupFits(p, batch, packets);
    var groups := Regroup(batch, packets);
    forall k | 0 <= k < |sent|
      ensures AllSendable(p, groups[k]) && HeadAlign(p) <= |sent[k]| && sent[k][HeadAlign(p)..] == Wire(p, groups[k])
    {
      assert IsPacket(p, mtu, sent[k], packets[k]);
      WireIs(p, groups[k]);
    }
  }
}
