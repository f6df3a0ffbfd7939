/** What the status of a callback says about whether the cycle was sent, over every run. */
module Promises {
  import opened Format
  import opened Lists
  import opened Master
  import opened ReadWrite
  import opened EndToEnd
  import opened Flush
  import opened Replies
  import opened Lifecycle
  import opened Moves
  import opened Protocol
  import opened Flushing

  /** The ids of the cycles whose bytes were handed to the transport, of those that were awaiting a
      reply when they were called back or aborted, and of those that held no operation then. */
  datatype Journal = Journal(sent: set<nat>, flown: set<nat>, empty: set<nat>)

  /** The cycle that an event sends, if it sends one. */
  ghost function SentIn(s: State, e: Event): set<nat>
    requires Good(s) && Legal(s, e)
  {
    hide Good, FateOf, Unused, Send;
    match e
    case Flushed(d, slot) =>
      SendCases(s, d, slot);
      var c := Oldest(s, d);
      if FateOf(s.peers[d].port, s.peers[d].mtu, s.rba, slot != NULL, QueuedOf(s, c)).Reported? then {}
      else {s.cycles[c].id}
    case _ => {}
  }

  /** The cycles of a kind that an event takes away. */
  ghost function Gone(s: State, e: Event, kind: Cycle -> bool): set<nat>
    requires Good(s) && Legal(s, e)
  {
    hide Good, Legal;
    set c | c in s.cycles && c !in Next(s, e).cycles && kind(s.cycles[c]) :: s.cycles[c].id
  }

  ghost function Noted(s: State, e: Event, j: Journal): Journal
    requires Good(s) && Legal(s, e)
  {
    hide Good, Legal;
    Journal(j.sent + SentIn(s, e), j.flown + Gone(s, e, (c: Cycle) => c.stage == Flying),
            j.empty + Gone(s, e, (c: Cycle) => c.chain == []))
  }

  /** The journal of a run. */
  ghost function JournalOf(s: State, events: seq<Event>, j: Journal): Journal
    requires Sound(s) && Runs(s, events)
    decreases |events|
  {
    hide Next, Sound, Legal, Noted;
    SoundIsGood(s);
    if events == [] then j
    else
      NextSound(s, events[0]);
      JournalOf(Next(s, events[0]), events[1..], Noted(s, events[0], j))
  }

  /** Live cycles have been sent exactly if they await a reply, and those have operations. */
  ghost predicate Booked(s: State, j: Journal) {
    && (forall c :: c in s.cycles ==> (s.cycles[c].id in j.sent <==> s.cycles[c].stage == Flying))
    && (forall c :: c in s.cycles ==> s.cycles[c].id !in j.flown && s.cycles[c].id !in j.empty)
    && (forall c :: c in s.cycles && s.cycles[c].stage == Flying ==> s.cycles[c].chain != [])
    && (forall id :: id in j.sent || id in j.flown || id in j.empty ==> id < s.count)
  }

  /** A callback with this status tells that the cycle was sent. */
  predicate Tells(r: Report, j: Journal) {
    match r.status
    case Segfault => true
    case Fail => true
    case Timeout => r.id in j.flown
    case Ok => r.id !in j.empty
    case _ => false
  }

  ghost predicate Truthful(s: State, j: Journal) {
    forall k :: 0 <= k < |s.log| ==> (s.log[k].id in j.sent <==> Tells(s.log[k], j))
  }

  /* ---------- what a step does to the cycles ---------- */

  /** A cycle that is there after a step that has sent `sent`. */
  predicate Stays(s: State, sent: set<nat>, t: State, c: nat)
    requires c in t.cycles
  {
    var now := t.cycles[c];
    if c in s.cycles && s.cycles[c].id == now.id then
      && (now.stage == Flying <==> s.cycles[c].stage == Flying || now.id in sent)
      && (now.stage == Flying ==> now.chain == s.cycles[c].chain)
    else now.id == s.count < t.count && now.stage != Flying
  }

  ghost predicate AllStay(s: State, sent: set<nat>, t: State) {
    forall c :: c in t.cycles ==> Stays(s, sent, t, c)
  }

  lemma OpenStays(s: State, d: nat, slot: nat)
    requires d in s.peers && (slot == NULL || Unused(s, slot))
    ensures var t := OpenCycle(s, d, slot).0; AllStay(s, {}, t) && t.log == s.log
  {
  }

  lemma EnqueueStays(s: State, c: nat, slot: nat, request: Request)
    requires c in s.cycles && s.cycles[c].stage == Filling
    ensures var t := Enqueue(s, c, slot, request); AllStay(s, {}, t) && t.log == s.log && t.count == s.count
  {
  }

  lemma AbortStays(s: State, c: nat)
    requires Good(s) && c in s.cycles && s.cycles[c].stage == Filling
    ensures var t := Abort(s, c); AllStay(s, {}, t) && t.log == s.log && t.count == s.count
  {
    hide Good;
    UnfillGood(s, c);
  }

  lemma CloseStays(s: State, c: nat, checked: bool)
    requires Good(s) && c in s.cycles && s.cycles[c].stage == Filling
    ensures var t := Close(s, c, checked); AllStay(s, {}, t) && t.log == s.log && t.count == s.count
  {
    hide Good, Reverse;
    UnfillGood(s, c);
  }

  /** What a flush step does to the cycle it settles. */
  lemma SendStays(s: State, d: nat, slot: nat)
    requires Sound(s) && Legal(s, Flushed(d, slot))
    ensures var c, t, sent := Oldest(s, d), Send(s, d, slot), SentIn(s, Flushed(d, slot));
            && c in s.cycles && AllStay(s, sent, t) && t.count == s.count
            && (sent == {} || (sent == {s.cycles[c].id} && s.cycles[c].chain != []))
            && (c in t.cycles ==> t.log == s.log && sent == {s.cycles[c].id})
            && (c !in t.cycles ==> |t.log| == |s.log| + 1 && s.log <= t.log && t.log[|s.log|].id == s.cycles[c].id)
            && (c !in t.cycles ==> match t.log[|s.log|].status
                                   case Ok => s.cycles[c].id in sent <==> s.cycles[c].chain != []
                                   case Segfault => false
                                   case Fail => false
                                   case Timeout => false
                                   case _ => sent == {})
  {
    hide Sound, Good, FateOf, Launch, CallBack;
    SoundIsGood(s);
    TakeGood(s, d);
    SendCases(s, d, slot);
    var c, u := Oldest(s, d), Take(s, d);
    GoodChained(u, c);
    TakenSame(s, d);
    var p, mtu, q := s.peers[d].port, s.peers[d].mtu, QueuedOf(s, c);
    FateSays(p, mtu, s.rba, slot != NULL, q);
    LogIds(s, d);
    match FateOf(p, mtu, s.rba, slot != NULL, q)
    case Reported(op, status) => CalledStays(s, d, Handed(u.cycles[c].chain, op), status, {});
    case Completed(_) => CalledStays(s, d, At(u.cycles[c].chain, 0), Ok, {s.cycles[c].id});
    case Awaiting(_) => LaunchedStays(s, d, Held(slot, c, Flight(u, c, d)));
  }

  lemma LogIds(s: State, d: nat)
    requires d in s.peers && s.peers[d].ready != [] && Chained(s, Oldest(s, d))
    ensures var c := Oldest(s, d);
            QueuedOf(s, c).id == s.cycles[c].id && |QueuedOf(s, c).requests| == |s.cycles[c].chain|
  {
  }

  /** The statuses of cycles that are not sent, and that those sent have operations. */
  lemma FateSays(p: Port, mtu: nat, rba: nat, alloc: bool, c: Queued)
    requires ReturnAddress(rba)
    ensures match FateOf(p, mtu, rba, alloc, c)
            case Reported(_, status) =>
              status != Segfault && status != Fail && status != Timeout && (status == Ok ==> c.requests == [])
            case _ => c.requests != []
  {
    hide CycleBytes, Misfit, AllArrived, Start;
    BadStatus(p, c.requests, 0);
    hide FirstBad;
  }

  lemma {:induction false} BadStatus(p: Port, requests: seq<Request>, i: nat)
    requires i <= |requests|
    ensures match FirstBad(p, requests, i)
            case None => true
            case Some(b) => b.1 == BadWidth || b.1 == BadEndian || b.1 == BadAddress
    decreases |requests| - i
  {
    if i < |requests| {
      RejectedAs(p, requests[i]);
      hide Validate;
      BadStatus(p, requests, i + 1);
    }
  }

  lemma RejectedAs(p: Port, r: Request)
    ensures match Validate(p, r)
            case Accepted(_) => true
            case Rejected(status) => status == BadWidth || status == BadEndian || status == BadAddress
  {
  }

  lemma CalledStays(s: State, d: nat, handed: nat, status: Status, sent: set<nat>)
    requires Good(s) && d in s.peers && s.peers[d].ready != [] && Oldest(s, d) in s.cycles
    requires forall id :: id in sent ==> id == s.cycles[Oldest(s, d)].id
    ensures var c := Oldest(s, d);
            && c in Take(s, d).cycles
            && var t := CallBack(Take(s, d), c, handed, status);
            AllStay(s, sent, t) && c !in t.cycles && t.count == s.count
  {
    var c := Oldest(s, d);
    IdsDiffer(s.cycles, s.log, s.count, s.aborted, s.dead, c);
    hide Good;
    RestagedOff(s.cycles, c, Limbo);
    DropStays(s, CallBack(Take(s, d), c, handed, status), c, sent);
  }

  lemma LaunchedStays(s: State, d: nat, h: Held)
    requires Good(s) && d in s.peers && s.peers[d].ready != [] && Oldest(s, d) in s.cycles && h.cycle == Oldest(s, d)
    ensures var c := Oldest(s, d);
            && c in Take(s, d).cycles && ReturnAddress(Take(s, d).rba)
            && var t := Launch(Take(s, d), h);
            AllStay(s, {s.cycles[c].id}, t) && c in t.cycles && t.count == s.count
  {
    var c := Oldest(s, d);
    IdsDiffer(s.cycles, s.log, s.count, s.aborted, s.dead, c);
    GoodReturns(s);
    hide Good, NextAddress, ReturnAddress;
    RestagedTwice(s.cycles, c, Limbo, Flying);
    RestageStays(s, Launch(Take(s, d), h), c);
  }

  lemma RestagedOff(cycles: map<nat, Cycle>, c: nat, stage: Stage)
    requires c in cycles
    ensures c in Restaged(cycles, c, stage) && Restaged(cycles, c, stage) - {c} == cycles - {c}
  {
  }

  lemma RestagedTwice(cycles: map<nat, Cycle>, c: nat, a: Stage, b: Stage)
    requires c in cycles
    ensures c in Restaged(cycles, c, a) && Restaged(Restaged(cycles, c, a), c, b) == Restaged(cycles, c, b)
  {
  }

  lemma DropStays(s: State, t: State, c: nat, sent: set<nat>)
    requires c in s.cycles && t.cycles == s.cycles - {c} && forall id :: id in sent ==> id == s.cycles[c].id
    requires forall x :: x in s.cycles && x != c ==> s.cycles[x].id != s.cycles[c].id
    ensures AllStay(s, sent, t) && c !in t.cycles
  {
  }

  lemma RestageStays(s: State, t: State, c: nat)
    requires c in s.cycles && t.cycles == Restaged(s.cycles, c, Flying)
    requires forall x :: x in s.cycles && x != c ==> s.cycles[x].id != s.cycles[c].id
    ensures AllStay(s, {s.cycles[c].id}, t) && c in t.cycles
  {
  }

  /** Everything `t` still has is as it was in `s`. */
  ghost predicate Subset(s: State, t: State) {
    t.count == s.count && forall c :: c in t.cycles ==> c in s.cycles && t.cycles[c] == s.cycles[c]
  }

  lemma SubsetStays(s: State, t: State)
    requires Subset(s, t)
    ensures AllStay(s, {}, t)
  {
  }

  /* ---------- the callbacks of a step ---------- */

  /** A status that says truly whether the cycle, as it was before the step, had been sent. */
  predicate Fair(cyc: Cycle, status: Status, sent: bool) {
    sent || cyc.stage == Flying <==>
      match status
      case Segfault => true
      case Fail => true
      case Timeout => cyc.stage == Flying
      case Ok => cyc.chain != []
      case _ => false
  }

  /** A callback for a cycle that was there before the step and is not there after it. */
  ghost predicate NewReport(s: State, sent: set<nat>, t: State, r: Report) {
    exists c :: c in s.cycles && c !in t.cycles && s.cycles[c].id == r.id && Fair(s.cycles[c], r.status, r.id in sent)
  }

  ghost predicate NewReports(s: State, sent: set<nat>, t: State) {
    s.log <= t.log && forall k :: |s.log| <= k < |t.log| ==> NewReport(s, sent, t, t.log[k])
  }

  ghost predicate FlyingFull(s: State) {
    forall c :: c in s.cycles && s.cycles[c].stage == Flying ==> s.cycles[c].chain != []
  }

  lemma SameReports(s: State, sent: set<nat>, t: State)
    requires t.log == s.log
    ensures NewReports(s, sent, t)
  {
  }

  lemma OneReport(s: State, sent: set<nat>, t: State, c: nat, r: Report)
    requires c in s.cycles && c !in t.cycles && s.cycles[c].id == r.id && Fair(s.cycles[c], r.status, r.id in sent)
    requires t.log == s.log + [r]
    ensures NewReports(s, sent, t)
  {
  }

  lemma SendReports(s: State, d: nat, slot: nat)
    requires Sound(s) && Legal(s, Flushed(d, slot))
    ensures NewReports(s, SentIn(s, Flushed(d, slot)), Send(s, d, slot))
  {
    hide Sound, Good, Unused;
    SoundIsGood(s);
    TakeGood(s, d);
    SendStays(s, d, slot);
    hide Send, SentIn, Good;
    var c, t, sent := Oldest(s, d), Send(s, d, slot), SentIn(s, Flushed(d, slot));
    if c in t.cycles {
      SameReports(s, sent, t);
    } else {
      OneReport(s, sent, t, c, t.log[|s.log|]);
    }
  }

  lemma FinishStays(s: State, k: nat, status: Status)
    requires Good(s) && k < |s.queue|
    requires status == Timeout || status == Segfault || status == Fail || (status == Ok && FlyingFull(s))
    ensures var t := Finish(s, k, status); Subset(s, t) && NewReports(s, {}, t)
  {
    hide Good;
    FinishSound(s, k, status);
    LandGood(s, k);
    OneReport(s, {}, Finish(s, k, status), s.queue[k].cycle,
        Report(s.queue[k].entry.id, s.cycles[s.queue[k].cycle].head, status));
  }

  lemma ApplyStatus(r: Response, size: nat, addr: nat, value: nat)
    requires Cursors(r)
    ensures match Apply(r, size, addr, value).done
            case None => true
            case Some(status) => status == Ok || status == Segfault || status == Fail
  {
  }

  lemma AnswerStays(s: State, size: nat, addr: nat, value: nat)
    requires Sound(s) && FlyingFull(s)
    ensures var t := Answer(s, size, addr, value); Subset(s, t) && NewReports(s, {}, t)
  {
    hide Good, Settled, Quiet, Apply, TargetOf, Finish;
    AnswerCases(s, size, addr, value);
    var k := Find(Entries(s.queue), TargetOf(addr));
    if k == |s.queue| {
      SameReports(s, {}, s);
    } else {
      var step := Apply(s.queue[k].entry.response, size, addr, value);
      var t := Update(s, k, step.r);
      ApplyStatus(s.queue[k].entry.response, size, addr, value);
      hide Answer;
      if step.done.None? {
        SameReports(s, {}, t);
      } else {
        FinishStays(t, k, step.done.value);
        UpdatedReports(s, k, step.r, Finish(t, k, step.done.value));
      }
    }
  }

  lemma UpdatedReports(s: State, k: nat, r: Response, t: State)
    requires k < |s.queue| && Subset(Update(s, k, r), t) && NewReports(Update(s, k, r), {}, t)
    ensures Subset(s, t) && NewReports(s, {}, t)
  {
    var u := Update(s, k, r);
    forall i | |s.log| <= i < |t.log| ensures NewReport(s, {}, t, t.log[i]) { assert NewReport(u, {}, t, t.log[i]); }
  }

  /** Closing a device makes no callback but timeouts. */
  lemma ShutTimeouts(s: State, d: nat)
    requires Good(s) && d in s.peers
    ensures var t := CloseDevice(s, d).0;
            |s.log| <= |t.log| && forall k :: |s.log| <= k < |t.log| ==> t.log[k].status == Timeout
  {
    hide *;
    if s.peers[d].unready == 0 && s.peers[d].tag != d {
      CloseSteps(s, d);
      ReadyList(s, d);
      var w := Withdraw(s, d);
      var t, ready := KillFlying(w, d), Reverse(s.peers[d].ready);
      WithdrawIs(s, d);
      KillFlyingSelects(w, d);
      KilledParts(w, t, FlyingOf(w.cycles, d));
      KillAllSound(t, ready);
      var u := KillAll(t, ready);
      RemovedLog(u, d);
      LateTimeouts(s.log, t.log, Select(w.queue, Mine(w.cycles, d)), Killings(t.cycles, ready));
    } else {
      ShutQuietly(s, d);
    }
  }

  lemma LateTimeouts(a: seq<Report>, b: seq<Report>, killed: seq<Held>, more: seq<Report>)
    requires Publics(b) == Publics(a) + TimedOut(killed)
    requires forall k :: 0 <= k < |more| ==> more[k].status == Timeout
    ensures |a| <= |b + more| && forall k :: |a| <= k < |b + more| ==> (b + more)[k].status == Timeout
  {
    forall k | |a| <= k < |b| ensures b[k].status == Timeout {
      assert Publics(b)[k] == TimedOut(killed)[k - |a|];
    }
  }

  /** Who is called back in a step that opens no cycle was alive before it and is gone after it. */
  lemma ReportedWasAlive(s: State, t: State, k: nat) returns (c: nat)
    requires Good(s) && Good(t) && History(s, t) && t.count == s.count && |s.log| <= k < |t.log|
    requires forall x :: x in t.cycles ==> x in s.cycles && t.cycles[x].id == s.cycles[x].id
    ensures c in s.cycles && c !in t.cycles && s.cycles[c].id == t.log[k].id
  {
    FatesOf(s);
    FatesOf(t);
    hide Good;
    var id := t.log[k].id;
    assert id !in s.aborted;
    NotCalledBefore(s.log, t.log, k);
    c :| c in s.cycles && s.cycles[c].id == id;
    assert CalledBack(t.log, id);
  }

  lemma NotCalledBefore(a: seq<Report>, b: seq<Report>, k: nat)
    requires a <= b && |a| <= k < |b| && forall i, j :: 0 <= i < j < |b| ==> b[i].id != b[j].id
    ensures !CalledBack(a, b[k].id)
  {
    forall i | 0 <= i < |a| ensures a[i].id != b[k].id { assert b[i] == a[i]; }
  }

  lemma FatesOf(s: State)
    requires Good(s)
    ensures Fates(s.cycles, s.log, s.count, s.aborted, s.dead)
  {
  }

  lemma ShutSubset(s: State, d: nat)
    requires Sound(s) && d in s.peers
    ensures var t := CloseDevice(s, d).0; Sound(t) && History(s, t) && Subset(s, t)
  {
    hide *;
    SoundIsGood(s);
    CloseDeviceSound(s, d);
    if s.peers[d].unready == 0 && s.peers[d].tag != d {
      CloseActive(s, d);
      Smaller(s, CloseDevice(s, d).0, CyclesOf(s.cycles, d));
    } else {
      ShutQuietly(s, d);
      Smaller(s, CloseDevice(s, d).0, {});
    }
  }

  lemma Smaller(s: State, t: State, gone: set<nat>)
    requires t.count == s.count && t.cycles.Keys == s.cycles.Keys - gone
    requires forall c :: c in t.cycles ==> t.cycles[c] == s.cycles[c]
    ensures Subset(s, t)
  {
    forall c | c in t.cycles ensures c in s.cycles { assert c in t.cycles.Keys; }
  }

  lemma ShutStays(s: State, d: nat)
    requires Sound(s) && d in s.peers
    ensures var t := CloseDevice(s, d).0; Subset(s, t) && NewReports(s, {}, t)
  {
    hide *;
    SoundIsGood(s);
    ShutSubset(s, d);
    ShutTimeouts(s, d);
    var t := CloseDevice(s, d).0;
    SoundIsGood(t);
    TimedOutReports(s, t);
  }

  lemma TimedOutReports(s: State, t: State)
    requires Good(s) && Good(t) && History(s, t) && Subset(s, t)
    requires forall k :: |s.log| <= k < |t.log| ==> t.log[k].status == Timeout
    ensures NewReports(s, {}, t)
  {
    hide Good;
    forall k | |s.log| <= k < |t.log| ensures NewReport(s, {}, t, t.log[k]) {
      var c := ReportedWasAlive(s, t, k);
      assert Fair(s.cycles[c], t.log[k].status, t.log[k].id in {});
    }
  }

  /* ---------- every step, every run ---------- */

  ghost predicate WasReady(s: State, id: nat) {
    exists c :: c in s.cycles && s.cycles[c].id == id && s.cycles[c].stage == Ready && s.cycles[c].chain != []
  }

  /** What every step does to the cycles, to the count of those opened, and to the log. */
  lemma StepStays(s: State, e: Event)
    requires Sound(s) && Legal(s, e) && FlyingFull(s)
    ensures var t, sent := Next(s, e), SentIn(s, e);
            && Sound(t) && AllStay(s, sent, t) && NewReports(s, sent, t) && s.count <= t.count
            && (forall id :: id in sent ==> id < s.count && WasReady(s, id))
  {
    hide Good, Settled, Quiet, FlyingFull, AllStay, NewReports, Subset;
    hide OpenCycle, Enqueue, Abort, Close, Send, Answer, CloseDevice, Finish, WasReady;
    NextSound(s, e);
    SoundIsGood(s);
    var t := Next(s, e);
    match e
    case OpenDevice(slot, passive, port, mtu) => OtherStays(s, t);
    case Open(d, slot) =>
      OpenStays(s, d, slot);
      SameReports(s, {}, t);
    case AddOp(c, slot, request) =>
      EnqueueStays(s, c, slot, request);
      SameReports(s, {}, t);
    case Drop(c) =>
      AbortStays(s, c);
      SameReports(s, {}, t);
    case Filled(c, checked) =>
      CloseStays(s, c, checked);
      SameReports(s, {}, t);
    case Flushed(d, slot) =>
      SendStays(s, d, slot);
      SendReports(s, d, slot);
      SentWasReady(s, d, SentIn(s, e));
    case Reply(size, addr, value) =>
      AnswerStays(s, size, addr, value);
      SubsetStays(s, t);
    case Expired =>
      FinishStays(s, 0, Timeout);
      SubsetStays(s, t);
    case Shut(d) =>
      ShutStays(s, d);
      SubsetStays(s, t);
    case Tick(time) => OtherStays(s, t);
  }

  lemma OtherStays(s: State, t: State)
    requires t.cycles == s.cycles && t.log == s.log
    ensures AllStay(s, {}, t) && NewReports(s, {}, t)
  {
  }

  lemma SentWasReady(s: State, d: nat, sent: set<nat>)
    requires Good(s) && d in s.peers && s.peers[d].ready != [] && Oldest(s, d) in s.cycles
    requires var c := Oldest(s, d); sent == {} || (sent == {s.cycles[c].id} && s.cycles[c].chain != [])
    ensures forall id :: id in sent ==> id < s.count && WasReady(s, id)
  {
    hide Good, Fates;
    TakeGood(s, d);
    FatesOf(s);
    IdsDiffer(s.cycles, s.log, s.count, s.aborted, s.dead, Oldest(s, d));
    hide Take;
  }

  /** Ids of live cycles are distinct and below the count; those called back are not alive. */
  ghost predicate Ids(s: State) {
    && (forall c :: c in s.cycles ==> s.cycles[c].id < s.count)
    && (forall c, e :: c in s.cycles && e in s.cycles && s.cycles[c].id == s.cycles[e].id ==> c == e)
    && (forall k, c :: 0 <= k < |s.log| && c in s.cycles ==> s.log[k].id != s.cycles[c].id)
  }

  lemma GoodIds(s: State)
    requires Good(s)
    ensures Ids(s)
  {
    FatesOf(s);
    hide Good;
    forall k, c | 0 <= k < |s.log| && c in s.cycles ensures s.log[k].id != s.cycles[c].id {
      assert !CalledBack(s.log, s.cycles[c].id);
    }
  }

  /** The journal after a step, given what left and what was sent. */
  ghost predicate Advances(s: State, t: State, sent: set<nat>, j: Journal, j1: Journal) {
    && j1.sent == j.sent + sent
    && (forall id :: id in j1.flown <==> id in j.flown || LeftAs(s, t, id, true))
    && (forall id :: id in j1.empty <==> id in j.empty || LeftAs(s, t, id, false))
  }

  /** A cycle with this id was flying, or empty, and has left. */
  ghost predicate LeftAs(s: State, t: State, id: nat, flying: bool) {
    exists c :: c in s.cycles && c !in t.cycles && s.cycles[c].id == id
                && if flying then s.cycles[c].stage == Flying else s.cycles[c].chain == []
  }

  lemma NotedAdvances(s: State, e: Event, j: Journal)
    requires Good(s) && Legal(s, e)
    ensures Advances(s, Next(s, e), SentIn(s, e), j, Noted(s, e, j))
  {
    hide Good, Legal, Next, SentIn;
  }

  lemma StillBooked(s: State, t: State, sent: set<nat>, j: Journal, j1: Journal)
    requires Ids(s) && Booked(s, j) && AllStay(s, sent, t) && s.count <= t.count && Advances(s, t, sent, j, j1)
    requires forall id :: id in sent ==> id < s.count && WasReady(s, id)
    ensures Booked(t, j1)
  {
    forall id | id in sent ensures exists c :: c in s.cycles && s.cycles[c].id == id && s.cycles[c].chain != [] {
      assert WasReady(s, id);
    }
    forall c | c in t.cycles
      ensures t.cycles[c].id in j1.sent <==> t.cycles[c].stage == Flying
      ensures t.cycles[c].stage == Flying ==> t.cycles[c].chain != []
      ensures t.cycles[c].id !in j1.flown && t.cycles[c].id !in j1.empty
    {
      assert Stays(s, sent, t, c);
    }
    forall id | id in j1.sent || id in j1.flown || id in j1.empty ensures id < t.count { }
  }

  lemma StillTruthful(s: State, t: State, sent: set<nat>, j: Journal, j1: Journal)
    requires Ids(s) && Booked(s, j) && Truthful(s, j) && NewReports(s, sent, t) && Advances(s, t, sent, j, j1)
    requires forall id :: id in sent ==> WasReady(s, id)
    ensures Truthful(t, j1)
  {
    forall k | 0 <= k < |t.log| ensures t.log[k].id in j1.sent <==> Tells(t.log[k], j1) {
      var r := t.log[k];
      if k < |s.log| {
        assert r == s.log[k];
        assert !LeftAs(s, t, r.id, true) && !LeftAs(s, t, r.id, false) && !WasReady(s, r.id);
      } else {
        assert NewReport(s, sent, t, r);
        NewTells(s, t, sent, j, j1, r);
      }
    }
  }

  lemma NewTells(s: State, t: State, sent: set<nat>, j: Journal, j1: Journal, r: Report)
    requires Ids(s) && Booked(s, j) && NewReport(s, sent, t, r) && Advances(s, t, sent, j, j1)
    ensures r.id in j1.sent <==> Tells(r, j1)
  {
    var c :| c in s.cycles && c !in t.cycles && s.cycles[c].id == r.id && Fair(s.cycles[c], r.status, r.id in sent);
    assert LeftAs(s, t, r.id, true) <==> s.cycles[c].stage == Flying;
    assert LeftAs(s, t, r.id, false) <==> s.cycles[c].chain == [];
  }

  lemma JournalStep(s: State, e: Event, j: Journal)
    requires Sound(s) && Legal(s, e) && Booked(s, j) && Truthful(s, j)
    ensures Good(s) && Sound(Next(s, e)) && Booked(Next(s, e), Noted(s, e, j)) && Truthful(Next(s, e), Noted(s, e, j))
  {
    hide *;
    SoundIsGood(s);
    GoodIds(s);
    BookedFull(s, j);
    StepStays(s, e);
    NotedAdvances(s, e, j);
    StillBooked(s, Next(s, e), SentIn(s, e), j, Noted(s, e, j));
    StillTruthful(s, Next(s, e), SentIn(s, e), j, Noted(s, e, j));
  }

  lemma BookedFull(s: State, j: Journal)
    requires Booked(s, j)
    ensures FlyingFull(s)
  {
  }

  lemma {:induction false} JournalRun(s: State, events: seq<Event>, j: Journal)
    requires Sound(s) && Runs(s, events) && Booked(s, j) && Truthful(s, j)
    ensures Booked(RunOf(s, events), JournalOf(s, events, j)) && Truthful(RunOf(s, events), JournalOf(s, events, j))
    decreases |events|
  {
    hide Sound, Next, Booked, Truthful, Noted, Legal;
    if events != [] {
      JournalStep(s, events[0], j);
      JournalRun(Next(s, events[0]), events[1..], Noted(s, events[0], j));
    }
  }

  const NOTHING: Journal := Journal({}, {}, {})

  /** WHO WAS SENT. Over every run, a cycle that has been called back had been sent exactly if its
      status is a segfault or a failure; or a timeout, and it was awaiting its reply; or OK, and it
      had an operation. So the promise that only cycles reported OK were sent fails for the first
      three kinds, and the promise that those reported OK were sent fails for the empty ones. */
  lemma SentExactly(events: seq<Event>, k: nat)
    requires Sound(Initial()) && Runs(Initial(), events) && k < |RunOf(Initial(), events).log|
    ensures var r, j := RunOf(Initial(), events).log[k], JournalOf(Initial(), events, NOTHING);
            r.id in j.sent <==> match r.status
                                case Segfault => true
                                case Fail => true
                                case Timeout => r.id in j.flown
                                case Ok => r.id !in j.empty
                                case _ => false
  {
    hide Sound, Runs, RunOf, JournalOf;
    JournalRun(Initial(), events, NOTHING);
    assert Tells(RunOf(Initial(), events).log[k], JournalOf(Initial(), events, NOTHING)) <==>
        RunOf(Initial(), events).log[k].id in JournalOf(Initial(), events, NOTHING).sent;
  }
}
