/** Concrete runs that reach what looks wrong at first sight. */
module Witnesses {
  import opened Widths
  import opened Format
  import opened Lists
  import opened Master
  import opened EndToEnd
  import opened Flush
  import opened Lifecycle
  import opened Moves
  import opened Protocol
  import opened Flushing
  import opened Promises

  /** The events are a run of the protocol from its initial state to `t`. */
  ghost predicate Leads(events: seq<Event>, t: State) {
    Sound(Initial()) && Runs(Initial(), events) && RunOf(Initial(), events) == t
  }

  lemma {:induction false} JournalLonger(s: State, events: seq<Event>, e: Event, j: Journal)
    requires Sound(s) && Runs(s, events) && Good(RunOf(s, events)) && Legal(RunOf(s, events), e)
    ensures Runs(s, events + [e])
    ensures JournalOf(s, events + [e], j) == Noted(RunOf(s, events), e, JournalOf(s, events, j))
    decreases |events|
  {
    hide Sound, Next, Legal, Good, Noted;
    SoundIsGood(s);
    RunLonger(s, events, e);
    if events == [] {
      NextSound(s, e);
      assert [] + [e] == [e] && [e][1..] == [];
    } else {
      NextSound(s, events[0]);
      assert (events + [e])[1..] == events[1..] + [e];
      JournalLonger(Next(s, events[0]), events[1..], e, Noted(s, events[0], j));
    }
  }

  lemma LeadsOn(events: seq<Event>, s: State, e: Event)
    requires Leads(events, s) && Legal(s, e)
    ensures Good(s) && Leads(events + [e], Next(s, e)) && Sound(Next(s, e))
    ensures JournalOf(Initial(), events + [e], NOTHING) == Noted(s, e, JournalOf(Initial(), events, NOTHING))
  {
    hide Sound, Next, Legal, Runs, RunOf, JournalOf, Noted, Initial;
    RunSound(Initial(), events);
    SoundIsGood(s);
    NextSound(s, e);
    RunLonger(Initial(), events, e);
    JournalLonger(Initial(), events, e, NOTHING);
  }

  lemma SentOn(events: seq<Event>, s: State, e: Event)
    requires Leads(events, s) && Legal(s, e)
    ensures Good(s) && Leads(events + [e], Next(s, e))
    ensures JournalOf(Initial(), events + [e], NOTHING).sent
         == JournalOf(Initial(), events, NOTHING).sent + SentIn(s, e)
  {
    hide Sound, Next, Legal, Runs, RunOf, JournalOf, Initial, SentIn, Leads, Good;
    LeadsOn(events, s, e);
  }

  lemma LeadsSound(events: seq<Event>, s: State)
    requires Leads(events, s)
    ensures Sound(s) && Good(s)
  {
    hide Sound, Initial;
    RunSound(Initial(), events);
    SoundIsGood(s);
  }

  /** One device, and one cycle of it that the user is filling. */
  ghost predicate Filling1(s: State, p: Port, mtu: nat, cyc: Cycle) {
    && s.peers == map[128 := Peer(NULL, [], 1, p, mtu)] && s.cycles == map[129 := cyc]
    && cyc.id == 0 && cyc.device == 128 && cyc.stage == Filling && |cyc.chain| <= 1
    && (cyc.head == 129 || cyc.head == At(cyc.chain, 0)) && s.responses == map[] && s.rba == 0x8000
  }

  lemma OpenedDevice(p: Port, mtu: nat) returns (events: seq<Event>, s: State)
    ensures Leads(events, s) && s == AddPeer(Initial(), 128, false, p, mtu)
    ensures JournalOf(Initial(), events, NOTHING).sent == {}
  {
    InitialSound();
    hide Sound;
    assert Leads([], Initial());
    var e := OpenDevice(128, false, p, mtu);
    LeadsOn([], Initial(), e);
    s := Next(Initial(), e);
    events := [] + [e];
  }

  lemma AddedDevice(p: Port, mtu: nat)
    ensures var s := AddPeer(Initial(), 128, false, p, mtu);
            && s.peers == map[128 := Peer(NULL, [], 0, p, mtu)] && s.cycles == map[] && s.ops == map[]
            && s.responses == map[] && s.queue == [] && s.log == [] && s.dead == {} && s.rba == 0x8000 && s.count == 0
  {
  }

  lemma Opened(p: Port, mtu: nat) returns (events: seq<Event>, t: State)
    ensures Leads(events, t) && Filling1(t, p, mtu, Cycle(0, NULL, [], 128, Filling, false))
    ensures t.ops == map[] && t.dead == {} && t.queue == [] && t.log == []
    ensures JournalOf(Initial(), events, NOTHING).sent == {}
  {
    var s;
    events, s := OpenedDevice(p, mtu);
    AddedDevice(p, mtu);
    hide Leads, AddPeer, Sound, Good;
    LeadsOn(events, s, Open(128, 129));
    t := Next(s, Open(128, 129));
    assert t == Fill(Born(s, 129, 128), 129);
    events := events + [Open(128, 129)];
  }

  /** Closing the only cycle. */
  lemma EnlistedAlone(s: State, p: Port, mtu: nat, cyc: Cycle, checked: bool)
    requires Filling1(s, p, mtu, cyc)
    ensures var u := Unfill(s, 129);
            && 129 in u.cycles && 128 in u.peers && 129 in Turn(u, 129, checked).cycles && u.cycles[129].device == 128
            && var t := Enlist(if cyc.head == 129 then u else Turn(u, 129, checked), 129);
            && t.peers == map[128 := Peer(129, [129], 0, p, mtu)] && t == s.(cycles := t.cycles, peers := t.peers)
            && t.cycles == map[129 := cyc.(stage := Ready,
                                           checked := if cyc.head == 129 then cyc.checked else checked)]
  {
    assert Reverse(cyc.chain) == cyc.chain by {
      if |cyc.chain| == 1 { ReverseOne(cyc.chain[0]); assert cyc.chain == [cyc.chain[0]]; }
    }
    hide Reverse;
    assert [129] + [] == [129];
  }

  lemma ClosedAlone(events: seq<Event>, s: State, p: Port, mtu: nat, cyc: Cycle, checked: bool) returns (t: State)
    requires Leads(events, s) && Filling1(s, p, mtu, cyc)
    ensures Leads(events + [Filled(129, checked)], t) && Sound(t)
    ensures t.peers == map[128 := Peer(129, [129], 0, p, mtu)] && t == s.(cycles := t.cycles, peers := t.peers)
    ensures t.cycles == map[129 := cyc.(stage := Ready,
                                        checked := if cyc.head == 129 then cyc.checked else checked)]
    ensures JournalOf(Initial(), events, NOTHING).sent == {} ==>
              JournalOf(Initial(), events + [Filled(129, checked)], NOTHING).sent == {}
  {
    hide Leads, Sound, Good;
    var e := Filled(129, checked);
    LeadsOn(events, s, e);
    t := Next(s, e);
    UnfillGood(s, 129);
    EnlistedAlone(s, p, mtu, cyc, checked);
    hide Unfill, Turn, Enlist;
  }

  /** The index is not that of an operation. */
  predicate NoOperation(s: State, x: nat) { x !in s.ops && x != NULL }

  /** A cycle that runs out of memory and is closed, on a device that is closed before it is flushed:
      the user is handed the cycle's own index, which is no operation. */
  lemma HandedItself(p: Port, mtu: nat, request: Request, checked: bool) returns (events: seq<Event>, t: State)
    ensures Leads(events, t) && NoOperation(t, 129) && Report(0, 129, Timeout) in t.log
  {
    var s;
    events, s := Opened(p, mtu);
    var u := Exhausted(events, s, p, mtu, request);
    events := events + [AddOp(129, NULL, request)];
    hide Leads, Sound, Filling1;
    var v := ClosedAlone(events, u, p, mtu, u.cycles[129], checked);
    events := events + [Filled(129, checked)];
    t := Shutdown(events, v);
    events := events + [Shut(128)];
  }

  lemma Exhausted(events: seq<Event>, s: State, p: Port, mtu: nat, request: Request) returns (t: State)
    requires Leads(events, s) && Filling1(s, p, mtu, Cycle(0, NULL, [], 128, Filling, false)) && s.ops == map[]
    ensures Leads(events + [AddOp(129, NULL, request)], t) && 129 in t.cycles && t.cycles[129].head == 129
    ensures Filling1(t, p, mtu, t.cycles[129]) && t.ops == map[]
  {
    hide Leads, Sound, Good;
    LeadsOn(events, s, AddOp(129, NULL, request));
    t := Next(s, AddOp(129, NULL, request));
    assert t == Exhaust(s, 129);
  }

  lemma Shutdown(events: seq<Event>, s: State) returns (t: State)
    requires Leads(events, s) && 128 in s.peers && s.peers[128].ready == [129] && s.peers[128].unready == 0
    requires s.cycles.Keys == {129} && s.cycles[129].id == 0 && s.cycles[129].head == 129
    requires s.cycles[129].device == 128 && s.cycles[129].stage != Filling
    ensures Leads(events + [Shut(128)], t) && NoOperation(t, 129) && Report(0, 129, Timeout) in t.log
  {
    hide Leads, Sound, Good, CloseDevice, NoOperation;
    LeadsSound(events, s);
    LeadsOn(events, s, Shut(128));
    t := Next(s, Shut(128));
    KilledUnsent(s, 128, 129);
    NothingOwned(s, t, 128);
  }

  lemma NothingOwned(s: State, t: State, d: nat)
    requires Sound(s) && d in s.peers && t == CloseDevice(s, d).0 && Sound(t)
    requires forall c :: c in s.cycles ==> s.cycles[c].device == d && s.cycles[c].stage != Filling
    ensures NoOperation(t, 129)
  {
    hide *;
    AllMine(s, d);
    SoundIsGood(s);
    CloseDeviceSound(s, d);
    EverythingOwned(t);
    NoOps(t);
  }

  lemma AllMine(s: State, d: nat)
    requires forall c :: c in s.cycles ==> s.cycles[c].device == d && s.cycles[c].stage != Filling
    ensures FillingOf(s.cycles, d) == {} && s.cycles.Keys - CyclesOf(s.cycles, d) == {}
  {
  }

  lemma NoOps(s: State)
    requires s.cycles.Keys == {} && forall x :: x in s.ops ==> s.ops[x].owner in s.cycles
    ensures NoOperation(s, 129)
  {
  }

  /* ---------- what the header promises of statuses ---------- */

  /** A cycle without operations is called back with OK, and has not been sent. */
  lemma EmptyNotSent(p: Port, mtu: nat, checked: bool) returns (events: seq<Event>, t: State)
    ensures Leads(events, t) && Report(0, NULL, Ok) in t.log && 0 !in JournalOf(Initial(), events, NOTHING).sent
  {
    var s;
    events, s := Opened(p, mtu);
    hide Leads, Sound, Filling1, Good, JournalOf;
    var cyc := Cycle(0, NULL, [], 128, Filling, false);
    var u := ClosedAlone(events, s, p, mtu, cyc, checked);
    events := events + [Filled(129, checked)];
    LeadsOn(events, u, Flushed(128, NULL));
    t := Next(u, Flushed(128, NULL));
    EmptyFate(u, 128, NULL);
    events := events + [Flushed(128, NULL)];
  }

  lemma EmptyFate(s: State, d: nat, slot: nat)
    requires Good(s) && Legal(s, Flushed(d, slot))
    requires Oldest(s, d) in s.cycles && s.cycles[Oldest(s, d)].chain == [] && s.cycles[Oldest(s, d)].head == NULL
    ensures SentIn(s, Flushed(d, slot)) == {}
    ensures Report(s.cycles[Oldest(s, d)].id, NULL, Ok) in Send(s, d, slot).log
  {
    hide Good, Send, FateOf, Unused, QueuedOf;
    SendCases(s, d, slot);
    LogIds(s, d);
    EmptyQueued(s, Oldest(s, d));
    NothingToSend(s.peers[d].port, s.peers[d].mtu, s.rba, slot != NULL, QueuedOf(s, Oldest(s, d)));
    var log := Send(s, d, slot).log;
    assert log[|s.log|] == Report(s.cycles[Oldest(s, d)].id, NULL, Ok);
  }

  lemma EmptyQueued(s: State, c: nat)
    requires Good(s) && Chained(s, c) && s.cycles[c].chain == [] && s.cycles[c].head == NULL
    ensures !QueuedOf(s, c).dead && QueuedOf(s, c).requests == []
  {
    NotNull(s, c);
    hide Good;
  }

  lemma NothingToSend(p: Port, mtu: nat, rba: nat, alloc: bool, c: Queued)
    requires ReturnAddress(rba) && !c.dead && c.requests == []
    ensures FateOf(p, mtu, rba, alloc, c) == Reported(None, Ok)
  {
  }

  lemma NotNull(s: State, c: nat)
    requires Good(s) && c in s.cycles
    ensures c != NULL
  {
    hide Homes, Fates, Chains, InOrder, Listed;
  }

  /** A read of a word at address 0 at any width. */
  const READ: Request := Request(false, false, 0, 0x1F, 0)

  /** It is accepted by every port. */
  lemma ReadAccepted(p: Port)
    ensures FirstBad(p, [READ], 0) == None && !Ops(p, [READ])[0].write
  {
    ReadSize(p.data as bv8);
  }

  lemma ReadSize(data: bv8)
    requires data == 1 || data == 2 || data == 4 || data == 8
    ensures ChosenSize(data, 0x1F) == data
  {
  }

  /** On a stream, with memory for a response, it is sent and awaits its reply. */
  lemma ReadAwaits(p: Port, rba: nat, c: Queued)
    requires ReturnAddress(rba) && !c.dead && c.requests == [READ]
    ensures FateOf(p, 0, rba, true, c).Awaiting?
  {
    ReadAccepted(p);
    var ops := Ops(p, [READ]);
    StartArrived(c.checked, ops);
    assert Owed(c.checked, ops, 0, 0);
    hide READ, FirstBad, Ops, CycleBytes, AllArrived, Start, Owed;
  }

  lemma Asked(events: seq<Event>, s: State, p: Port) returns (t: State)
    requires Leads(events, s) && Filling1(s, p, 0, Cycle(0, NULL, [], 128, Filling, false)) && s.dead == {}
    requires s.ops == map[] && JournalOf(Initial(), events, NOTHING).sent == {} && s.queue == []
    ensures var cyc := Cycle(0, 130, [130], 128, Filling, false);
            && Leads(events + [AddOp(129, 130, READ)], t) && Filling1(t, p, 0, cyc) && t.queue == []
            && t.ops == map[130 := Operation(129, READ)]
  {
    hide Leads, Sound, Good, READ;
    LeadsOn(events, s, AddOp(129, 130, READ));
    t := Next(s, AddOp(129, 130, READ));
    assert t == Push(s, 129, 130, READ);
    assert [130] + [] == [130];
  }

  lemma Launched(events: seq<Event>, s: State, p: Port, cyc: Cycle) returns (t: State)
    requires Leads(events, s) && s.peers == map[128 := Peer(129, [129], 0, p, 0)] && s.cycles == map[129 := cyc]
    requires cyc.chain == [130] && cyc.head == 130 && cyc.id == 0 && s.ops == map[130 := Operation(129, READ)]
    requires s.responses == map[] && s.queue == []
    ensures Leads(events + [Flushed(128, 131)], t) && |t.queue| == 1 && t.queue[0].entry.id == 0
    ensures 0 in JournalOf(Initial(), events + [Flushed(128, 131)], NOTHING).sent
  {
    var e := Flushed(128, 131);
    hide Leads, Sound, Good, FateOf, READ, Flight, Send, JournalOf, QueuedOf;
    SentOn(events, s, e);
    t := Next(s, e);
    SendCases(s, 128, 131);
    GoodReturns(s);
    QueuedRead(s, cyc);
    ReadAwaits(p, s.rba, QueuedOf(s, 129));
    assert SentIn(s, e) == {0};
  }

  lemma QueuedRead(s: State, cyc: Cycle)
    requires Chained(s, 129) && s.cycles == map[129 := cyc] && s.ops == map[130 := Operation(129, READ)]
    requires cyc.chain == [130] && cyc.head == 130
    ensures var q := QueuedOf(s, 129); q.requests == [READ] && !q.dead && q.id == cyc.id
  {
    hide READ;
  }

  /** A cycle that is sent and whose reply does not come is called back with a timeout. */
  lemma SentThenTimeout(p: Port, checked: bool) returns (events: seq<Event>, t: State)
    ensures Leads(events, t) && (exists h :: Report(0, h, Timeout) in t.log)
    ensures 0 in JournalOf(Initial(), events, NOTHING).sent
  {
    var s;
    events, s := Opened(p, 0);
    hide *;
    s := Asked(events, s, p);
    events := events + [AddOp(129, 130, READ)];
    s := ClosedAlone(events, s, p, 0, Cycle(0, 130, [130], 128, Filling, false), checked);
    events := events + [Filled(129, checked)];
    s := Launched(events, s, p, Cycle(0, 130, [130], 128, Ready, checked));
    events := events + [Flushed(128, 131)];
    t := TimesOut(events, s);
    events := events + [Expired];
  }

  lemma TimesOut(events: seq<Event>, s: State) returns (t: State)
    requires Leads(events, s) && |s.queue| == 1 && s.queue[0].entry.id == 0
    requires 0 in JournalOf(Initial(), events, NOTHING).sent
    ensures Leads(events + [Expired], t) && (exists h :: Report(0, h, Timeout) in t.log)
    ensures 0 in JournalOf(Initial(), events + [Expired], NOTHING).sent
  {
    hide Leads, Sound, Good, Finish, JournalOf;
    SentOn(events, s, Expired);
    t := Next(s, Expired);
    FinishSound(s, 0, Timeout);
    var r := Report(0, s.cycles[s.queue[0].cycle].head, Timeout);
    assert t.log[|s.log|] == r;
  }
}
