/** The pool seen from the protocol: which indices are in use, which ones each operation takes and
    gives back, and that a pool serving a whole run has exactly those in use live. */
module Occupancy {
  import opened Widths
  import opened Format
  import opened Lists
  import opened Master
  import opened ReadWrite
  import opened Flush
  import opened Replies
  import opened Lifecycle
  import opened Moves
  import opened Protocol
  import opened Flushing
  import Pool

  /** The live indices of the pool. */
  function InUse(s: State): set<nat> {
    s.cycles.Keys + s.ops.Keys + s.responses.Keys + s.peers.Keys
  }

  /** What an allocation may answer: no memory, or an index that is not live. */
  predicate Fresh(live: set<nat>, slot: nat) {
    slot == NULL || slot !in live
  }

  function SlotOf(e: Event): nat {
    match e
    case OpenDevice(slot, _, _, _) => slot
    case Open(_, slot) => slot
    case AddOp(_, slot, _) => slot
    case Flushed(_, slot) => slot
    case _ => NULL
  }

  /** The caller's part of an event's legality. */
  predicate Allowed(s: State, e: Event) {
    match e
    case OpenDevice(_, _, _, _) => true
    case Open(d, _) => d in s.peers
    case AddOp(c, _, _) => c in s.cycles && s.cycles[c].stage == Filling
    case Drop(c) => c in s.cycles && s.cycles[c].stage == Filling
    case Filled(c, _) => c in s.cycles && s.cycles[c].stage == Filling
    case Flushed(d, _) => d in s.peers && s.peers[d].ready != []
    case Reply(_, _, _) => true
    case Expired => s.queue != []
    case Shut(d) => d in s.peers
    case Tick(_) => true
  }

  /** An event is legal exactly when the caller keeps its part and the pool keeps its own. */
  lemma LegalIff(s: State, e: Event)
    ensures Legal(s, e) <==> Allowed(s, e) && Fresh(InUse(s), SlotOf(e))
  {
  }

  /* ---------- what a step takes and gives back ---------- */

  /** The indices a cycle occupies: its own, its operations', and its response's while it has one. */
  function Footprint(s: State, c: nat): set<nat>
    requires c in s.cycles
  {
    {c} + Chain(s, c) + set x | x in s.responses && s.responses[x] == c
  }

  predicate InFootprints(s: State, cs: set<nat>, x: nat) {
    exists c :: c in cs && c in s.cycles && x in Footprint(s, c)
  }

  function Footprints(s: State, cs: set<nat>): set<nat> {
    set x | x in InUse(s) && InFootprints(s, cs, x)
  }

  /** The cycle a flush step settles, as it sees it. */
  function Head(s: State, d: nat): Queued
    requires Good(s) && d in s.peers && s.peers[d].ready != []
  {
    SendCases(s, d, NULL);
    QueuedOf(s, Oldest(s, d))
  }

  function HeadFate(s: State, d: nat, slot: nat): Fate
    requires Good(s) && d in s.peers && s.peers[d].ready != []
  {
    SendCases(s, d, NULL);
    FateOf(s.peers[d].port, s.peers[d].mtu, s.rba, slot != NULL, Head(s, d))
  }

  /** Whether an operation asks the pool for an index; a flush step does so after validation only. */
  predicate Asks(s: State, e: Event)
    requires Good(s) && Allowed(s, e)
  {
    match e
    case OpenDevice(_, _, _, _) => true
    case Open(_, _) => true
    case AddOp(_, _, _) => true
    case Flushed(d, _) =>
      var c := Head(s, d);
      !c.dead && c.requests != [] && FirstBad(s.peers[d].port, c.requests, 0) == None
    case _ => false
  }

  /** The index an operation takes from the pool. */
  function Taken(s: State, e: Event): set<nat>
    requires Good(s) && Allowed(s, e)
  {
    if Asks(s, e) && SlotOf(e) != NULL then {SlotOf(e)} else {}
  }

  /** The cycle that a write-back completes, if it completes one. */
  function Completes(s: State, size: nat, addr: nat, value: nat): set<nat>
    requires Good(s)
  {
    var k := Find(Entries(s.queue), EndToEnd.TargetOf(addr));
    if k == |s.queue| then {}
    else
      HeldIs(s.queue, s.responses, s.cycles, k);
      if Apply(s.queue[k].entry.response, size, addr, value).done.None? then {} else {s.queue[k].cycle}
  }

  /** The cycles an operation releases. */
  function Releases(s: State, e: Event): set<nat>
    requires Good(s) && Allowed(s, e)
  {
    match e
    case Drop(c) => {c}
    case Flushed(d, slot) => if HeadFate(s, d, slot).Awaiting? then {} else {Oldest(s, d)}
    case Reply(size, addr, value) => Completes(s, size, addr, value)
    case Expired => {s.queue[0].cycle}
    case Shut(d) => if s.peers[d].unready != 0 then {} else CyclesOf(s.cycles, d)
    case _ => {}
  }

  /** The indices an operation gives back to the pool: all those of the cycles it releases; those of
      the operations of a cycle that has run out of memory; a device's own; and what it took in vain
      for a cycle of a closing device, for an operation of a dead cycle, or for a response to a
      cycle that expects none or does not fit. */
  function Freed(s: State, e: Event): set<nat>
    requires Good(s) && Allowed(s, e)
  {
    Footprints(s, Releases(s, e)) +
    match e
    case Open(d, _) => if s.peers[d].tag == d then Taken(s, e) else {}
    case AddOp(c, slot, _) => if slot == NULL then Chain(s, c) else if s.cycles[c].head == c then Taken(s, e) else {}
    case Flushed(d, slot) => if HeadFate(s, d, slot).Awaiting? then {} else Taken(s, e)
    case Shut(d) => if s.peers[d].unready != 0 then {} else {d}
    case _ => {}
  }

  /* ---------- the invariant says which indices are in use ---------- */

  /** Live operations are listed by their cycles, responses belong to cycles. */
  lemma UsedIff(s: State, x: nat)
    requires Good(s)
    ensures x in InUse(s) <==> x in s.peers || InFootprints(s, s.cycles.Keys, x)
  {
    hide Homes, Fates, Apart, Listed;
    if x in s.ops {
      assert x in Footprint(s, s.ops[x].owner);
    }
    if x in s.responses {
      ResponseOwned(s, x);
      assert x in Footprint(s, s.responses[x]);
    }
    if x in s.cycles {
      assert x in Footprint(s, x);
    }
    if InFootprints(s, s.cycles.Keys, x) {
      var c :| c in s.cycles && x in Footprint(s, c);
      FootprintUsed(s, c);
    }
  }

  lemma ResponseOwned(s: State, x: nat)
    requires InOrder(s.queue, s.responses, s.cycles) && x in s.responses
    ensures s.responses[x] in s.cycles && s.cycles[s.responses[x]].stage == Flying
  {
    assert HasSlot(s.queue, x);
    var k :| 0 <= k < |s.queue| && s.queue[k].slot == x;
    assert HeldOk(s.queue[k], s.responses, s.cycles);
  }

  lemma FootprintUsed(s: State, c: nat)
    requires Good(s) && c in s.cycles
    ensures Footprint(s, c) <= InUse(s) && forall x :: x in Footprint(s, c) ==> x !in s.peers
  {
    hide Homes, Fates, InOrder, Listed;
    assert ChainOk(c, s.cycles[c], s.ops, s.dead);
    assert Chain(s, c) <= s.ops.Keys;
    assert forall x :: x in s.peers.Keys ==> x !in s.cycles.Keys && x !in s.ops.Keys && x !in s.responses.Keys;
  }

  /** No index belongs to two cycles: releasing several frees each index once. */
  lemma FootprintsApart(s: State, a: nat, c: nat)
    requires Good(s) && a in s.cycles && c in s.cycles && a != c
    ensures Footprint(s, a) !! Footprint(s, c)
  {
    hide Good, Chain;
    ChainsShareNothing(s, a, c);
    ChainIs(s, a);
    ChainIs(s, c);
    KindsApart(s, a);
    KindsApart(s, c);
    forall x | x in Footprint(s, a) ensures x !in Footprint(s, c) {
      if x in s.cycles {
        assert x == a;
      } else if x in s.responses {
        assert s.responses[x] == a;
      } else {
        assert x in Chain(s, a) && x !in Chain(s, c);
      }
    }
  }

  lemma ChainIs(s: State, c: nat)
    requires c in s.cycles
    ensures forall x :: x in Chain(s, c) <==> x in s.cycles[c].chain
  {
  }

  lemma KindsApart(s: State, c: nat)
    requires Good(s) && c in s.cycles
    ensures forall x :: x in Chain(s, c) ==> x in s.ops && x !in s.cycles && x !in s.responses
    ensures forall x :: x in s.responses ==> x !in s.cycles
  {
    hide Homes, Fates, InOrder, Listed;
    assert ChainOk(c, s.cycles[c], s.ops, s.dead);
    assert forall x :: x in s.ops.Keys ==> x !in s.cycles.Keys && x !in s.responses.Keys;
    assert forall x :: x in s.responses.Keys ==> x !in s.cycles.Keys;
  }

  /** A cycle left alone keeps its indices. */
  lemma FootprintSame(s: State, t: State, c: nat)
    requires Good(s) && Good(t) && c in s.cycles && c in t.cycles && Within(t.responses, s.responses)
    requires t.cycles[c].chain == s.cycles[c].chain && (t.cycles[c].stage == Flying <==> s.cycles[c].stage == Flying)
    ensures Footprint(t, c) == Footprint(s, c)
  {
    hide Homes, Fates, Chains, Apart, Listed;
    forall x | x in s.responses && s.responses[x] == c ensures x in t.responses && t.responses[x] == c {
      ResponseOwned(s, x);
      assert HasCycle(t.queue, c);
      var k :| 0 <= k < |t.queue| && t.queue[k].cycle == c;
      assert HeldOk(t.queue[k], t.responses, t.cycles);
      OneSlot(s, x, t.queue[k].slot);
    }
  }

  lemma OneSlot(s: State, x: nat, y: nat)
    requires InOrder(s.queue, s.responses, s.cycles) && x in s.responses && y in s.responses
    requires s.responses[x] == s.responses[y]
    ensures x == y
  {
    assert HasSlot(s.queue, x) && HasSlot(s.queue, y);
    var j :| 0 <= j < |s.queue| && s.queue[j].slot == x;
    var k :| 0 <= k < |s.queue| && s.queue[k].slot == y;
    assert HeldOk(s.queue[j], s.responses, s.cycles) && HeldOk(s.queue[k], s.responses, s.cycles);
  }

  /** With some cycles and devices gone and the other cycles left alone, exactly the indices of what
      is gone are free. */
  lemma Shrunk(s: State, t: State, gone: set<nat>, shut: set<nat>)
    requires Good(s) && Good(t) && Within(t.responses, s.responses) && shut <= s.peers.Keys
    requires t.cycles.Keys == s.cycles.Keys - gone && t.peers.Keys == s.peers.Keys - shut
    requires forall c :: c in t.cycles && c in s.cycles ==>
               t.cycles[c].chain == s.cycles[c].chain && (t.cycles[c].stage == Flying <==> s.cycles[c].stage == Flying)
    ensures InUse(t) == InUse(s) - (Footprints(s, gone) + shut)
  {
    hide Good, InUse, Footprint;
    forall c | c in t.cycles ensures c in s.cycles && c !in gone && Footprint(t, c) == Footprint(s, c) {
      assert c in t.cycles.Keys;
      FootprintSame(s, t, c);
    }
    forall x ensures x in InUse(t) <==> x in InUse(s) - (Footprints(s, gone) + shut) {
      UsedIff(s, x);
      UsedIff(t, x);
      assert x in t.peers <==> x in t.peers.Keys;
      Kept1(s, t, gone, shut, x);
    }
  }

  lemma Kept1(s: State, t: State, gone: set<nat>, shut: set<nat>, x: nat)
    requires Good(s) && t.cycles.Keys == s.cycles.Keys - gone && t.peers.Keys == s.peers.Keys - shut
    requires forall c :: c in t.cycles ==> c in s.cycles && c !in gone && Footprint(t, c) == Footprint(s, c)
    requires shut <= s.peers.Keys
    ensures x in t.peers || InFootprints(t, t.cycles.Keys, x)
       <==> (x in s.peers || InFootprints(s, s.cycles.Keys, x)) && !InFootprints(s, gone, x) && x !in shut
  {
    hide Good, Footprint;
    assert x in t.peers <==> x in s.peers.Keys && x !in shut;
    if InFootprints(s, s.cycles.Keys, x) {
      var c :| c in s.cycles && x in Footprint(s, c);
      FootprintUsed(s, c);
      assert forall e :: e in t.cycles <==> e in t.cycles.Keys;
      forall e | e in s.cycles && x in Footprint(s, e) ensures e == c {
        if e != c { FootprintsApart(s, e, c); }
      }
      assert c !in gone ==> c in t.cycles && x in Footprint(t, c);
    } else {
      assert !InFootprints(t, t.cycles.Keys, x);
      assert !InFootprints(s, gone, x);
    }
  }

  /* ---------- every step ---------- */

  /** After the step exactly `taken` has come into use and exactly `freed` has gone out of it. */
  ghost predicate Exchanged(s: State, t: State, taken: set<nat>, freed: set<nat>) {
    taken !! InUse(s) && freed <= InUse(s) + taken && InUse(t) == (InUse(s) + taken) - freed
  }

  lemma NotInUse(s: State, x: nat)
    requires Fresh(InUse(s), x)
    ensures (if x != NULL then {x} else {}) !! InUse(s)
  {
  }

  lemma Unchanged(s: State, t: State)
    requires InUse(t) == InUse(s)
    ensures Exchanged(s, t, {}, {} + {})
  {
  }

  lemma NoFootprints(s: State)
    ensures Footprints(s, {}) == {}
  {
  }

  /** What has shrunk has given back what it lost, and perhaps what it had just taken. */
  lemma ShrunkExchanged(s: State, t: State, taken: set<nat>, gone: set<nat>, shut: set<nat>)
    requires InUse(t) == InUse(s) - (Footprints(s, gone) + shut) && taken !! InUse(s) && shut <= InUse(s)
    ensures Exchanged(s, t, taken, Footprints(s, gone) + (shut + taken))
  {
    hide InUse;
  }

  lemma OpenDeviceUses(s: State, slot: nat, passive: bool, port: Port, mtu: nat)
    requires Sound(s) && Legal(s, OpenDevice(slot, passive, port, mtu))
    ensures var e := OpenDevice(slot, passive, port, mtu);
            Exchanged(s, Next(s, e), Taken(s, e), Freed(s, e))
  {
    hide Sound, Good;
    NoFootprints(s);
    hide Footprints;
    if slot != NULL {
      KeysSame(s.peers, slot, AddPeer(s, slot, passive, port, mtu).peers[slot], {});
    }
  }

  lemma OpenUses(s: State, d: nat, slot: nat)
    requires Sound(s) && Legal(s, Open(d, slot))
    ensures var e := Open(d, slot); Exchanged(s, Next(s, e), Taken(s, e), Freed(s, e))
  {
    hide Sound, Good, Taken, Freed, InUse;
    SoundIsGood(s);
    var e := Open(d, slot);
    LegalIff(s, e);
    OpenFrees(s, d, slot);
    if slot != NULL {
      NotInUse(s, slot);
      if s.peers[d].tag != d {
        BornKeys(s, d, slot);
        hide Born, Fill;
      }
    }
  }

  lemma OpenFrees(s: State, d: nat, slot: nat)
    requires Good(s) && Allowed(s, Open(d, slot))
    ensures var e := Open(d, slot);
            && Taken(s, e) == (if slot == NULL then {} else {slot})
            && Freed(s, e) == if s.peers[d].tag == d then Taken(s, e) else {}
  {
    hide Good;
    NoFootprints(s);
    hide Footprints;
  }

  lemma BornKeys(s: State, d: nat, slot: nat)
    requires d in s.peers && slot !in s.cycles
    ensures slot in Born(s, slot, d).cycles && Born(s, slot, d).cycles[slot].device == d
    ensures var t := Fill(Born(s, slot, d), slot);
            InUse(t) == InUse(s) + {slot}
  {
    var t := Fill(Born(s, slot, d), slot);
    assert t.cycles.Keys == s.cycles.Keys + {slot} && t.peers.Keys == s.peers.Keys;
  }

  lemma AddOpUses(s: State, c: nat, slot: nat, request: Request)
    requires Sound(s) && Legal(s, AddOp(c, slot, request))
    ensures var e := AddOp(c, slot, request); Exchanged(s, Next(s, e), Taken(s, e), Freed(s, e))
  {
    hide Sound, Good, Taken, Freed;
    SoundIsGood(s);
    var e := AddOp(c, slot, request);
    LegalIff(s, e);
    AddOpFrees(s, c, slot, request);
    if slot == NULL {
      ExhaustUses(s, c);
    } else {
      NotInUse(s, slot);
      PushUses(s, c, slot, request);
    }
    hide Exhaust, Push, InUse;
  }

  lemma AddOpFrees(s: State, c: nat, slot: nat, request: Request)
    requires Good(s) && Allowed(s, AddOp(c, slot, request))
    ensures var e := AddOp(c, slot, request);
            && Taken(s, e) == (if slot == NULL then {} else {slot})
            && Freed(s, e) == if slot == NULL then Chain(s, c) else if s.cycles[c].head == c then {slot} else {}
  {
    hide Good, Chain;
    NoFootprints(s);
    hide Footprints;
  }

  lemma ExhaustUses(s: State, c: nat)
    requires Good(s) && c in s.cycles
    ensures Chain(s, c) <= InUse(s) && InUse(Exhaust(s, c)) == InUse(s) - Chain(s, c)
  {
    hide Good, Chain, InUse, Exhaust;
    KindsApart(s, c);
    ChainNotPeer(s, c);
    ExhaustKeys(s, c);
    OpsGone(s, Exhaust(s, c), Chain(s, c));
  }

  lemma ExhaustKeys(s: State, c: nat)
    requires c in s.cycles
    ensures var t := Exhaust(s, c);
            && t.cycles.Keys == s.cycles.Keys && t.ops.Keys == s.ops.Keys - Chain(s, c)
            && t.responses == s.responses && t.peers == s.peers
  {
    hide Chain;
  }

  lemma PushUses(s: State, c: nat, slot: nat, request: Request)
    requires c in s.cycles
    ensures InUse(Push(s, c, slot, request)) == InUse(s) + {slot}
  {
    var t := Push(s, c, slot, request);
    assert t.cycles.Keys == s.cycles.Keys && t.ops.Keys == s.ops.Keys + {slot};
  }

  lemma ChainNotPeer(s: State, c: nat)
    requires Good(s) && c in s.cycles
    ensures forall x :: x in Chain(s, c) ==> x !in s.peers
  {
    FootprintUsed(s, c);
    hide Good;
  }

  lemma OpsGone(s: State, t: State, gone: set<nat>)
    requires t.cycles.Keys == s.cycles.Keys && t.responses == s.responses && t.peers == s.peers
    requires t.ops.Keys == s.ops.Keys - gone && gone <= s.ops.Keys
    requires forall x :: x in gone ==> x !in s.cycles && x !in s.responses && x !in s.peers
    ensures gone <= InUse(s) && InUse(t) == InUse(s) - gone
  {
    assert forall x :: x in gone ==> x !in s.cycles.Keys && x !in s.responses.Keys && x !in s.peers.Keys;
  }

  lemma DropUses(s: State, c: nat)
    requires Sound(s) && Legal(s, Drop(c))
    ensures var e := Drop(c); Exchanged(s, Next(s, e), Taken(s, e), Freed(s, e))
  {
    hide Sound, Good, Taken, Freed, InUse, Abort, Footprints, Exchanged;
    SoundIsGood(s);
    AbortSound(s, c);
    var t := Abort(s, c);
    SoundIsGood(t);
    AbortShape(s, c);
    DropFrees(s, c);
    WithinSelf(s.responses);
    Shrunk(s, t, {c}, {});
    ShrunkExchanged(s, t, {}, {c}, {});
  }

  lemma DropFrees(s: State, c: nat)
    requires Good(s) && Allowed(s, Drop(c))
    ensures Taken(s, Drop(c)) == {} && Freed(s, Drop(c)) == Footprints(s, {c}) + ({} + {})
  {
    hide Good, Footprints;
  }

  lemma AbortShape(s: State, c: nat)
    requires Good(s) && c in s.cycles && s.cycles[c].stage == Filling
    ensures var t := Abort(s, c);
            && t.cycles.Keys == s.cycles.Keys - {c} && t.peers.Keys == s.peers.Keys && t.responses == s.responses
            && forall x :: x in t.cycles ==> x in s.cycles && t.cycles[x] == s.cycles[x]
  {
    hide Good;
    UnfillGood(s, c);
  }

  lemma FilledUses(s: State, c: nat, checked: bool)
    requires Sound(s) && Legal(s, Filled(c, checked))
    ensures var e := Filled(c, checked); Exchanged(s, Next(s, e), Taken(s, e), Freed(s, e))
  {
    hide Sound, Good;
    SoundIsGood(s);
    CloseShape(s, c, checked);
    NoFootprints(s);
    Unchanged(s, Close(s, c, checked));
    hide Footprints, Exchanged, Close;
  }

  lemma CloseShape(s: State, c: nat, checked: bool)
    requires Good(s) && c in s.cycles && s.cycles[c].stage == Filling
    ensures InUse(Close(s, c, checked)) == InUse(s)
  {
    hide Good;
    UnfillGood(s, c);
    var t := Close(s, c, checked);
    assert t.cycles.Keys == s.cycles.Keys && t.peers.Keys == s.peers.Keys;
  }

  lemma FlushedUses(s: State, d: nat, slot: nat)
    requires Sound(s) && Legal(s, Flushed(d, slot))
    ensures var e := Flushed(d, slot); Exchanged(s, Next(s, e), Taken(s, e), Freed(s, e))
  {
    hide Sound, Good, Send, Unused, HeadFate, InUse, Footprints, Taken, Freed, Fresh;
    SoundIsGood(s);
    var e, c, t := Flushed(d, slot), Oldest(s, d), Send(s, d, slot);
    SendSound(s, d, slot);
    SoundIsGood(t);
    SendForms(s, d, slot);
    LegalIff(s, e);
    NotInUse(s, slot);
    FlushedFrees(s, d, slot);
    if !HeadFate(s, d, slot).Awaiting? {
      WithinSelf(s.responses);
      hide Exchanged;
      Shrunk(s, t, {c}, {});
      ShrunkExchanged(s, t, Taken(s, e), {c}, {});
    }
  }

  lemma FlushedFrees(s: State, d: nat, slot: nat)
    requires Good(s) && Allowed(s, Flushed(d, slot))
    ensures var e := Flushed(d, slot);
            && Taken(s, e) <= (if slot == NULL then {} else {slot})
            && if HeadFate(s, d, slot).Awaiting? then slot != NULL && Taken(s, e) == {slot} && Freed(s, e) == {}
               else Freed(s, e) == Footprints(s, {Oldest(s, d)}) + ({} + Taken(s, e))
  {
    hide Good, FateOf;
    SendCases(s, d, slot);
    if HeadFate(s, d, slot).Awaiting? {
      AwaitingAsks(s.peers[d].port, s.peers[d].mtu, s.rba, slot != NULL, QueuedOf(s, Oldest(s, d)));
    }
    NoFootprints(s);
    hide Footprints, QueuedOf, Chained;
  }

  /** Only a cycle for which there is a response can await a reply. */
  lemma AwaitingAsks(p: Port, mtu: nat, rba: nat, alloc: bool, c: Queued)
    requires ReturnAddress(rba) && FateOf(p, mtu, rba, alloc, c).Awaiting?
    ensures alloc && !c.dead && c.requests != [] && FirstBad(p, c.requests, 0) == None
  {
    hide FirstBad, EndToEnd.CycleBytes, Misfit, EndToEnd.AllArrived, EndToEnd.Start;
  }

  /** A flush step releases the oldest cycle or gives it a response. */
  lemma SendForms(s: State, d: nat, slot: nat)
    requires Good(s) && d in s.peers && s.peers[d].ready != []
    ensures var c, t := Oldest(s, d), Send(s, d, slot);
            && c in s.cycles && t.peers.Keys == s.peers.Keys
            && if HeadFate(s, d, slot).Awaiting? then InUse(t) == InUse(s) + {slot}
               else
                 && t.cycles.Keys == s.cycles.Keys - {c} && t.responses == s.responses
                 && forall x :: x in t.cycles ==> x in s.cycles && t.cycles[x] == s.cycles[x]
  {
    hide Good, FateOf, CallBack, Launch;
    SendCases(s, d, slot);
    TakeGood(s, d);
    var c, u := Oldest(s, d), Take(s, d);
    GoodChained(u, c);
    TakenSame(s, d);
    KeysSame(s.peers, d, u.peers[d], {});
    match FateOf(s.peers[d].port, s.peers[d].mtu, s.rba, slot != NULL, QueuedOf(s, c))
    case Reported(op, status) => CalledShape(s, d, Handed(u.cycles[c].chain, op), status);
    case Completed(_) => CalledShape(s, d, At(u.cycles[c].chain, 0), Ok);
    case Awaiting(_) => LaunchedShape(s, d, Held(slot, c, Flight(u, c, d)));
  }

  lemma CalledShape(s: State, d: nat, handed: nat, status: Status)
    requires d in s.peers && s.peers[d].ready != [] && Oldest(s, d) in s.cycles
    ensures var c := Oldest(s, d);
            && c in Take(s, d).cycles
            && var t := CallBack(Take(s, d), c, handed, status);
            && t.cycles.Keys == s.cycles.Keys - {c} && t.responses == s.responses && t.peers == Take(s, d).peers
            && forall x :: x in t.cycles ==> x in s.cycles && t.cycles[x] == s.cycles[x]
  {
  }

  lemma LaunchedShape(s: State, d: nat, h: Held)
    requires d in s.peers && s.peers[d].ready != [] && Oldest(s, d) in s.cycles && h.cycle == Oldest(s, d)
    requires ReturnAddress(s.rba)
    ensures h.cycle in Take(s, d).cycles
    ensures var t := Launch(Take(s, d), h); InUse(t) == InUse(s) + {h.slot} && t.peers == Take(s, d).peers
  {
    hide NextAddress;
    var t := Launch(Take(s, d), h);
    assert t.cycles.Keys == s.cycles.Keys && t.responses.Keys == s.responses.Keys + {h.slot};
    assert t.peers.Keys == s.peers.Keys;
  }

  lemma FinishUses(s: State, k: nat, status: Status)
    requires Good(s) && k < |s.queue|
    ensures var c, t := s.queue[k].cycle, Finish(s, k, status);
            c in s.cycles && InUse(t) == InUse(s) - (Footprints(s, {c}) + {})
  {
    hide Good;
    FinishSound(s, k, status);
    LandGood(s, k);
    var c, t := s.queue[k].cycle, Finish(s, k, status);
    assert t.cycles.Keys == s.cycles.Keys - {c};
    hide Finish;
    Shrunk(s, t, {c}, {});
  }

  lemma ExpiredUses(s: State)
    requires Sound(s) && Legal(s, Expired)
    ensures Exchanged(s, Next(s, Expired), Taken(s, Expired), Freed(s, Expired))
  {
    hide Sound, Good, Finish, Footprints, Exchanged, Taken, Freed, InUse;
    SoundIsGood(s);
    FinishUses(s, 0, Timeout);
    ExpiredFrees(s);
    ShrunkExchanged(s, Finish(s, 0, Timeout), {}, {s.queue[0].cycle}, {});
  }

  lemma ExpiredFrees(s: State)
    requires Good(s) && Allowed(s, Expired)
    ensures Taken(s, Expired) == {} && Freed(s, Expired) == Footprints(s, {s.queue[0].cycle}) + ({} + {})
  {
    hide Good, Footprints;
  }

  lemma ReplyUses(s: State, size: nat, addr: nat, value: nat)
    requires Sound(s)
    ensures Good(s)
    ensures var e := Reply(size, addr, value); Exchanged(s, Next(s, e), Taken(s, e), Freed(s, e))
  {
    hide Good, Settled, Quiet, Apply, Finish, EndToEnd.TargetOf, InUse, Footprints;
    AnswerCases(s, size, addr, value);
    var k := Find(Entries(s.queue), EndToEnd.TargetOf(addr));
    NoFootprints(s);
    Unchanged(s, s);
    if k < |s.queue| {
      var step := Apply(s.queue[k].entry.response, size, addr, value);
      var t := Update(s, k, step.r);
      UpdateUses(s, k, step.r);
      hide Answer, Update;
      if step.done.Some? {
        FinishUses(t, k, step.done.value);
        ShrunkExchanged(s, Finish(t, k, step.done.value), {}, {s.queue[k].cycle}, {});
      } else {
        Unchanged(s, t);
      }
    }
  }

  lemma UpdateUses(s: State, k: nat, r: Response)
    requires k < |s.queue|
    ensures var t := Update(s, k, r);
            && InUse(t) == InUse(s) && t.queue[k].cycle == s.queue[k].cycle
            && forall cs :: Footprints(t, cs) == Footprints(s, cs)
  {
  }

  lemma ShutUses(s: State, d: nat)
    requires Sound(s) && Legal(s, Shut(d))
    ensures var e := Shut(d); Exchanged(s, Next(s, e), Taken(s, e), Freed(s, e))
  {
    hide Sound, Good, Next, Taken, Freed, InUse, Footprints, CloseDevice, CyclesOf, FillingOf, Exchanged, Within;
    SoundIsGood(s);
    CloseDeviceSound(s, d);
    ShutFrees(s, d);
    var t := CloseDevice(s, d).0;
    if s.peers[d].unready == 0 {
      SoundIsGood(t);
      ShutResponses(s, d);
      Shrunk(s, t, CyclesOf(s.cycles, d), {d});
      ShrunkExchanged(s, t, {}, CyclesOf(s.cycles, d), {d});
      assert {d} + {} == {d};
    } else {
      Unchanged(s, s);
    }
  }

  lemma ShutFrees(s: State, d: nat)
    requires Good(s) && Allowed(s, Shut(d))
    ensures d in s.peers && {d} <= InUse(s) && Taken(s, Shut(d)) == {} && Next(s, Shut(d)) == CloseDevice(s, d).0
    ensures s.peers[d].unready == 0 ==>
              CloseDevice(s, d).1 == Ok && Freed(s, Shut(d)) == Footprints(s, CyclesOf(s.cycles, d)) + {d}
    ensures s.peers[d].unready != 0 ==> CloseDevice(s, d).0 == s && Freed(s, Shut(d)) == {} + {}
  {
    hide Good, CyclesOf, KillFlying, KillAll;
    NoFootprints(s);
    hide Footprints;
    assert d in s.peers.Keys;
  }

  lemma ShutResponses(s: State, d: nat)
    requires Sound(s) && d in s.peers && s.peers[d].unready == 0
    ensures Good(s) && Within(CloseDevice(s, d).0.responses, s.responses)
  {
    hide Sound, Good, KillFlying, KillAll, Within;
    SoundIsGood(s);
    if s.peers[d].tag != d {
      CloseActive(s, d);
    } else {
      WithinSelf(s.responses);
    }
  }

  lemma WithinSelf(m: map<nat, nat>)
    ensures Within(m, m)
  {
  }

  lemma TickUses(s: State, time: nat)
    requires Sound(s)
    ensures Good(s)
    ensures var e := Tick(time); Exchanged(s, Next(s, e), Taken(s, e), Freed(s, e))
  {
    hide Sound, Good;
    SoundIsGood(s);
    NoFootprints(s);
    Unchanged(s, s.(time := time));
    hide Footprints, Exchanged;
  }

  /** TAKEN AND GIVEN BACK. Every operation takes from the pool exactly the index it asked for, which
      was not in use, gives back exactly those it no longer needs, and uses the rest as before. */
  lemma StepUses(s: State, e: Event)
    requires Sound(s) && Legal(s, e)
    ensures Good(s) && Allowed(s, e) && Sound(Next(s, e))
    ensures Taken(s, e) !! InUse(s) && Freed(s, e) <= InUse(s) + Taken(s, e)
    ensures InUse(Next(s, e)) == (InUse(s) + Taken(s, e)) - Freed(s, e)
  {
    NextSound(s, e);
    LegalIff(s, e);
    SoundIsGood(s);
    hide Sound, Good, Next, Taken, Freed, InUse;
    match e
    case OpenDevice(slot, passive, port, mtu) => OpenDeviceUses(s, slot, passive, port, mtu);
    case Open(d, slot) => OpenUses(s, d, slot);
    case AddOp(c, slot, request) => AddOpUses(s, c, slot, request);
    case Drop(c) => DropUses(s, c);
    case Filled(c, checked) => FilledUses(s, c, checked);
    case Flushed(d, slot) => FlushedUses(s, d, slot);
    case Reply(size, addr, value) => ReplyUses(s, size, addr, value);
    case Expired => ExpiredUses(s);
    case Shut(d) => ShutUses(s, d);
    case Tick(time) => TickUses(s, time);
  }

  /** A run in which every allocation is answered by a pool whose live indices are those in use. */
  ghost predicate Served(s: State, events: seq<Event>)
    requires Sound(s)
    decreases |events|
  {
    events == [] ||
    (&& Allowed(s, events[0]) && Fresh(InUse(s), SlotOf(events[0]))
     && (LegalIff(s, events[0]); NextSound(s, events[0]); Served(Next(s, events[0]), events[1..])))
  }

  /** Such a run is a run of the protocol: the pool's promise is all the protocol needs of it. */
  lemma {:induction false} ServedRuns(s: State, events: seq<Event>)
    requires Sound(s) && Served(s, events)
    ensures Runs(s, events)
    decreases |events|
  {
    if events != [] {
      LegalIff(s, events[0]);
      hide Sound, Next, Legal, Allowed, Fresh;
      NextSound(s, events[0]);
      ServedRuns(Next(s, events[0]), events[1..]);
    }
  }

  /* ---------- the pool itself ---------- */

  /** The event with the pool's answer filled in. */
  function Answered(e: Event, slot: nat): Event {
    match e
    case OpenDevice(_, passive, port, mtu) => OpenDevice(slot, passive, port, mtu)
    case Open(d, _) => Open(d, slot)
    case AddOp(c, _, request) => AddOp(c, slot, request)
    case Flushed(d, _) => Flushed(d, slot)
    case _ => e
  }

  lemma AnsweredIs(s: State, e: Event, slot: nat)
    requires Good(s) && Allowed(s, e)
    ensures var a := Answered(e, slot);
            && Allowed(s, a) && Asks(s, a) == Asks(s, e) && (SlotOf(a) == slot || SlotOf(a) == NULL)
            && (Asks(s, e) ==> SlotOf(a) == slot)
  {
    hide Good;
  }

  function Slots(slot: nat): set<nat> { if slot == NULL then {} else {slot} }

  /** What an operation does with the pool's answer. */
  lemma Planned(s: State, e: Event, slot: nat)
    requires Sound(s) && Allowed(s, e) && (slot == NULL || slot !in InUse(s))
    requires Good(s) ==> !Asks(s, e) ==> slot == NULL
    ensures var a := Answered(e, slot);
            && Good(s) && Allowed(s, a) && Legal(s, a) && a == Answered(e, SlotOf(a)) && Sound(Next(s, a))
            && Freed(s, a) <= InUse(s) + Slots(slot) && InUse(Next(s, a)) == (InUse(s) + Slots(slot)) - Freed(s, a)
  {
    hide Sound, Good, Allowed, Legal, Taken, Freed, InUse, Asks, Next, Answered, SlotOf;
    SoundIsGood(s);
    AnsweredIs(s, e, slot);
    MadeLegal(s, e, slot);
    StepUses(s, Answered(e, slot));
    TakenIs(s, Answered(e, slot), slot);
  }

  method Grab(pool: Pool.Pool<()>, asks: bool, memory: bool) returns (slot: nat)
    requires pool.Valid()
    modifies pool, pool.items
    ensures pool.Valid() && (pool.items == old(pool.items) || fresh(pool.items)) && (!asks ==> slot == NULL)
    ensures slot == NULL || slot !in old(Pool.Live(pool.items[..]).Keys)
    ensures Pool.Live(pool.items[..]).Keys == old(Pool.Live(pool.items[..]).Keys) + Slots(slot)
  {
    hide Pool.Live;
    slot := NULL;
    if asks {
      slot := pool.New((), memory);
    }
  }

  /** One operation with the pool: it asks for an index if it needs one, and afterwards frees, one by
      one, the indices it gives back. Every one of them is live when it is freed. */
  method Perform(pool: Pool.Pool<()>, s: State, e: Event, memory: bool) returns (t: State, ghost done: Event)
    requires pool.Valid() && Sound(s) && Allowed(s, e) && Pool.Live(pool.items[..]).Keys == InUse(s)
    modifies pool, pool.items
    ensures pool.Valid() && (pool.items == old(pool.items) || fresh(pool.items))
    ensures Good(s) && Legal(s, done) && done == Answered(e, SlotOf(done)) && t == Next(s, done) && Sound(t)
    ensures Pool.Live(pool.items[..]).Keys == InUse(t)
  {
    hide *;
    SoundIsGood(s);
    var slot := Grab(pool, Asks(s, e), memory);
    Planned(s, e, slot);
    var a := Answered(e, slot);
    done := a;
    t := Next(s, a);
    Release(pool, Freed(s, a));
  }

  lemma MadeLegal(s: State, e: Event, slot: nat)
    requires Good(s) && Allowed(s, Answered(e, slot)) && (slot == NULL || slot !in InUse(s))
    ensures Legal(s, Answered(e, slot)) && Answered(e, slot) == Answered(e, SlotOf(Answered(e, slot)))
  {
    LegalIff(s, Answered(e, slot));
    hide Good, InUse, Legal, Allowed;
  }

  lemma TakenIs(s: State, a: Event, slot: nat)
    requires Good(s) && Allowed(s, a) && (Asks(s, a) ==> SlotOf(a) == slot) && (!Asks(s, a) ==> slot == NULL)
    ensures Taken(s, a) == if slot == NULL then {} else {slot}
  {
    hide Good, Asks, Allowed, SlotOf;
  }

  /** Free some live indices, one after another. */
  method Release(pool: Pool.Pool<()>, freed: set<nat>)
    requires pool.Valid() && freed <= Pool.Live(pool.items[..]).Keys
    modifies pool, pool.items
    ensures pool.Valid() && pool.items == old(pool.items)
    ensures Pool.Live(pool.items[..]).Keys == old(Pool.Live(pool.items[..])).Keys - freed
  {
    hide *;
    var left := freed;
    while left != {}
      invariant pool.Valid() && pool.items == old(pool.items) && left <= freed
      invariant Pool.Live(pool.items[..]).Keys == old(Pool.Live(pool.items[..])).Keys - (freed - left)
      decreases left
    {
      var x :| x in left;
      pool.Free(x);
      left := left - {x};
    }
  }

  /** ONE POOL FOR A WHOLE RUN. However the user's requests, replies, timeouts and lacks of memory come
      in, the indices live in the pool are at the end exactly those in use. Requests with handles
      that are not open are not made. */
  method PerformAll(requests: seq<Event>, memory: nat -> bool) returns (pool: Pool.Pool<()>, t: State,
                                                                        ghost run: seq<Event>)
    ensures fresh(pool) && pool.Valid()
    ensures Sound(Initial()) && Runs(Initial(), run) && t == RunOf(Initial(), run)
    ensures Pool.Live(pool.items[..]).Keys == InUse(t)
  {
    hide *;
    InitialSound();
    pool := new Pool.Pool<()>();
    t, run := Initial(), [];
    NothingRun();
    NothingUsed();
    for i := 0 to |requests|
      invariant fresh(pool) && pool.Valid() && fresh(pool.items) && Sound(t)
      invariant Sound(Initial()) && Runs(Initial(), run) && t == RunOf(Initial(), run)
      invariant Pool.Live(pool.items[..]).Keys == InUse(t)
    {
      if Allowed(t, requests[i]) {
        ghost var s, done := t, requests[i];
        t, done := Perform(pool, t, requests[i], memory(i));
        RunLonger(Initial(), run, done);
        run := run + [done];
      }
    }
  }

  lemma NothingUsed()
    ensures InUse(Initial()) == {}
  {
  }

  lemma NothingRun()
    requires Sound(Initial())
    ensures Runs(Initial(), []) && RunOf(Initial(), []) == Initial()
  {
    hide Sound;
  }
}
