/** Flushing as the protocol's steps is the flush that the device's send loop was proved to do,
    and what closing a device hands to the user. */
module Flushing {
  import opened Widths
  import opened Format
  import opened Lists
  import opened Master
  import opened EndToEnd
  import opened Flush
  import opened Lifecycle
  import opened Moves
  import opened Protocol

  ghost predicate AllChained(s: State, cs: seq<nat>) {
    forall c :: c in cs ==> Chained(s, c)
  }

  /** A ready list (newest first) as flushing sees it: oldest cycle first. */
  function Backlog(s: State, ready: seq<nat>): (q: seq<Queued>)
    requires AllChained(s, ready)
    ensures |q| == |ready|
    decreases |ready|
  {
    if ready == [] then []
    else
      var n := |ready| - 1;
      assert ready[n] in ready;
      [QueuedOf(s, ready[n])] + Backlog(s, ready[..n])
  }

  lemma {:induction false} BacklogSame(s: State, t: State, ready: seq<nat>)
    requires AllChained(s, ready) && AllChained(t, ready)
    requires forall c :: c in ready ==> QueuedOf(t, c) == QueuedOf(s, c)
    ensures Backlog(t, ready) == Backlog(s, ready)
    decreases |ready|
  {
    if ready != [] {
      assert ready[|ready| - 1] in ready;
      BacklogSame(s, t, ready[..|ready| - 1]);
    }
  }

  lemma ReadyChained(s: State, d: nat)
    requires Good(s) && d in s.peers
    ensures AllChained(s, s.peers[d].ready)
  {
    hide Chained;
    ReadyAre(s.peers, s.cycles, s.passive, d);
    forall c | c in s.peers[d].ready ensures Chained(s, c) { GoodChained(s, c); }
  }

  /** Other cycles do not notice that one has been released or launched. */
  lemma OthersSame(s: State, t: State, gone: nat, c: nat)
    requires Good(s) && c in s.cycles && gone in s.cycles && c != gone
    requires c in t.cycles && t.cycles[c] == s.cycles[c]
    requires t.ops == s.ops || t.ops == s.ops - Chain(s, gone)
    ensures Chained(s, c) && Chained(t, c) && QueuedOf(t, c) == QueuedOf(s, c)
  {
    hide *;
    GoodChained(s, c);
    ChainsShareNothing(s, gone, c);
    QueuedSame(s, t, gone, c);
  }

  lemma ChainsShareNothing(s: State, a: nat, c: nat)
    requires Good(s) && a in s.cycles && c in s.cycles && a != c
    ensures forall x :: x in s.cycles[c].chain ==> x !in s.cycles[a].chain
  {
    hide Homes, Fates, InOrder, Apart, Listed;
    assert ChainOk(c, s.cycles[c], s.ops, s.dead) && ChainOk(a, s.cycles[a], s.ops, s.dead);
  }

  lemma QueuedSame(s: State, t: State, gone: nat, c: nat)
    requires Chained(s, c) && gone in s.cycles && forall x :: x in s.cycles[c].chain ==> x !in s.cycles[gone].chain
    requires c in t.cycles && t.cycles[c] == s.cycles[c] && (t.ops == s.ops || t.ops == s.ops - Chain(s, gone))
    ensures Chained(t, c) && QueuedOf(t, c) == QueuedOf(s, c)
  {
    var chain := s.cycles[c].chain;
    forall i | 0 <= i < |chain| ensures chain[i] in t.ops && t.ops[chain[i]] == s.ops[chain[i]] {
      assert chain[i] in chain;
    }
  }

  /** A flush step takes the oldest cycle and calls it back or launches it. */
  lemma SendForm(s: State, d: nat, slot: nat) returns (handed: nat, status: Status, h: Held)
    requires Good(s) && d in s.peers && s.peers[d].ready != []
    ensures var c := Oldest(s, d);
            && c in s.cycles && Chained(s, c) && h.cycle == c
            && c in Take(s, d).cycles && ReturnAddress(Take(s, d).rba)
            && (Send(s, d, slot) == CallBack(Take(s, d), c, handed, status)
                || Send(s, d, slot) == Launch(Take(s, d), h))
  {
    hide Homes, Fates, Chains, InOrder, Apart, Listed, FateOf, CallBack, Launch;
    TakeGood(s, d);
    var c, t := Oldest(s, d), Take(s, d);
    GoodChained(s, c);
    GoodChained(t, c);
    handed, status, h := NULL, Ok, Held(slot, c, Flight(t, c, d));
    match FateOf(s.peers[d].port, s.peers[d].mtu, s.rba, slot != NULL, QueuedOf(t, c))
    case Reported(op, st) => handed, status := Handed(t.cycles[c].chain, op), st;
    case Completed(_) => handed := At(t.cycles[c].chain, 0);
    case Awaiting(_) =>
  }

  /** What taking, calling back and launching leave alone. */
  lemma TakenShape(s: State, d: nat, handed: nat, status: Status, h: Held)
    requires d in s.peers && s.peers[d].ready != [] && Oldest(s, d) in s.cycles && h.cycle == Oldest(s, d)
         && ReturnAddress(s.rba)
    ensures var c := Oldest(s, d);
            forall t :: t == CallBack(Take(s, d), c, handed, status) || t == Launch(Take(s, d), h) ==>
              && d in t.peers && t.peers[d].ready == s.peers[d].ready[..|s.peers[d].ready| - 1] && t.time == s.time
              && t.peers[d].port == s.peers[d].port && t.peers[d].mtu == s.peers[d].mtu
              && (t.ops == s.ops || t.ops == s.ops - Chain(s, c))
              && (forall x :: x in s.cycles && x != c ==> x in t.cycles && t.cycles[x] == s.cycles[x])
  {
  }

  /** What a flush step leaves of the device and the other cycles. */
  lemma SendShape(s: State, d: nat, slot: nat)
    requires Sound(s) && d in s.peers && s.peers[d].ready != [] && (slot == NULL || Unused(s, slot))
    ensures var c, t := Oldest(s, d), Send(s, d, slot);
            && Sound(t) && History(s, t) && d in t.peers && c in s.cycles && Chained(s, c)
            && t.peers[d].ready == s.peers[d].ready[..|s.peers[d].ready| - 1] && t.time == s.time
            && t.peers[d].port == s.peers[d].port && t.peers[d].mtu == s.peers[d].mtu
            && (t.ops == s.ops || t.ops == s.ops - Chain(s, c))
            && (forall x :: x in s.cycles && x != c ==> x in t.cycles && t.cycles[x] == s.cycles[x])
  {
    hide *;
    SoundIsGood(s);
    SendSound(s, d, slot);
    var handed, status, h := SendForm(s, d, slot);
    GoodReturns(s);
    TakenShape(s, d, handed, status, h);
  }

  lemma GoodReturns(s: State)
    requires Good(s)
    ensures ReturnAddress(s.rba)
  {
  }

  lemma BacklogStep(s: State, d: nat, slot: nat)
    requires Sound(s) && d in s.peers && s.peers[d].ready != [] && (slot == NULL || Unused(s, slot))
    ensures var c, t := Oldest(s, d), Send(s, d, slot);
            && Sound(t) && d in t.peers && Chained(s, c)
            && AllChained(s, s.peers[d].ready) && AllChained(t, t.peers[d].ready)
            && Backlog(s, s.peers[d].ready) == [QueuedOf(s, c)] + Backlog(t, t.peers[d].ready)
  {
    SendShape(s, d, slot);
    ReadyDistinctly(s, d);
    ReadyChained(s, d);
    hide Homes, Fates, Chains, InOrder, Apart, Listed, Settled, Quiet, Send;
    var c, t := Oldest(s, d), Send(s, d, slot);
    ReadyChained(t, d);
    var rest := t.peers[d].ready;
    forall x | x in rest ensures Chained(s, x) && QueuedOf(t, x) == QueuedOf(s, x) {
      OthersSame(s, t, c, x);
    }
    BacklogSame(s, t, rest);
  }

  lemma ReadyDistinctly(s: State, d: nat)
    requires Good(s) && d in s.peers && s.peers[d].ready != []
    ensures var n := |s.peers[d].ready| - 1;
            forall c :: c in s.peers[d].ready[..n] ==> c in s.cycles && c != s.peers[d].ready[n]
  {
    assert PeerOk(d, s.peers[d], s.cycles, s.passive);
  }

  datatype Public = Public(id: nat, status: Status)

  function Publics(log: seq<Report>): (r: seq<Public>)
    ensures |r| == |log| && forall k :: 0 <= k < |log| ==> r[k] == Public(log[k].id, log[k].status)
  {
    seq(|log|, k requires 0 <= k < |log| => Public(log[k].id, log[k].status))
  }

  function Verdicts(log: seq<Callback>): (r: seq<Public>)
    ensures |r| == |log| && forall k :: 0 <= k < |log| ==> r[k] == Public(log[k].id, log[k].status)
  {
    seq(|log|, k requires 0 <= k < |log| => Public(log[k].id, log[k].status))
  }

  /** `t` comes out of `s` by what `u` has accumulated. */
  ghost predicate Accounted(s: State, t: State, u: Tally) {
    && t.rba == u.rba
    && Entries(t.queue) == Entries(s.queue) + u.issued
    && Publics(t.log) == Publics(s.log) + Verdicts(u.callbacks)
  }

  lemma AddPublic(s: seq<Report>, t: seq<Report>, r: Report, u: seq<Callback>, v: Callback)
    requires Publics(t) == Publics(s) + Verdicts(u) && r.id == v.id && r.status == v.status
    ensures Publics(t + [r]) == Publics(s) + Verdicts(u + [v])
  {
  }

  lemma AddEntry(s: seq<Held>, t: seq<Held>, h: Held, u: seq<InFlight>)
    requires Entries(t) == Entries(s) + u
    ensures Entries(t + [h]) == Entries(s) + (u + [h.entry])
  {
  }

  /** One step settles one cycle. */
  lemma SendIsSettle(s0: State, s: State, d: nat, slot: nat, u: Tally)
    requires Sound(s) && d in s.peers && s.peers[d].ready != [] && (slot == NULL || Unused(s, slot))
    requires Accounted(s0, s, u)
    ensures Chained(s, Oldest(s, d)) && ReturnAddress(u.rba)
    ensures Accounted(s0, Send(s, d, slot),
                      Settle(s.peers[d].port, s.peers[d].mtu, s.time, slot != NULL, QueuedOf(s, Oldest(s, d)), u))
  {
    hide *;
    SoundIsGood(s);
    GoodReturns(s);
    AccountedParts(s0, s, u);
    SendCases(s, d, slot);
    var c := Oldest(s, d);
    var q := QueuedOf(s, c);
    SettleCases(s.peers[d].port, s.peers[d].mtu, s.time, slot != NULL, q, u);
    match FateOf(s.peers[d].port, s.peers[d].mtu, s.rba, slot != NULL, q)
    case Reported(op, status) =>
      AddPublic(s0.log, s.log, Report(q.id, Handed(s.cycles[c].chain, op), status), u.callbacks,
          Callback(q.id, op, status));
      Rejoin(s0, Send(s, d, slot), Settle(s.peers[d].port, s.peers[d].mtu, s.time, slot != NULL, q, u));
    case Completed(_) =>
      AddPublic(s0.log, s.log, Report(q.id, At(s.cycles[c].chain, 0), Ok), u.callbacks, Callback(q.id, Some(0), Ok));
      Rejoin(s0, Send(s, d, slot), Settle(s.peers[d].port, s.peers[d].mtu, s.time, slot != NULL, q, u));
    case Awaiting(_) =>
      AddEntry(s0.queue, s.queue, Held(slot, c, Flight(s, c, d)), u.issued);
      Rejoin(s0, Send(s, d, slot), Settle(s.peers[d].port, s.peers[d].mtu, s.time, slot != NULL, q, u));
  }

  lemma AccountedParts(s: State, t: State, u: Tally)
    requires Accounted(s, t, u)
    ensures t.rba == u.rba && Entries(t.queue) == Entries(s.queue) + u.issued
         && Publics(t.log) == Publics(s.log) + Verdicts(u.callbacks)
  {
  }

  lemma Rejoin(s: State, t: State, u: Tally)
    requires t.rba == u.rba && Entries(t.queue) == Entries(s.queue) + u.issued
         && Publics(t.log) == Publics(s.log) + Verdicts(u.callbacks)
    ensures Accounted(s, t, u)
  {
  }

  /** The effect of a flush step on the log, the queue and the return address, by fate. */
  lemma SendCases(s: State, d: nat, slot: nat)
    requires Good(s) && d in s.peers && s.peers[d].ready != []
    ensures var c, t := Oldest(s, d), Send(s, d, slot);
            && c in s.cycles && Chained(s, c) && ReturnAddress(s.rba)
            && match FateOf(s.peers[d].port, s.peers[d].mtu, s.rba, slot != NULL, QueuedOf(s, c))
               case Reported(op, status) =>
                 && t.log == s.log + [Report(QueuedOf(s, c).id, Handed(s.cycles[c].chain, op), status)]
                 && t.queue == s.queue && t.rba == s.rba
               case Completed(_) =>
                 && t.log == s.log + [Report(QueuedOf(s, c).id, At(s.cycles[c].chain, 0), Ok)]
                 && t.queue == s.queue && t.rba == s.rba
               case Awaiting(_) =>
                 && t.log == s.log && t.queue == s.queue + [Held(slot, c, Flight(s, c, d))]
                 && t.rba == NextAddress(s.rba)
                 && Flight(s, c, d) == InFlight(QueuedOf(s, c).id, s.rba, Deadline(s.time),
                                                Start(QueuedOf(s, c).checked,
                                                    Ops(s.peers[d].port, QueuedOf(s, c).requests)))
  {
    hide Homes, Fates, Chains, InOrder, Apart, Listed, FateOf, Start, Ops, NextAddress;
    TakeGood(s, d);
    var c, t := Oldest(s, d), Take(s, d);
    GoodChained(s, c);
    GoodChained(t, c);
    TakenSame(s, d);
  }

  lemma TakenSame(s: State, d: nat)
    requires d in s.peers && s.peers[d].ready != [] && Chained(s, Oldest(s, d)) && Chained(Take(s, d), Oldest(s, d))
    ensures var c, t := Oldest(s, d), Take(s, d);
            && QueuedOf(t, c) == QueuedOf(s, c) && t.cycles[c].chain == s.cycles[c].chain
            && t.cycles[c].id == s.cycles[c].id
            && t.cycles[c].checked == s.cycles[c].checked
            && QueuedOf(s, c).id == s.cycles[c].id && QueuedOf(s, c).checked == s.cycles[c].checked
  {
  }

  lemma SettleCases(p: Port, mtu: nat, time: nat, alloc: bool, c: Queued, t: Tally)
    requires ReturnAddress(t.rba)
    ensures var u := Settle(p, mtu, time, alloc, c, t);
            match FateOf(p, mtu, t.rba, alloc, c)
            case Reported(op, status) =>
                u.rba == t.rba && u.issued == t.issued && u.callbacks == t.callbacks + [Callback(c.id, op, status)]
            case Completed(_) => u.rba == t.rba && u.issued == t.issued
                && u.callbacks == t.callbacks + [Callback(c.id, Some(0), Ok)]
            case Awaiting(_) =>
              && u.rba == NextAddress(t.rba) && u.callbacks == t.callbacks
              && u.issued == t.issued + [InFlight(c.id, t.rba, Deadline(time), Start(c.checked, Ops(p, c.requests)))]
  {
    hide FateOf, Start, Ops;
  }

  function Alloc(slots: nat -> nat): nat -> bool { (i: nat) => slots(i) != NULL }

  /** Flushing a device: settle its ready cycles, oldest first. `slots` gives the pool's answer when
      a cycle asks for a response. */
  ghost predicate CanFlush(s: State, d: nat, slots: nat -> nat)
    requires Sound(s) && d in s.peers
    decreases |s.peers[d].ready|
  {
    s.peers[d].ready == [] ||
    (assert Oldest(s, d) in s.cycles by { TakeGood(s, d); }
     var slot := slots(s.cycles[Oldest(s, d)].id);
     (slot == NULL || Unused(s, slot)) && (SendShape(s, d, slot); CanFlush(Send(s, d, slot), d, slots)))
  }

  ghost function FlushAll(s: State, d: nat, slots: nat -> nat): State
    requires Sound(s) && d in s.peers && CanFlush(s, d, slots)
    decreases |s.peers[d].ready|
  {
    if s.peers[d].ready == [] then s
    else
      assert Oldest(s, d) in s.cycles by { TakeGood(s, d); }
      var slot := slots(s.cycles[Oldest(s, d)].id);
      SendShape(s, d, slot);
      FlushAll(Send(s, d, slot), d, slots)
  }

  /** Flushing has exactly the effect that the send loop's account of the queue says. */
  lemma {:induction false} FlushIsAccount(s0: State, s: State, d: nat, slots: nat -> nat, u: Tally)
    requires Sound(s) && d in s.peers && CanFlush(s, d, slots) && Accounted(s0, s, u)
    ensures AllChained(s, s.peers[d].ready) && ReturnAddress(u.rba)
    ensures var t := FlushAll(s, d, slots);
            && Sound(t) && d in t.peers && t.peers[d].ready == []
            && Accounted(s0, t, Account(s.peers[d].port, s.peers[d].mtu, s.time, Alloc(slots),
                Backlog(s, s.peers[d].ready), u))
    decreases |s.peers[d].ready|
  {
    hide *;
    SoundIsGood(s);
    ReadyChained(s, d);
    RbaReturns(s0, s, u);
    FlushStep(s, d, slots);
    var p, mtu, ready := s.peers[d].port, s.peers[d].mtu, s.peers[d].ready;
    AccountStep(p, mtu, s.time, Alloc(slots), Backlog(s, ready), u);
    if ready != [] {
      var c := Oldest(s, d);
      var slot := slots(s.cycles[c].id);
      SendShape(s, d, slot);
      SendIsSettle(s0, s, d, slot, u);
      BacklogStep(s, d, slot);
      QueuedId(s, c);
      AllocIs(slots, s.cycles[c].id);
      var t, q := Send(s, d, slot), QueuedOf(s, c);
      assert Backlog(s, ready)[0] == q && Backlog(s, ready)[1..] == Backlog(t, t.peers[d].ready);
      FlushIsAccount(s0, t, d, slots, Settle(p, mtu, s.time, slot != NULL, q, u));
    }
  }

  lemma AllocIs(slots: nat -> nat, id: nat)
    ensures Alloc(slots)(id) == (slots(id) != NULL)
  {
  }

  lemma FlushStep(s: State, d: nat, slots: nat -> nat)
    requires Sound(s) && d in s.peers && CanFlush(s, d, slots)
    ensures if s.peers[d].ready == [] then FlushAll(s, d, slots) == s
            else
              && Oldest(s, d) in s.cycles && Good(s)
              && var slot := slots(s.cycles[Oldest(s, d)].id);
              && (slot == NULL || Unused(s, slot)) && Sound(Send(s, d, slot)) && d in Send(s, d, slot).peers
              && CanFlush(Send(s, d, slot), d, slots) && FlushAll(s, d, slots) == FlushAll(Send(s, d, slot), d, slots)
  {
    hide Sound, Send, Unused;
    SoundIsGood(s);
    if s.peers[d].ready != [] {
      TakeGood(s, d);
      SendShape(s, d, slots(s.cycles[Oldest(s, d)].id));
    }
  }

  lemma QueuedId(s: State, c: nat)
    requires Chained(s, c)
    ensures QueuedOf(s, c).id == s.cycles[c].id
  {
  }

  lemma RbaReturns(s0: State, s: State, u: Tally)
    requires Good(s) && Accounted(s0, s, u)
    ensures ReturnAddress(u.rba)
  {
  }

  /* ---------- what closing a device hands to the user ---------- */

  /** A cycle killed before it was sent is called back as timed out, and handed whatever its list
      head holds. */
  lemma KilledUnsent(s: State, d: nat, c: nat)
    requires Sound(s) && d in s.peers && s.peers[d].unready == 0 && c in s.peers[d].ready
    ensures c in s.cycles && Report(s.cycles[c].id, s.cycles[c].head, Timeout) in CloseDevice(s, d).0.log
  {
    hide *;
    SoundIsGood(s);
    NotPassive(s, d, c);
    CloseSteps(s, d);
    ReadyList(s, d);
    var w, ready := Withdraw(s, d), Reverse(s.peers[d].ready);
    var t := KillFlying(w, d);
    KilledParts(w, t, FlyingOf(w.cycles, d));
    WithdrawnCycle(s, d, c);
    KilledKeeps(w, t, FlyingOf(w.cycles, d), c);
    KillAllSound(t, ready);
    InKillings(t.cycles, ready, c);
    RemovedLog(KillAll(t, ready), d);
  }

  lemma NotPassive(s: State, d: nat, c: nat)
    requires Good(s) && d in s.peers && c in s.peers[d].ready
    ensures s.peers[d].tag != d && c in s.cycles
  {
    PassiveTag(s, d);
    assert PeerOk(d, s.peers[d], s.cycles, s.passive);
  }

  lemma WithdrawnCycle(s: State, d: nat, c: nat)
    requires d in s.peers && c in s.peers[d].ready && c in s.cycles
    ensures var w := Withdraw(s, d);
            c in w.cycles && c !in FlyingOf(w.cycles, d) && w.cycles[c].id == s.cycles[c].id
                && w.cycles[c].head == s.cycles[c].head
  {
  }

  lemma InKillings(cycles: map<nat, Cycle>, cs: seq<nat>, c: nat)
    requires c in cs && forall x :: x in cs ==> x in cycles
    ensures Report(cycles[c].id, cycles[c].head, Timeout) in Killings(cycles, cs)
  {
    var i :| 0 <= i < |cs| && cs[i] == c;
    assert Killings(cycles, cs)[i] == Report(cycles[c].id, cycles[c].head, Timeout);
  }

  lemma RemovedLog(s: State, d: nat)
    ensures RemovePeer(s, d).log == s.log
  {
  }

  /** So the user is handed one of the cycle's operations, or the null index for an empty cycle,
      exactly when the cycle had not run out of memory; one that had is handed its own index,
      which is no operation at all. */
  lemma HandedByClose(s: State, d: nat, c: nat)
    requires Sound(s) && d in s.peers && s.peers[d].unready == 0 && c in s.peers[d].ready
    ensures c in s.cycles
    ensures exists h :: Report(s.cycles[c].id, h, Timeout) in CloseDevice(s, d).0.log
                  && ((h == NULL || h in s.ops) <==> s.cycles[c].id !in s.dead) && (s.cycles[c].id in s.dead ==> h == c)
  {
    hide *;
    SoundIsGood(s);
    KilledUnsent(s, d, c);
    HeadNoOp(s, c);
    var h := s.cycles[c].head;
    assert Report(s.cycles[c].id, h, Timeout) in CloseDevice(s, d).0.log;
  }

  lemma HeadNoOp(s: State, c: nat)
    requires Good(s) && c in s.cycles
    ensures (s.cycles[c].head == NULL || s.cycles[c].head in s.ops) <==> s.cycles[c].id !in s.dead
    ensures s.cycles[c].id in s.dead ==> s.cycles[c].head == c
  {
    DeadTag(s, c);
    assert c !in s.ops.Keys;
    assert c in s.cycles.Keys && c != NULL;
  }

  /* ---------- killing in the queue and in the protocol ---------- */

  function Mine(cycles: map<nat, Cycle>, d: nat): Held -> bool {
    (h: Held) => h.cycle in cycles && cycles[h.cycle].device == d
  }

  function Others(cycles: map<nat, Cycle>, d: nat): Held -> bool {
    (h: Held) => !(h.cycle in cycles && cycles[h.cycle].device == d)
  }

  lemma {:induction false} SelectSame(q: seq<Held>, f: Held -> bool, g: Held -> bool)
    requires forall h :: h in q ==> f(h) == g(h)
    ensures Select(q, f) == Select(q, g)
  {
    if q != [] {
      assert q[0] in q;
      SelectSame(q[1..], f, g);
    }
  }

  /** Taking out the first element of a selection. */
  lemma SelectFirstOut(q: seq<Held>, k: nat, f: Held -> bool, g: Held -> bool)
    requires k < |q| && f(q[k]) && (forall j :: 0 <= j < k ==> !f(q[j])) && !g(q[k])
    ensures Select(q, f) == [q[k]] + Select(LeftOut(q, k), f) && Select(q, g) == Select(LeftOut(q, k), g)
  {
    hide Select, LeftOut;
    Around(q, k);
    SelectFirstOf(q[..k], q[k], q[k + 1..], f, g);
  }

  lemma SelectFirstOf(a: seq<Held>, x: Held, b: seq<Held>, f: Held -> bool, g: Held -> bool)
    requires f(x) && !g(x) && forall h :: h in a ==> !f(h)
    ensures Select(a + ([x] + b), f) == [x] + Select(a + b, f) && Select(a + ([x] + b), g) == Select(a + b, g)
  {
    hide Select;
    SelectNone(a, f);
    SelectAround(a, x, b, f);
    SelectAround(a, x, b, g);
    assert [] + Select(b, f) == Select(b, f);
    assert [] + ([x] + Select(b, f)) == [x] + Select(b, f);
  }

  /** Killing takes exactly the device's responses out of the queue, calls them back oldest first,
      and keeps the order of the others. */
  lemma {:induction false} KillFlyingSelects(s: State, d: nat)
    requires Good(s)
    ensures var t := KillFlying(s, d);
            && t.queue == Select(s.queue, Others(s.cycles, d))
            && Publics(t.log) == Publics(s.log) + TimedOut(Select(s.queue, Mine(s.cycles, d)))
    decreases |s.queue|
  {
    hide *;
    var k := FirstOf(s.queue, s.cycles, d);
    KillFlyingStep(s, d);
    if k == |s.queue| {
      NothingMine(s.queue, s.cycles, d);
      NoneTimedOut(s.log);
    } else {
      KilledOne(s, d);
      FinishSound(s, k, Timeout);
      var h, u := s.queue[k], Finish(s, k, Timeout);
      KillFlyingSelects(u, d);
      OwnersSame(s, k, d);
      FirstMine(s.queue, s.cycles, d);
      OneTimedOut(s.log, h, s.cycles[h.cycle].head, Select(u.queue, Mine(u.cycles, d)));
    }
  }

  function TimedOut(q: seq<Held>): (r: seq<Public>)
    ensures |r| == |q| && forall k :: 0 <= k < |q| ==> r[k] == Public(q[k].entry.id, Timeout)
  {
    seq(|q|, k requires 0 <= k < |q| => Public(q[k].entry.id, Timeout))
  }

  lemma NoneTimedOut(log: seq<Report>)
    ensures Publics(log) + TimedOut([]) == Publics(log)
  {
  }

  lemma OneTimedOut(log: seq<Report>, h: Held, handed: nat, rest: seq<Held>)
    ensures Publics(log + [Report(h.entry.id, handed, Timeout)]) + TimedOut(rest) == Publics(log) + TimedOut([h] + rest)
  {
  }

  lemma NothingMine(queue: seq<Held>, cycles: map<nat, Cycle>, d: nat)
    requires FirstOf(queue, cycles, d) == |queue|
    ensures Select(queue, Mine(cycles, d)) == [] && Select(queue, Others(cycles, d)) == queue
  {
    forall h | h in queue ensures !Mine(cycles, d)(h) {
      var k :| 0 <= k < |queue| && queue[k] == h;
    }
    SelectNone(queue, Mine(cycles, d));
    SelectAll(queue, Others(cycles, d));
  }

  lemma FirstMine(queue: seq<Held>, cycles: map<nat, Cycle>, d: nat)
    requires FirstOf(queue, cycles, d) < |queue|
    ensures var k := FirstOf(queue, cycles, d);
            && Select(queue, Mine(cycles, d)) == [queue[k]] + Select(LeftOut(queue, k), Mine(cycles, d))
            && Select(queue, Others(cycles, d)) == Select(LeftOut(queue, k), Others(cycles, d))
  {
    SelectFirstOut(queue, FirstOf(queue, cycles, d), Mine(cycles, d), Others(cycles, d));
  }

  lemma OwnersSame(s: State, k: nat, d: nat)
    requires Good(s) && k < |s.queue|
    ensures var u := Finish(s, k, Timeout);
            && Select(u.queue, Mine(u.cycles, d)) == Select(LeftOut(s.queue, k), Mine(s.cycles, d))
            && Select(u.queue, Others(u.cycles, d)) == Select(LeftOut(s.queue, k), Others(s.cycles, d))
  {
    hide Homes, Fates, Chains, Apart, Listed;
    FinishSound(s, k, Timeout);
    var u, q := Finish(s, k, Timeout), LeftOut(s.queue, k);
    hide Finish;
    forall h | h in q ensures Mine(u.cycles, d)(h) == Mine(s.cycles, d)(h) {
      var j :| 0 <= j < |q| && q[j] == h;
      assert q[j] == s.queue[if j < k then j else j + 1];
    }
    SelectSame(q, Mine(u.cycles, d), Mine(s.cycles, d));
    SelectSame(q, Others(u.cycles, d), Others(s.cycles, d));
  }
}
