/** The life of cycles: opened, filled, closed or aborted, sent, answered, expired or killed. All
    records share the pool's index space; the source's unions are modelled by the raw index they
    hold (`head`, `tag`). */
module Lifecycle {
  import opened Format
  import opened Lists
  import opened Master
  import opened ReadWrite
  import opened Flush

  /** Where a cycle is: being filled by the user, in its device's ready list, awaiting a reply, or
      in the hands of the operation that is moving it. */
  datatype Stage = Filling | Ready | Flying | Limbo

  datatype Operation = Operation(owner: nat, request: Request)

  /** `head` is the union of the first operation and the out-of-memory mark; `id` stands for the
      user's callback. */
  datatype Cycle = Cycle(id: nat, head: nat, chain: seq<nat>, device: nat, stage: Stage, checked: bool)

  /** `tag` is the union of the ready list and the passive mark. */
  datatype Peer = Peer(tag: nat, ready: seq<nat>, unready: nat, port: Port, mtu: nat)

  /** A callback: which cycle, the operation handed to the user (an index), and the status. */
  datatype Report = Report(id: nat, handed: nat, status: Status)

  /** A response in flight: its own record, its cycle's, and its contents. */
  datatype Held = Held(slot: nat, cycle: nat, entry: InFlight)

  /** The records in the pool by kind, the list of open devices, the responses in flight, and the
      callbacks made. `count` numbers the cycles ever opened; `aborted` and `dead` are the ids of
      those aborted and those that ran out of memory; `passive` devices accept no cycles. */
  datatype State = State(
    cycles: map<nat, Cycle>, ops: map<nat, Operation>, responses: map<nat, nat>, peers: map<nat, Peer>,
    devices: seq<nat>, queue: seq<Held>, rba: nat, time: nat,
    log: seq<Report>, count: nat, aborted: set<nat>, dead: set<nat>, passive: set<nat>)

  /* ---------- the invariant, aspect by aspect ---------- */

  /** Every index is in use once, and the null index not at all. */
  predicate Apart(s: State) {
    && s.cycles.Keys !! s.ops.Keys !! s.responses.Keys !! s.peers.Keys
    && NULL !in s.cycles && NULL !in s.ops && NULL !in s.responses && NULL !in s.peers
  }

  predicate Unused(s: State, x: nat) {
    x != NULL && x !in s.cycles && x !in s.ops && x !in s.responses && x !in s.peers
  }

  predicate ChainOk(c: nat, cyc: Cycle, ops: map<nat, Operation>, dead: set<nat>) {
    && cyc.head == (if cyc.id in dead then c else At(cyc.chain, 0))
    && (cyc.id in dead ==> cyc.chain == [])
    && Distinct(cyc.chain)
    && forall i :: 0 <= i < |cyc.chain| ==> cyc.chain[i] in ops && ops[cyc.chain[i]].owner == c
  }

  /** Operations and the cycles that list them correspond: none leaks, none is shared. */
  ghost predicate Chains(cycles: map<nat, Cycle>, ops: map<nat, Operation>, dead: set<nat>) {
    && (forall c :: c in cycles ==> ChainOk(c, cycles[c], ops, dead))
    && (forall x :: x in ops ==> ops[x].owner in cycles && x in cycles[ops[x].owner].chain)
  }

  predicate HeldOk(h: Held, responses: map<nat, nat>, cycles: map<nat, Cycle>) {
    && h.slot in responses && responses[h.slot] == h.cycle
    && h.cycle in cycles && cycles[h.cycle].stage == Flying && h.entry.id == cycles[h.cycle].id
    && Cursors(h.entry.response)
  }

  predicate HasSlot(queue: seq<Held>, x: nat) { exists k :: 0 <= k < |queue| && queue[k].slot == x }

  predicate HasCycle(queue: seq<Held>, c: nat) { exists k :: 0 <= k < |queue| && queue[k].cycle == c }

  /** Responses in flight and the cycles awaiting them correspond one to one. */
  ghost predicate InOrder(queue: seq<Held>, responses: map<nat, nat>, cycles: map<nat, Cycle>) {
    && (forall k :: 0 <= k < |queue| ==> HeldOk(queue[k], responses, cycles))
    && (forall j, k :: 0 <= j < k < |queue| ==> queue[j].slot != queue[k].slot && queue[j].cycle != queue[k].cycle)
    && (forall x :: x in responses ==> HasSlot(queue, x))
    && (forall c :: c in cycles && cycles[c].stage == Flying ==> HasCycle(queue, c))
  }

  /** The cycles of a device that the user is filling. */
  function FillingOf(cycles: map<nat, Cycle>, d: nat): set<nat> {
    set c | c in cycles && cycles[c].stage == Filling && cycles[c].device == d
  }

  predicate PeerOk(d: nat, dev: Peer, cycles: map<nat, Cycle>, passive: set<nat>) {
    && dev.tag == (if d in passive then d else At(dev.ready, 0))
    && (d in passive ==> dev.ready == [])
    && Distinct(dev.ready)
    && (forall i :: 0 <= i < |dev.ready| ==>
          dev.ready[i] in cycles && cycles[dev.ready[i]].stage == Ready && cycles[dev.ready[i]].device == d)
    && dev.unready == |FillingOf(cycles, d)|
  }

  predicate Homed(c: nat, cyc: Cycle, peers: map<nat, Peer>, passive: set<nat>) {
    && cyc.device in peers
    && (cyc.device in passive ==> cyc.stage == Limbo || cyc.stage == Flying)
    && (cyc.stage == Ready ==> c in peers[cyc.device].ready)
  }

  /** Cycles belong to open devices and are in the list their stage says. */
  ghost predicate Homes(peers: map<nat, Peer>, cycles: map<nat, Cycle>, passive: set<nat>) {
    && (forall d :: d in peers ==> PeerOk(d, peers[d], cycles, passive))
    && (forall c :: c in cycles ==> Homed(c, cycles[c], peers, passive))
  }

  predicate CalledBack(log: seq<Report>, id: nat) { exists k :: 0 <= k < |log| && log[k].id == id }

  ghost predicate Alive(cycles: map<nat, Cycle>, id: nat) { exists c :: c in cycles && cycles[c].id == id }

  /** Every cycle ever opened is alive, has been called back once, or was aborted: exactly one of
      the three. */
  ghost predicate Fates(cycles: map<nat, Cycle>, log: seq<Report>, count: nat, aborted: set<nat>, dead: set<nat>) {
    && (forall c :: c in cycles ==> cycles[c].id < count && !CalledBack(log, cycles[c].id) && cycles[c].id !in aborted)
    && (forall c, e :: c in cycles && e in cycles && c != e ==> cycles[c].id != cycles[e].id)
    && (forall j, k :: 0 <= j < k < |log| ==> log[j].id != log[k].id)
    && (forall k :: 0 <= k < |log| ==> log[k].id < count && log[k].id !in aborted)
    && (forall id: nat :: id < count ==> Alive(cycles, id) || CalledBack(log, id) || id in aborted)
    && (forall id :: id in dead || id in aborted ==> id < count)
  }

  predicate Listed(devices: seq<nat>, peers: map<nat, Peer>) {
    Distinct(devices) && (forall d :: d in devices ==> d in peers) && (forall d :: d in peers ==> d in devices)
  }

  ghost predicate Good(s: State) {
    && Apart(s) && Listed(s.devices, s.peers) && ReturnAddress(s.rba)
    && Chains(s.cycles, s.ops, s.dead) && InOrder(s.queue, s.responses, s.cycles)
    && Homes(s.peers, s.cycles, s.passive) && Fates(s.cycles, s.log, s.count, s.aborted, s.dead)
  }

  /** Between operations no cycle is in limbo. */
  ghost predicate Settled(s: State) {
    forall c :: c in s.cycles ==> s.cycles[c].stage != Limbo
  }

  /* ---------- what each aspect depends on ---------- */

  lemma KeepChains(a: map<nat, Cycle>, b: map<nat, Cycle>, ops: map<nat, Operation>, dead: set<nat>)
    requires Chains(a, ops, dead) && a.Keys == b.Keys
    requires forall c :: c in a ==> b[c].id == a[c].id && b[c].head == a[c].head && b[c].chain == a[c].chain
    ensures Chains(b, ops, dead)
  {
    forall c | c in b ensures ChainOk(c, b[c], ops, dead) { assert ChainOk(c, a[c], ops, dead); }
  }

  lemma KeepOrder(a: map<nat, Cycle>, b: map<nat, Cycle>, queue: seq<Held>, responses: map<nat, nat>)
    requires InOrder(queue, responses, a)
    requires forall c :: c in a && a[c].stage == Flying ==> c in b && b[c].stage == Flying && b[c].id == a[c].id
    requires forall c :: c in b && b[c].stage == Flying ==> c in a && a[c].stage == Flying
    ensures InOrder(queue, responses, b)
  {
    forall k | 0 <= k < |queue| ensures HeldOk(queue[k], responses, b) { assert HeldOk(queue[k], responses, a); }
  }

  lemma KeepHomes(a: map<nat, Cycle>, b: map<nat, Cycle>, peers: map<nat, Peer>, passive: set<nat>)
    requires Homes(peers, a, passive) && a.Keys == b.Keys
    requires forall c :: c in a ==> b[c].device == a[c].device && b[c].stage == a[c].stage
    ensures Homes(peers, b, passive)
  {
    forall d | d in peers ensures PeerOk(d, peers[d], b, passive) {
      assert PeerOk(d, peers[d], a, passive);
      assert FillingOf(b, d) == FillingOf(a, d);
    }
    forall c | c in b ensures Homed(c, b[c], peers, passive) { assert Homed(c, a[c], peers, passive); }
  }

  lemma KeepFates(a: map<nat, Cycle>, b: map<nat, Cycle>, log: seq<Report>, count: nat, aborted: set<nat>,
                  dead: set<nat>)
    requires Fates(a, log, count, aborted, dead) && a.Keys == b.Keys
    requires forall c :: c in a ==> b[c].id == a[c].id
    ensures Fates(b, log, count, aborted, dead)
  {
    forall id: nat | id < count ensures Alive(b, id) || CalledBack(log, id) || id in aborted {
      if Alive(a, id) {
        var c :| c in a && a[c].id == id;
        assert b[c].id == id;
      }
    }
  }

  /* ---------- moving a cycle from one place to another ---------- */

  function Restaged(cycles: map<nat, Cycle>, c: nat, stage: Stage): map<nat, Cycle>
    requires c in cycles
  {
    cycles[c := cycles[c].(stage := stage)]
  }

  lemma RestagedKeeps(cycles: map<nat, Cycle>, c: nat, stage: Stage, ops: map<nat, Operation>, dead: set<nat>,
                      log: seq<Report>, count: nat, aborted: set<nat>)
    requires c in cycles && Chains(cycles, ops, dead) && Fates(cycles, log, count, aborted, dead)
    ensures Chains(Restaged(cycles, c, stage), ops, dead)
    ensures Fates(Restaged(cycles, c, stage), log, count, aborted, dead)
    ensures Restaged(cycles, c, stage).Keys == cycles.Keys
  {
    var b := Restaged(cycles, c, stage);
    assert b.Keys == cycles.Keys;
    KeepChains(cycles, b, ops, dead);
    KeepFates(cycles, b, log, count, aborted, dead);
  }

  lemma OtherPeers(peers: map<nat, Peer>, a: map<nat, Cycle>, b: map<nat, Cycle>, passive: set<nat>, c: nat, d: nat)
    requires Homes(peers, a, passive) && c in a && a[c].device == d
    requires forall x :: x != c ==> (x in a <==> x in b)
    requires forall x :: x in a && x != c ==> x in b && b[x].device == a[x].device && b[x].stage == a[x].stage
    requires c in b ==> b[c].device == d
    ensures forall e :: e in peers && e != d ==> PeerOk(e, peers[e], b, passive)
  {
    forall e | e in peers && e != d ensures PeerOk(e, peers[e], b, passive) {
      assert PeerOk(e, peers[e], a, passive);
      FillingElsewhere(a, b, c, d, e);
      SamePeer(e, peers[e], a, b, passive, c);
    }
  }

  lemma FillingElsewhere(a: map<nat, Cycle>, b: map<nat, Cycle>, c: nat, d: nat, e: nat)
    requires c in a && a[c].device == d && e != d && (c in b ==> b[c].device == d)
    requires forall x :: x != c ==> (x in a <==> x in b)
    requires forall x :: x in a && x != c ==> x in b && b[x].device == a[x].device && b[x].stage == a[x].stage
    ensures FillingOf(b, e) == FillingOf(a, e)
  {
  }

  /** A device whose own cycles are as they were. */
  lemma SamePeer(e: nat, dev: Peer, a: map<nat, Cycle>, b: map<nat, Cycle>, passive: set<nat>, c: nat)
    requires PeerOk(e, dev, a, passive) && FillingOf(b, e) == FillingOf(a, e)
    requires c in a && (a[c].device != e || a[c].stage != Ready)
    requires forall x :: x in a && x != c ==> x in b && b[x].device == a[x].device && b[x].stage == a[x].stage
    ensures PeerOk(e, dev, b, passive)
  {
    hide FillingOf;
  }

  /** Changing one cycle and its device. */
  lemma HomesFrom(peers: map<nat, Peer>, dev: Peer, cycles: map<nat, Cycle>, stage: Stage, passive: set<nat>, c: nat,
                  d: nat)
    requires Homes(peers, cycles, passive) && c in cycles && cycles[c].device == d && d in peers
    requires PeerOk(d, dev, Restaged(cycles, c, stage), passive)
    requires Homed(c, cycles[c].(stage := stage), peers[d := dev], passive)
    requires forall x :: x in peers[d].ready && x != c ==> x in dev.ready
    ensures Homes(peers[d := dev], Restaged(cycles, c, stage), passive)
  {
    var b, next := Restaged(cycles, c, stage), peers[d := dev];
    OtherPeers(peers, cycles, b, passive, c, d);
    hide PeerOk;
    assert forall e :: e in next ==> PeerOk(e, next[e], b, passive);
    forall x | x in b ensures Homed(x, b[x], next, passive) {
      if x != c { assert Homed(x, cycles[x], peers, passive); }
    }
  }

  /** The user starts to fill a cycle. */
  lemma HomesFill(peers: map<nat, Peer>, cycles: map<nat, Cycle>, passive: set<nat>, c: nat, d: nat)
    requires Homes(peers, cycles, passive) && c in cycles && cycles[c].stage == Limbo && cycles[c].device == d
         && d !in passive
    ensures d in peers
    ensures Homes(peers[d := peers[d].(unready := peers[d].unready + 1)], Restaged(cycles, c, Filling), passive)
  {
    assert Homed(c, cycles[c], peers, passive);
    assert PeerOk(d, peers[d], cycles, passive);
    FillingMoved(cycles, c, d);
    hide Homes, FillingOf;
    HomesFrom(peers, peers[d].(unready := peers[d].unready + 1), cycles, Filling, passive, c, d);
  }

  /** The user is done filling it. */
  lemma HomesUnfill(peers: map<nat, Peer>, cycles: map<nat, Cycle>, passive: set<nat>, c: nat, d: nat)
    requires Homes(peers, cycles, passive) && c in cycles && cycles[c].stage == Filling && cycles[c].device == d
    ensures d in peers && d !in passive && peers[d].unready > 0
    ensures Homes(peers[d := peers[d].(unready := peers[d].unready - 1)], Restaged(cycles, c, Limbo), passive)
  {
    assert Homed(c, cycles[c], peers, passive);
    assert PeerOk(d, peers[d], cycles, passive);
    FillingMoved(cycles, c, d);
    hide Homes, FillingOf;
    HomesFrom(peers, peers[d].(unready := peers[d].unready - 1), cycles, Limbo, passive, c, d);
  }

  /** A closed cycle goes in front of the ready list. */
  lemma HomesReady(peers: map<nat, Peer>, cycles: map<nat, Cycle>, passive: set<nat>, c: nat, d: nat)
    requires Homes(peers, cycles, passive) && c in cycles && cycles[c].stage == Limbo && cycles[c].device == d
         && d !in passive
    ensures d in peers && c !in peers[d].ready
    ensures Homes(peers[d := peers[d].(tag := c, ready := [c] + peers[d].ready)], Restaged(cycles, c, Ready), passive)
  {
    assert Homed(c, cycles[c], peers, passive);
    assert PeerOk(d, peers[d], cycles, passive);
    var b, ready := Restaged(cycles, c, Ready), [c] + peers[d].ready;
    FillingKept(cycles, c, Ready);
    hide FillingOf;
    assert ready[0] == c && forall i :: 0 < i < |ready| ==> ready[i] == peers[d].ready[i - 1];
    assert forall x :: x in peers[d].ready ==> x in ready;
    hide Homes;
    HomesFrom(peers, peers[d].(tag := c, ready := ready), cycles, Ready, passive, c, d);
  }

  /** The oldest ready cycle is taken out. */
  lemma HomesTake(peers: map<nat, Peer>, cycles: map<nat, Cycle>, passive: set<nat>, d: nat)
    requires Homes(peers, cycles, passive) && d in peers && peers[d].ready != []
    ensures var n := |peers[d].ready| - 1;
            var c, rest := peers[d].ready[n], peers[d].ready[..n];
            && c in cycles && cycles[c].stage == Ready && cycles[c].device == d && d !in passive
            && Homes(peers[d := peers[d].(tag := At(rest, 0), ready := rest)], Restaged(cycles, c, Limbo), passive)
  {
    var n := |peers[d].ready| - 1;
    var c, rest := peers[d].ready[n], peers[d].ready[..n];
    assert PeerOk(d, peers[d], cycles, passive);
    assert Homed(c, cycles[c], peers, passive);
    FillingKept(cycles, c, Limbo);
    hide Homes, FillingOf;
    assert peers[d].ready == rest + [c];
    HomesFrom(peers, peers[d].(tag := At(rest, 0), ready := rest), cycles, Limbo, passive, c, d);
  }

  /** Going on a flight and coming back do not concern the device. */
  lemma HomesFly(peers: map<nat, Peer>, cycles: map<nat, Cycle>, passive: set<nat>, c: nat, stage: Stage)
    requires Homes(peers, cycles, passive) && c in cycles
    requires cycles[c].stage == Limbo || cycles[c].stage == Flying
    requires stage == Limbo || stage == Flying
    ensures Homes(peers, Restaged(cycles, c, stage), passive)
  {
    var b := Restaged(cycles, c, stage);
    FillingKept(cycles, c, stage);
    hide FillingOf;
    forall e | e in peers ensures PeerOk(e, peers[e], b, passive) {
      assert PeerOk(e, peers[e], cycles, passive);
      SamePeer(e, peers[e], cycles, b, passive, c);
    }
    hide PeerOk;
    forall x | x in b ensures Homed(x, b[x], peers, passive) { assert Homed(x, cycles[x], peers, passive); }
  }

  /** Only filling and its end change what a device counts as being filled. */
  lemma FillingKept(cycles: map<nat, Cycle>, c: nat, stage: Stage)
    requires c in cycles && cycles[c].stage != Filling && stage != Filling
    ensures forall e :: FillingOf(Restaged(cycles, c, stage), e) == FillingOf(cycles, e)
  {
    forall e ensures FillingOf(Restaged(cycles, c, stage), e) == FillingOf(cycles, e) { }
  }

  lemma FillingMoved(cycles: map<nat, Cycle>, c: nat, d: nat)
    requires c in cycles && cycles[c].device == d
    ensures FillingOf(Restaged(cycles, c, Filling), d) == FillingOf(cycles, d) + {c}
    ensures forall stage :: stage != Filling ==> FillingOf(Restaged(cycles, c, stage), d) == FillingOf(cycles, d) - {c}
    ensures c in FillingOf(cycles, d) <==> cycles[c].stage == Filling
    ensures c in FillingOf(cycles, d) ==> |FillingOf(cycles, d)| == |FillingOf(cycles, d) - {c}| + 1
  {
    forall stage | stage != Filling ensures FillingOf(Restaged(cycles, c, stage), d) == FillingOf(cycles, d) - {c} { }
  }

  /** A cycle in limbo is forgotten. */
  lemma HomesDrop(peers: map<nat, Peer>, cycles: map<nat, Cycle>, passive: set<nat>, c: nat)
    requires Homes(peers, cycles, passive) && c in cycles && cycles[c].stage == Limbo
    ensures Homes(peers, cycles - {c}, passive)
  {
    var b := cycles - {c};
    forall e | e in peers ensures PeerOk(e, peers[e], b, passive) {
      assert PeerOk(e, peers[e], cycles, passive);
      assert FillingOf(b, e) == FillingOf(cycles, e);
    }
    forall x | x in b ensures Homed(x, b[x], peers, passive) { assert Homed(x, cycles[x], peers, passive); }
  }

  lemma HomesBorn(peers: map<nat, Peer>, cycles: map<nat, Cycle>, passive: set<nat>, c: nat, cyc: Cycle)
    requires Homes(peers, cycles, passive) && c !in cycles && cyc.stage == Limbo && cyc.device in peers
    ensures Homes(peers, cycles[c := cyc], passive)
  {
    var b := cycles[c := cyc];
    forall e | e in peers ensures PeerOk(e, peers[e], b, passive) {
      assert PeerOk(e, peers[e], cycles, passive);
      assert FillingOf(b, e) == FillingOf(cycles, e);
    }
    forall x | x in b ensures Homed(x, b[x], peers, passive) {
        if x != c { assert Homed(x, cycles[x], peers, passive); } }
  }

  /** A response is queued for a cycle. */
  lemma OrderLaunch(queue: seq<Held>, responses: map<nat, nat>, cycles: map<nat, Cycle>, h: Held)
    requires InOrder(queue, responses, cycles) && h.cycle in cycles && cycles[h.cycle].stage == Limbo
    requires h.slot !in responses && h.entry.id == cycles[h.cycle].id && Cursors(h.entry.response)
    ensures InOrder(queue + [h], responses[h.slot := h.cycle], Restaged(cycles, h.cycle, Flying))
  {
    var q, r, b := queue + [h], responses[h.slot := h.cycle], Restaged(cycles, h.cycle, Flying);
    hide HasSlot, HasCycle;
    forall k | 0 <= k < |q| ensures HeldOk(q[k], r, b) {
      if k < |queue| { assert HeldOk(queue[k], responses, cycles); }
    }
    forall j, k | 0 <= j < k < |q| ensures q[j].slot != q[k].slot && q[j].cycle != q[k].cycle {
      if k == |queue| { assert HeldOk(queue[j], responses, cycles); }
    }
    HasMore(queue, h);
  }

  lemma HasMore(queue: seq<Held>, h: Held)
    ensures forall x :: HasSlot(queue + [h], x) <==> HasSlot(queue, x) || x == h.slot
    ensures forall c :: HasCycle(queue + [h], c) <==> HasCycle(queue, c) || c == h.cycle
  {
    var q := queue + [h];
    assert q[|queue|] == h;
    forall x ensures HasSlot(queue, x) ==> HasSlot(q, x) {
      if HasSlot(queue, x) { var k :| 0 <= k < |queue| && queue[k].slot == x; assert q[k].slot == x; }
    }
    forall c ensures HasCycle(queue, c) ==> HasCycle(q, c) {
      if HasCycle(queue, c) { var k :| 0 <= k < |queue| && queue[k].cycle == c; assert q[k].cycle == c; }
    }
  }

  lemma HasFewer(queue: seq<Held>, k: nat)
    requires k < |queue|
    ensures forall x :: HasSlot(queue, x) && x != queue[k].slot ==> HasSlot(LeftOut(queue, k), x)
    ensures forall c :: HasCycle(queue, c) && c != queue[k].cycle ==> HasCycle(LeftOut(queue, k), c)
  {
    var q := LeftOut(queue, k);
    forall x | HasSlot(queue, x) && x != queue[k].slot ensures HasSlot(q, x) {
      var j :| 0 <= j < |queue| && queue[j].slot == x;
      assert q[if j < k then j else j - 1].slot == x;
    }
    forall c | HasCycle(queue, c) && c != queue[k].cycle ensures HasCycle(q, c) {
      var j :| 0 <= j < |queue| && queue[j].cycle == c;
      assert q[if j < k then j else j - 1].cycle == c;
    }
  }

  lemma HasSame(queue: seq<Held>, k: nat, r: Response)
    requires k < |queue|
    ensures var q := queue[k := queue[k].(entry := queue[k].entry.(response := r))];
            (forall x :: HasSlot(queue, x) ==> HasSlot(q, x)) && (forall c :: HasCycle(queue, c) ==> HasCycle(q, c))
  {
    var q := queue[k := queue[k].(entry := queue[k].entry.(response := r))];
    forall x | HasSlot(queue, x) ensures HasSlot(q, x) {
      var j :| 0 <= j < |queue| && queue[j].slot == x;
      assert q[j].slot == x;
    }
    forall c | HasCycle(queue, c) ensures HasCycle(q, c) {
      var j :| 0 <= j < |queue| && queue[j].cycle == c;
      assert q[j].cycle == c;
    }
  }

  lemma StillHeld(queue: seq<Held>, responses: map<nat, nat>, cycles: map<nat, Cycle>, k: nat)
    requires InOrder(queue, responses, cycles) && k < |queue|
    ensures queue[k].cycle in cycles && cycles[queue[k].cycle].stage == Flying && queue[k].slot in responses
    ensures var q, r, b := LeftOut(queue, k), responses - {queue[k].slot}, Restaged(cycles, queue[k].cycle, Limbo);
            && (forall i :: 0 <= i < |q| ==> HeldOk(q[i], r, b))
            && forall i, j :: 0 <= i < j < |q| ==> q[i].slot != q[j].slot && q[i].cycle != q[j].cycle
  {
    assert HeldOk(queue[k], responses, cycles);
    var q, r, b := LeftOut(queue, k), responses - {queue[k].slot}, Restaged(cycles, queue[k].cycle, Limbo);
    hide HasSlot, HasCycle, LeftOut;
    forall i | 0 <= i < |q| ensures HeldOk(q[i], r, b) {
      var j := if i < k then i else i + 1;
      assert HeldOk(queue[j], responses, cycles);
    }
  }

  /** A response leaves the queue. */
  lemma OrderLand(queue: seq<Held>, responses: map<nat, nat>, cycles: map<nat, Cycle>, k: nat)
    requires InOrder(queue, responses, cycles) && k < |queue|
    ensures queue[k].cycle in cycles && cycles[queue[k].cycle].stage == Flying && queue[k].slot in responses
    ensures InOrder(LeftOut(queue, k), responses - {queue[k].slot}, Restaged(cycles, queue[k].cycle, Limbo))
  {
    StillHeld(queue, responses, cycles, k);
    HasFewer(queue, k);
    hide HasSlot, HasCycle, LeftOut, HeldOk;
  }

  /** A response makes progress. */
  lemma OrderUpdate(queue: seq<Held>, responses: map<nat, nat>, cycles: map<nat, Cycle>, k: nat, r: Response)
    requires InOrder(queue, responses, cycles) && k < |queue| && Cursors(r)
    ensures InOrder(queue[k := queue[k].(entry := queue[k].entry.(response := r))], responses, cycles)
  {
    hide HasSlot, HasCycle, HeldOk;
    HasSame(queue, k, r);
    UpdatedHeld(queue[k], r, responses, cycles);
  }

  lemma UpdatedHeld(h: Held, r: Response, responses: map<nat, nat>, cycles: map<nat, Cycle>)
    requires HeldOk(h, responses, cycles) && Cursors(r)
    ensures HeldOk(h.(entry := h.entry.(response := r)), responses, cycles)
  {
  }

  /* ---------- operation lists ---------- */

  lemma ChainsBorn(cycles: map<nat, Cycle>, ops: map<nat, Operation>, dead: set<nat>, c: nat, cyc: Cycle)
    requires Chains(cycles, ops, dead) && c !in cycles && cyc.head == NULL && cyc.chain == [] && cyc.id !in dead
    ensures Chains(cycles[c := cyc], ops, dead)
  {
    var b := cycles[c := cyc];
    forall x | x in b ensures ChainOk(x, b[x], ops, dead) { if x != c { assert ChainOk(x, cycles[x], ops, dead); } }
  }

  lemma ChainsPush(cycles: map<nat, Cycle>, ops: map<nat, Operation>, dead: set<nat>, c: nat, x: nat, request: Request)
    requires Chains(cycles, ops, dead) && c in cycles && cycles[c].id !in dead && x !in ops
    ensures Chains(cycles[c := cycles[c].(head := x, chain := [x] + cycles[c].chain)], ops[x := Operation(c, request)],
            dead)
  {
    var chain := [x] + cycles[c].chain;
    var b, o := cycles[c := cycles[c].(head := x, chain := chain)], ops[x := Operation(c, request)];
    assert ChainOk(c, cycles[c], ops, dead);
    assert forall i :: 0 < i < |chain| ==> chain[i] == cycles[c].chain[i - 1];
    forall e | e in b ensures ChainOk(e, b[e], o, dead) { assert ChainOk(e, cycles[e], ops, dead); }
    forall y | y in o ensures o[y].owner in b && y in b[o[y].owner].chain {
      if y == x { assert chain[0] == x; } else if o[y].owner == c { assert y in cycles[c].chain; }
    }
  }

  lemma ChainsTurn(cycles: map<nat, Cycle>, ops: map<nat, Operation>, dead: set<nat>, c: nat, checked: bool)
    requires Chains(cycles, ops, dead) && c in cycles && cycles[c].id !in dead
    ensures var chain := Reverse(cycles[c].chain);
            Chains(cycles[c := cycles[c].(head := At(chain, 0), chain := chain, checked := checked)], ops, dead)
  {
    var old_, chain := cycles[c].chain, Reverse(cycles[c].chain);
    var b := cycles[c := cycles[c].(head := At(chain, 0), chain := chain, checked := checked)];
    assert ChainOk(c, cycles[c], ops, dead);
    ReverseMembers(old_);
    forall i | 0 <= i < |chain| ensures chain[i] == old_[|old_| - 1 - i] { ReverseAt(old_, i); }
    forall e | e in b ensures ChainOk(e, b[e], ops, dead) { assert ChainOk(e, cycles[e], ops, dead); }
  }

  /** All operations of `c` are released. */
  lemma ChainsCut(cycles: map<nat, Cycle>, ops: map<nat, Operation>, dead: set<nat>, c: nat)
    requires Chains(cycles, ops, dead) && c in cycles
    ensures var left := ops - (set x | x in cycles[c].chain);
            && (forall e :: e in cycles && e != c ==> ChainOk(e, cycles[e], left, dead))
            && (forall x :: x in left ==>
                left[x].owner in cycles && left[x].owner != c && x in cycles[left[x].owner].chain)
  {
    var left := ops - (set x | x in cycles[c].chain);
    assert ChainOk(c, cycles[c], ops, dead);
    forall e | e in cycles && e != c ensures ChainOk(e, cycles[e], left, dead) {
      assert ChainOk(e, cycles[e], ops, dead);
    }
  }

  /** A cycle that cannot grow is emptied and marked with its own index. */
  lemma ChainsExhaust(cycles: map<nat, Cycle>, ops: map<nat, Operation>, dead: set<nat>, c: nat)
    requires Chains(cycles, ops, dead) && c in cycles
    requires forall e :: e in cycles && e != c ==> cycles[e].id != cycles[c].id
    ensures Chains(cycles[c := cycles[c].(head := c, chain := [])], ops - (set x | x in cycles[c].chain),
            dead + {cycles[c].id})
  {
    ChainsCut(cycles, ops, dead, c);
    var b, left, more := cycles[c := cycles[c].(head := c, chain := [])], ops - (set x | x in cycles[c].chain),
        dead + {cycles[c].id};
    forall e | e in b ensures ChainOk(e, b[e], left, more) { if e != c { assert ChainOk(e, cycles[e], left, dead); } }
  }

  lemma ChainsDrop(cycles: map<nat, Cycle>, ops: map<nat, Operation>, dead: set<nat>, c: nat)
    requires Chains(cycles, ops, dead) && c in cycles
    ensures Chains(cycles - {c}, ops - (set x | x in cycles[c].chain), dead)
  {
    ChainsCut(cycles, ops, dead, c);
  }

  /* ---------- ids ---------- */

  lemma FatesBorn(cycles: map<nat, Cycle>, log: seq<Report>, count: nat, aborted: set<nat>, dead: set<nat>, c: nat,
                  cyc: Cycle)
    requires Fates(cycles, log, count, aborted, dead) && c !in cycles && cyc.id == count
    ensures Fates(cycles[c := cyc], log, count + 1, aborted, dead) && count !in dead
  {
    var b := cycles[c := cyc];
    forall id: nat | id < count + 1 ensures Alive(b, id) || CalledBack(log, id) || id in aborted {
      if id == count {
        assert b[c].id == id;
      } else if Alive(cycles, id) {
        var x :| x in cycles && cycles[x].id == id;
        assert x in b && b[x].id == id;
      }
    }
  }

  lemma FatesDead(cycles: map<nat, Cycle>, log: seq<Report>, count: nat, aborted: set<nat>, dead: set<nat>, id: nat)
    requires Fates(cycles, log, count, aborted, dead) && id < count
    ensures Fates(cycles, log, count, aborted, dead + {id})
  {
  }

  lemma AliveElsewhere(cycles: map<nat, Cycle>, c: nat, id: nat)
    requires c in cycles && Alive(cycles, id) && id != cycles[c].id
    ensures Alive(cycles - {c}, id)
  {
    var x :| x in cycles && cycles[x].id == id;
    assert x in cycles - {c};
  }

  /** A cycle is called back and forgotten. */
  lemma FatesReport(cycles: map<nat, Cycle>, log: seq<Report>, count: nat, aborted: set<nat>, dead: set<nat>, c: nat,
                    r: Report)
    requires Fates(cycles, log, count, aborted, dead) && c in cycles && r.id == cycles[c].id
    ensures Fates(cycles - {c}, log + [r], count, aborted, dead) && !CalledBack(log, r.id)
         && CalledBack(log + [r], r.id)
  {
    var more := log + [r];
    assert more[|log|] == r;
    forall id ensures CalledBack(more, id) <==> CalledBack(log, id) || id == r.id {
      if CalledBack(log, id) { var k :| 0 <= k < |log| && log[k].id == id; assert more[k].id == id; }
    }
    forall j, k | 0 <= j < k < |more| ensures more[j].id != more[k].id {
      if k == |log| { assert CalledBack(log, more[j].id); }
    }
    forall id: nat | id < count ensures Alive(cycles - {c}, id) || CalledBack(more, id) || id in aborted {
      if Alive(cycles, id) && id != r.id { AliveElsewhere(cycles, c, id); }
    }
  }

  lemma FatesAbort(cycles: map<nat, Cycle>, log: seq<Report>, count: nat, aborted: set<nat>, dead: set<nat>, c: nat)
    requires Fates(cycles, log, count, aborted, dead) && c in cycles
    ensures Fates(cycles - {c}, log, count, aborted + {cycles[c].id}, dead)
  {
    var id1 := cycles[c].id;
    forall k | 0 <= k < |log| ensures log[k].id != id1 { assert CalledBack(log, log[k].id); }
    forall id: nat | id < count ensures Alive(cycles - {c}, id) || CalledBack(log, id) || id in aborted + {id1} {
      if Alive(cycles, id) && id != id1 { AliveElsewhere(cycles, c, id); }
    }
  }

  lemma HeldIs(queue: seq<Held>, responses: map<nat, nat>, cycles: map<nat, Cycle>, k: nat)
    requires InOrder(queue, responses, cycles) && k < |queue|
    ensures var h := queue[k];
            && h.cycle in cycles && cycles[h.cycle].stage == Flying && cycles[h.cycle].id == h.entry.id
            && h.slot in responses && Cursors(h.entry.response)
  {
    assert HeldOk(queue[k], responses, cycles);
  }

  lemma IdsDiffer(cycles: map<nat, Cycle>, log: seq<Report>, count: nat, aborted: set<nat>, dead: set<nat>, c: nat)
    requires Fates(cycles, log, count, aborted, dead) && c in cycles
    ensures cycles[c].id < count && forall e :: e in cycles && e != c ==> cycles[e].id != cycles[c].id
  {
  }
}
