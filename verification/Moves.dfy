/** The single moves that operations on cycles and devices are made of. Each keeps the invariant
    and says which cycles it takes into or out of limbo. */
module Moves {
  import opened Format
  import opened Lists
  import opened Master
  import opened ReadWrite
  import opened Flush
  import opened Lifecycle

  /** The cycles in limbo. */
  function Limbos(cycles: map<nat, Cycle>): set<nat> {
    set c | c in cycles && cycles[c].stage == Limbo
  }

  lemma SettledIff(s: State)
    ensures Settled(s) <==> Limbos(s.cycles) == {}
  {
    if Limbos(s.cycles) == {} {
      forall c | c in s.cycles ensures s.cycles[c].stage != Limbo { assert c !in Limbos(s.cycles); }
    }
  }

  lemma LimboRestaged(cycles: map<nat, Cycle>, c: nat, stage: Stage)
    requires c in cycles
    ensures Limbos(Restaged(cycles, c, stage)) == if stage == Limbo then Limbos(cycles) + {c} else Limbos(cycles) - {c}
  {
  }

  lemma LimboChanged(cycles: map<nat, Cycle>, c: nat, cyc: Cycle)
    ensures Limbos(cycles[c := cyc]) == if cyc.stage == Limbo then Limbos(cycles) + {c} else Limbos(cycles) - {c}
    ensures Limbos(cycles - {c}) == Limbos(cycles) - {c}
  {
  }

  /* ---------- index space ---------- */

  lemma ApartSame(s: State, t: State)
    requires Apart(s) && t.cycles.Keys <= s.cycles.Keys && t.ops.Keys <= s.ops.Keys
    requires t.responses.Keys <= s.responses.Keys && t.peers.Keys <= s.peers.Keys
    ensures Apart(t)
  {
    assert NULL !in s.cycles.Keys && NULL !in s.ops.Keys && NULL !in s.responses.Keys && NULL !in s.peers.Keys;
  }

  lemma ApartMore(s: State, t: State, x: nat)
    requires Apart(s) && Unused(s, x) && t.cycles.Keys <= s.cycles.Keys + {x} && t.ops.Keys <= s.ops.Keys + {x}
    requires t.responses.Keys <= s.responses.Keys + {x} && t.peers.Keys <= s.peers.Keys + {x}
    requires !(x in t.cycles && x in t.ops) && !(x in t.cycles && x in t.responses) && !(x in t.cycles && x in t.peers)
    requires !(x in t.ops && x in t.responses) && !(x in t.ops && x in t.peers) && !(x in t.responses && x in t.peers)
    ensures Apart(t)
  {
    assert NULL !in s.cycles.Keys && NULL !in s.ops.Keys && NULL !in s.responses.Keys && NULL !in s.peers.Keys;
  }

  lemma KeysSame<T>(m: map<nat, T>, k: nat, v: T, gone: set<nat>)
    ensures k in m ==> m[k := v].Keys == m.Keys
    ensures m[k := v].Keys == m.Keys + {k}
    ensures (m - gone).Keys <= m.Keys
  {
  }

  function Born(s: State, c: nat, d: nat): State {
    s.(cycles := s.cycles[c := Cycle(s.count, NULL, [], d, Limbo, false)], count := s.count + 1)
  }

  lemma BornGood(s: State, c: nat, d: nat)
    requires Good(s) && Unused(s, c) && d in s.peers
    ensures Good(Born(s, c, d)) && Limbos(Born(s, c, d).cycles) == Limbos(s.cycles) + {c}
  {
    hide Homes, Fates, Chains, InOrder, Apart, Listed, Limbos;
    var cyc := Cycle(s.count, NULL, [], d, Limbo, false);
    HomesBorn(s.peers, s.cycles, s.passive, c, cyc);
    FatesBorn(s.cycles, s.log, s.count, s.aborted, s.dead, c, cyc);
    ChainsBorn(s.cycles, s.ops, s.dead, c, cyc);
    KeepOrder(s.cycles, s.cycles[c := cyc], s.queue, s.responses);
    LimboChanged(s.cycles, c, cyc);
    KeysSame(s.cycles, c, cyc, {});
    ApartMore(s, Born(s, c, d), c);
  }

  lemma ListedSame(devices: seq<nat>, a: map<nat, Peer>, b: map<nat, Peer>)
    requires Listed(devices, a) && a.Keys == b.Keys
    ensures Listed(devices, b)
  {
    assert forall d :: d in a <==> d in b.Keys;
  }

  function Moved(s: State, c: nat, stage: Stage, d: nat, dev: Peer): State
    requires c in s.cycles
  {
    s.(cycles := Restaged(s.cycles, c, stage), peers := s.peers[d := dev])
  }

  /** Moving a cycle within its device keeps everything but the device's own lists. */
  lemma MovedGood(s: State, c: nat, stage: Stage, d: nat, dev: Peer)
    requires Good(s) && c in s.cycles && d in s.peers && s.cycles[c].stage != Flying && stage != Flying
    requires Homes(s.peers[d := dev], Restaged(s.cycles, c, stage), s.passive)
    ensures Good(Moved(s, c, stage, d, dev))
    ensures Limbos(Moved(s, c, stage, d, dev).cycles) == if stage == Limbo then Limbos(s.cycles) + {c}
            else Limbos(s.cycles) - {c}
  {
    hide Homes, Fates, Chains, InOrder, Apart, Listed, Limbos;
    RestagedKeeps(s.cycles, c, stage, s.ops, s.dead, s.log, s.count, s.aborted);
    KeepOrder(s.cycles, Restaged(s.cycles, c, stage), s.queue, s.responses);
    LimboRestaged(s.cycles, c, stage);
    KeysSame(s.peers, d, dev, {});
    ListedSame(s.devices, s.peers, s.peers[d := dev]);
    ApartSame(s, Moved(s, c, stage, d, dev));
  }

  function Fill(s: State, c: nat): State
    requires c in s.cycles && s.cycles[c].device in s.peers
  {
    var d := s.cycles[c].device;
    Moved(s, c, Filling, d, s.peers[d].(unready := s.peers[d].unready + 1))
  }

  lemma FillGood(s: State, c: nat)
    requires Good(s) && c in s.cycles && s.cycles[c].stage == Limbo && s.cycles[c].device !in s.passive
    ensures s.cycles[c].device in s.peers && Good(Fill(s, c)) && Limbos(Fill(s, c).cycles) == Limbos(s.cycles) - {c}
  {
    hide Homes, Fates, Chains, InOrder, Apart, Listed, Limbos;
    var d := s.cycles[c].device;
    HomesFill(s.peers, s.cycles, s.passive, c, d);
    MovedGood(s, c, Filling, d, s.peers[d].(unready := s.peers[d].unready + 1));
  }

  function Unfill(s: State, c: nat): State
    requires c in s.cycles && s.cycles[c].device in s.peers && s.peers[s.cycles[c].device].unready > 0
  {
    var d := s.cycles[c].device;
    Moved(s, c, Limbo, d, s.peers[d].(unready := s.peers[d].unready - 1))
  }

  lemma UnfillGood(s: State, c: nat)
    requires Good(s) && c in s.cycles && s.cycles[c].stage == Filling
    ensures s.cycles[c].device in s.peers && s.cycles[c].device !in s.passive && s.peers[s.cycles[c].device].unready > 0
    ensures Good(Unfill(s, c)) && Limbos(Unfill(s, c).cycles) == Limbos(s.cycles) + {c}
  {
    hide Homes, Fates, Chains, InOrder, Apart, Listed, Limbos;
    var d := s.cycles[c].device;
    HomesUnfill(s.peers, s.cycles, s.passive, c, d);
    MovedGood(s, c, Limbo, d, s.peers[d].(unready := s.peers[d].unready - 1));
  }

  function Enlist(s: State, c: nat): State
    requires c in s.cycles && s.cycles[c].device in s.peers
  {
    var d := s.cycles[c].device;
    Moved(s, c, Ready, d, s.peers[d].(tag := c, ready := [c] + s.peers[d].ready))
  }

  lemma EnlistGood(s: State, c: nat)
    requires Good(s) && c in s.cycles && s.cycles[c].stage == Limbo && s.cycles[c].device !in s.passive
    ensures s.cycles[c].device in s.peers && Good(Enlist(s, c)) && Limbos(Enlist(s, c).cycles) == Limbos(s.cycles) - {c}
  {
    hide Homes, Fates, Chains, InOrder, Apart, Listed, Limbos;
    var d := s.cycles[c].device;
    HomesReady(s.peers, s.cycles, s.passive, c, d);
    MovedGood(s, c, Ready, d, s.peers[d].(tag := c, ready := [c] + s.peers[d].ready));
  }

  /** The oldest of a device's ready cycles. */
  function Oldest(s: State, d: nat): nat
    requires d in s.peers && s.peers[d].ready != []
  {
    s.peers[d].ready[|s.peers[d].ready| - 1]
  }

  function Take(s: State, d: nat): State
    requires d in s.peers && s.peers[d].ready != [] && Oldest(s, d) in s.cycles
  {
    var rest := s.peers[d].ready[..|s.peers[d].ready| - 1];
    Moved(s, Oldest(s, d), Limbo, d, s.peers[d].(tag := At(rest, 0), ready := rest))
  }

  lemma TakeGood(s: State, d: nat)
    requires Good(s) && d in s.peers && s.peers[d].ready != []
    ensures var c := Oldest(s, d);
            && c in s.cycles && s.cycles[c].stage == Ready && s.cycles[c].device == d && d !in s.passive
            && Good(Take(s, d)) && Limbos(Take(s, d).cycles) == Limbos(s.cycles) + {c}
  {
    var c, rest := Oldest(s, d), s.peers[d].ready[..|s.peers[d].ready| - 1];
    hide Homes, Fates, Chains, InOrder, Apart, Listed, Limbos;
    HomesTake(s.peers, s.cycles, s.passive, d);
    MovedGood(s, c, Limbo, d, s.peers[d].(tag := At(rest, 0), ready := rest));
  }

  function Launch(s: State, h: Held): State
    requires h.cycle in s.cycles && ReturnAddress(s.rba)
  {
    s.(cycles := Restaged(s.cycles, h.cycle, Flying), responses := s.responses[h.slot := h.cycle],
       queue := s.queue + [h], rba := NextAddress(s.rba))
  }

  lemma LaunchGood(s: State, h: Held)
    requires Good(s) && h.cycle in s.cycles && s.cycles[h.cycle].stage == Limbo && Unused(s, h.slot)
    requires h.entry.id == s.cycles[h.cycle].id && Cursors(h.entry.response)
    ensures Good(Launch(s, h)) && Limbos(Launch(s, h).cycles) == Limbos(s.cycles) - {h.cycle}
  {
    hide Homes, Fates, Chains, InOrder, Apart, Listed, Limbos;
    RestagedKeeps(s.cycles, h.cycle, Flying, s.ops, s.dead, s.log, s.count, s.aborted);
    OrderLaunch(s.queue, s.responses, s.cycles, h);
    HomesFly(s.peers, s.cycles, s.passive, h.cycle, Flying);
    NextAddressReturns(s.rba);
    LimboRestaged(s.cycles, h.cycle, Flying);
    KeysSame(s.responses, h.slot, h.cycle, {});
    hide NextAddress, ReturnAddress;
    ApartMore(s, Launch(s, h), h.slot);
  }

  function Land(s: State, k: nat): State
    requires k < |s.queue| && s.queue[k].cycle in s.cycles
  {
    s.(cycles := Restaged(s.cycles, s.queue[k].cycle, Limbo), responses := s.responses - {s.queue[k].slot},
       queue := LeftOut(s.queue, k))
  }

  lemma LandGood(s: State, k: nat)
    requires Good(s) && k < |s.queue|
    ensures var h := s.queue[k];
            && h.cycle in s.cycles && s.cycles[h.cycle].stage == Flying && s.cycles[h.cycle].id == h.entry.id
            && Good(Land(s, k)) && Limbos(Land(s, k).cycles) == Limbos(s.cycles) + {h.cycle}
  {
    hide Homes, Fates, Chains, InOrder, Apart, Listed, Limbos;
    var c := s.queue[k].cycle;
    HeldIs(s.queue, s.responses, s.cycles, k);
    OrderLand(s.queue, s.responses, s.cycles, k);
    RestagedKeeps(s.cycles, c, Limbo, s.ops, s.dead, s.log, s.count, s.aborted);
    HomesFly(s.peers, s.cycles, s.passive, c, Limbo);
    LimboRestaged(s.cycles, c, Limbo);
    KeysSame(s.responses, s.queue[k].slot, c, {s.queue[k].slot});
    ApartSame(s, Land(s, k));
  }

  function Update(s: State, k: nat, r: Response): State
    requires k < |s.queue|
  {
    s.(queue := s.queue[k := s.queue[k].(entry := s.queue[k].entry.(response := r))])
  }

  lemma UpdateGood(s: State, k: nat, r: Response)
    requires Good(s) && k < |s.queue| && Cursors(r)
    ensures Good(Update(s, k, r)) && Limbos(Update(s, k, r).cycles) == Limbos(s.cycles)
  {
    hide Homes, Fates, Chains, InOrder, Apart, Listed, Limbos;
    OrderUpdate(s.queue, s.responses, s.cycles, k, r);
    ApartSame(s, Update(s, k, r));
  }

  /** The operations a cycle lists. */
  function Chain(s: State, c: nat): set<nat>
    requires c in s.cycles
  {
    set x | x in s.cycles[c].chain
  }

  /** Give a cycle and its operations back to the pool. */
  function Released(s: State, c: nat): State
    requires c in s.cycles
  {
    s.(cycles := s.cycles - {c}, ops := s.ops - Chain(s, c))
  }

  lemma KeysLess(m: map<nat, Operation>, gone: set<nat>)
    ensures (m - gone).Keys <= m.Keys
  {
  }

  /** Call a cycle back and release it. */
  function CallBack(s: State, c: nat, handed: nat, status: Status): State
    requires c in s.cycles
  {
    Released(s, c).(log := s.log + [Report(s.cycles[c].id, handed, status)])
  }

  lemma CallBackGood(s: State, c: nat, handed: nat, status: Status)
    requires Good(s) && c in s.cycles && s.cycles[c].stage == Limbo
    ensures Good(CallBack(s, c, handed, status))
         && Limbos(CallBack(s, c, handed, status).cycles) == Limbos(s.cycles) - {c}
  {
    hide Homes, Fates, Chains, InOrder, Apart, Listed, Limbos;
    ChainsDrop(s.cycles, s.ops, s.dead, c);
    HomesDrop(s.peers, s.cycles, s.passive, c);
    FatesReport(s.cycles, s.log, s.count, s.aborted, s.dead, c, Report(s.cycles[c].id, handed, status));
    KeepOrder(s.cycles, s.cycles - {c}, s.queue, s.responses);
    LimboChanged(s.cycles, c, s.cycles[c]);
    KeysSame(s.cycles, c, s.cycles[c], {c});
    KeysLess(s.ops, Chain(s, c));
    ApartSame(s, CallBack(s, c, handed, status));
  }

  /** Release a cycle without calling it back. */
  function Discarded(s: State, c: nat): State
    requires c in s.cycles
  {
    Released(s, c).(aborted := s.aborted + {s.cycles[c].id})
  }

  lemma DiscardedGood(s: State, c: nat)
    requires Good(s) && c in s.cycles && s.cycles[c].stage == Limbo
    ensures Good(Discarded(s, c)) && Limbos(Discarded(s, c).cycles) == Limbos(s.cycles) - {c}
  {
    hide Homes, Fates, Chains, InOrder, Apart, Listed, Limbos;
    ChainsDrop(s.cycles, s.ops, s.dead, c);
    HomesDrop(s.peers, s.cycles, s.passive, c);
    FatesAbort(s.cycles, s.log, s.count, s.aborted, s.dead, c);
    KeepOrder(s.cycles, s.cycles - {c}, s.queue, s.responses);
    LimboChanged(s.cycles, c, s.cycles[c]);
    KeysSame(s.cycles, c, s.cycles[c], {c});
    KeysLess(s.ops, Chain(s, c));
    ApartSame(s, Discarded(s, c));
  }

  function Push(s: State, c: nat, x: nat, request: Request): State
    requires c in s.cycles
  {
    s.(cycles := s.cycles[c := s.cycles[c].(head := x, chain := [x] + s.cycles[c].chain)],
       ops := s.ops[x := Operation(c, request)])
  }

  lemma PushGood(s: State, c: nat, x: nat, request: Request)
    requires Good(s) && c in s.cycles && s.cycles[c].id !in s.dead && Unused(s, x)
    ensures Good(Push(s, c, x, request)) && Limbos(Push(s, c, x, request).cycles) == Limbos(s.cycles)
  {
    hide Homes, Fates, Chains, InOrder, Apart, Listed, Limbos;
    var t := Push(s, c, x, request);
    ChainsPush(s.cycles, s.ops, s.dead, c, x, request);
    KeysSame(s.cycles, c, t.cycles[c], {});
    KeysSame(s.ops, x, Operation(c, request), {});
    SameButChain(s, t.cycles);
    ApartMore(s, t, x);
  }

  lemma LimboSame(a: map<nat, Cycle>, b: map<nat, Cycle>)
    requires a.Keys == b.Keys && forall c :: c in a ==> b[c].stage == a[c].stage
    ensures Limbos(a) == Limbos(b)
  {
  }

  /** Changing operation lists leaves all other aspects alone. */
  lemma SameButChain(s: State, b: map<nat, Cycle>)
    requires Good(s) && s.cycles.Keys == b.Keys
    requires forall c :: c in b ==>
              b[c] == s.cycles[c].(head := b[c].head, chain := b[c].chain, checked := b[c].checked)
    ensures InOrder(s.queue, s.responses, b) && Homes(s.peers, b, s.passive)
         && Fates(b, s.log, s.count, s.aborted, s.dead)
    ensures Limbos(b) == Limbos(s.cycles)
  {
    hide Homes, Fates, Chains, InOrder, Apart, Listed, Limbos;
    KeepOrder(s.cycles, b, s.queue, s.responses);
    KeepHomes(s.cycles, b, s.peers, s.passive);
    KeepFates(s.cycles, b, s.log, s.count, s.aborted, s.dead);
    LimboSame(s.cycles, b);
  }

  function Exhaust(s: State, c: nat): State
    requires c in s.cycles
  {
    s.(cycles := s.cycles[c := s.cycles[c].(head := c, chain := [])], ops := s.ops - Chain(s, c),
       dead := s.dead + {s.cycles[c].id})
  }

  lemma ExhaustGood(s: State, c: nat)
    requires Good(s) && c in s.cycles
    ensures Good(Exhaust(s, c)) && Limbos(Exhaust(s, c).cycles) == Limbos(s.cycles)
  {
    hide Homes, Fates, Chains, InOrder, Apart, Listed, Limbos;
    var t := Exhaust(s, c);
    IdsDiffer(s.cycles, s.log, s.count, s.aborted, s.dead, c);
    ChainsExhaust(s.cycles, s.ops, s.dead, c);
    KeysSame(s.cycles, c, t.cycles[c], {});
    SameButChain(s, t.cycles);
    FatesDead(t.cycles, s.log, s.count, s.aborted, s.dead, s.cycles[c].id);
    KeysLess(s.ops, Chain(s, c));
    ApartSame(s, t);
  }

  function Turn(s: State, c: nat, checked: bool): State
    requires c in s.cycles
  {
    var chain := Reverse(s.cycles[c].chain);
    s.(cycles := s.cycles[c := s.cycles[c].(head := At(chain, 0), chain := chain, checked := checked)])
  }

  lemma TurnGood(s: State, c: nat, checked: bool)
    requires Good(s) && c in s.cycles && s.cycles[c].id !in s.dead
    ensures Good(Turn(s, c, checked)) && Limbos(Turn(s, c, checked).cycles) == Limbos(s.cycles)
  {
    hide Homes, Fates, Chains, InOrder, Apart, Listed, Limbos;
    var t := Turn(s, c, checked);
    ChainsTurn(s.cycles, s.ops, s.dead, c, checked);
    KeysSame(s.cycles, c, t.cycles[c], {});
    SameButChain(s, t.cycles);
    ApartSame(s, t);
  }

  /* ---------- devices ---------- */

  function AddPeer(s: State, d: nat, passive: bool, port: Port, mtu: nat): State {
    s.(peers := s.peers[d := Peer(if passive then d else NULL, [], 0, port, mtu)], devices := [d] + s.devices,
       passive := if passive then s.passive + {d} else s.passive - {d})
  }

  lemma AddPeerGood(s: State, d: nat, passive: bool, port: Port, mtu: nat)
    requires Good(s) && Unused(s, d)
    ensures Good(AddPeer(s, d, passive, port, mtu))
         && Limbos(AddPeer(s, d, passive, port, mtu).cycles) == Limbos(s.cycles)
  {
    hide Homes, Fates, Chains, InOrder, Apart, Listed, Limbos;
    var t := AddPeer(s, d, passive, port, mtu);
    ListedMore(s.devices, s.peers, d, t.peers[d]);
    AddPeerHomes(s, d, passive, port, mtu);
    KeysSame(s.peers, d, t.peers[d], {});
    ApartMore(s, t, d);
  }

  lemma ListedMore(devices: seq<nat>, peers: map<nat, Peer>, d: nat, dev: Peer)
    requires Listed(devices, peers) && d !in peers
    ensures Listed([d] + devices, peers[d := dev])
  {
    var t := [d] + devices;
    forall i, j | 0 <= i < j < |t| ensures t[i] != t[j] {
      if i == 0 { assert t[j] in devices; }
    }
    forall e | e in peers[d := dev] ensures e in t { if e == d { assert t[0] == d; } }
  }

  lemma AddPeerHomes(s: State, d: nat, passive: bool, port: Port, mtu: nat)
    requires Homes(s.peers, s.cycles, s.passive) && d !in s.peers
    ensures var t := AddPeer(s, d, passive, port, mtu); Homes(t.peers, t.cycles, t.passive)
  {
    var t := AddPeer(s, d, passive, port, mtu);
    forall c | c in t.cycles ensures Homed(c, t.cycles[c], t.peers, t.passive) {
        assert Homed(c, s.cycles[c], s.peers, s.passive); }
    forall e | e in t.peers ensures PeerOk(e, t.peers[e], t.cycles, t.passive) {
      if e == d { NoneFilling(s, d); } else { assert PeerOk(e, s.peers[e], s.cycles, s.passive); }
    }
  }

  lemma NoneFilling(s: State, d: nat)
    requires Homes(s.peers, s.cycles, s.passive) && d !in s.peers
    ensures FillingOf(s.cycles, d) == {}
  {
    forall c | c in s.cycles ensures s.cycles[c].device in s.peers { assert Homed(c, s.cycles[c], s.peers, s.passive); }
  }

  /** Close a device to new cycles; its ready ones are left for the caller to kill. */
  function Withdraw(s: State, d: nat): State
    requires d in s.peers
  {
    s.(peers := s.peers[d := s.peers[d].(tag := d, ready := [])], passive := s.passive + {d},
       cycles := map c | c in s.cycles ::
                   if c in s.peers[d].ready then s.cycles[c].(stage := Limbo) else s.cycles[c])
  }

  lemma WithdrawGood(s: State, d: nat)
    requires Good(s) && d in s.peers && s.peers[d].unready == 0
    ensures Good(Withdraw(s, d)) && Limbos(Withdraw(s, d).cycles) == Limbos(s.cycles) + set c | c in s.peers[d].ready
  {
    hide Homes, Fates, Chains, InOrder, Apart, Listed, Limbos;
    var t, dev := Withdraw(s, d), s.peers[d];
    assert t.cycles.Keys == s.cycles.Keys;
    ReadyAre(s.peers, s.cycles, s.passive, d);
    KeepOrder(s.cycles, t.cycles, s.queue, s.responses);
    KeepChains(s.cycles, t.cycles, s.ops, s.dead);
    KeepFates(s.cycles, t.cycles, s.log, s.count, s.aborted, s.dead);
    WithdrawHomes(s, d);
    LimboWithdrawn(s, d);
    KeysSame(s.peers, d, t.peers[d], {});
    ListedSame(s.devices, s.peers, t.peers);
    ApartSame(s, t);
  }

  lemma ReadyAre(peers: map<nat, Peer>, cycles: map<nat, Cycle>, passive: set<nat>, d: nat)
    requires Homes(peers, cycles, passive) && d in peers
    ensures forall c :: c in peers[d].ready ==> c in cycles && cycles[c].stage == Ready && cycles[c].device == d
  {
    assert PeerOk(d, peers[d], cycles, passive);
  }

  lemma LimboWithdrawn(s: State, d: nat)
    requires d in s.peers && forall c :: c in s.peers[d].ready ==> c in s.cycles
    ensures Limbos(Withdraw(s, d).cycles) == Limbos(s.cycles) + set c | c in s.peers[d].ready
  {
  }

  lemma WithdrawHomes(s: State, d: nat)
    requires Homes(s.peers, s.cycles, s.passive) && d in s.peers && s.peers[d].unready == 0
    ensures Homes(Withdraw(s, d).peers, Withdraw(s, d).cycles, Withdraw(s, d).passive)
  {
    var t := Withdraw(s, d);
    assert PeerOk(d, s.peers[d], s.cycles, s.passive);
    WithdrawFilling(s, d);
    forall c | c in t.cycles ensures Homed(c, t.cycles[c], t.peers, t.passive) {
      assert Homed(c, s.cycles[c], s.peers, s.passive);
      WithdrawHomed(s, d, c);
    }
    forall e | e in t.peers ensures PeerOk(e, t.peers[e], t.cycles, t.passive) {
      assert PeerOk(e, s.peers[e], s.cycles, s.passive);
      WithdrawPeer(s, d, e);
    }
  }

  lemma WithdrawFilling(s: State, d: nat)
    requires d in s.peers && PeerOk(d, s.peers[d], s.cycles, s.passive) && s.peers[d].unready == 0
    ensures FillingOf(s.cycles, d) == {} && forall e :: FillingOf(Withdraw(s, d).cycles, e) == FillingOf(s.cycles, e)
  {
    forall e ensures FillingOf(Withdraw(s, d).cycles, e) == FillingOf(s.cycles, e) { }
  }

  lemma WithdrawHomed(s: State, d: nat, c: nat)
    requires d in s.peers && c in s.cycles && Homed(c, s.cycles[c], s.peers, s.passive) && FillingOf(s.cycles, d) == {}
    ensures Homed(c, Withdraw(s, d).cycles[c], Withdraw(s, d).peers, Withdraw(s, d).passive)
  {
    assert c !in FillingOf(s.cycles, d);
    hide FillingOf;
  }

  lemma WithdrawPeer(s: State, d: nat, e: nat)
    requires d in s.peers && e in s.peers && PeerOk(e, s.peers[e], s.cycles, s.passive)
    requires PeerOk(d, s.peers[d], s.cycles, s.passive) && s.peers[d].unready == 0
    requires FillingOf(Withdraw(s, d).cycles, e) == FillingOf(s.cycles, e)
    ensures PeerOk(e, Withdraw(s, d).peers[e], Withdraw(s, d).cycles, Withdraw(s, d).passive)
  {
    hide FillingOf;
    assert forall c :: c in s.peers[d].ready ==> c in s.cycles && s.cycles[c].device == d;
    assert forall c :: c in s.peers[e].ready ==> c in s.cycles && s.cycles[c].device == e;
  }

  /** Forget a device. */
  function RemovePeer(s: State, d: nat): State {
    s.(peers := s.peers - {d}, devices := Select(s.devices, (e: nat) => e != d), passive := s.passive - {d})
  }

  lemma RemovePeerGood(s: State, d: nat)
    requires Good(s) && d in s.peers && forall c :: c in s.cycles ==> s.cycles[c].device != d
    ensures Good(RemovePeer(s, d)) && Limbos(RemovePeer(s, d).cycles) == Limbos(s.cycles)
  {
    hide Homes, Fates, Chains, InOrder, Apart, Listed, Limbos;
    var t := RemovePeer(s, d);
    ListedFewer(s.devices, s.peers, d);
    RemovePeerHomes(s, d);
    ApartSame(s, t);
  }

  lemma ListedFewer(devices: seq<nat>, peers: map<nat, Peer>, d: nat)
    requires Listed(devices, peers)
    ensures Listed(Select(devices, (e: nat) => e != d), peers - {d}) && (peers - {d}).Keys <= peers.Keys
  {
    SelectDistinct(devices, (e: nat) => e != d);
    SelectMembers(devices, (e: nat) => e != d);
    hide Select;
  }

  lemma RemovePeerHomes(s: State, d: nat)
    requires Homes(s.peers, s.cycles, s.passive) && forall c :: c in s.cycles ==> s.cycles[c].device != d
    ensures var t := RemovePeer(s, d); Homes(t.peers, t.cycles, t.passive)
  {
    var t := RemovePeer(s, d);
    forall c | c in t.cycles ensures Homed(c, t.cycles[c], t.peers, t.passive) {
        assert Homed(c, s.cycles[c], s.peers, s.passive); }
    forall e | e in t.peers ensures PeerOk(e, t.peers[e], t.cycles, t.passive) {
      assert PeerOk(e, s.peers[e], s.cycles, s.passive);
    }
  }

  lemma {:induction false} SelectDistinct(s: seq<nat>, f: nat -> bool)
    requires Distinct(s)
    ensures Distinct(Select(s, f))
  {
    if s != [] {
      forall i, j | 0 <= i < j < |s[1..]| ensures s[1..][i] != s[1..][j] { assert s[i + 1] != s[j + 1]; }
      SelectDistinct(s[1..], f);
      SelectMembers(s[1..], f);
      forall i | 0 <= i < |s[1..]| ensures s[1..][i] != s[0] { assert s[0] != s[i + 1]; }
    }
  }
}
