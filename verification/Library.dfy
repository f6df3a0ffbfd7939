/** The library's own code for opening, filling, closing and killing cycles and for closing devices,
    as it updates its records in place. */
module Library {
  import opened Lists
  import opened Master
  import opened Lifecycle
  import opened Moves
  import opened Protocol

  class Library {
    var cycles: map<nat, Cycle>
    var ops: map<nat, Operation>
    var responses: map<nat, nat>
    var peers: map<nat, Peer>
    var devices: seq<nat>
    var queue: seq<Held>
    var rba: nat
    var time: nat
    var log: seq<Report>
    var count: nat
    ghost var aborted: set<nat>
    ghost var dead: set<nat>
    ghost var passive: set<nat>

    ghost function View(): State
      reads this
    {
      State(cycles, ops, responses, peers, devices, queue, rba, time, log, count, aborted, dead, passive)
    }

    constructor ()
      ensures View() == Initial() && Sound(View())
    {
      cycles, ops, responses, peers, devices, queue := map[], map[], map[], map[], [], [];
      rba, time, log, count, aborted, dead, passive := 0x8000, 0, [], 0, {}, {}, {};
      new;
      InitialSound();
    }

    /** `slot` is the pool's answer to the allocation. */
    method Open(d: nat, slot: nat) returns (status: Status, c: nat)
      requires d in peers
      modifies this`cycles, this`peers, this`count
      ensures (View(), status, c) == OpenCycle(old(View()), d, slot)
    {
      if slot == NULL {
        return OutOfMemory, NULL;
      }
      if peers[d].tag == d {
        return Fail, NULL;
      }
      cycles := cycles[slot := Cycle(count, NULL, [], d, Filling, false)];
      peers := peers[d := peers[d].(unready := peers[d].unready + 1)];
      count := count + 1;
      status, c := Ok, slot;
      assert Restaged(Born(old(View()), slot, d).cycles, slot, Filling) == cycles;
    }

    /** Free a cycle's operations one by one; a cycle marked as out of memory has none. */
    method Destroy(c: nat)
      requires c in cycles && (cycles[c].head == c ==> cycles[c].chain == [])
      modifies this`cycles, this`ops
      ensures View() == Cut(old(View()), c)
    {
      var chain := cycles[c].chain;
      ghost var was := ops;
      assert ops - Members(chain[..0]) == ops;
      assert chain[..|chain|] == chain;
      if cycles[c].head != c {
        var i := 0;
        while i < |chain|
          invariant 0 <= i <= |chain| && cycles == old(cycles) && ops == was - Members(chain[..i])
        {
          FreeOne(was, chain, i);
          ops := ops - {chain[i]};
          i := i + 1;
        }
      }
      cycles := cycles[c := cycles[c].(head := NULL, chain := [])];
    }

    /** Queue an operation; a cycle that cannot grow loses all it had and is marked with its own index. */
    method Enqueue(c: nat, slot: nat, request: Request)
      requires Good(View()) && c in cycles
      modifies this`cycles, this`ops, this`dead
      ensures View() == Protocol.Enqueue(old(View()), c, slot, request)
    {
      hide Good;
      DeadEmpty(View(), c);
      if slot == NULL {
        Destroy(c);
        cycles := cycles[c := cycles[c].(head := c)];
        dead := dead + {cycles[c].id};
        return;
      }
      if cycles[c].head == c {
        return;
      }
      ops := ops[slot := Operation(c, request)];
      cycles := cycles[c := cycles[c].(head := slot, chain := [slot] + cycles[c].chain)];
    }

    /** Free a cycle and its operations. */
    method Release(c: nat)
      requires c in cycles && (cycles[c].head == c ==> cycles[c].chain == [])
      modifies this`cycles, this`ops
      ensures View() == Released(old(View()), c)
    {
      Destroy(c);
      cycles := cycles - {c};
      assert cycles == old(cycles) - {c};
    }

    /** Take a cycle out of the count of those being filled. */
    method Unfill(c: nat)
      requires c in cycles && cycles[c].device in peers && peers[cycles[c].device].unready > 0
      modifies this`cycles, this`peers
      ensures View() == Moves.Unfill(old(View()), c)
    {
      var d := cycles[c].device;
      peers := peers[d := peers[d].(unready := peers[d].unready - 1)];
      cycles := cycles[c := cycles[c].(stage := Limbo)];
    }

    method Abort(c: nat)
      requires Good(View()) && c in cycles && cycles[c].stage == Filling
      modifies this`cycles, this`ops, this`peers, this`aborted
      ensures View() == Protocol.Abort(old(View()), c)
    {
      hide Good;
      UnfillGood(View(), c);
      DeadEmpty(View(), c);
      Unfill(c);
      aborted := aborted + {cycles[c].id};
      Release(c);
    }

    /** Reverse the operations so that the oldest is first, and queue the cycle to its device. */
    method Close(c: nat, checked: bool)
      requires Good(View()) && c in cycles && cycles[c].stage == Filling
      modifies this`cycles, this`peers
      ensures View() == Protocol.Close(old(View()), c, checked)
    {
      hide Good;
      UnfillGood(View(), c);
      Unfill(c);
      if cycles[c].head != c {
        var chain := Turned(cycles[c].chain);
        cycles := cycles[c := cycles[c].(head := At(chain, 0), chain := chain, checked := checked)];
      }
      var d := cycles[c].device;
      peers := peers[d := peers[d].(tag := c, ready := [c] + peers[d].ready)];
      cycles := cycles[c := cycles[c].(stage := Ready)];
    }

    /** Call a cycle back and free it. */
    method CallBack(c: nat, handed: nat, status: Status)
      requires c in cycles && (cycles[c].head == c ==> cycles[c].chain == [])
      modifies this`cycles, this`ops, this`log
      ensures View() == Moves.CallBack(old(View()), c, handed, status)
    {
      log := log + [Report(cycles[c].id, handed, status)];
      Release(c);
    }

    /** Call back the cycle of a response in flight and free both. */
    method Finish(k: nat, status: Status)
      requires Good(View()) && k < |queue|
      modifies this`cycles, this`ops, this`log, this`queue, this`responses
      ensures View() == Protocol.Finish(old(View()), k, status)
    {
      hide Good;
      LandGood(View(), k);
      DeadEmpty(View(), queue[k].cycle);
      var h := queue[k];
      queue, responses := LeftOut(queue, k), responses - {h.slot};
      cycles := cycles[h.cycle := cycles[h.cycle].(stage := Limbo)];
      CallBack(h.cycle, cycles[h.cycle].head, status);
    }

    /** Kill everything in flight for a device, oldest first. */
    method KillInflight(d: nat)
      requires Good(View())
      modifies this`cycles, this`ops, this`log, this`queue, this`responses
      ensures View() == KillFlying(old(View()), d)
    {
      hide Good, KillFlying, KillAll, AllLimbo, Killed, FirstOf, Protocol.Finish, Protocol.CloseDevice, RemovePeer,
          Moves.CallBack, Moves.Withdraw, Distinct;
      ghost var s := View();
      var i := 0;
      while i < |queue|
        invariant Good(View()) && i <= FirstOf(queue, cycles, d) && KillFlying(View(), d) == KillFlying(s, d)
        decreases |queue|, |queue| - i
      {
        KillFlyingStep(View(), d);
        LookAt(View(), i, d);
        var c := queue[i].cycle;
        if cycles[c].device == d {
          Finish(i, Timeout);
        } else {
          i := i + 1;
        }
      }
      KillFlyingStep(View(), d);
      NothingLeft(View(), d);
    }

    /** Close a device: refuse while cycles are being filled; otherwise close it to new ones, kill
        what is in flight and then what is ready, oldest first, and unlink it. */
    method CloseDevice(d: nat) returns (status: Status)
      requires Good(View()) && d in peers
      modifies this
      ensures (View(), status) == Protocol.CloseDevice(old(View()), d)
    {
      hide Good, KillFlying, KillAll, AllLimbo, Killed, FirstOf, Protocol.Finish, Protocol.CloseDevice, RemovePeer,
          Moves.CallBack, Moves.Withdraw, Distinct;
      ghost var s := View();
      CloseCases(s, d);
      if peers[d].unready != 0 {
        return Busy;
      }
      var first := [];
      if peers[d].tag != d {
        first := peers[d].ready;
        Withdraw(d);
        ReadyList(s, d);
        KilledParts(View(), KillFlying(View(), d), FlyingOf(cycles, d));
        KillInflight(d);
      }
      var cs := Turned(first);
      KillAllSound(View(), cs);
      KilledParts(View(), KillAll(View(), cs), Members(cs));
      KillReady(cs);
      Unlink(d);
      status := Ok;
    }

    method Withdraw(d: nat)
      requires d in peers
      modifies this`peers, this`cycles, this`passive
      ensures View() == Moves.Withdraw(old(View()), d)
    {
      var ready := peers[d].ready;
      peers := peers[d := peers[d].(tag := d, ready := [])];
      cycles := map c | c in cycles :: if c in ready then cycles[c].(stage := Limbo) else cycles[c];
      passive := passive + {d};
    }

    /** Call back cycles that were never sent. */
    method KillReady(cs: seq<nat>)
      requires Good(View()) && AllLimbo(cycles, cs)
      modifies this`cycles, this`ops, this`log
      ensures View() == KillAll(old(View()), cs)
    {
      hide Good, KillFlying, KillAll, AllLimbo, Killed, FirstOf, Protocol.Finish, Protocol.CloseDevice, RemovePeer,
          Moves.CallBack, Moves.Withdraw, Distinct;
      ghost var s := View();
      var rest := cs;
      while rest != []
        invariant Good(View()) && AllLimbo(cycles, rest) && KillAll(View(), rest) == KillAll(s, cs)
        decreases |rest|
      {
        KillAllStep(View(), rest);
        DeadEmpty(View(), rest[0]);
        KilledParts(View(), Moves.CallBack(View(), rest[0], cycles[rest[0]].head, Timeout), {rest[0]});
        CallBack(rest[0], cycles[rest[0]].head, Timeout);
        rest := rest[1..];
      }
      KillNone(View());
    }

    /** Find the device in the list of open ones, take it out and free it. */
    method Unlink(d: nat)
      requires Distinct(devices)
      modifies this`devices, this`peers, this`passive
      ensures View() == RemovePeer(old(View()), d)
    {
      hide Distinct, Select;
      var i := 0;
      while i < |devices| && devices[i] != d
        invariant 0 <= i <= |devices| && d !in devices[..i]
      {
        assert devices[..i + 1] == devices[..i] + [devices[i]];
        i := i + 1;
      }
      SelectOthers(devices, i, d);
      if i < |devices| {
        devices := devices[..i] + devices[i + 1..];
      }
      peers := peers - {d};
      passive := passive - {d};
    }
  }

  /** A cycle without its operations. */
  function Cut(s: State, c: nat): State
    requires c in s.cycles
  {
    s.(ops := s.ops - Chain(s, c), cycles := s.cycles[c := s.cycles[c].(head := NULL, chain := [])])
  }

  lemma FreeOne(ops: map<nat, Operation>, chain: seq<nat>, i: nat)
    requires i < |chain|
    ensures (ops - Members(chain[..i])) - {chain[i]} == ops - Members(chain[..i + 1])
  {
    assert chain[..i + 1] == chain[..i] + [chain[i]];
  }

  lemma DeadEmpty(s: State, c: nat)
    requires Good(s) && c in s.cycles
    ensures s.cycles[c].head == c ==> s.cycles[c].chain == []
  {
    DeadTag(s, c);
    assert ChainOk(c, s.cycles[c], s.ops, s.dead);
  }

  /** Looking at the `i`-th response, none before it being the device's. */
  lemma LookAt(s: State, i: nat, d: nat)
    requires Good(s) && i < |s.queue| && i <= FirstOf(s.queue, s.cycles, d)
    ensures s.queue[i].cycle in s.cycles
    ensures s.cycles[s.queue[i].cycle].device == d <==> FirstOf(s.queue, s.cycles, d) == i
    ensures var t := Protocol.Finish(s, i, Timeout);
            Good(t) && |t.queue| < |s.queue| && i <= FirstOf(t.queue, t.cycles, d)
  {
    hide Homes, Fates, Chains, InOrder, Apart, Listed;
    FinishSound(s, i, Timeout);
    var t, k := Protocol.Finish(s, i, Timeout), FirstOf(s.queue, s.cycles, d);
    assert forall j :: 0 <= j < i ==> t.queue[j] == s.queue[j];
  }

  lemma NothingLeft(s: State, d: nat)
    requires FirstOf(s.queue, s.cycles, d) >= |s.queue|
    ensures FirstOf(s.queue, s.cycles, d) == |s.queue|
  {
  }

  /** The courses closing a device can take. */
  lemma CloseCases(s: State, d: nat)
    requires Good(s) && d in s.peers
    ensures Distinct(s.devices)
    ensures s.peers[d].unready != 0 ==> Protocol.CloseDevice(s, d) == (s, Busy)
    ensures s.peers[d].unready == 0 ==>
              if s.peers[d].tag == d then
                && AllLimbo(s.cycles, Reverse([]))
                && Protocol.CloseDevice(s, d) == (RemovePeer(KillAll(s, Reverse([])), d), Ok)
              else
                && Good(Moves.Withdraw(s, d))
                && AllLimbo(KillFlying(Moves.Withdraw(s, d), d).cycles, Reverse(s.peers[d].ready))
                && Moves.Withdraw(s, d).devices == s.devices
                && Protocol.CloseDevice(s, d)
                    == (RemovePeer(KillAll(KillFlying(Moves.Withdraw(s, d), d), Reverse(s.peers[d].ready)), d), Ok)
  {
    hide Moves.Withdraw, KillFlying, KillAll, RemovePeer, AllLimbo, Protocol.CloseDevice, Good, Distinct;
    ListedDistinct(s);
    if s.peers[d].unready == 0 && s.peers[d].tag != d {
      CloseSteps(s, d);
      WithdrawDevices(s, d);
    } else {
      ClosePassive(s, d);
    }
  }

  lemma ListedDistinct(s: State)
    requires Good(s)
    ensures Distinct(s.devices)
  {
    hide Homes, Fates, Chains, InOrder, Apart;
  }

  lemma WithdrawDevices(s: State, d: nat)
    requires d in s.peers
    ensures Moves.Withdraw(s, d).devices == s.devices
  {
  }

  lemma ClosePassive(s: State, d: nat)
    requires Good(s) && d in s.peers && (s.peers[d].unready != 0 || s.peers[d].tag == d)
    ensures AllLimbo(s.cycles, Reverse([])) && KillAll(s, Reverse([])) == s
    ensures Protocol.CloseDevice(s, d) == if s.peers[d].unready != 0 then (s, Busy) else (RemovePeer(s, d), Ok)
  {
    hide Good, RemovePeer, KillFlying, Moves.Withdraw;
  }

  lemma SelectOthers(s: seq<nat>, i: nat, d: nat)
    requires Distinct(s) && i <= |s| && d !in s[..i] && (i < |s| ==> s[i] == d)
    ensures Select(s, (e: nat) => e != d) == if i < |s| then s[..i] + s[i + 1..] else s
  {
    if i < |s| {
      OnlyOnce(s, i);
    } else {
      assert s[..i] == s;
    }
    hide Distinct;
    SelectOut(s, i, d, (e: nat) => e != d);
  }

  lemma OnlyOnce(s: seq<nat>, i: nat)
    requires Distinct(s) && i < |s|
    ensures s[i] !in s[i + 1..]
  {
  }

  lemma SelectOut(s: seq<nat>, i: nat, d: nat, f: nat -> bool)
    requires forall x :: f(x) <==> x != d
    requires i <= |s| && d !in s[..i] && (i < |s| ==> s[i] == d && d !in s[i + 1..])
    ensures Select(s, f) == if i < |s| then s[..i] + s[i + 1..] else s
  {
    hide Select, LeftOut;
    if i < |s| {
      Around(s, i);
      SelectAllBut(s[..i], d, s[i + 1..], f);
    } else {
      assert s[..i] == s;
      SelectAll(s, f);
    }
  }

  lemma SelectAllBut(a: seq<nat>, d: nat, b: seq<nat>, f: nat -> bool)
    requires !f(d) && (forall x :: x in a ==> f(x)) && forall x :: x in b ==> f(x)
    ensures Select(a + ([d] + b), f) == a + b
  {
    hide Select;
    SelectAll(a, f);
    SelectAll(b, f);
    SelectAround(a, d, b, f);
  }
}
