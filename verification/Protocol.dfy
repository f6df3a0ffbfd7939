/** The operations on cycles and devices, and what holds in every state any run of them reaches. */
module Protocol {
  import opened Widths
  import opened Format
  import opened Lists
  import opened Master
  import opened ReadWrite
  import opened EndToEnd
  import opened Flush
  import opened Replies
  import opened Lifecycle
  import opened Moves

  /** No passive device has cycles. */
  ghost predicate Quiet(s: State) {
    forall c :: c in s.cycles ==> s.cycles[c].device !in s.passive
  }

  /** What holds between operations. */
  ghost predicate Sound(s: State) {
    Good(s) && Settled(s) && Quiet(s)
  }

  /** Callbacks are only ever added, and aborted cycles stay aborted. */
  predicate History(s: State, t: State) {
    s.log <= t.log && s.count <= t.count && s.aborted <= t.aborted
  }

  /* ---------- filling ---------- */

  /** `slot` is the pool's answer to each allocation, `NULL` when there is no memory. */
  function OpenCycle(s: State, d: nat, slot: nat): (State, Status, nat)
    requires d in s.peers
  {
    if slot == NULL then (s, OutOfMemory, NULL)
    else if s.peers[d].tag == d then (s, Fail, NULL)
    else (Fill(Born(s, slot, d), slot), Ok, slot)
  }

  lemma PassiveTag(s: State, d: nat)
    requires Good(s) && d in s.peers
    ensures s.peers[d].tag == d <==> d in s.passive
    ensures s.peers[d].tag == NULL || s.peers[d].tag == d || s.peers[d].tag in s.cycles
  {
    var dev := s.peers[d];
    assert PeerOk(d, dev, s.cycles, s.passive);
    if d !in s.passive && dev.ready != [] {
      assert dev.ready[0] in s.cycles;
      assert d !in s.cycles.Keys;
    }
  }

  lemma DeadTag(s: State, c: nat)
    requires Good(s) && c in s.cycles
    ensures s.cycles[c].head == c <==> s.cycles[c].id in s.dead
    ensures s.cycles[c].head == NULL || s.cycles[c].head == c || s.cycles[c].head in s.ops
  {
    var cyc := s.cycles[c];
    assert ChainOk(c, cyc, s.ops, s.dead);
    if cyc.id !in s.dead && cyc.chain != [] {
      assert cyc.chain[0] in s.ops;
      assert c !in s.ops.Keys;
    }
  }

  lemma OpenCycleSound(s: State, d: nat, slot: nat)
    requires Sound(s) && d in s.peers && (slot == NULL || Unused(s, slot))
    ensures var (t, status, c) := OpenCycle(s, d, slot);
            && Sound(t) && History(s, t)
            && (status == Ok <==> slot != NULL && d !in s.passive)
            && (status != Ok ==> t == s && c == NULL)
            && (status != Ok ==> status == if slot == NULL then OutOfMemory else Fail)
            && (status == Ok ==> c == slot && c !in s.cycles && t.cycles.Keys == s.cycles.Keys + {c})
            && (status == Ok ==> t.cycles[c] == Cycle(s.count, NULL, [], d, Filling, false) && t.count == s.count + 1)
  {
    hide Homes, Fates, Chains, InOrder, Apart, Listed, Limbos;
    PassiveTag(s, d);
    if slot != NULL && d !in s.passive {
      BornGood(s, slot, d);
      FillGood(Born(s, slot, d), slot);
      hide Good;
      SettledIff(s);
      SettledIff(Fill(Born(s, slot, d), slot));
    }
  }

  function Enqueue(s: State, c: nat, slot: nat, request: Request): State
    requires c in s.cycles
  {
    if slot == NULL then Exhaust(s, c)
    else if s.cycles[c].head == c then s
    else Push(s, c, slot, request)
  }

  lemma EnqueueSound(s: State, c: nat, slot: nat, request: Request)
    requires Sound(s) && c in s.cycles && s.cycles[c].stage == Filling && (slot == NULL || Unused(s, slot))
    ensures Sound(Enqueue(s, c, slot, request)) && History(s, Enqueue(s, c, slot, request))
  {
    hide Homes, Fates, Chains, InOrder, Apart, Listed, Limbos;
    var t := Enqueue(s, c, slot, request);
    DeadTag(s, c);
    if slot == NULL {
      ExhaustGood(s, c);
    } else if s.cycles[c].head != c {
      PushGood(s, c, slot, request);
    }
    hide Good;
    SettledIff(s);
    SettledIff(t);
  }

  function Abort(s: State, c: nat): State
    requires Good(s) && c in s.cycles && s.cycles[c].stage == Filling
  {
    UnfillGood(s, c);
    Discarded(Unfill(s, c), c)
  }

  lemma AbortSound(s: State, c: nat)
    requires Sound(s) && c in s.cycles && s.cycles[c].stage == Filling
    ensures Sound(Abort(s, c)) && History(s, Abort(s, c)) && s.cycles[c].id in Abort(s, c).aborted
  {
    hide Homes, Fates, Chains, InOrder, Apart, Listed, Limbos;
    UnfillGood(s, c);
    DiscardedGood(Unfill(s, c), c);
    hide Good;
    SettledIff(s);
    SettledIff(Abort(s, c));
  }

  /** Put the operations in order and the cycle in its device's ready list. */
  function Close(s: State, c: nat, checked: bool): State
    requires Good(s) && c in s.cycles && s.cycles[c].stage == Filling
  {
    UnfillGood(s, c);
    var t := Unfill(s, c);
    Enlist(if s.cycles[c].head == c then t else Turn(t, c, checked), c)
  }

  lemma CloseSound(s: State, c: nat, checked: bool)
    requires Sound(s) && c in s.cycles && s.cycles[c].stage == Filling
    ensures Sound(Close(s, c, checked)) && History(s, Close(s, c, checked))
  {
    hide Homes, Fates, Chains, InOrder, Apart, Listed, Limbos;
    UnfillGood(s, c);
    var t := Unfill(s, c);
    DeadTag(s, c);
    if s.cycles[c].head != c {
      TurnGood(t, c, checked);
      EnlistGood(Turn(t, c, checked), c);
    } else {
      EnlistGood(t, c);
    }
    hide Good;
    SettledIff(s);
    SettledIff(Close(s, c, checked));
  }

  /* ---------- sending ---------- */

  ghost predicate Chained(s: State, c: nat) {
    c in s.cycles && forall i :: 0 <= i < |s.cycles[c].chain| ==> s.cycles[c].chain[i] in s.ops
  }

  lemma GoodChained(s: State, c: nat)
    requires Good(s) && c in s.cycles
    ensures Chained(s, c)
  {
    assert ChainOk(c, s.cycles[c], s.ops, s.dead);
  }

  /** A ready cycle as flushing sees it. */
  function QueuedOf(s: State, c: nat): Queued
    requires Chained(s, c)
  {
    var cyc := s.cycles[c];
    Queued(cyc.id, cyc.head == c,
           seq(|cyc.chain|, i requires 0 <= i < |cyc.chain| => s.ops[cyc.chain[i]].request), cyc.checked)
  }

  function Handed(chain: seq<nat>, op: Option<nat>): nat {
    match op
    case None => NULL
    case Some(i) => At(chain, i)
  }

  /** The response set up for a cycle. */
  function Flight(s: State, c: nat, d: nat): InFlight
    requires Chained(s, c) && d in s.peers
  {
    InFlight(s.cycles[c].id, s.rba, Deadline(s.time),
        Start(s.cycles[c].checked, Ops(s.peers[d].port, QueuedOf(s, c).requests)))
  }

  /** Flush one cycle: the device's oldest ready one. */
  function Send(s: State, d: nat, slot: nat): State
    requires Good(s) && d in s.peers && s.peers[d].ready != []
  {
    TakeGood(s, d);
    var c, t := Oldest(s, d), Take(s, d);
    GoodChained(t, c);
    match FateOf(s.peers[d].port, s.peers[d].mtu, s.rba, slot != NULL, QueuedOf(t, c))
    case Reported(op, status) => CallBack(t, c, Handed(t.cycles[c].chain, op), status)
    case Completed(_) => CallBack(t, c, At(t.cycles[c].chain, 0), Ok)
    case Awaiting(_) => Launch(t, Held(slot, c, Flight(t, c, d)))
  }

  lemma SendSound(s: State, d: nat, slot: nat)
    requires Sound(s) && d in s.peers && s.peers[d].ready != [] && (slot == NULL || Unused(s, slot))
    ensures Sound(Send(s, d, slot)) && History(s, Send(s, d, slot))
  {
    hide Homes, Fates, Chains, InOrder, Apart, Listed, Limbos;
    TakeGood(s, d);
    var c, t := Oldest(s, d), Take(s, d);
    GoodChained(t, c);
    KeysSame(s.peers, d, t.peers[d], {});
    match FateOf(s.peers[d].port, s.peers[d].mtu, s.rba, slot != NULL, QueuedOf(t, c))
    case Reported(op, status) => CallBackGood(t, c, Handed(t.cycles[c].chain, op), status);
    case Completed(_) => CallBackGood(t, c, At(t.cycles[c].chain, 0), Ok);
    case Awaiting(_) => LaunchGood(t, Held(slot, c, Flight(t, c, d)));
    hide Good, FateOf;
    SettledIff(s);
    SettledIff(Send(s, d, slot));
  }

  /* ---------- answers and timeouts ---------- */

  /** What the smaller map holds, the larger holds too. */
  ghost predicate Within<V>(a: map<nat, V>, b: map<nat, V>) { forall x :: x in a ==> x in b && b[x] == a[x] }

  /** Call back the cycle of the `k`-th response in flight; both go back to the pool. */
  function Finish(s: State, k: nat, status: Status): State
    requires Good(s) && k < |s.queue|
  {
    LandGood(s, k);
    var c := s.queue[k].cycle;
    CallBack(Land(s, k), c, s.cycles[c].head, status)
  }

  lemma FinishSound(s: State, k: nat, status: Status)
    requires Good(s) && k < |s.queue|
    ensures var c, t := s.queue[k].cycle, Finish(s, k, status);
            && c in s.cycles && s.cycles[c].stage == Flying && s.cycles[c].id == s.queue[k].entry.id
            && Good(t) && Limbos(t.cycles) == Limbos(s.cycles) - {c} && History(s, t)
            && t.cycles == s.cycles - {c} && t.queue == LeftOut(s.queue, k) && t.peers == s.peers
            && Within(t.ops, s.ops) && Within(t.responses, s.responses) && t.count == s.count && t.rba == s.rba
            && t.dead == s.dead
            && t.log == s.log + [Report(s.queue[k].entry.id, s.cycles[c].head, status)]
            && (Settled(s) ==> Settled(t)) && (Quiet(s) ==> Quiet(t))
  {
    hide Homes, Fates, Chains, InOrder, Apart, Listed, LeftOut;
    LandGood(s, k);
    var c, u := s.queue[k].cycle, Land(s, k);
    CallBackGood(u, c, s.cycles[c].head, status);
    assert u.cycles - {c} == s.cycles - {c};
    hide Good;
  }

  /** A write-back arrives. */
  function Answer(s: State, size: nat, addr: nat, value: nat): State
    requires Good(s)
  {
    var k := Find(Entries(s.queue), TargetOf(addr));
    if k == |s.queue| then s
    else
      HeldIs(s.queue, s.responses, s.cycles, k);
      var step := Apply(s.queue[k].entry.response, size, addr, value);
      ApplyKeepsOps(s.queue[k].entry.response, size, addr, value);
      UpdateGood(s, k, step.r);
      var t := Update(s, k, step.r);
      if step.done.None? then t else Finish(t, k, step.done.value)
  }

  function Entries(q: seq<Held>): (r: seq<InFlight>)
    ensures |r| == |q| && forall k :: 0 <= k < |q| ==> r[k] == q[k].entry
  {
    seq(|q|, k requires 0 <= k < |q| => q[k].entry)
  }

  lemma EntriesCursors(s: State)
    requires Good(s)
    ensures AllCursors(Entries(s.queue))
  {
    forall e | e in Entries(s.queue) ensures Cursors(e.response) {
      var k :| 0 <= k < |s.queue| && Entries(s.queue)[k] == e;
      HeldIs(s.queue, s.responses, s.cycles, k);
    }
  }

  /** An answer does to the responses in flight what `Deliver` says, and makes exactly the
      callback that one says. */
  lemma AnswerSound(s: State, size: nat, addr: nat, value: nat)
    requires Sound(s)
    ensures var t := Answer(s, size, addr, value);
            && Sound(t) && History(s, t) && AllCursors(Entries(s.queue))
            && var (q, done) := Deliver(Entries(s.queue), size, addr, value);
            && Entries(t.queue) == q
            && match done
               case None => t.log == s.log
               case Some(f) => |t.log| == |s.log| + 1 && t.log[|s.log|].id == f.id && t.log[|s.log|].status == f.status
  {
    hide Homes, Fates, Chains, InOrder, Apart, Listed, LeftOut, Apply, TargetOf;
    EntriesCursors(s);
    DeliverCases(Entries(s.queue), size, addr, value);
    AnswerCases(s, size, addr, value);
    var k := Find(Entries(s.queue), TargetOf(addr));
    if k < |s.queue| {
      HeldIs(s.queue, s.responses, s.cycles, k);
      var step := Apply(s.queue[k].entry.response, size, addr, value);
      var t := Update(s, k, step.r);
      if step.done.Some? {
        FinishSound(t, k, step.done.value);
        EntriesLeft(t.queue, k);
      }
      hide Good, Update, Finish, Deliver, Settled, Quiet, Apply, Answer;
    }
  }

  /** The response found makes progress, and its cycle is called back when it is done. */
  lemma AnswerCases(s: State, size: nat, addr: nat, value: nat)
    requires Sound(s)
    ensures var k := Find(Entries(s.queue), TargetOf(addr));
            if k == |s.queue| then Answer(s, size, addr, value) == s
            else
              && Cursors(s.queue[k].entry.response)
              && var step := Apply(s.queue[k].entry.response, size, addr, value);
              var t := Update(s, k, step.r);
              && Sound(t) && t.log == s.log && History(s, t)
              && Entries(t.queue) == Entries(s.queue)[k := Entries(s.queue)[k].(response := step.r)]
              && Answer(s, size, addr, value) == if step.done.None? then t else Finish(t, k, step.done.value)
  {
    hide Homes, Fates, Chains, InOrder, Apart, Listed, LeftOut, Apply, TargetOf;
    var k := Find(Entries(s.queue), TargetOf(addr));
    if k < |s.queue| {
      HeldIs(s.queue, s.responses, s.cycles, k);
      var step := Apply(s.queue[k].entry.response, size, addr, value);
      ApplyKeepsOps(s.queue[k].entry.response, size, addr, value);
      UpdateGood(s, k, step.r);
      var t := Update(s, k, step.r);
      assert Entries(t.queue) == Entries(s.queue)[k := Entries(s.queue)[k].(response := step.r)];
      assert Quiet(t) && Settled(t);
    }
  }

  lemma EntriesLeft(q: seq<Held>, k: nat)
    requires k < |q|
    ensures Entries(LeftOut(q, k)) == Entries(q)[..k] + Entries(q)[k + 1..]
  {
  }

  /** The oldest response in flight expires. */
  function Expire(s: State): State
    requires Good(s) && s.queue != []
  {
    Finish(s, 0, Timeout)
  }

  /* ---------- closing a device ---------- */

  /** Position of the oldest response in flight whose cycle belongs to the device. */
  function FirstOf(queue: seq<Held>, cycles: map<nat, Cycle>, d: nat): (k: nat)
    ensures k <= |queue|
    ensures k < |queue| ==> queue[k].cycle in cycles && cycles[queue[k].cycle].device == d
    ensures forall j :: 0 <= j < k ==> !(queue[j].cycle in cycles && cycles[queue[j].cycle].device == d)
  {
    if queue == [] then 0
    else if queue[0].cycle in cycles && cycles[queue[0].cycle].device == d then 0
    else 1 + FirstOf(queue[1..], cycles, d)
  }

  /** Kill everything in flight for a device, oldest first. */
  function KillFlying(s: State, d: nat): State
    requires Good(s)
    decreases |s.queue|
  {
    var k := FirstOf(s.queue, s.cycles, d);
    if k == |s.queue| then s
    else
      FinishSound(s, k, Timeout);
      KillFlying(Finish(s, k, Timeout), d)
  }

  function FlyingOf(cycles: map<nat, Cycle>, d: nat): set<nat> {
    set c | c in cycles && cycles[c].stage == Flying && cycles[c].device == d
  }

  /** The cycles `gone` have been called back; everything else is as it was. */
  ghost predicate Killed(s: State, t: State, gone: set<nat>) {
    && Good(t) && History(s, t) && t.peers == s.peers && t.passive == s.passive && t.aborted == s.aborted
    && t.devices == s.devices && t.cycles == s.cycles - gone
    && Within(t.ops, s.ops) && Within(t.responses, s.responses) && t.count == s.count && t.rba == s.rba
    && t.dead == s.dead
  }

  lemma KilledTrans(s: State, t: State, u: State, a: set<nat>, b: set<nat>)
    requires Killed(s, t, a) && Killed(t, u, b)
    ensures Killed(s, u, a + b)
  {
    hide Good;
    assert s.cycles - (a + b) == (s.cycles - a) - b;
  }

  lemma KilledNone(s: State, d: nat)
    requires Good(s) && FirstOf(s.queue, s.cycles, d) == |s.queue|
    ensures Killed(s, s, FlyingOf(s.cycles, d))
  {
    hide Good;
    NoneFlying(s, d);
    assert FlyingOf(s.cycles, d) == {};
    assert s.cycles - {} == s.cycles;
  }

  lemma KilledOne(s: State, d: nat)
    requires Good(s) && FirstOf(s.queue, s.cycles, d) < |s.queue|
    ensures var k := FirstOf(s.queue, s.cycles, d);
            var u := Finish(s, k, Timeout);
            && Good(u) && |u.queue| < |s.queue| && KillFlying(s, d) == KillFlying(u, d)
            && Killed(s, u, {s.queue[k].cycle})
            && {s.queue[k].cycle} + FlyingOf(u.cycles, d) == FlyingOf(s.cycles, d)
  {
    hide Homes, Fates, Chains, InOrder, Apart, Listed, Limbos, LeftOut;
    var k := FirstOf(s.queue, s.cycles, d);
    FinishSound(s, k, Timeout);
    KillFlyingStep(s, d);
    FlyingWithout(s.cycles, d, s.queue[k].cycle);
  }

  lemma FlyingWithout(cycles: map<nat, Cycle>, d: nat, c: nat)
    requires c in FlyingOf(cycles, d)
    ensures {c} + FlyingOf(cycles - {c}, d) == FlyingOf(cycles, d)
  {
  }

  lemma {:induction false} KillFlyingSound(s: State, d: nat)
    requires Good(s)
    ensures Killed(s, KillFlying(s, d), FlyingOf(s.cycles, d))
    decreases |s.queue|
  {
    hide *;
    var k := FirstOf(s.queue, s.cycles, d);
    if k == |s.queue| {
      KilledNone(s, d);
      KillFlyingStep(s, d);
    } else {
      KilledOne(s, d);
      var u := Finish(s, k, Timeout);
      KillFlyingSound(u, d);
      KilledTrans(s, u, KillFlying(u, d), {s.queue[k].cycle}, FlyingOf(u.cycles, d));
    }
  }

  lemma KillFlyingStep(s: State, d: nat)
    requires Good(s)
    ensures var k := FirstOf(s.queue, s.cycles, d);
            if k == |s.queue| then KillFlying(s, d) == s
            else Good(Finish(s, k, Timeout)) && KillFlying(s, d) == KillFlying(Finish(s, k, Timeout), d)
  {
    var k := FirstOf(s.queue, s.cycles, d);
    if k < |s.queue| {
      FinishSound(s, k, Timeout);
    }
  }

  lemma NoneFlying(s: State, d: nat)
    requires Good(s) && FirstOf(s.queue, s.cycles, d) == |s.queue|
    ensures forall c :: c in s.cycles && s.cycles[c].stage == Flying ==> s.cycles[c].device != d
  {
    forall c | c in s.cycles && s.cycles[c].stage == Flying ensures s.cycles[c].device != d {
      assert HasCycle(s.queue, c);
      var k :| 0 <= k < |s.queue| && s.queue[k].cycle == c;
    }
  }

  /** Call back cycles in order. */
  function KillAll(s: State, cs: seq<nat>): State
    requires AllLimbo(s.cycles, cs)
    decreases |cs|
  {
    if cs == [] then s
    else
      LimboRest(s.cycles, cs);
      KillAll(CallBack(s, cs[0], s.cycles[cs[0]].head, Timeout), cs[1..])
  }

  /** The callbacks made for cycles killed before they were sent. */
  function Killings(cycles: map<nat, Cycle>, cs: seq<nat>): (r: seq<Report>)
    requires forall c :: c in cs ==> c in cycles
    ensures |r| == |cs|
    ensures forall i :: 0 <= i < |cs| ==>
              cs[i] in cycles && r[i] == Report(cycles[cs[i]].id, cycles[cs[i]].head, Timeout)
  {
    if cs == [] then []
    else
      assert cs[0] in cs;
      [Report(cycles[cs[0]].id, cycles[cs[0]].head, Timeout)] + Killings(cycles, cs[1..])
  }

  lemma {:induction false} KillingsSame(a: map<nat, Cycle>, b: map<nat, Cycle>, cs: seq<nat>)
    requires forall c :: c in cs ==> c in a && c in b && a[c].id == b[c].id && a[c].head == b[c].head
    ensures Killings(a, cs) == Killings(b, cs)
  {
    if cs != [] {
      assert cs[0] in cs;
      KillingsSame(a, b, cs[1..]);
    }
  }

  function Members(cs: seq<nat>): set<nat> {
    set c | c in cs
  }

  ghost predicate AllLimbo(cycles: map<nat, Cycle>, cs: seq<nat>) {
    Distinct(cs) && forall c :: c in cs ==> c in cycles && cycles[c].stage == Limbo
  }

  lemma LimboRest(cycles: map<nat, Cycle>, cs: seq<nat>)
    requires AllLimbo(cycles, cs) && cs != []
    ensures cs[0] in cycles && cycles[cs[0]].stage == Limbo && AllLimbo(cycles - {cs[0]}, cs[1..])
    ensures forall c :: c in cs[1..] ==> c in cycles && c != cs[0]
    ensures Members(cs) == {cs[0]} + Members(cs[1..])
  {
    assert cs[0] in cs;
    var rest := cs[1..];
    assert cs == [cs[0]] + rest;
    forall c | c in rest ensures c in cycles && c != cs[0] {
      var i :| 0 <= i < |rest| && rest[i] == c;
      assert cs[0] != cs[i + 1];
    }
  }

  lemma KillAllStep(s: State, cs: seq<nat>)
    requires Good(s) && AllLimbo(s.cycles, cs) && cs != []
    ensures cs[0] in s.cycles && s.cycles[cs[0]].stage == Limbo && AllLimbo(s.cycles - {cs[0]}, cs[1..])
    ensures forall c :: c in cs ==> c in s.cycles
    ensures forall c :: c in cs[1..] ==> c in s.cycles && c != cs[0]
    ensures Members(cs) == {cs[0]} + Members(cs[1..])
    ensures var u := CallBack(s, cs[0], s.cycles[cs[0]].head, Timeout);
            && Killed(s, u, {cs[0]}) && KillAll(s, cs) == KillAll(u, cs[1..])
            && u.log == s.log + [Killings(s.cycles, cs)[0]]
  {
    hide Homes, Fates, Chains, InOrder, Apart, Listed, Limbos;
    LimboRest(s.cycles, cs);
    CallBackGood(s, cs[0], s.cycles[cs[0]].head, Timeout);
  }

  lemma KillingsStep(a: map<nat, Cycle>, b: map<nat, Cycle>, cs: seq<nat>)
    requires cs != [] && (forall c :: c in cs ==> c in a) && forall c :: c in cs[1..] ==>
              c in b && c in a && b[c] == a[c]
    ensures Killings(a, cs) == [Killings(a, cs)[0]] + Killings(b, cs[1..])
  {
    KillingsSame(a, b, cs[1..]);
  }

  lemma KilledKeeps(s: State, t: State, gone: set<nat>, c: nat)
    requires Killed(s, t, gone) && c in s.cycles && c !in gone
    ensures c in t.cycles && t.cycles[c] == s.cycles[c]
  {
    hide Good;
  }

  lemma KilledParts(s: State, t: State, gone: set<nat>)
    requires Killed(s, t, gone)
    ensures Good(t) && t.cycles == s.cycles - gone && History(s, t) && t.devices == s.devices
  {
    hide Good;
  }

  lemma KillNone(s: State)
    requires Good(s)
    ensures AllLimbo(s.cycles, []) && KillAll(s, []) == s && Killed(s, s, Members([]))
         && s.log + Killings(s.cycles, []) == s.log
  {
    hide Good;
    assert s.cycles - {} == s.cycles;
  }

  lemma LimboIn(cycles: map<nat, Cycle>, cs: seq<nat>)
    requires AllLimbo(cycles, cs)
    ensures forall c :: c in cs ==> c in cycles && cycles[c].stage == Limbo
  {
  }

  lemma {:induction false} KillAllSound(s: State, cs: seq<nat>)
    requires Good(s) && AllLimbo(s.cycles, cs)
    ensures forall c :: c in cs ==> c in s.cycles
    ensures Killed(s, KillAll(s, cs), Members(cs)) && KillAll(s, cs).log == s.log + Killings(s.cycles, cs)
    decreases |cs|
  {
    hide *;
    LimboIn(s.cycles, cs);
    if cs == [] {
      KillNone(s);
    } else {
      KillAllStep(s, cs);
      var rest, u := cs[1..], CallBack(s, cs[0], s.cycles[cs[0]].head, Timeout);
      KilledParts(s, u, {cs[0]});
      KillAllSound(u, rest);
      KillingsStep(s.cycles, u.cycles, cs);
      KilledTrans(s, u, KillAll(u, rest), {cs[0]}, Members(rest));
    }
  }

  /** Close a device: kill what is in flight for it, then what is waiting to be sent, and forget
      it. Refused while cycles are being filled. */
  function CloseDevice(s: State, d: nat): (State, Status)
    requires Good(s) && d in s.peers
  {
    var dev := s.peers[d];
    if dev.unready != 0 then (s, Busy)
    else if dev.tag == d then (RemovePeer(s, d), Ok)
    else
      WithdrawGood(s, d);
      var t := KillFlying(Withdraw(s, d), d);
      KillFlyingSound(Withdraw(s, d), d);
      ReadyList(s, d);
      (RemovePeer(KillAll(t, Reverse(dev.ready)), d), Ok)
  }

  /** The ready cycles survive the killing of those in flight. */
  lemma ReadyList(s: State, d: nat)
    requires Good(s) && d in s.peers && s.peers[d].unready == 0
    ensures Good(Withdraw(s, d))
    ensures Killed(Withdraw(s, d), KillFlying(Withdraw(s, d), d), FlyingOf(Withdraw(s, d).cycles, d))
    ensures AllLimbo(KillFlying(Withdraw(s, d), d).cycles, Reverse(s.peers[d].ready))
    ensures forall c :: c in s.peers[d].ready <==> c in Reverse(s.peers[d].ready)
  {
    hide Homes, Fates, Chains, InOrder, Apart, Listed, Limbos;
    WithdrawGood(s, d);
    KillFlyingSound(Withdraw(s, d), d);
    ReadyAre(s.peers, s.cycles, s.passive, d);
    ReadyDistinct(s.peers, s.cycles, s.passive, d);
    ReverseMembers(s.peers[d].ready);
    hide Good;
  }

  lemma ReadyDistinct(peers: map<nat, Peer>, cycles: map<nat, Cycle>, passive: set<nat>, d: nat)
    requires Homes(peers, cycles, passive) && d in peers
    ensures Distinct(Reverse(peers[d].ready))
  {
    assert PeerOk(d, peers[d], cycles, passive);
    var ready := peers[d].ready;
    forall i | 0 <= i < |ready| ensures Reverse(ready)[i] == ready[|ready| - 1 - i] { ReverseAt(ready, i); }
  }

  /** The cycles of a device. */
  function CyclesOf(cycles: map<nat, Cycle>, d: nat): set<nat> {
    set c | c in cycles && cycles[c].device == d
  }

  /** After withdrawal a device has only cycles in flight and those it had ready. */
  lemma WithdrawnAre(s: State, d: nat)
    requires Sound(s) && d in s.peers && s.peers[d].unready == 0 && s.peers[d].tag != d
    ensures var w := Withdraw(s, d);
            && Good(w) && CyclesOf(s.cycles, d) == FlyingOf(w.cycles, d) + Members(Reverse(s.peers[d].ready))
            && (forall c :: c in w.cycles <==> c in s.cycles)
            && (forall c :: c in s.cycles ==>
                w.cycles[c] == s.cycles[c] || (c in s.peers[d].ready && w.cycles[c] == s.cycles[c].(stage := Limbo)))
  {
    hide Homes, Fates, Chains, InOrder, Apart, Listed, Limbos, FlyingOf, CyclesOf, Members;
    ReadyAre(s.peers, s.cycles, s.passive, d);
    WithdrawGood(s, d);
    SettledIff(s);
    WithdrawnSplit(s, d);
  }

  lemma WithdrawnSplit(s: State, d: nat)
    requires d in s.peers && Homes(Withdraw(s, d).peers, Withdraw(s, d).cycles, Withdraw(s, d).passive)
    requires Limbos(Withdraw(s, d).cycles) == Limbos(s.cycles) + (set c | c in s.peers[d].ready)
         && Limbos(s.cycles) == {}
    requires forall c :: c in s.peers[d].ready ==>
              c in s.cycles && s.cycles[c].stage == Ready && s.cycles[c].device == d
    ensures CyclesOf(s.cycles, d) == FlyingOf(Withdraw(s, d).cycles, d) + Members(Reverse(s.peers[d].ready))
  {
    var w := Withdraw(s, d);
    ReverseMembers(s.peers[d].ready);
    forall c | c in CyclesOf(s.cycles, d) ensures c in FlyingOf(w.cycles, d) || c in s.peers[d].ready {
      assert Homed(c, w.cycles[c], w.peers, w.passive);
      assert w.cycles[c].stage == Limbo ==> c in Limbos(w.cycles);
    }
  }

  /** The cycles of a closing device are those in flight and those it had ready. */
  lemma ReadyInCycles(s: State, d: nat)
    requires d in s.peers && CyclesOf(s.cycles, d)
            == FlyingOf(Withdraw(s, d).cycles, d) + Members(Reverse(s.peers[d].ready))
    ensures forall c :: c in s.peers[d].ready ==> c in CyclesOf(s.cycles, d)
  {
    ReverseMembers(s.peers[d].ready);
    assert forall c :: c in Members(Reverse(s.peers[d].ready)) ==> c in CyclesOf(s.cycles, d);
  }

  /** What closing a device that is not passive does. */
  lemma CloseActive(s: State, d: nat)
    requires Sound(s) && d in s.peers && s.peers[d].unready == 0 && s.peers[d].tag != d
    ensures var t := CloseDevice(s, d).0;
            && Good(t) && History(s, t) && t.aborted == s.aborted && t.passive == (s.passive + {d}) - {d}
            && t.count == s.count && t.rba == s.rba && Within(t.responses, s.responses) && Within(t.ops, s.ops)
            && t.dead == s.dead && t.peers == s.peers - {d}
            && t.peers.Keys == s.peers.Keys - {d} && t.cycles.Keys == s.cycles.Keys - CyclesOf(s.cycles, d)
            && (forall c :: c in t.cycles ==> t.cycles[c] == s.cycles[c])
  {
    hide *;
    WithdrawnAre(s, d);
    var w, ready := Withdraw(s, d), Reverse(s.peers[d].ready);
    WithdrawIs(s, d);
    SoundIsGood(s);
    ReadyList(s, d);
    var t := KillFlying(w, d);
    KilledParts(w, t, FlyingOf(w.cycles, d));
    KillAllSound(t, ready);
    var u := KillAll(t, ready);
    KilledTrans(w, t, u, FlyingOf(w.cycles, d), Members(ready));
    ReadyInCycles(s, d);
    Gone(s.cycles, w.cycles, CyclesOf(s.cycles, d), s.peers[d].ready);
    CloseSteps(s, d);
    Dismissed(s, w, u, d);
  }

  lemma SoundIsGood(s: State)
    requires Sound(s)
    ensures Good(s)
  {
  }

  lemma WithdrawIs(s: State, d: nat)
    requires d in s.peers
    ensures var w := Withdraw(s, d);
            && w.peers.Keys == s.peers.Keys && w.passive == s.passive + {d} && w.aborted == s.aborted
            && w.log == s.log && w.count == s.count && w.rba == s.rba && w.responses == s.responses
            && w.ops == s.ops && w.dead == s.dead && w.peers - {d} == s.peers - {d}
    ensures forall c :: c in s.peers[d].ready ==> c in Members(Reverse(s.peers[d].ready))
  {
    KeysSame(s.peers, d, Withdraw(s, d).peers[d], {});
    ReverseMembers(s.peers[d].ready);
  }

  lemma CloseSteps(s: State, d: nat)
    requires Good(s) && d in s.peers && s.peers[d].unready == 0 && s.peers[d].tag != d
    ensures Good(Withdraw(s, d))
    ensures AllLimbo(KillFlying(Withdraw(s, d), d).cycles, Reverse(s.peers[d].ready))
    ensures CloseDevice(s, d) == (RemovePeer(KillAll(KillFlying(Withdraw(s, d), d), Reverse(s.peers[d].ready)), d), Ok)
  {
    hide Good, KillAll, KillFlying, RemovePeer, AllLimbo;
    ReadyList(s, d);
  }

  /** A refusal, or the end of a passive device, leaves cycles and responses as they are. */
  lemma ShutQuietly(s: State, d: nat)
    requires Good(s) && d in s.peers && (s.peers[d].unready != 0 || s.peers[d].tag == d)
    ensures var t := CloseDevice(s, d).0;
            && t.cycles == s.cycles && t.queue == s.queue && t.rba == s.rba && t.log == s.log && t.count == s.count
            && t.ops == s.ops && t.dead == s.dead && (t.peers == s.peers || t.peers == s.peers - {d})
  {
    hide Good;
  }

  lemma Dismissed(s: State, w: State, u: State, d: nat)
    requires Good(s) && d in s.peers && Killed(w, u, CyclesOf(s.cycles, d))
    requires w.peers.Keys == s.peers.Keys && w.passive == s.passive + {d} && w.aborted == s.aborted
    requires w.log == s.log && w.count == s.count && w.rba == s.rba && w.responses == s.responses
    requires w.ops == s.ops && w.dead == s.dead && w.peers - {d} == s.peers - {d}
    requires (w.cycles - CyclesOf(s.cycles, d)).Keys == s.cycles.Keys - CyclesOf(s.cycles, d)
    requires forall c :: c in w.cycles - CyclesOf(s.cycles, d) ==>
              c in s.cycles && (w.cycles - CyclesOf(s.cycles, d))[c] == s.cycles[c]
    ensures var t := RemovePeer(u, d);
            && Good(t) && History(s, t) && t.aborted == s.aborted && t.passive == (s.passive + {d}) - {d}
            && t.count == s.count && t.rba == s.rba && Within(t.responses, s.responses) && Within(t.ops, s.ops)
            && t.dead == s.dead && t.peers == s.peers - {d}
            && t.peers.Keys == s.peers.Keys - {d} && t.cycles.Keys == s.cycles.Keys - CyclesOf(s.cycles, d)
            && (forall c :: c in t.cycles ==> t.cycles[c] == s.cycles[c])
  {
    hide Homes, Fates, Chains, InOrder, Apart, Listed, Limbos;
    forall c | c in u.cycles ensures u.cycles[c].device != d {
      assert c in u.cycles.Keys;
      assert c in s.cycles && c !in CyclesOf(s.cycles, d);
    }
    RemovePeerGood(u, d);
  }

  lemma Gone(a: map<nat, Cycle>, b: map<nat, Cycle>, gone: set<nat>, ready: seq<nat>)
    requires (forall c :: c in b <==> c in a) && forall c :: c in ready ==> c in gone
    requires forall c :: c in a ==> b[c] == a[c] || (c in ready && b[c] == a[c].(stage := Limbo))
    ensures (b - gone).Keys == a.Keys - gone
    ensures forall c :: c in b - gone ==> c in a && (b - gone)[c] == a[c]
  {
  }

  lemma NoneOpen(s: State, d: nat)
    requires Good(s) && d in s.peers
    ensures s.peers[d].unready == 0 <==> FillingOf(s.cycles, d) == {}
  {
    assert PeerOk(d, s.peers[d], s.cycles, s.passive);
  }

  /** Closing is refused exactly while the user is filling a cycle. Otherwise the device and all
      its cycles are gone, every one of them called back, and no others. */
  lemma CloseDeviceSound(s: State, d: nat)
    requires Sound(s) && d in s.peers
    ensures var (t, status) := CloseDevice(s, d);
            && Sound(t) && History(s, t)
            && (status == Ok <==> FillingOf(s.cycles, d) == {}) && (status != Ok ==> status == Busy && t == s)
            && (status == Ok ==>
                  && t.peers.Keys == s.peers.Keys - {d} && t.aborted == s.aborted
                  && t.cycles.Keys == s.cycles.Keys - CyclesOf(s.cycles, d)
                  && (forall c :: c in t.cycles ==> t.cycles[c] == s.cycles[c])
                  && (forall c :: c in CyclesOf(s.cycles, d) ==> CalledBack(t.log, s.cycles[c].id)))
  {
    hide Homes, Fates, Chains, InOrder, Apart, Listed, Limbos, KillFlying, KillAll;
    NoneOpen(s, d);
    var (t, status) := CloseDevice(s, d);
    if status == Ok {
      PassiveTag(s, d);
      if s.peers[d].tag == d {
        RemovePeerGood(s, d);
      } else {
        CloseActive(s, d);
      }
      forall c | c in CyclesOf(s.cycles, d) ensures CalledBack(t.log, s.cycles[c].id) { GoneIsLogged(s, t, c); }
    }
  }

  /** A cycle that has disappeared without being aborted has been called back. */
  lemma GoneIsLogged(s: State, t: State, c: nat)
    requires Good(s) && Good(t) && History(s, t) && t.aborted == s.aborted && c in s.cycles && c !in t.cycles
    requires forall e :: e in t.cycles ==> e in s.cycles && t.cycles[e].id == s.cycles[e].id
    ensures CalledBack(t.log, s.cycles[c].id)
  {
    var id := s.cycles[c].id;
    assert id < t.count && id !in t.aborted;
    forall e | e in t.cycles ensures t.cycles[e].id != id {
      assert e in s.cycles && e != c;
    }
  }

  /* ---------- runs ---------- */

  datatype Event =
    | OpenDevice(slot: nat, passive: bool, port: Port, mtu: nat)
    | Open(d: nat, slot: nat)
    | AddOp(c: nat, slot: nat, request: Request)
    | Drop(c: nat)
    | Filled(c: nat, checked: bool)
    | Flushed(d: nat, slot: nat)          // one cycle of a flush
    | Reply(size: nat, addr: nat, value: nat)
    | Expired                             // one step of the expiry loop
    | Shut(d: nat)
    | Tick(time: nat)

  /** The caller's obligations - handles are open ones - and the pool's: what it hands out is unused. */
  predicate Legal(s: State, e: Event) {
    match e
    case OpenDevice(slot, _, _, _) => slot == NULL || Unused(s, slot)
    case Open(d, slot) => d in s.peers && (slot == NULL || Unused(s, slot))
    case AddOp(c, slot, _) => c in s.cycles && s.cycles[c].stage == Filling && (slot == NULL || Unused(s, slot))
    case Drop(c) => c in s.cycles && s.cycles[c].stage == Filling
    case Filled(c, _) => c in s.cycles && s.cycles[c].stage == Filling
    case Flushed(d, slot) => d in s.peers && s.peers[d].ready != [] && (slot == NULL || Unused(s, slot))
    case Reply(_, _, _) => true
    case Expired => s.queue != []
    case Shut(d) => d in s.peers
    case Tick(_) => true
  }

  function Next(s: State, e: Event): State
    requires Good(s) && Legal(s, e)
  {
    hide Good, Unused;
    match e
    case OpenDevice(slot, passive, port, mtu) => if slot == NULL then s else AddPeer(s, slot, passive, port, mtu)
    case Open(d, slot) => OpenCycle(s, d, slot).0
    case AddOp(c, slot, request) => Enqueue(s, c, slot, request)
    case Drop(c) => Abort(s, c)
    case Filled(c, checked) => Close(s, c, checked)
    case Flushed(d, slot) => Send(s, d, slot)
    case Reply(size, addr, value) => Answer(s, size, addr, value)
    case Expired => Expire(s)
    case Shut(d) => CloseDevice(s, d).0
    case Tick(time) => s.(time := time)
  }

  lemma AddPeerSound(s: State, d: nat, passive: bool, port: Port, mtu: nat)
    requires Sound(s) && Unused(s, d)
    ensures Sound(AddPeer(s, d, passive, port, mtu)) && History(s, AddPeer(s, d, passive, port, mtu))
  {
    var t := AddPeer(s, d, passive, port, mtu);
    NoCyclesOf(s, d);
    hide Homes, Fates, Chains, InOrder, Apart, Listed;
    AddPeerGood(s, d, passive, port, mtu);
  }

  lemma NoCyclesOf(s: State, d: nat)
    requires Good(s) && d !in s.peers
    ensures forall c :: c in s.cycles ==> s.cycles[c].device != d
  {
    forall c | c in s.cycles ensures s.cycles[c].device != d { assert Homed(c, s.cycles[c], s.peers, s.passive); }
  }

  /** Every operation keeps the invariant and takes no callback back. */
  lemma NextSound(s: State, e: Event)
    requires Sound(s) && Legal(s, e)
    ensures Sound(Next(s, e)) && History(s, Next(s, e))
  {
    hide Homes, Fates, Chains, InOrder, Apart, Listed, Settled, Quiet;
    match e
    case OpenDevice(slot, passive, port, mtu) => if slot != NULL { AddPeerSound(s, slot, passive, port, mtu); }
    case Open(d, slot) => OpenCycleSound(s, d, slot);
    case AddOp(c, slot, request) => EnqueueSound(s, c, slot, request);
    case Drop(c) => AbortSound(s, c);
    case Filled(c, checked) => CloseSound(s, c, checked);
    case Flushed(d, slot) => SendSound(s, d, slot);
    case Reply(size, addr, value) => AnswerSound(s, size, addr, value);
    case Expired => FinishSound(s, 0, Timeout);
    case Shut(d) => CloseDeviceSound(s, d);
    case Tick(time) => SameApart(s, time);
  }

  lemma SameApart(s: State, time: nat)
    requires Sound(s)
    ensures Sound(s.(time := time))
  {
    ApartSame(s, s.(time := time));
  }

  function Initial(): State {
    State(map[], map[], map[], map[], [], [], 0x8000, 0, [], 0, {}, {}, {})
  }

  lemma InitialSound()
    ensures Sound(Initial())
  {
    assert forall d: nat :: FillingOf(map[], d) == {};
  }

  /** Every step of a run is legal where it is taken. */
  ghost predicate Runs(s: State, events: seq<Event>)
    requires Sound(s)
    decreases |events|
  {
    events == [] ||
    (Legal(s, events[0]) && (NextSound(s, events[0]); Runs(Next(s, events[0]), events[1..])))
  }

  ghost function RunOf(s: State, events: seq<Event>): State
    requires Sound(s) && Runs(s, events)
    decreases |events|
  {
    if events == [] then s
    else
      NextSound(s, events[0]);
      RunOf(Next(s, events[0]), events[1..])
  }

  lemma {:induction false} RunSound(s: State, events: seq<Event>)
    requires Sound(s) && Runs(s, events)
    ensures Sound(RunOf(s, events)) && History(s, RunOf(s, events))
    decreases |events|
  {
    if events != [] {
      hide Sound, Next;
      NextSound(s, events[0]);
      RunSound(Next(s, events[0]), events[1..]);
    }
  }

  lemma {:induction false} RunLonger(s: State, events: seq<Event>, e: Event)
    requires Sound(s) && Runs(s, events) && Good(RunOf(s, events)) && Legal(RunOf(s, events), e)
    ensures Runs(s, events + [e]) && RunOf(s, events + [e]) == Next(RunOf(s, events), e)
    decreases |events|
  {
    hide Sound, Next, Legal, Good;
    SoundIsGood(s);
    if events == [] {
      NextSound(s, e);
      assert [] + [e] == [e] && [e][1..] == [];
    } else {
      NextSound(s, events[0]);
      assert (events + [e])[1..] == events[1..] + [e];
      RunLonger(Next(s, events[0]), events[1..], e);
    }
  }

  ghost predicate Reachable(s: State) {
    exists events :: Sound(Initial()) && Runs(Initial(), events) && RunOf(Initial(), events) == s
  }

  lemma ReachableSound(s: State)
    requires Reachable(s)
    ensures Sound(s)
  {
    var events :| Sound(Initial()) && Runs(Initial(), events) && RunOf(Initial(), events) == s;
    hide Sound, RunOf, Runs;
    RunSound(Initial(), events);
  }

  /* ---------- what holds in every reachable state ---------- */

  /** How often a cycle has been called back. */
  function Times(log: seq<Report>, id: nat): nat {
    |Select(log, (r: Report) => r.id == id)|
  }

  lemma {:induction false} TimesOnce(log: seq<Report>, id: nat)
    requires forall j, k :: 0 <= j < k < |log| ==> log[j].id != log[k].id
    ensures Times(log, id) == if CalledBack(log, id) then 1 else 0
  {
    if log != [] {
      var f := (r: Report) => r.id == id;
      var rest := log[1..];
      forall j, k | 0 <= j < k < |rest| ensures rest[j].id != rest[k].id { assert log[j + 1].id != log[k + 1].id; }
      TimesOnce(rest, id);
      assert CalledBack(log, id) <==> log[0].id == id || CalledBack(rest, id) by {
        if CalledBack(rest, id) {
          var k :| 0 <= k < |rest| && rest[k].id == id;
          assert log[k + 1].id == id;
        }
        if CalledBack(log, id) && log[0].id != id {
          var k :| 0 <= k < |log| && log[k].id == id;
          assert rest[k - 1].id == id;
        }
      }
      forall k | 0 <= k < |rest| ensures rest[k].id != log[0].id { assert log[0].id != log[k + 1].id; }
    }
  }

  /** EXACTLY ONE CALLBACK. In every reachable state each cycle ever opened is still alive, or was
      aborted, or is done, and it has been called back once in the last case and never in the
      others. A live cycle belongs to an open device. */
  lemma CalledBackOnce(s: State, id: nat)
    requires Reachable(s) && id < s.count
    ensures Times(s.log, id) == if Alive(s.cycles, id) || id in s.aborted then 0 else 1
    ensures Alive(s.cycles, id) ==>
              id !in s.aborted && exists c :: c in s.cycles && s.cycles[c].id == id && s.cycles[c].device in s.devices
  {
    ReachableSound(s);
    TimesOnce(s.log, id);
    if CalledBack(s.log, id) {
      var k :| 0 <= k < |s.log| && s.log[k].id == id;
      assert s.log[k].id !in s.aborted;
    }
    if Alive(s.cycles, id) {
      var c :| c in s.cycles && s.cycles[c].id == id;
      assert Homed(c, s.cycles[c], s.peers, s.passive);
    }
  }

  /** Every cycle has an open device, every operation and response in flight a cycle, and every
      response record is in flight. */
  lemma EverythingOwned(s: State)
    requires Sound(s)
    ensures forall c :: c in s.cycles ==> s.cycles[c].device in s.devices
    ensures forall x :: x in s.ops ==> s.ops[x].owner in s.cycles
    ensures s.queue != [] ==> s.queue[0].cycle in s.cycles
    ensures forall x :: x in s.responses ==> HasSlot(s.queue, x)
  {
    forall c | c in s.cycles ensures s.cycles[c].device in s.devices {
        assert Homed(c, s.cycles[c], s.peers, s.passive); }
    if s.queue != [] {
      HeldIs(s.queue, s.responses, s.cycles, 0);
    }
  }

  /** NOTHING LEAKS. With all devices closed the pool holds no cycle, operation or response, and
      every cycle ever opened has been called back once or was aborted. */
  lemma AllReturned(s: State)
    requires Reachable(s) && s.devices == []
    ensures s.cycles == map[] && s.ops == map[] && s.responses == map[] && s.queue == []
    ensures forall id: nat :: id < s.count ==> Times(s.log, id) == if id in s.aborted then 0 else 1
  {
    ReachableSound(s);
    EverythingOwned(s);
    hide Sound;
    assert s.cycles.Keys == {} && s.ops.Keys == {};
    forall id: nat | id < s.count ensures Times(s.log, id) == if id in s.aborted then 0 else 1 {
      CalledBackOnce(s, id);
    }
  }

  /** TAGS. The self-index marks exactly the cycles that ran out of memory and exactly the passive
      devices; any other value is the null index or heads a list of the right kind. */
  lemma TagsExact(s: State)
    requires Reachable(s)
    ensures forall c :: c in s.cycles ==> var h := s.cycles[c].head;
              (h == c <==> s.cycles[c].id in s.dead) && (h == NULL || h == c || h in s.ops)
    ensures forall d :: d in s.peers ==> var t := s.peers[d].tag;
              (t == d <==> d in s.passive) && (t == NULL || t == d || t in s.cycles)
  {
    ReachableSound(s);
    hide Sound, Good;
    SoundIsGood(s);
    forall c | c in s.cycles
      ensures s.cycles[c].head == c <==> s.cycles[c].id in s.dead
      ensures s.cycles[c].head == NULL || s.cycles[c].head == c || s.cycles[c].head in s.ops
    {
      DeadTag(s, c);
    }
    forall d | d in s.peers
      ensures s.peers[d].tag == d <==> d in s.passive
      ensures s.peers[d].tag == NULL || s.peers[d].tag == d || s.peers[d].tag in s.cycles
    {
      PassiveTag(s, d);
    }
  }
}
