/** Over every run the operations of a cycle are sent in the order the user queued them, and the cycles
    of a device in the order the user closed them. */
module Order {
  import opened Widths
  import opened Format
  import opened Lists
  import opened Master
  import opened ReadWrite
  import opened EndToEnd
  import opened Flush
  import opened Replies
  import opened Lifecycle
  import opened Moves
  import opened Protocol
  import opened Flushing

  /** What the user has done: the requests put to each cycle, in order, whether it was closed with
      checking, and for each device the cycles closed and not yet flushed, in the order of closing.
      Cycles go by their ids, devices by their indices. */
  datatype Diary = Diary(asked: map<nat, seq<Request>>, checked: map<nat, bool>, line: map<nat, seq<nat>>)

  function Asked(j: Diary, id: nat): seq<Request> { if id in j.asked then j.asked[id] else [] }

  function Line(j: Diary, d: nat): seq<nat> { if d in j.line then j.line[d] else [] }

  /** What an event adds to the diary. */
  function Written(s: State, e: Event, j: Diary): Diary
    requires Legal(s, e)
  {
    match e
    case OpenDevice(slot, _, _, _) => if slot == NULL then j else j.(line := j.line[slot := []])
    case AddOp(c, _, request) =>
      var id := s.cycles[c].id;
      j.(asked := j.asked[id := Asked(j, id) + [request]])
    case Filled(c, checked) =>
      var id, d := s.cycles[c].id, s.cycles[c].device;
      j.(checked := j.checked[id := checked], line := j.line[d := Line(j, d) + [id]])
    case Flushed(d, _) => if Line(j, d) == [] then j else j.(line := j.line[d := Line(j, d)[1..]])
    case _ => j
  }

  ghost function DiaryOf(s: State, events: seq<Event>, j: Diary): Diary
    requires Sound(s) && Runs(s, events)
    decreases |events|
  {
    hide Next, Sound, Legal, Written;
    if events == [] then j
    else
      NextSound(s, events[0]);
      DiaryOf(Next(s, events[0]), events[1..], Written(s, events[0], j))
  }

  /** What a cycle that has not run out of memory holds: the requests put to it - newest first while
      it is being filled - and the flag it was closed with. */
  ghost predicate Holds(s: State, j: Diary, c: nat)
    requires Chained(s, c)
  {
    var cyc, rs := s.cycles[c], QueuedOf(s, c).requests;
    cyc.id !in s.dead ==>
      && rs == (if cyc.stage == Filling then Reverse(Asked(j, cyc.id)) else Asked(j, cyc.id))
      && (cyc.stage != Filling ==> cyc.id in j.checked && cyc.checked == j.checked[cyc.id])
  }

  /** A device's ready list is its line, newest first. */
  ghost predicate InLine(s: State, j: Diary, d: nat)
    requires d in s.peers
  {
    var ready, line := s.peers[d].ready, Line(j, d);
    && |ready| == |line|
    && forall k :: 0 <= k < |ready| ==> ready[k] in s.cycles && s.cycles[ready[k]].id == line[|line| - 1 - k]
  }

  ghost predicate Agrees(s: State, j: Diary) {
    && (forall c :: c in s.cycles ==> Chained(s, c) && Holds(s, j, c))
    && (forall d :: d in s.peers ==> InLine(s, j, d))
    && (forall id :: id in j.asked ==> id < s.count)
  }

  /* ---------- what an event leaves alone ---------- */

  /** The cycle is as it was, as far as its operations go. */
  predicate Steady(s: State, t: State, c: nat)
    requires c in t.cycles
  {
    && c in s.cycles && t.cycles[c].id == s.cycles[c].id && t.cycles[c].chain == s.cycles[c].chain
    && t.cycles[c].checked == s.cycles[c].checked
    && (t.cycles[c].stage == Filling <==> s.cycles[c].stage == Filling)
  }

  ghost predicate OpsAgree(s: State, t: State) {
    forall x :: x in t.ops && x in s.ops ==> t.ops[x] == s.ops[x]
  }

  lemma SteadyHolds(s: State, t: State, j: Diary, j1: Diary, c: nat)
    requires Chained(s, c) && Chained(t, c) && OpsAgree(s, t) && Steady(s, t, c) && Holds(s, j, c)
    requires s.dead <= t.dead
    requires var id := s.cycles[c].id;
             Asked(j1, id) == Asked(j, id) && (id in j.checked ==> id in j1.checked && j1.checked[id] == j.checked[id])
    ensures Holds(t, j1, c)
  {
    hide Reverse, Asked;
    assert QueuedOf(t, c).requests == QueuedOf(s, c).requests;
  }

  lemma SteadyLine(s: State, t: State, j: Diary, j1: Diary, d: nat)
    requires d in s.peers && d in t.peers && t.peers[d].ready == s.peers[d].ready && Line(j1, d) == Line(j, d)
    requires InLine(s, j, d)
    requires forall c :: c in s.peers[d].ready && c in s.cycles ==> c in t.cycles && t.cycles[c].id == s.cycles[c].id
    ensures InLine(t, j1, d)
  {
    hide Line;
    assert forall k :: 0 <= k < |s.peers[d].ready| ==> s.peers[d].ready[k] in s.peers[d].ready;
  }

  predicate SameLine(s: State, t: State, j: Diary, j1: Diary, d: nat)
    requires d in t.peers
  {
    d in s.peers && t.peers[d].ready == s.peers[d].ready && Line(j1, d) == Line(j, d)
  }

  predicate SamePage(s: State, j: Diary, j1: Diary, c: nat)
    requires c in s.cycles
  {
    var id := s.cycles[c].id;
    Asked(j1, id) == Asked(j, id) && (id in j.checked ==> id in j1.checked && j1.checked[id] == j.checked[id])
  }

  /** A step that leaves the operations of all cycles but `odd` and the lines of all devices but `off`
      alone. */
  ghost predicate Mostly(s: State, t: State, j: Diary, j1: Diary, odd: set<nat>, off: set<nat>) {
    && OpsAgree(s, t) && s.dead <= t.dead && s.count <= t.count
    && (forall c :: c in t.cycles && c !in odd ==> Steady(s, t, c))
    && (forall c :: c in t.cycles && c in s.cycles ==> t.cycles[c].id == s.cycles[c].id)
    && (forall c :: c in s.cycles && c !in odd ==> SamePage(s, j, j1, c))
    && (forall d :: d in t.peers && d !in off ==> SameLine(s, t, j, j1, d))
    && (forall id :: id in j1.asked ==> id in j.asked || id < t.count)
  }

  lemma MostlyAgrees(s: State, t: State, j: Diary, j1: Diary, odd: set<nat>, off: set<nat>)
    requires Good(s) && Good(t) && Agrees(s, j) && Mostly(s, t, j, j1, odd, off)
    requires forall c :: c in odd && c in t.cycles ==> Chained(t, c) && Holds(t, j1, c)
    requires forall d :: d in off && d in t.peers ==> InLine(t, j1, d)
    ensures Agrees(t, j1)
  {
    hide Good, Holds, InLine, Steady, SamePage, SameLine, Line, Asked, Chained;
    forall c | c in t.cycles ensures Chained(t, c) && Holds(t, j1, c) {
      if c !in odd {
        GoodChained(t, c);
        assert Steady(s, t, c);
        SteadyIn(s, t, c);
        SteadyCycle(s, t, j, j1, c);
      }
    }
    forall d | d in t.peers ensures InLine(t, j1, d) {
      if d !in off {
        assert SameLine(s, t, j, j1, d);
        SteadyReady(s, t, j, j1, d);
      }
    }
  }

  lemma SteadyIn(s: State, t: State, c: nat)
    requires c in t.cycles && Steady(s, t, c)
    ensures c in s.cycles
  {
  }

  lemma SteadyCycle(s: State, t: State, j: Diary, j1: Diary, c: nat)
    requires c in s.cycles && Chained(s, c) && Chained(t, c) && OpsAgree(s, t) && Steady(s, t, c) && Holds(s, j, c)
    requires s.dead <= t.dead && SamePage(s, j, j1, c)
    ensures Holds(t, j1, c)
  {
    SteadyHolds(s, t, j, j1, c);
  }

  lemma SteadyReady(s: State, t: State, j: Diary, j1: Diary, d: nat)
    requires Good(t) && d in t.peers && SameLine(s, t, j, j1, d) && (d in s.peers ==> InLine(s, j, d))
    requires forall c :: c in t.cycles && c in s.cycles ==> t.cycles[c].id == s.cycles[c].id
    ensures InLine(t, j1, d)
  {
    ReadyAre(t.peers, t.cycles, t.passive, d);
    hide Good;
    SteadyLine(s, t, j, j1, d);
  }

  /* ---------- event by event ---------- */

  lemma OpenDeviceMostly(s: State, j: Diary, d: nat, passive: bool, port: Port, mtu: nat)
    ensures var t, j1 := AddPeer(s, d, passive, port, mtu), j.(line := j.line[d := []]);
            Mostly(s, t, j, j1, {}, {d}) && d in t.peers && InLine(t, j1, d)
  {
  }

  lemma OpenMostly(s: State, j: Diary, d: nat, slot: nat)
    requires d in s.peers && slot !in s.cycles && Agrees(s, j)
    ensures var t := Fill(Born(s, slot, d), slot);
            Mostly(s, t, j, j, {slot}, {}) && slot in t.cycles && Chained(t, slot) && Holds(t, j, slot)
  {
    NotAskedYet(s, j);
    hide Agrees;
    var t := Fill(Born(s, slot, d), slot);
    assert t.cycles == s.cycles[slot := Cycle(s.count, NULL, [], d, Filling, false)];
    NewHolds(t, j, slot);
    hide Chained, Holds;
  }

  lemma NotAskedYet(s: State, j: Diary)
    requires Agrees(s, j)
    ensures Asked(j, s.count) == []
  {
  }

  lemma NewHolds(t: State, j: Diary, c: nat)
    requires c in t.cycles && t.cycles[c].chain == [] && t.cycles[c].stage == Filling && Asked(j, t.cycles[c].id) == []
    ensures Chained(t, c) && Holds(t, j, c)
  {
  }

  /** Only this cycle has its id. */
  ghost predicate OwnId(s: State, c: nat) {
    && c in s.cycles && s.cycles[c].id < s.count
    && forall x :: x in s.cycles && x != c ==> s.cycles[x].id != s.cycles[c].id
  }

  lemma IdIsOwn(s: State, c: nat)
    requires Good(s) && c in s.cycles
    ensures OwnId(s, c)
  {
    IdsDiffer(s.cycles, s.log, s.count, s.aborted, s.dead, c);
  }

  lemma AskedElsewhere(s: State, j: Diary, c: nat, request: Request)
    requires OwnId(s, c)
    ensures var id := s.cycles[c].id;
            var j1 := j.(asked := j.asked[id := Asked(j, id) + [request]]);
            && (forall x :: x in s.cycles && x != c ==> SamePage(s, j, j1, x))
            && (forall d :: Line(j1, d) == Line(j, d))
            && (forall x :: x in j1.asked ==> x in j.asked || x < s.count)
  {
  }

  lemma ExhaustMostly(s: State, j: Diary, c: nat, request: Request)
    requires OwnId(s, c)
    ensures var id, t := s.cycles[c].id, Exhaust(s, c);
            var j1 := j.(asked := j.asked[id := Asked(j, id) + [request]]);
            Mostly(s, t, j, j1, {c}, {}) && Chained(t, c) && Holds(t, j1, c)
  {
    AskedElsewhere(s, j, c, request);
    hide Asked, Line, SamePage, OwnId;
  }

  lemma InVainMostly(s: State, j: Diary, c: nat, request: Request)
    requires OwnId(s, c) && s.cycles[c].id in s.dead && Chained(s, c)
    ensures var id := s.cycles[c].id;
            var j1 := j.(asked := j.asked[id := Asked(j, id) + [request]]);
            Mostly(s, s, j, j1, {c}, {}) && Holds(s, j1, c)
  {
    AskedElsewhere(s, j, c, request);
    hide Asked, Line, SamePage, OwnId;
  }

  lemma PushMostly(s: State, j: Diary, c: nat, slot: nat, request: Request)
    requires OwnId(s, c) && slot !in s.ops && s.cycles[c].stage == Filling && Chained(s, c) && Holds(s, j, c)
    ensures var id, t := s.cycles[c].id, Push(s, c, slot, request);
            var j1 := j.(asked := j.asked[id := Asked(j, id) + [request]]);
            Mostly(s, t, j, j1, {c}, {}) && Chained(t, c) && Holds(t, j1, c)
  {
    AskedElsewhere(s, j, c, request);
    PushHolds(s, Push(s, c, slot, request), j, c, slot, request);
    hide Asked, Line, SamePage, OwnId, Holds, Chained;
  }

  lemma PushHolds(s: State, t: State, j: Diary, c: nat, slot: nat, request: Request)
    requires c in s.cycles && s.cycles[c].stage == Filling && slot !in s.ops && t == Push(s, c, slot, request)
    requires Chained(s, c) && Holds(s, j, c)
    ensures var id := s.cycles[c].id;
            Chained(t, c) && Holds(t, j.(asked := j.asked[id := Asked(j, id) + [request]]), c)
  {
    ChainFirst(s, t, c, slot, request);
    ReverseConcat(Asked(j, s.cycles[c].id), [request]);
    ReverseOne(request);
    hide Reverse, Chained;
  }

  lemma ChainFirst(s: State, t: State, c: nat, slot: nat, request: Request)
    requires c in s.cycles && slot !in s.ops && t == Push(s, c, slot, request) && Chained(s, c)
    ensures Chained(t, c) && QueuedOf(t, c).requests == [request] + QueuedOf(s, c).requests
  {
    var chain := [slot] + s.cycles[c].chain;
    assert t.cycles[c].chain == chain;
    assert forall i :: 0 < i < |chain| ==> chain[i] == s.cycles[c].chain[i - 1];
  }

  /** A step that only takes cycles, operations and devices away. */
  ghost predicate Lessened(s: State, t: State) {
    && Within(t.ops, s.ops) && t.dead == s.dead && t.count == s.count
    && (forall c :: c in t.cycles ==> c in s.cycles && t.cycles[c] == s.cycles[c])
    && (forall d :: d in t.peers ==> d in s.peers && t.peers[d].ready == s.peers[d].ready)
  }

  lemma LessenedMostly(s: State, t: State, j: Diary)
    requires Lessened(s, t)
    ensures Mostly(s, t, j, j, {}, {})
  {
    hide Asked, Line;
  }

  lemma AbortLessened(s: State, c: nat)
    requires Good(s) && c in s.cycles && s.cycles[c].stage == Filling
    ensures Lessened(s, Abort(s, c))
  {
    hide Good;
    UnfillGood(s, c);
  }

  lemma FinishLessened(s: State, k: nat, status: Status)
    requires Good(s) && k < |s.queue|
    ensures Lessened(s, Finish(s, k, status))
  {
    hide Good;
    FinishSound(s, k, status);
    hide Finish, Within;
  }

  lemma AnswerLessened(s: State, size: nat, addr: nat, value: nat)
    requires Sound(s)
    ensures Good(s) && Lessened(s, Answer(s, size, addr, value))
  {
    hide Good, Settled, Quiet, Apply, TargetOf, Finish;
    AnswerCases(s, size, addr, value);
    var k := Find(Entries(s.queue), TargetOf(addr));
    WithinItself(s.ops);
    if k < |s.queue| {
      var step := Apply(s.queue[k].entry.response, size, addr, value);
      if step.done.Some? {
        FinishLessened(Update(s, k, step.r), k, step.done.value);
      }
      hide Answer, Within;
    }
  }

  lemma WithinItself<V>(m: map<nat, V>)
    ensures Within(m, m)
  {
  }

  lemma ShutLessened(s: State, d: nat)
    requires Sound(s) && d in s.peers
    ensures Good(s) && Lessened(s, CloseDevice(s, d).0)
  {
    hide Sound, Good, CloseDevice, Within;
    SoundIsGood(s);
    if s.peers[d].unready == 0 && s.peers[d].tag != d {
      CloseActive(s, d);
      hide CyclesOf;
      assert forall c :: c in CloseDevice(s, d).0.cycles ==> c in CloseDevice(s, d).0.cycles.Keys;
    } else {
      ShutQuietly(s, d);
      WithinItself(s.ops);
    }
  }

  lemma RequestsTurned(s: State, t: State, c: nat)
    requires Chained(s, c) && c in t.cycles && t.ops == s.ops && t.cycles[c].chain == Reverse(s.cycles[c].chain)
    ensures Chained(t, c) && QueuedOf(t, c).requests == Reverse(QueuedOf(s, c).requests)
  {
    var a, rs := s.cycles[c].chain, QueuedOf(s, c).requests;
    var b := t.cycles[c].chain;
    forall i | 0 <= i < |b| ensures b[i] == a[|a| - 1 - i] && Reverse(rs)[i] == rs[|rs| - 1 - i] {
      ReverseAt(a, i);
      ReverseAt(rs, i);
    }
  }

  /** The entry for a cycle being closed. */
  function Closed(j: Diary, id: nat, d: nat, checked: bool): Diary {
    j.(checked := j.checked[id := checked], line := j.line[d := Line(j, d) + [id]])
  }

  lemma ClosedElsewhere(s: State, j: Diary, c: nat, checked: bool)
    requires OwnId(s, c)
    ensures var j1 := Closed(j, s.cycles[c].id, s.cycles[c].device, checked);
            && (forall x :: x in s.cycles && x != c ==> SamePage(s, j, j1, x))
            && (forall d :: d != s.cycles[c].device ==> Line(j1, d) == Line(j, d))
            && Line(j1, s.cycles[c].device) == Line(j, s.cycles[c].device) + [s.cycles[c].id]
            && Asked(j1, s.cycles[c].id) == Asked(j, s.cycles[c].id)
  {
  }

  /** What closing does to the cycle itself, given its device and chain. */
  ghost predicate Shut1(s: State, t: State, c: nat, d: nat, checked: bool) {
    && c in s.cycles && c in t.cycles && d in s.peers && d in t.peers
    && t.ops == s.ops && t.dead == s.dead && t.count == s.count
    && t.cycles == s.cycles[c := t.cycles[c]] && t.peers == s.peers[d := t.peers[d]]
    && t.peers.Keys == s.peers.Keys && t.peers[d].ready == [c] + s.peers[d].ready
    && t.cycles[c].id == s.cycles[c].id && t.cycles[c].stage == Ready
    && (s.cycles[c].head != c ==>
          t.cycles[c].chain == Reverse(s.cycles[c].chain) && t.cycles[c].checked == checked)
    && (s.cycles[c].head == c ==> t.cycles[c].chain == s.cycles[c].chain)
  }

  lemma CloseShuts(s: State, c: nat, checked: bool)
    requires Good(s) && c in s.cycles && s.cycles[c].stage == Filling
    ensures Shut1(s, Close(s, c, checked), c, s.cycles[c].device, checked)
  {
    hide Good, Reverse;
    UnfillGood(s, c);
    var d := s.cycles[c].device;
    var t := Close(s, c, checked);
    assert t.cycles == s.cycles[c := t.cycles[c]] && t.peers == s.peers[d := t.peers[d]];
  }

  lemma ClosedHolds(s: State, t: State, j: Diary, c: nat, d: nat, checked: bool)
    requires Shut1(s, t, c, d, checked) && d == s.cycles[c].device && s.cycles[c].stage == Filling
    requires Chained(s, c) && Holds(s, j, c) && (s.cycles[c].head == c <==> s.cycles[c].id in s.dead)
    ensures Chained(t, c) && Holds(t, Closed(j, s.cycles[c].id, d, checked), c)
  {
    hide Reverse, Line;
    if s.cycles[c].head != c {
      RequestsTurned(s, t, c);
      ReverseTwice(Asked(j, s.cycles[c].id));
    }
  }

  lemma ClosedInLine(s: State, t: State, j: Diary, j1: Diary, c: nat, d: nat, checked: bool)
    requires Shut1(s, t, c, d, checked) && InLine(s, j, d) && Line(j1, d) == Line(j, d) + [s.cycles[c].id]
    ensures InLine(t, j1, d)
  {
    hide Line, Reverse;
    var ready := t.peers[d].ready;
    assert forall k :: 0 < k < |ready| ==> ready[k] == s.peers[d].ready[k - 1];
  }

  lemma ClosedMostly(s: State, t: State, j: Diary, c: nat, d: nat, checked: bool)
    requires Shut1(s, t, c, d, checked) && d == s.cycles[c].device && OwnId(s, c)
    ensures Mostly(s, t, j, Closed(j, s.cycles[c].id, d, checked), {c}, {d})
  {
    ClosedElsewhere(s, j, c, checked);
    hide Line, Asked, Reverse, SamePage, OwnId;
  }

  /* ---------- flushing ---------- */

  /** What a flush step leaves: the oldest cycle is gone or awaits a reply, all else is as it was. */
  ghost predicate Settled1(s: State, t: State, d: nat) {
    && d in s.peers && s.peers[d].ready != [] && d in t.peers && t.peers == s.peers[d := t.peers[d]]
    && t.peers[d].ready == s.peers[d].ready[..|s.peers[d].ready| - 1]
    && t.dead == s.dead && t.count == s.count && (forall x :: x in t.ops ==> x in s.ops && t.ops[x] == s.ops[x])
    && var c := Oldest(s, d);
    && c in s.cycles && s.cycles[c].stage == Ready
    && (forall x :: x in s.cycles && x != c ==> x in t.cycles && t.cycles[x] == s.cycles[x])
    && (forall x :: x in t.cycles ==> x in s.cycles)
    && (c in t.cycles ==> t.cycles[c] == s.cycles[c].(stage := Flying))
  }

  lemma TakenSettles(s: State, d: nat, handed: nat, status: Status, h: Held)
    requires d in s.peers && s.peers[d].ready != [] && Oldest(s, d) in s.cycles && h.cycle == Oldest(s, d)
    requires ReturnAddress(s.rba) && s.cycles[Oldest(s, d)].stage == Ready
    ensures Settled1(s, CallBack(Take(s, d), Oldest(s, d), handed, status), d)
    ensures Settled1(s, Launch(Take(s, d), h), d)
  {
    hide NextAddress, ReturnAddress;
    var u := Launch(Take(s, d), h);
    assert u.peers == s.peers[d := u.peers[d]];
    var t := CallBack(Take(s, d), Oldest(s, d), handed, status);
    assert t.peers == s.peers[d := t.peers[d]];
  }

  lemma SendSettles(s: State, d: nat, slot: nat)
    requires Good(s) && d in s.peers && s.peers[d].ready != []
    ensures Settled1(s, Send(s, d, slot), d)
    ensures forall k :: 0 <= k < |s.peers[d].ready| - 1 ==> s.peers[d].ready[k] != Oldest(s, d)
  {
    hide Good, Send, Settled1;
    TakeGood(s, d);
    GoodReturns(s);
    ReadyDistinctly(s, d);
    var handed, status, h := SendForm(s, d, slot);
    TakenSettles(s, d, handed, status, h);
    assert forall k :: 0 <= k < |s.peers[d].ready| - 1 ==>
        s.peers[d].ready[k] in s.peers[d].ready[..|s.peers[d].ready| - 1];
  }

  lemma SettledMostly(s: State, t: State, j: Diary, d: nat)
    requires Settled1(s, t, d) && Line(j, d) != []
    ensures Mostly(s, t, j, j.(line := j.line[d := Line(j, d)[1..]]), {}, {d})
  {
  }

  lemma SettledInLine(s: State, t: State, j: Diary, d: nat)
    requires Settled1(s, t, d) && InLine(s, j, d)
    requires forall k :: 0 <= k < |s.peers[d].ready| - 1 ==> s.peers[d].ready[k] != Oldest(s, d)
    ensures Line(j, d) != [] && InLine(t, j.(line := j.line[d := Line(j, d)[1..]]), d)
    ensures s.cycles[Oldest(s, d)].id == Line(j, d)[0]
  {
    var line, j1 := Line(j, d), j.(line := j.line[d := Line(j, d)[1..]]);
    assert Line(j1, d) == line[1..];
    hide Line;
  }

  /* ---------- every step, every run ---------- */

  /** Between good states, such a step keeps the diary true. */
  lemma Drive(s: State, e: Event, j: Diary, odd: set<nat>, off: set<nat>)
    requires Sound(s) && Legal(s, e) && Good(s) && Agrees(s, j)
    requires Mostly(s, Next(s, e), j, Written(s, e, j), odd, off)
    requires forall c :: c in odd && c in Next(s, e).cycles ==>
               Chained(Next(s, e), c) && Holds(Next(s, e), Written(s, e, j), c)
    requires forall d :: d in off && d in Next(s, e).peers ==> InLine(Next(s, e), Written(s, e, j), d)
    ensures Agrees(Next(s, e), Written(s, e, j))
  {
    hide *;
    NextSound(s, e);
    SoundIsGood(Next(s, e));
    MostlyAgrees(s, Next(s, e), j, Written(s, e, j), odd, off);
  }

  lemma HoldsAt(s: State, j: Diary, c: nat)
    requires Agrees(s, j) && c in s.cycles
    ensures Chained(s, c) && Holds(s, j, c)
  {
  }

  lemma LineAt(s: State, j: Diary, d: nat)
    requires Agrees(s, j) && d in s.peers
    ensures InLine(s, j, d)
  {
  }

  lemma AddOpAgrees(s: State, e: Event, j: Diary)
    requires Sound(s) && e.AddOp? && Legal(s, e) && Good(s) && Agrees(s, j)
    ensures Agrees(Next(s, e), Written(s, e, j))
  {
    hide Sound, Good, Agrees, Mostly, Holds, Asked;
    HoldsAt(s, j, e.c);
    IdIsOwn(s, e.c);
    DeadTag(s, e.c);
    if e.slot == NULL {
      ExhaustMostly(s, j, e.c, e.request);
    } else if s.cycles[e.c].head == e.c {
      InVainMostly(s, j, e.c, e.request);
    } else {
      PushMostly(s, j, e.c, e.slot, e.request);
    }
    hide Exhaust, Push, Chained;
    Drive(s, e, j, {e.c}, {});
  }

  lemma FilledAgrees(s: State, e: Event, j: Diary)
    requires Sound(s) && e.Filled? && Legal(s, e) && Good(s) && Agrees(s, j)
    ensures Agrees(Next(s, e), Written(s, e, j))
  {
    hide Sound, Good, Agrees, Mostly, Holds, Line, Close, Shut1, Chained, InLine;
    HoldsAt(s, j, e.c);
    IdIsOwn(s, e.c);
    DeadTag(s, e.c);
    var d, t := s.cycles[e.c].device, Next(s, e);
    CloseShuts(s, e.c, e.checked);
    ShutIn(s, t, e.c, d, e.checked);
    LineAt(s, j, d);
    ClosedMostly(s, t, j, e.c, d, e.checked);
    ClosedHolds(s, t, j, e.c, d, e.checked);
    ClosedElsewhere(s, j, e.c, e.checked);
    ClosedInLine(s, t, j, Closed(j, s.cycles[e.c].id, d, e.checked), e.c, d, e.checked);
    Drive(s, e, j, {e.c}, {d});
  }

  lemma ShutIn(s: State, t: State, c: nat, d: nat, checked: bool)
    requires Shut1(s, t, c, d, checked)
    ensures c in t.cycles && d in s.peers && d in t.peers
  {
  }

  lemma FlushedAgrees(s: State, e: Event, j: Diary)
    requires Sound(s) && e.Flushed? && Legal(s, e) && Good(s) && Agrees(s, j)
    ensures Agrees(Next(s, e), Written(s, e, j))
  {
    hide Sound, Good, Agrees, Mostly, Line, Send, Settled1, InLine, Unused;
    var t := Next(s, e);
    SendSettles(s, e.d, e.slot);
    LineAt(s, j, e.d);
    SettledIn(s, t, e.d);
    SettledInLine(s, t, j, e.d);
    SettledMostly(s, t, j, e.d);
    Drive(s, e, j, {}, {e.d});
  }

  lemma SettledIn(s: State, t: State, d: nat)
    requires Settled1(s, t, d)
    ensures d in t.peers && Oldest(s, d) in s.cycles
  {
  }

  lemma LessenedAgrees(s: State, e: Event, j: Diary)
    requires Sound(s) && Legal(s, e) && Good(s) && Agrees(s, j)
    requires Lessened(s, Next(s, e)) && Written(s, e, j) == j
    ensures Agrees(Next(s, e), Written(s, e, j))
  {
    hide *;
    LessenedMostly(s, Next(s, e), j);
    Drive(s, e, j, {}, {});
  }

  lemma StepAgrees(s: State, e: Event, j: Diary)
    requires Sound(s) && Legal(s, e) && Agrees(s, j)
    ensures Good(s) && Sound(Next(s, e)) && Agrees(Next(s, e), Written(s, e, j))
  {
    hide Sound, Good, Agrees, Mostly, Lessened, Send, Answer, CloseDevice, Close, Abort, Enqueue, Finish, AddPeer;
    hide InLine;
    SoundIsGood(s);
    NextSound(s, e);
    match e
    case OpenDevice(slot, passive, port, mtu) =>
      if slot != NULL {
        OpenDeviceMostly(s, j, slot, passive, port, mtu);
        Drive(s, e, j, {}, {slot});
      }
    case Open(d, slot) =>
      if slot != NULL && s.peers[d].tag != d {
        OpenMostly(s, j, d, slot);
        Drive(s, e, j, {slot}, {});
      }
    case AddOp(c, slot, request) => AddOpAgrees(s, e, j);
    case Filled(c, checked) => FilledAgrees(s, e, j);
    case Flushed(d, slot) => FlushedAgrees(s, e, j);
    case Drop(c) =>
      AbortLessened(s, c);
      LessenedAgrees(s, e, j);
    case Reply(size, addr, value) =>
      AnswerLessened(s, size, addr, value);
      LessenedAgrees(s, e, j);
    case Expired =>
      FinishLessened(s, 0, Timeout);
      LessenedAgrees(s, e, j);
    case Shut(d) =>
      ShutLessened(s, d);
      LessenedAgrees(s, e, j);
    case Tick(time) =>
      TickLessened(s, time);
      LessenedAgrees(s, e, j);
  }

  lemma TickLessened(s: State, time: nat)
    ensures Lessened(s, s.(time := time))
  {
  }

  lemma {:induction false} RunAgrees(s: State, events: seq<Event>, j: Diary)
    requires Sound(s) && Runs(s, events) && Agrees(s, j)
    ensures Agrees(RunOf(s, events), DiaryOf(s, events, j))
    decreases |events|
  {
    hide Sound, Next, Agrees, Written, Legal;
    if events != [] {
      StepAgrees(s, events[0], j);
      RunAgrees(Next(s, events[0]), events[1..], Written(s, events[0], j));
    }
  }

  const EMPTY: Diary := Diary(map[], map[], map[])

  lemma NothingYet()
    ensures Agrees(Initial(), EMPTY)
  {
  }

  /** IN THE USER'S ORDER. After every run a cycle that is closed, and has not run out of memory, holds
      exactly the requests the user put to it, in the order of asking, and is checked exactly if it
      was closed so; and the ready list of every device holds exactly the cycles closed and not yet
      flushed, the last one closed first. */
  lemma InUsersOrder(events: seq<Event>)
    requires Sound(Initial()) && Runs(Initial(), events)
    ensures var s, j := RunOf(Initial(), events), DiaryOf(Initial(), events, EMPTY);
            && (forall c :: c in s.cycles && s.cycles[c].stage != Filling && s.cycles[c].id !in s.dead ==>
                  && Chained(s, c) && QueuedOf(s, c).requests == Asked(j, s.cycles[c].id)
                  && s.cycles[c].id in j.checked && s.cycles[c].checked == j.checked[s.cycles[c].id])
            && (forall d :: d in s.peers ==> InLine(s, j, d))
  {
    hide Sound, Runs, RunOf, DiaryOf, Agrees, InLine;
    NothingYet();
    RunAgrees(Initial(), events, EMPTY);
    AgreesParts(RunOf(Initial(), events), DiaryOf(Initial(), events, EMPTY));
  }

  lemma AgreesParts(s: State, j: Diary)
    requires Agrees(s, j)
    ensures forall c :: c in s.cycles && s.cycles[c].stage != Filling && s.cycles[c].id !in s.dead ==>
              && Chained(s, c) && QueuedOf(s, c).requests == Asked(j, s.cycles[c].id)
              && s.cycles[c].id in j.checked && s.cycles[c].checked == j.checked[s.cycles[c].id]
    ensures forall d :: d in s.peers ==> InLine(s, j, d)
  {
    hide InLine, Asked, Reverse;
    forall c | c in s.cycles ensures Chained(s, c) && Holds(s, j, c) { }
  }

  /** And a flush settles the one closed first: it is called back or awaits its reply. */
  lemma FlushTakesFirst(events: seq<Event>, d: nat, slot: nat)
    requires Sound(Initial()) && Runs(Initial(), events) && Legal(RunOf(Initial(), events), Flushed(d, slot))
    ensures var s, j := RunOf(Initial(), events), DiaryOf(Initial(), events, EMPTY);
            && Line(j, d) != [] && Good(s)
            && var t, id := Next(s, Flushed(d, slot)), Line(j, d)[0];
            || (|t.log| == |s.log| + 1 && t.log[|s.log|].id == id && t.queue == s.queue)
            || (t.log == s.log && |t.queue| == |s.queue| + 1 && t.queue[|s.queue|].entry.id == id)
  {
    hide Sound, Runs, RunOf, DiaryOf, Agrees, InLine, Good, Send, Settled1, Line, Unused, FateOf;
    var s, j := RunOf(Initial(), events), DiaryOf(Initial(), events, EMPTY);
    NothingYet();
    RunAgrees(Initial(), events, EMPTY);
    RunSound(Initial(), events);
    SoundIsGood(s);
    LineAt(s, j, d);
    SendSettles(s, d, slot);
    SettledIn(s, Send(s, d, slot), d);
    SettledInLine(s, Send(s, d, slot), j, d);
    SendCases(s, d, slot);
    QueuedId(s, Oldest(s, d));
  }

  /* ---------- closing a device ---------- */

  function Late(line: seq<nat>): (r: seq<Public>)
    ensures |r| == |line| && forall k :: 0 <= k < |line| ==> r[k] == Public(line[k], Timeout)
  {
    seq(|line|, k requires 0 <= k < |line| => Public(line[k], Timeout))
  }

  lemma KilledInLine(s: State, t: State, j: Diary, d: nat, gone: set<nat>)
    requires d in s.peers && InLine(s, j, d) && Killed(Withdraw(s, d), t, gone)
    requires forall c :: c in Reverse(s.peers[d].ready) ==> c in t.cycles
    ensures Publics(Killings(t.cycles, Reverse(s.peers[d].ready))) == Late(Line(j, d))
  {
    hide Line, Good;
    var ready := s.peers[d].ready;
    var cs := Reverse(ready);
    forall k | 0 <= k < |cs| ensures t.cycles[cs[k]].id == Line(j, d)[k] {
      assert cs[k] in cs;
      ReverseAt(ready, k);
    }
    hide Reverse;
    var a, b := Publics(Killings(t.cycles, cs)), Late(Line(j, d));
    assert forall k :: 0 <= k < |cs| ==> Killings(t.cycles, cs)[k].id == t.cycles[cs[k]].id;
    assert a == b;
  }

  lemma PublicsJoin(a: seq<Report>, b: seq<Report>)
    ensures Publics(a + b) == Publics(a) + Publics(b)
  {
  }

  /** Closing a device that may be closed reports timeouts only: first for what is in flight for it, in
      the order of sending, then for what was never sent, in the order of closing. */
  lemma ShutInOrder(events: seq<Event>, d: nat)
    requires Sound(Initial()) && Runs(Initial(), events)
    requires var s := RunOf(Initial(), events); d in s.peers && s.peers[d].unready == 0 && d !in s.passive
    ensures var s, j := RunOf(Initial(), events), DiaryOf(Initial(), events, EMPTY);
            && Good(s)
            && var flying := Select(s.queue, Mine(Withdraw(s, d).cycles, d));
            Publics(CloseDevice(s, d).0.log) == Publics(s.log) + (TimedOut(flying) + Late(Line(j, d)))
  {
    hide *;
    var s, j := RunOf(Initial(), events), DiaryOf(Initial(), events, EMPTY);
    NothingYet();
    RunAgrees(Initial(), events, EMPTY);
    RunSound(Initial(), events);
    SoundIsGood(s);
    LineAt(s, j, d);
    PassiveTag(s, d);
    CloseSteps(s, d);
    ReadyList(s, d);
    var w, ready := Withdraw(s, d), Reverse(s.peers[d].ready);
    var t := KillFlying(w, d);
    WithdrawIs(s, d);
    WithdrawnSame(s, d);
    KillFlyingSelects(w, d);
    KilledParts(w, t, FlyingOf(w.cycles, d));
    KillAllSound(t, ready);
    KilledInLine(s, t, j, d, FlyingOf(w.cycles, d));
    PublicsJoin(t.log, Killings(t.cycles, ready));
    RemovedLog(KillAll(t, ready), d);
    Regrouped(Publics(s.log), TimedOut(Select(w.queue, Mine(w.cycles, d))), Late(Line(j, d)));
  }

  lemma WithdrawnSame(s: State, d: nat)
    requires d in s.peers
    ensures Withdraw(s, d).queue == s.queue
  {
  }

  lemma Regrouped(a: seq<Public>, b: seq<Public>, c: seq<Public>)
    ensures (a + b) + c == a + (b + c)
  {
  }
}
