/** Over every run the responses in flight are at the addresses their claims give them, in the order
    they were issued; so replies reach the response that asked for them. */
module Routing {
  import opened Lists
  import opened Master
  import opened ReadWrite
  import opened EndToEnd
  import opened Flush
  import opened Replies
  import opened Claims
  import opened Lifecycle
  import opened Moves
  import opened Protocol
  import opened Flushing

  /** How many responses have been issued, and for which cycle as which. */
  datatype Book = Book(serial: map<nat, nat>, issued: nat)

  /** Enter the response that an event issues, if it issues one. */
  ghost function Entered(s: State, e: Event, b: Book): Book
    requires Good(s) && Legal(s, e)
  {
    hide Good, Legal;
    var t := Next(s, e);
    if |t.queue| > |s.queue| then Book(b.serial[t.queue[|s.queue|].entry.id := b.issued], b.issued + 1) else b
  }

  ghost function BookOf(s: State, events: seq<Event>, b: Book): Book
    requires Sound(s) && Runs(s, events)
    decreases |events|
  {
    hide Next, Sound, Legal, Entered;
    SoundIsGood(s);
    if events == [] then b
    else
      NextSound(s, events[0]);
      BookOf(Next(s, events[0]), events[1..], Entered(s, events[0], b))
  }

  /** A response with its number and at the address of that claim. */
  ghost predicate InBook(e: InFlight, b: Book) {
    e.id in b.serial && b.serial[e.id] < b.issued && e.rba == Claim(b.serial[e.id])
  }

  /** Both are numbered, the first below the second. */
  predicate Before(x: InFlight, y: InFlight, b: Book) {
    x.id in b.serial && y.id in b.serial && b.serial[x.id] < b.serial[y.id]
  }

  ghost predicate AllInBook(q: seq<Held>, b: Book) {
    && (forall h :: h in q ==> InBook(h.entry, b))
    && (forall i, j :: 0 <= i < j < |q| ==> Before(q[i].entry, q[j].entry, b))
  }

  /** The next address to be claimed and the responses in flight agree with the book. */
  ghost predicate Addressed(s: State, b: Book) {
    s.rba == Claim(b.issued) && AllInBook(s.queue, b)
  }

  lemma FewerInBook(q: seq<Held>, k: nat, b: Book)
    requires AllInBook(q, b) && k < |q|
    ensures AllInBook(LeftOut(q, k), b)
  {
    hide InBook;
    var r := LeftOut(q, k);
    forall h | h in r ensures InBook(h.entry, b) {
      var i :| 0 <= i < |r| && r[i] == h;
      assert h == q[if i < k then i else i + 1];
    }
  }

  lemma SameInBook(q: seq<Held>, k: nat, r: Response, b: Book)
    requires AllInBook(q, b) && k < |q|
    ensures AllInBook(q[k := q[k].(entry := q[k].entry.(response := r))], b)
  {
  }

  lemma {:induction false} SelectInBook(q: seq<Held>, f: Held -> bool, b: Book)
    requires AllInBook(q, b)
    ensures AllInBook(Select(q, f), b)
  {
    hide InBook;
    if q != [] {
      var rest := q[1..];
      assert forall h :: h in rest ==> h in q;
      forall i, j | 0 <= i < j < |rest|
        ensures Before(rest[i].entry, rest[j].entry, b)
      {
        assert rest[i] == q[i + 1] && rest[j] == q[j + 1];
      }
      SelectInBook(rest, f, b);
      SelectMembers(rest, f);
      if f(q[0]) {
        FirstInBook(q[0], Select(rest, f), q, b);
      }
    }
  }

  lemma FirstInBook(h: Held, rest: seq<Held>, q: seq<Held>, b: Book)
    requires q != [] && h == q[0] && AllInBook(q, b) && AllInBook(rest, b) && forall x :: x in rest ==> x in q[1..]
    ensures AllInBook([h] + rest, b)
  {
    hide InBook;
    var all := [h] + rest;
    forall i, j | 0 <= i < j < |all|
      ensures Before(all[i].entry, all[j].entry, b)
    {
      if i == 0 {
        assert all[j] == rest[j - 1] && rest[j - 1] in q[1..];
        var k :| 0 <= k < |q[1..]| && q[1..][k] == all[j];
        assert q[k + 1] == all[j];
      } else {
        assert all[i] == rest[i - 1] && all[j] == rest[j - 1];
      }
    }
  }

  lemma OneMoreInBook(q: seq<Held>, h: Held, b: Book)
    requires AllInBook(q, b) && h.entry.rba == Claim(b.issued) && forall x :: x in q ==> x.entry.id != h.entry.id
    ensures AllInBook(q + [h], Book(b.serial[h.entry.id := b.issued], b.issued + 1))
  {
    hide Claim;
    var all, c := q + [h], Book(b.serial[h.entry.id := b.issued], b.issued + 1);
    forall x | x in all ensures InBook(x.entry, c) {
      if x in q { assert InBook(x.entry, b); }
    }
    forall i, j | 0 <= i < j < |all|
      ensures Before(all[i].entry, all[j].entry, c)
    {
      assert all[i] == q[i] && q[i] in q && InBook(q[i].entry, b);
      if j < |q| { assert all[j] == q[j] && q[j] in q; }
    }
  }

  lemma ClaimNext(n: nat)
    ensures Claim(n + 1) == NextAddress(Claim(n))
  {
  }

  lemma SendAddressed(s: State, d: nat, slot: nat, b: Book)
    requires Sound(s) && Legal(s, Flushed(d, slot)) && Addressed(s, b)
    ensures Good(s) && Addressed(Send(s, d, slot), Entered(s, Flushed(d, slot), b))
  {
    hide Sound, Good, Unused, FateOf, Send, Claim, NextAddress, InBook;
    SoundIsGood(s);
    SendCases(s, d, slot);
    TakeGood(s, d);
    var c, t := Oldest(s, d), Send(s, d, slot);
    if |t.queue| > |s.queue| {
      NotFlying(s, c);
      ClaimNext(b.issued);
      QueuedId(s, c);
      OneMoreInBook(s.queue, t.queue[|s.queue|], b);
    }
  }

  /** A cycle that is not flying has no response in flight. */
  lemma NotFlying(s: State, c: nat)
    requires Good(s) && c in s.cycles && s.cycles[c].stage != Flying
    ensures forall h :: h in s.queue ==> h.entry.id != s.cycles[c].id
  {
    hide Homes, Fates, Chains, InOrder, Apart, Listed;
    IdsDiffer(s.cycles, s.log, s.count, s.aborted, s.dead, c);
    forall h | h in s.queue ensures h.entry.id != s.cycles[c].id {
      var k :| 0 <= k < |s.queue| && s.queue[k] == h;
      HeldIs(s.queue, s.responses, s.cycles, k);
    }
  }

  lemma FinishAddressed(s: State, k: nat, status: Status, b: Book)
    requires Good(s) && k < |s.queue| && Addressed(s, b)
    ensures Addressed(Finish(s, k, status), b) && |Finish(s, k, status).queue| <= |s.queue|
  {
    hide Good, AllInBook, Claim;
    FinishSound(s, k, status);
    FewerInBook(s.queue, k, b);
  }

  lemma AnswerAddressed(s: State, size: nat, addr: nat, value: nat, b: Book)
    requires Sound(s) && Addressed(s, b)
    ensures Good(s) && Addressed(Answer(s, size, addr, value), b) && |Answer(s, size, addr, value).queue| <= |s.queue|
  {
    hide Good, Settled, Quiet, Apply, TargetOf, Finish, AllInBook, Claim;
    AnswerCases(s, size, addr, value);
    var k := Find(Entries(s.queue), TargetOf(addr));
    if k < |s.queue| {
      var step := Apply(s.queue[k].entry.response, size, addr, value);
      var t := Update(s, k, step.r);
      SameInBook(s.queue, k, step.r, b);
      hide Answer;
      if step.done.Some? {
        FinishAddressed(t, k, step.done.value, b);
      }
    }
  }

  lemma {:induction false} KillAllQueue(s: State, cs: seq<nat>)
    requires Good(s) && AllLimbo(s.cycles, cs)
    ensures KillAll(s, cs).queue == s.queue
    decreases |cs|
  {
    hide *;
    if cs == [] {
      KillNone(s);
    } else {
      KillAllStep(s, cs);
      var u := CallBack(s, cs[0], s.cycles[cs[0]].head, Timeout);
      KilledParts(s, u, {cs[0]});
      CalledQueue(s, cs[0], s.cycles[cs[0]].head);
      LimboAfter(s, cs, u);
      KillAllQueue(u, cs[1..]);
    }
  }

  lemma CalledQueue(s: State, c: nat, handed: nat)
    requires c in s.cycles
    ensures CallBack(s, c, handed, Timeout).queue == s.queue
  {
  }

  lemma LimboAfter(s: State, cs: seq<nat>, u: State)
    requires cs != [] && u.cycles == s.cycles - {cs[0]} && AllLimbo(s.cycles - {cs[0]}, cs[1..])
    ensures AllLimbo(u.cycles, cs[1..])
  {
  }

  /** Closing a device takes its responses out of the queue and leaves the others in order. */
  lemma ShutQueue(s: State, d: nat)
    requires Sound(s) && d in s.peers
    ensures Good(s)
    ensures var t := CloseDevice(s, d).0;
            && t.rba == s.rba
            && (t.queue == s.queue || t.queue == Select(s.queue, Others(Withdraw(s, d).cycles, d)))
  {
    hide *;
    SoundIsGood(s);
    if s.peers[d].unready == 0 && s.peers[d].tag != d {
      CloseSteps(s, d);
      ReadyList(s, d);
      var w, ready := Withdraw(s, d), Reverse(s.peers[d].ready);
      var t := KillFlying(w, d);
      KillFlyingSelects(w, d);
      KilledParts(w, t, FlyingOf(w.cycles, d));
      KillAllQueue(t, ready);
      CloseActive(s, d);
      WithdrawnQueue(s, d, KillAll(t, ready));
    } else {
      ShutQuietly(s, d);
    }
  }

  lemma WithdrawnQueue(s: State, d: nat, u: State)
    requires d in s.peers
    ensures Withdraw(s, d).queue == s.queue && RemovePeer(u, d).queue == u.queue
  {
  }

  lemma {:induction false} SelectShorter(q: seq<Held>, f: Held -> bool)
    ensures |Select(q, f)| <= |q|
  {
    if q != [] {
      SelectShorter(q[1..], f);
    }
  }

  lemma ShutAddressed(s: State, d: nat, b: Book)
    requires Sound(s) && d in s.peers && Addressed(s, b)
    ensures Good(s)
    ensures Addressed(CloseDevice(s, d).0, b) && |CloseDevice(s, d).0.queue| <= |s.queue|
  {
    hide Sound, Good, CloseDevice, AllInBook, Claim, Select, Withdraw;
    ShutQueue(s, d);
    SelectInBook(s.queue, Others(Withdraw(s, d).cycles, d), b);
    SelectShorter(s.queue, Others(Withdraw(s, d).cycles, d));
  }

  lemma OthersQueue(s: State, e: Event)
    requires Good(s) && Legal(s, e)
    requires e.OpenDevice? || e.Open? || e.AddOp? || e.Drop? || e.Filled? || e.Tick?
    ensures Next(s, e).queue == s.queue && Next(s, e).rba == s.rba
  {
    hide Good, Unused;
    match e
    case Drop(c) => UnfillGood(s, c);
    case Filled(c, _) => UnfillGood(s, c);
    case _ =>
  }

  /** Every step keeps the book. */
  lemma StepAddressed(s: State, e: Event, b: Book)
    requires Sound(s) && Legal(s, e) && Addressed(s, b)
    ensures Good(s) && Sound(Next(s, e)) && Addressed(Next(s, e), Entered(s, e, b))
  {
    hide Good, Settled, Quiet, AllInBook, Claim, Unused, Send, Answer, CloseDevice, Finish;
    hide OpenCycle, Enqueue, Abort, Close;
    NextSound(s, e);
    SoundIsGood(s);
    match e
    case Flushed(d, slot) => SendAddressed(s, d, slot, b);
    case Reply(size, addr, value) => AnswerAddressed(s, size, addr, value, b);
    case Expired => FinishAddressed(s, 0, Timeout, b);
    case Shut(d) => ShutAddressed(s, d, b);
    case _ => OthersQueue(s, e);
  }

  lemma {:induction false} RunAddressed(s: State, events: seq<Event>, b: Book)
    requires Sound(s) && Runs(s, events) && Addressed(s, b)
    ensures Addressed(RunOf(s, events), BookOf(s, events, b))
    decreases |events|
  {
    hide Sound, Next, Addressed, Entered, Legal;
    if events != [] {
      StepAddressed(s, events[0], b);
      RunAddressed(Next(s, events[0]), events[1..], Entered(s, events[0], b));
    }
  }

  const BLANK: Book := Book(map[], 0)

  /** The numbers of the responses in flight. */
  function Serials(q: seq<Held>, b: Book): (r: seq<nat>)
    requires forall h :: h in q ==> h.entry.id in b.serial
    ensures |r| == |q| && forall i :: 0 <= i < |q| ==> q[i] in q && r[i] == b.serial[q[i].entry.id]
  {
    seq(|q|, i requires 0 <= i < |q| => assert q[i] in q; b.serial[q[i].entry.id])
  }

  /** Where a write-back to the `j`-th response in flight goes. */
  ghost predicate Routes(s: State, b: Book, j: nat, status: bool)
    requires j < |s.queue|
  {
    && s.rba == Claim(b.issued) && (forall h :: h in s.queue ==> h.entry.id in b.serial)
    && var q, n := Entries(s.queue), Serials(s.queue, b);
    && Claimed(q, n) && n[|n| - 1] < b.issued
    && (Find(q, TargetOf(q[j].rba + if status then 1 else 0)) == j <==> forall i :: 0 <= i < j ==> !Wrapped(n[i], n[j]))
    && (b.issued - n[0] <= CYCLE ==> Find(q, TargetOf(q[j].rba + if status then 1 else 0)) == j)
  }

  lemma AddressedRoutes(s: State, b: Book, j: nat, status: bool)
    requires Addressed(s, b) && j < |s.queue|
    ensures Routes(s, b, j, status)
  {
    hide Addressed, TargetOf, Find, Claim, Claimed, Wrapped;
    BookClaims(s, b);
    RoutesExactly(Entries(s.queue), Serials(s.queue, b), j, status);
    if b.issued - Serials(s.queue, b)[0] <= CYCLE {
      RoutesToIssuer(Entries(s.queue), Serials(s.queue, b), j, status);
    }
  }

  /** REPLIES FIND THEIR WAY. After every run a value or status written back to the address of a
      response in flight reaches that response exactly when no older one in flight was issued a
      multiple of 2^14 responses before it; so always, if all in flight are among the last 2^14. */
  lemma RepliesRoute(events: seq<Event>, j: nat, status: bool)
    requires Sound(Initial()) && Runs(Initial(), events) && j < |RunOf(Initial(), events).queue|
    ensures Routes(RunOf(Initial(), events), BookOf(Initial(), events, BLANK), j, status)
  {
    hide Sound, Runs, RunOf, BookOf, Routes, Addressed;
    BlankAddressed();
    RunAddressed(Initial(), events, BLANK);
    AddressedRoutes(RunOf(Initial(), events), BookOf(Initial(), events, BLANK), j, status);
  }

  lemma BlankAddressed()
    ensures Addressed(Initial(), BLANK)
  {
  }

  lemma BookClaims(s: State, b: Book)
    requires Addressed(s, b)
    ensures (forall h :: h in s.queue ==> h.entry.id in b.serial) && s.rba == Claim(b.issued)
    ensures Claimed(Entries(s.queue), Serials(s.queue, b))
    ensures forall i :: 0 <= i < |s.queue| ==> Serials(s.queue, b)[i] < b.issued
  {
    hide Claim;
    assert forall h :: h in s.queue ==> InBook(h.entry, b);
  }
}
