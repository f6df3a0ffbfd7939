/** Flushes of several packets: the replies to them may come back in any order, more than once, or
    not at all, while older and newer responses are in flight. */
module Packets {
  import opened Bytes
  import opened Format
  import opened Lists
  import opened Slave
  import opened Master
  import opened Meaning
  import opened ReadWrite
  import opened EndToEnd
  import opened Flush
  import opened Replies
  import opened Claims
  import opened Device
  import opened Conversation

  /** The responses of the groups not yet answered, from the `k`-th group on, oldest first. */
  function Unanswered(time: nat, groups: seq<seq<Sent>>, answered: set<nat>, k: nat): seq<InFlight>
    requires k <= |groups|
    decreases |groups| - k
  {
    if k == |groups| then []
    else (if k in answered then [] else Issued(time, groups[k])) + Unanswered(time, groups, answered, k + 1)
  }

  lemma {:induction false} IssuedConcat(time: nat, a: seq<Sent>, b: seq<Sent>)
    ensures Issued(time, a + b) == Issued(time, a) + Issued(time, b)
    decreases |a|
  {
    hide Awaits, Issued;
    if a == [] {
      assert a + b == b;
      IssuedNone(time);
    } else {
      assert (a + b)[0] == a[0] && (a + b)[1..] == a[1..] + b;
      IssuedFirst(time, a);
      IssuedFirst(time, a + b);
      IssuedConcat(time, a[1..], b);
    }
  }

  lemma IssuedNone(time: nat)
    ensures Issued(time, []) == [] && forall s: seq<InFlight> :: [] + s == s
  {
  }

  /** At first all of a batch is unanswered. */
  lemma {:induction false} NoneAnswered(time: nat, groups: seq<seq<Sent>>, k: nat)
    requires k <= |groups|
    ensures Unanswered(time, groups, {}, k) == Issued(time, JoinSent(groups[k..]))
    decreases |groups| - k
  {
    hide Issued;
    IssuedNone(time);
    if k < |groups| {
      assert groups[k..][0] == groups[k] && groups[k..][1..] == groups[k + 1..];
      NoneAnswered(time, groups, k + 1);
      IssuedConcat(time, groups[k], JoinSent(groups[k + 1..]));
    }
  }

  /** Where the responses of one group are among the unanswered. */
  lemma {:induction false} UnansweredSplit(time: nat, groups: seq<seq<Sent>>, answered: set<nat>, k: nat, g: nat)
      returns (a: seq<InFlight>, b: seq<InFlight>)
    requires k <= g < |groups| && g !in answered
    ensures Unanswered(time, groups, answered, k) == a + (Issued(time, groups[g]) + b)
    ensures Unanswered(time, groups, answered + {g}, k) == a + b
    decreases g - k
  {
    hide Issued;
    if k == g {
      a, b := [], Unanswered(time, groups, answered, k + 1);
      UnansweredPast(time, groups, answered, k + 1, g);
    } else {
      var first := if k in answered then [] else Issued(time, groups[k]);
      a, b := UnansweredSplit(time, groups, answered, k + 1, g);
      InFront(first, a, Issued(time, groups[g]), b);
      a := first + a;
    }
  }

  lemma InFront(first: seq<InFlight>, a: seq<InFlight>, mine: seq<InFlight>, b: seq<InFlight>)
    ensures first + (a + (mine + b)) == (first + a) + (mine + b) && first + (a + b) == (first + a) + b
  {
  }

  lemma {:induction false} UnansweredPast(time: nat, groups: seq<seq<Sent>>, answered: set<nat>, k: nat, g: nat)
    requires g < k <= |groups|
    ensures Unanswered(time, groups, answered + {g}, k) == Unanswered(time, groups, answered, k)
    decreases |groups| - k
  {
    hide Issued;
    if k < |groups| {
      UnansweredPast(time, groups, answered, k + 1, g);
    }
  }

  /* ---------- replies that come too late ---------- */

  /** No response in the queue has the address of one of the batch. */
  ghost predicate Foreign(q: seq<InFlight>, batch: seq<Sent>) {
    forall i, j :: 0 <= i < |q| && 0 <= j < |batch| && Awaits(batch[j]) ==> q[i].rba != batch[j].rba
  }

  /** Write-backs to an address that nothing in flight has are ignored. */
  lemma {:induction false} DeliverNone(q: seq<InFlight>, rba: nat, writes: seq<Access>)
    requires AllCursors(q) && AllTo(rba, writes) && forall i :: 0 <= i < |q| ==> q[i].rba != rba
    ensures DeliverAll(q, writes) == (q, [])
    decreases |writes|
  {
    hide Deliver, AllCursors;
    if writes != [] {
      var w, rest := writes[0], writes[1..];
      assert w in writes && writes == [w] + rest;
      assert AllTo(rba, rest) by { assert forall x :: x in rest ==> x in writes; }
      FindIs(q, rba, |q|);
      DeliverCases(q, w.size, w.addr, w.value);
      DeliverAllStep(q, w, rest);
      DeliverNone(q, rba, rest);
      NothingMore();
    }
  }

  lemma CycleIgnored(p: Port, bus: Bus, s: Session, c: Sent, q: seq<InFlight>)
    requires Sendable(p, c) && AllCursors(q) && Separate(q)
    requires Awaits(c) ==> forall i :: 0 <= i < |q| ==> q[i].rba != c.rba
    ensures var t := AfterCycle(p, bus, s, c);
            s.replies <= t.replies && DeliverAll(q, Delivered(p, NewReplies(s, t))) == (q, [])
  {
    hide *;
    CycleTargets(p, bus, s, c);
    if Awaits(c) {
      DeliverNone(q, c.rba, Delivered(p, NewReplies(s, AfterCycle(p, bus, s, c))));
    } else {
      CycleAnswered(p, bus, s, c, q, 0);
    }
  }

  /** The replies to a batch whose responses are no longer in flight change nothing. */
  lemma {:induction false} BatchIgnored(p: Port, bus: Bus, s: Session, batch: seq<Sent>, q: seq<InFlight>)
    requires AllSendable(p, batch) && AllCursors(q) && Separate(q) && Foreign(q, batch)
    ensures var t := AfterBatch(p, bus, s, batch);
            s.replies <= t.replies && DeliverAll(q, Delivered(p, NewReplies(s, t))) == (q, [])
    decreases |batch|
  {
    hide *;
    if batch == [] {
      NothingAsked(p, bus, s, batch, q);
    } else {
      BatchStep(p, bus, s, batch);
      ForeignStep(q, batch);
      var t := AfterCycle(p, bus, s, batch[0]);
      var u := AfterBatch(p, bus, t, batch[1..]);
      CycleIgnored(p, bus, s, batch[0], q);
      BatchIgnored(p, bus, t, batch[1..], q);
      NewRepliesSplit(p, s, t, u);
      DeliverAllConcat(q, Delivered(p, NewReplies(s, t)), Delivered(p, NewReplies(t, u)));
      NothingMore();
    }
  }

  lemma NothingMore()
    ensures forall s: seq<Finished> :: [] + s == s
  {
  }

  lemma NothingAsked(p: Port, bus: Bus, s: Session, batch: seq<Sent>, q: seq<InFlight>)
    requires batch == [] && AllCursors(q)
    ensures AllSendable(p, batch) && AfterBatch(p, bus, s, batch) == s
    ensures DeliverAll(q, Delivered(p, NewReplies(s, s))) == (q, [])
  {
    assert NewReplies(s, s) == [];
  }

  lemma ForeignStep(q: seq<InFlight>, batch: seq<Sent>)
    requires Foreign(q, batch) && batch != []
    ensures Foreign(q, batch[1..]) && (Awaits(batch[0]) ==> forall i :: 0 <= i < |q| ==> q[i].rba != batch[0].rba)
  {
    hide Awaits;
  }

  /* ---------- one queue, its parts ---------- */

  ghost predicate Tidy(q: seq<InFlight>) { Separate(q) && AllCursors(q) }

  /** With its responses taken out, a group is foreign to the rest. */
  lemma TakenOut(time: nat, batch: seq<Sent>, q: seq<InFlight>, r: seq<InFlight>)
    requires Tidy(q + (Issued(time, batch) + r))
    ensures Tidy(q + r) && Foreign(q + r, batch)
  {
    hide Issued, Awaits;
    var mine := Issued(time, batch);
    var all, rest := q + (mine + r), q + r;
    assert forall e :: e in rest ==> e in all;
    forall i, j | 0 <= i < j < |rest| ensures rest[i].rba != rest[j].rba {
      assert rest[i] == all[if i < |q| then i else i + |mine|] && rest[j] == all[if j < |q| then j else j + |mine|];
    }
    forall i, j | 0 <= i < |rest| && 0 <= j < |batch| && Awaits(batch[j]) ensures rest[i].rba != batch[j].rba {
      var m := IssuedAt(time, batch, j);
      assert all[|q| + m] == mine[m] && rest[i] == all[if i < |q| then i else i + |mine|];
    }
  }

  lemma {:induction false} IssuedAt(time: nat, batch: seq<Sent>, j: nat) returns (m: nat)
    requires j < |batch| && Awaits(batch[j])
    ensures m < |Issued(time, batch)| && Issued(time, batch)[m].rba == batch[j].rba
    decreases |batch|
  {
    hide Awaits;
    if j == 0 {
      m := 0;
    } else {
      m := IssuedAt(time, batch[1..], j - 1);
      m := m + if Awaits(batch[0]) then 1 else 0;
    }
  }

  lemma StillForeign(time: nat, batch: seq<Sent>, q: seq<InFlight>, r: seq<InFlight>, other: seq<Sent>)
    requires Foreign(q + (Issued(time, batch) + r), other)
    ensures Foreign(q + r, other)
  {
    hide Issued, Awaits;
    var mine := Issued(time, batch);
    var all, rest := q + (mine + r), q + r;
    forall i, j | 0 <= i < |rest| && 0 <= j < |other| && Awaits(other[j]) ensures rest[i].rba != other[j].rba {
      assert rest[i] == all[if i < |q| then i else i + |mine|];
    }
  }

  /* ---------- packet after packet ---------- */

  /** A packet arrives at the slave, finds the devices of `bus`, and the reply arrives. */
  datatype Arrival = Arrival(packet: nat, bus: Bus)

  /** What the master's record loop writes back when it reads the slave's reply to `body`. */
  ghost function Heard(p: Port, bus: Bus, body: seq<byte>): seq<Access> {
    var replies := Run(p, bus, IDLE, body).0.replies;
    if AllFit(p, replies) then Run(p, SILENT, IDLE, SerializeAll(p, replies)).0.x.trace else []
  }

  /** Deliver the replies to packets one after another; also the cycles finished by each. */
  ghost function DeliverEach(p: Port, q: seq<InFlight>, bodies: seq<seq<byte>>, arrivals: seq<Arrival>)
      : (seq<InFlight>, seq<seq<Finished>>)
    requires AllCursors(q) && forall a :: a in arrivals ==> a.packet < |bodies|
    decreases |arrivals|
  {
    if arrivals == [] then (q, [])
    else
      assert arrivals[0] in arrivals;
      var writes := Heard(p, arrivals[0].bus, bodies[arrivals[0].packet]);
      DeliverAllConcat(q, writes, []);
      var (next, done) := DeliverAll(q, writes);
      var (last, more) := DeliverEach(p, next, bodies, arrivals[1..]);
      (last, [done] + more)
  }

  ghost function Arrived(arrivals: seq<Arrival>): set<nat> { set a | a in arrivals :: a.packet }

  /** The first arrival of a packet finishes its cycles, each with the results of that execution;
      later ones finish nothing. */
  ghost predicate EachRight(p: Port, groups: seq<seq<Sent>>, arrivals: seq<Arrival>, answered: set<nat>,
                            done: seq<seq<Finished>>)
    requires forall k :: 0 <= k < |groups| ==> AllSendable(p, groups[k])
    requires forall a :: a in arrivals ==> a.packet < |groups|
    decreases |arrivals|
  {
    if arrivals == [] then done == []
    else
      assert arrivals[0] in arrivals;
      var g := arrivals[0].packet;
      && done != []
      && (if g in answered then done[0] == [] else AllRight(p, arrivals[0].bus, IDLE, groups[g], done[0]))
      && EachRight(p, groups, arrivals[1..], answered + {g}, done[1..])
  }

  /** The bodies of packets that carry the given cycles. */
  ghost predicate Carry(p: Port, groups: seq<seq<Sent>>, bodies: seq<seq<byte>>) {
    && |bodies| == |groups|
    && (forall k :: 0 <= k < |groups| ==> AllSendable(p, groups[k]))
    && (forall k :: 0 <= k < |groups| ==> bodies[k] == Wire(p, groups[k]))
  }

  lemma HeardIs(p: Port, bus: Bus, batch: seq<Sent>)
    requires AllSendable(p, batch)
    ensures var t := AfterBatch(p, bus, IDLE, batch);
            IDLE.replies <= t.replies && Heard(p, bus, Wire(p, batch)) == Delivered(p, NewReplies(IDLE, t))
  {
    hide Run, Wire, AfterBatch, DirectAll, AllFit, Delivered, SerializeAll, AllSendable, NewReplies;
    BatchServed(p, bus, batch, SILENT, IDLE);
    assert IDLE.x.trace == [];
  }

  /** One packet's reply. */
  lemma OneAnswered(p: Port, bus: Bus, groups: seq<seq<Sent>>, g: nat, time: nat, q: seq<InFlight>, r: seq<InFlight>,
                    answered: set<nat>)
    requires g < |groups| && AllSendable(p, groups[g])
    requires Tidy(q + (Unanswered(time, groups, answered, 0) + r))
    requires g in answered ==> Foreign(q + (Unanswered(time, groups, answered, 0) + r), groups[g])
    ensures var (next, done) := DeliverAll(q + (Unanswered(time, groups, answered, 0) + r),
                                           Heard(p, bus, Wire(p, groups[g])));
            && next == q + (Unanswered(time, groups, answered + {g}, 0) + r)
            && Tidy(next) && Foreign(next, groups[g])
            && (forall other :: Foreign(q + (Unanswered(time, groups, answered, 0) + r), other) ==>
                  Foreign(next, other))
            && if g in answered then done == [] else AllRight(p, bus, IDLE, groups[g], done)
  {
    hide *;
    HeardIs(p, bus, groups[g]);
    var all := q + (Unanswered(time, groups, answered, 0) + r);
    TidyIs(all);
    if g in answered {
      assert answered + {g} == answered;
      BatchIgnored(p, bus, IDLE, groups[g], all);
    } else {
      var a, b := UnansweredSplit(time, groups, answered, 0, g);
      var mine := Issued(time, groups[g]);
      assert all == (q + a) + (mine + (b + r));
      assert q + ((a + b) + r) == (q + a) + (b + r);
      BatchAnswered(p, bus, IDLE, groups[g], time, q + a, b + r);
      TakenOut(time, groups[g], q + a, b + r);
      forall other | Foreign(all, other) ensures Foreign((q + a) + (b + r), other) {
        StillForeign(time, groups[g], q + a, b + r, other);
      }
    }
  }

  lemma TidyIs(q: seq<InFlight>)
    ensures Tidy(q) <==> Separate(q) && AllCursors(q)
  {
  }

  /** SEVERAL PACKETS. The replies to the packets of a flush may arrive in any order, with some lost
      and some repeated, while older and newer responses are in flight: the first reply to each
      packet takes exactly the responses issued for its cycles out of the queue and finishes them
      with exactly their own results; repeated ones do nothing; all other responses stay. */
  lemma {:induction false} PacketsAnswered(p: Port, groups: seq<seq<Sent>>, bodies: seq<seq<byte>>, time: nat,
                                           q: seq<InFlight>, r: seq<InFlight>, answered: set<nat>,
                                           arrivals: seq<Arrival>)
    requires Carry(p, groups, bodies) && forall a :: a in arrivals ==> a.packet < |groups|
    requires var all := q + (Unanswered(time, groups, answered, 0) + r);
             Tidy(all) && AllCursors(all) && forall g :: g in answered && g < |groups| ==> Foreign(all, groups[g])
    ensures var (last, done) := DeliverEach(p, q + (Unanswered(time, groups, answered, 0) + r), bodies, arrivals);
            && last == q + (Unanswered(time, groups, answered + Arrived(arrivals), 0) + r)
            && EachRight(p, groups, arrivals, answered, done)
    decreases |arrivals|
  {
    hide *;
    CarryIs(p, groups, bodies);
    var all := q + (Unanswered(time, groups, answered, 0) + r);
    if arrivals == [] {
      NoArrivals(p, groups, bodies, all, answered);
    } else {
      var bus, g, rest := arrivals[0].bus, arrivals[0].packet, arrivals[1..];
      assert arrivals[0] in arrivals && forall a :: a in rest ==> a in arrivals;
      OneAnswered(p, bus, groups, g, time, q, r, answered);
      var (next, done) := DeliverAll(all, Heard(p, bus, Wire(p, groups[g])));
      TidyIs(next);
      PacketsAnswered(p, groups, bodies, time, q, r, answered + {g}, rest);
      DeliverEachStep(p, all, bodies, arrivals);
      EachRightStep(p, groups, arrivals, answered, done, DeliverEach(p, next, bodies, rest).1);
      ArrivedStep(arrivals, answered);
    }
  }

  lemma CarryIs(p: Port, groups: seq<seq<Sent>>, bodies: seq<seq<byte>>)
    requires Carry(p, groups, bodies)
    ensures |bodies| == |groups|
    ensures forall k :: 0 <= k < |groups| ==> AllSendable(p, groups[k]) && bodies[k] == Wire(p, groups[k])
  {
    hide AllSendable, Wire;
  }

  lemma NoArrivals(p: Port, groups: seq<seq<Sent>>, bodies: seq<seq<byte>>, q: seq<InFlight>, answered: set<nat>)
    requires AllCursors(q) && forall k :: 0 <= k < |groups| ==> AllSendable(p, groups[k])
    ensures DeliverEach(p, q, bodies, []) == (q, []) && EachRight(p, groups, [], answered, [])
    ensures answered + Arrived([]) == answered
  {
    hide AllSendable, AllCursors;
  }

  lemma DeliverEachStep(p: Port, q: seq<InFlight>, bodies: seq<seq<byte>>, arrivals: seq<Arrival>)
    requires AllCursors(q) && arrivals != [] && forall a :: a in arrivals ==> a.packet < |bodies|
    ensures arrivals[0].packet < |bodies| && forall a :: a in arrivals[1..] ==> a.packet < |bodies|
    ensures var (next, done) := DeliverAll(q, Heard(p, arrivals[0].bus, bodies[arrivals[0].packet]));
            && AllCursors(next)
            && var (last, more) := DeliverEach(p, next, bodies, arrivals[1..]);
            DeliverEach(p, q, bodies, arrivals) == (last, [done] + more)
  {
    hide DeliverAll, Heard, AllCursors;
    assert arrivals[0] in arrivals && forall a :: a in arrivals[1..] ==> a in arrivals;
    DeliverAllConcat(q, Heard(p, arrivals[0].bus, bodies[arrivals[0].packet]), []);
  }

  lemma EachRightStep(p: Port, groups: seq<seq<Sent>>, arrivals: seq<Arrival>, answered: set<nat>,
                      done: seq<Finished>, more: seq<seq<Finished>>)
    requires forall k :: 0 <= k < |groups| ==> AllSendable(p, groups[k])
    requires arrivals != [] && forall a :: a in arrivals ==> a.packet < |groups|
    requires arrivals[0].packet < |groups| && forall a :: a in arrivals[1..] ==> a.packet < |groups|
    requires var g := arrivals[0].packet;
             if g in answered then done == [] else AllRight(p, arrivals[0].bus, IDLE, groups[g], done)
    requires EachRight(p, groups, arrivals[1..], answered + {arrivals[0].packet}, more)
    ensures EachRight(p, groups, arrivals, answered, [done] + more)
  {
    hide AllRight, AllSendable;
    assert ([done] + more)[1..] == more;
  }

  lemma ArrivedStep(arrivals: seq<Arrival>, answered: set<nat>)
    requires arrivals != []
    ensures answered + {arrivals[0].packet} + Arrived(arrivals[1..]) == answered + Arrived(arrivals)
  {
    assert arrivals == [arrivals[0]] + arrivals[1..];
    forall x | x in Arrived(arrivals) ensures x == arrivals[0].packet || x in Arrived(arrivals[1..]) {
      var a :| a in arrivals && a.packet == x;
    }
    forall x | x in Arrived(arrivals[1..]) || x == arrivals[0].packet ensures x in Arrived(arrivals) {
      assert arrivals[0] in arrivals;
    }
  }

  /* ---------- a whole flush ---------- */

  /** With every packet's reply in, nothing is unanswered. */
  lemma {:induction false} AllAnswered(time: nat, groups: seq<seq<Sent>>, answered: set<nat>, k: nat)
    requires k <= |groups| && forall g :: k <= g < |groups| ==> g in answered
    ensures Unanswered(time, groups, answered, k) == []
    decreases |groups| - k
  {
    hide Issued;
    if k < |groups| {
      AllAnswered(time, groups, answered, k + 1);
    }
  }

  /** The claims of what was in flight, of a flush, and of what was issued after it, in order. */
  lemma ClaimedAround(q: seq<InFlight>, claims: seq<nat>, issued: seq<InFlight>, n: nat, r: seq<InFlight>,
                      later: seq<nat>)
    requires Claimed(q, claims) && Continues([], issued, n) && Claimed(r, later)
    requires (forall c :: c in claims ==> c < n) && forall c :: c in later ==> c >= n + |issued|
    ensures Claimed(q + (issued + r), claims + (Numbers(n, |issued|) + later))
  {
    hide Claim, Numbers;
    var mine := Numbers(n, |issued|);
    forall j | 0 <= j < |issued| ensures issued[j].rba == Claim(mine[j]) { }
    ClaimedJoin(issued, mine, r, later);
    ClaimedJoin(q, claims, issued + r, mine + later);
  }

  lemma ClaimedJoin(a: seq<InFlight>, x: seq<nat>, b: seq<InFlight>, y: seq<nat>)
    requires Claimed(a, x) && Claimed(b, y) && forall c, d :: c in x && d in y ==> c < d
    ensures Claimed(a + b, x + y)
  {
    hide Claim;
    var z := x + y;
    forall i, j | 0 <= i < j < |z| ensures z[i] < z[j] {
      if i < |x| <= j {
        assert z[i] == x[i] && z[i] in x && z[j] == y[j - |x|] && z[j] in y;
      }
    }
  }

  lemma {:induction false} IssuedCursors(time: nat, batch: seq<Sent>)
    ensures AllCursors(Issued(time, batch))
    decreases |batch|
  {
    hide Awaits, Start, Cursors;
    if batch != [] {
      IssuedCursors(time, batch[1..]);
      var x := Start(batch[0].checked, batch[0].ops);
      assert Cursors(x);
    }
  }

  lemma CursorsJoin(a: seq<InFlight>, b: seq<InFlight>)
    requires AllCursors(a) && AllCursors(b)
    ensures AllCursors(a + b)
  {
    hide Cursors;
  }

  /** What packets carry behind their headers. */
  function Bodies(p: Port, sent: seq<seq<byte>>): (r: seq<seq<byte>>)
    requires forall k :: 0 <= k < |sent| ==> HeadAlign(p) <= |sent[k]|
    ensures |r| == |sent| && forall k :: 0 <= k < |sent| ==> r[k] == sent[k][HeadAlign(p)..]
  {
    seq(|sent|, k requires 0 <= k < |sent| => sent[k][HeadAlign(p)..])
  }

  /** No two of the claims, which are in order, are as far as 2^14 apart. */
  predicate Recent(claims: seq<nat>) { claims != [] ==> claims[|claims| - 1] - claims[0] < CYCLE }

  lemma RecentSeparate(q: seq<InFlight>, claims: seq<nat>)
    requires Claimed(q, claims) && Recent(claims)
    ensures Separate(q)
  {
    ClaimsSeparate(q, claims);
  }

  /** FROM FLUSH TO CALLBACK. A flush sends packets and issues responses while others are in flight,
      and later flushes issue more. With all of them issued within 2^14 claims, the replies to the
      packets, in any order, some lost and some repeated, finish exactly the responses issued for
      the cycles of the packets answered, each with exactly its own results, and leave all others. */
  lemma FlushAnswered(p: Port, mtu: nat, time: nat, alloc: nat -> bool, queue: seq<Queued>, t: Tally,
                      sent: seq<seq<byte>>, packets: seq<seq<seq<byte>>>, n: nat, q: seq<InFlight>, claims: seq<nat>,
                      r: seq<InFlight>, later: seq<nat>, arrivals: seq<Arrival>)
    requires t.rba == Claim(n) && t.wire == [] && t.issued == []
    requires ArePackets(p, mtu, sent, packets) && Join(packets) == Account(p, mtu, time, alloc, queue, t).wire
    requires AllCursors(q) && AllCursors(r) && Claimed(q, claims) && Claimed(r, later)
    requires var issued := Account(p, mtu, time, alloc, queue, t).issued;
             var all := claims + (Numbers(n, |issued|) + later);
             (forall c :: c in claims ==> c < n) && (forall c :: c in later ==> c >= n + |issued|) && Recent(all)
    requires forall a :: a in arrivals ==> a.packet < |sent|
    ensures var batch := Conversation.Accepted(p, mtu, alloc, queue, t.rba);
            var issued := Account(p, mtu, time, alloc, queue, t).issued;
            && |batch| == |Join(packets)| && AllCursors(q + (issued + r))
            && (forall k :: 0 <= k < |sent| ==> HeadAlign(p) <= |sent[k]|)
            && var groups := Regroup(batch, packets);
            && JoinSent(groups) == batch && Carry(p, groups, Bodies(p, sent))
            && var (last, done) := DeliverEach(p, q + (issued + r), Bodies(p, sent), arrivals);
            && last == q + (Unanswered(time, groups, Arrived(arrivals), 0) + r)
            && EachRight(p, groups, arrivals, {}, done)
            && ((forall k :: 0 <= k < |sent| ==> k in Arrived(arrivals)) ==> last == q + r)
  {
    hide *;
    FlushedPackets(p, mtu, time, alloc, queue, t, sent, packets);
    AccountClaims(p, mtu, time, alloc, queue, t, n);
    var batch := Conversation.Accepted(p, mtu, alloc, queue, t.rba);
    var issued := Account(p, mtu, time, alloc, queue, t).issued;
    var groups := Regroup(batch, packets);
    CarryFrom(p, groups, sent);
    ClaimedAround(q, claims, issued, n, r, later);
    RecentSeparate(q + (issued + r), claims + (Numbers(n, |issued|) + later));
    IssuedCursors(time, batch);
    CursorsJoin(issued, r);
    CursorsJoin(q, issued + r);
    TidyIs(q + (issued + r));
    NoneAnswered(time, groups, 0);
    assert groups[0..] == groups;
    PacketsAnswered(p, groups, Bodies(p, sent), time, q, r, {}, arrivals);
    assert {} + Arrived(arrivals) == Arrived(arrivals);
    if forall k :: 0 <= k < |sent| ==> k in Arrived(arrivals) {
      AllAnswered(time, groups, Arrived(arrivals), 0);
      assert [] + r == r;
    }
  }

  lemma CarryFrom(p: Port, groups: seq<seq<Sent>>, sent: seq<seq<byte>>)
    requires |groups| == |sent| && forall k :: 0 <= k < |sent| ==>
               AllSendable(p, groups[k]) && HeadAlign(p) <= |sent[k]| && sent[k][HeadAlign(p)..] == Wire(p, groups[k])
    ensures Carry(p, groups, Bodies(p, sent))
  {
    hide AllSendable, Wire;
  }
}
