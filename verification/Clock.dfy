/** The queue of responses with its clock: the 16-bit deadlines in it stand for true ones, and polls
    act on the true ones. */
module Clock {
  import opened Lists
  import opened Widths
  import opened ReadWrite
  import opened EndToEnd
  import opened Flush
  import opened Replies
  import opened Links
  import opened Inflight
  import opened Timers

  /** The timers of a queue with deadlines `dues`, of which `m` are in the first list. */
  function TimersOf(dues: seq<nat>, m: nat, time: nat, outlasts: nat): Timers
    requires m <= |dues|
  {
    Timers(dues[..m], dues[m..], time, outlasts)
  }

  lemma Rejoined(dues: seq<nat>, m: nat)
    requires m <= |dues|
    ensures dues[..m] + dues[m..] == dues
  {
  }

  /** Splicing the second list in. */
  lemma MergedPunctual(dues: seq<nat>, m: nat, time: nat, outlasts: nat)
    requires m <= |dues| && Punctual(TimersOf(dues, m, time, outlasts))
    ensures Punctual(TimersOf(dues, |dues|, time, outlasts))
  {
    Rejoined(dues, m);
    WithinConcat(dues[..m], dues[m..], outlasts, time);
    assert dues[..|dues|] == dues && dues[|dues|..] == [] && dues + [] == dues;
  }

  lemma IssuedPunctual(dues: seq<nat>, m: nat, time: nat, outlasts: nat)
    requires m <= |dues| && Punctual(TimersOf(dues, m, time, outlasts))
    ensures Punctual(TimersOf(dues + [time + 5], m, time, outlasts))
  {
    hide Punctual;
    StepPunctual(TimersOf(dues, m, time, outlasts), Issue);
    assert (dues + [time + 5])[..m] == dues[..m] && (dues + [time + 5])[m..] == dues[m..] + [time + 5];
  }

  lemma RemovedPunctual(dues: seq<nat>, m: nat, k: nat, time: nat, outlasts: nat)
    requires k < m <= |dues| && Punctual(TimersOf(dues, m, time, outlasts))
    ensures Punctual(TimersOf(LeftOut(dues, k), m - 1, time, outlasts))
  {
    hide Punctual;
    StepPunctual(TimersOf(dues, m, time, outlasts), Remove(k));
    var rest, f := LeftOut(dues, k), dues[..m];
    assert rest[..m - 1] == f[..k] + f[k + 1..] && rest[m - 1..] == dues[m..];
  }

  /** The deadlines of the responses selected from a queue. */
  function Kept(q: seq<InFlight>, dues: seq<nat>, f: InFlight -> bool): (r: seq<nat>)
    requires |q| == |dues|
    ensures |r| == |Select(q, f)|
  {
    if q == [] then [] else (if f(q[0]) then [dues[0]] else []) + Kept(q[1..], dues[1..], f)
  }

  lemma {:induction false} KeptMembers(q: seq<InFlight>, dues: seq<nat>, f: InFlight -> bool)
    requires |q| == |dues|
    ensures forall d :: d in Kept(q, dues, f) ==> d in dues
  {
    if q != [] {
      KeptMembers(q[1..], dues[1..], f);
    }
  }

  lemma {:induction false} KeptSorted(q: seq<InFlight>, dues: seq<nat>, f: InFlight -> bool)
    requires |q| == |dues| && Sorted(dues)
    ensures Sorted(Kept(q, dues, f))
  {
    if q != [] {
      var one, rest := if f(q[0]) then [dues[0]] else [], Kept(q[1..], dues[1..], f);
      assert dues == [dues[0]] + dues[1..];
      SortedParts([dues[0]], dues[1..]);
      KeptSorted(q[1..], dues[1..], f);
      KeptMembers(q[1..], dues[1..], f);
      SortedParts(one, rest);
    }
  }

  lemma {:induction false} KeptStored(q: seq<InFlight>, dues: seq<nat>, f: InFlight -> bool)
    requires Stored(q, dues)
    ensures Stored(Select(q, f), Kept(q, dues, f))
  {
    if q != [] {
      KeptStored(q[1..], dues[1..], f);
    }
  }

  lemma KeptPunctual(q: seq<InFlight>, dues: seq<nat>, m: nat, f: InFlight -> bool, time: nat, outlasts: nat)
    requires m <= |dues| == |q| && Punctual(TimersOf(dues, m, time, outlasts))
    ensures var r := Kept(q, dues, f); Punctual(TimersOf(r, |r|, time, outlasts))
  {
    var r := Kept(q, dues, f);
    MergedPunctual(dues, m, time, outlasts);
    assert dues[..|dues|] == dues && dues[|dues|..] == [] && dues + [] == dues;
    KeptSorted(q, dues, f);
    KeptMembers(q, dues, f);
    assert r[..|r|] == r && r[|r|..] == [] && r + [] == r;
  }

  lemma StoredPrefix(q: seq<InFlight>, dues: seq<nat>, m: nat)
    requires Stored(q, dues) && m <= |q|
    ensures Stored(q[..m], dues[..m]) && Stored(q[m..], dues[m..])
  {
  }

  /** What a poll does to a queue whose first list holds the `m` oldest: it takes out the `n` oldest,
      and those are exactly the ones of the first list whose deadline has passed. */
  ghost predicate Polled(q: seq<InFlight>, dues: seq<nat>, m: nat, time: nat, now: nat, n: nat) {
    && n <= m <= |dues| == |q| && Stored(q[n..], dues[n..])
    && Punctual(TimersOf(dues[n..], m - n, now, if dues[n..] == [] then now else time))
    && (forall i :: 0 <= i < n ==> dues[i] <= now)
    && (forall i :: n <= i < m ==> dues[i] > now)
    && (forall i :: 0 <= i < |dues[n..]| ==> dues[n..][i] > time)
  }

  lemma PolledIs(q: seq<InFlight>, dues: seq<nat>, m: nat, time: nat, now: nat, n: nat)
    requires Polled(q, dues, m, time, now, n)
    ensures n <= m <= |dues| == |q| && Stored(q[n..], dues[n..])
    ensures Punctual(TimersOf(dues[n..], m - n, now, if dues[n..] == [] then now else time))
    ensures forall i :: 0 <= i < n ==> dues[i] <= now
    ensures m == |dues| ==> forall i :: 0 <= i < |dues[n..]| ==> dues[n..][i] > now
    ensures forall i :: 0 <= i < |dues[n..]| ==> dues[n..][i] > time
  {
    hide Punctual, Stored;
  }

  lemma CutTwice(dues: seq<nat>, m: nat, n: nat)
    requires n <= m <= |dues|
    ensures dues[n..][..m - n] == dues[..m][n..] && dues[n..][m - n..] == dues[m..]
  {
  }

  lemma ExpiryCuts(q: seq<InFlight>, dues: seq<nat>, m: nat, time: nat, outlasts: nat, now: nat)
    requires m <= |dues| && Stored(q, dues) && Punctual(TimersOf(dues, m, time, outlasts))
    ensures var n := Stale(q[..m], time, now);
            && n == CountDue(dues[..m], now) <= m
            && (forall i :: 0 <= i < n ==> dues[i] <= now) && (forall i :: n <= i < m ==> dues[i] > now)
  {
    hide Punctual;
    StoredPrefix(q, dues, m);
    ExpiryExact(TimersOf(dues, m, time, outlasts), q[..m], now);
    hide CountDue, Stale, Stored;
    assert forall i :: 0 <= i < m ==> dues[..m][i] == dues[i];
  }

  lemma PolledPunctual(q: seq<InFlight>, dues: seq<nat>, m: nat, time: nat, outlasts: nat, now: nat)
    requires m <= |dues| == |q| && Stored(q, dues) && Punctual(TimersOf(dues, m, time, outlasts))
    requires (m == 0 ==> dues == []) && time <= now && now + 5 < WORD32
    requires m < |dues| ==> now <= time + 0x8000
    ensures Polled(q, dues, m, time, now, Stale(q[..m], time, now))
  {
    hide Punctual, CountDue, Stale, Stored;
    ExpiryCuts(q, dues, m, time, outlasts, now);
    var n := Stale(q[..m], time, now);
    StoredPrefix(q, dues, n);
    var last := if dues[n..] == [] then now else time;
    CheckedCut(dues, m, time, outlasts, now, n, last);
    AllOutlast(dues[n..], m - n, now, last);
  }

  lemma CheckedCut(dues: seq<nat>, m: nat, time: nat, outlasts: nat, now: nat, n: nat, last: nat)
    requires m <= |dues| && Punctual(TimersOf(dues, m, time, outlasts)) && n == CountDue(dues[..m], now)
    requires (m == 0 ==> dues == []) && time <= now && now + 5 < WORD32 && (m < |dues| ==> now <= time + 0x8000)
    requires last == if dues[n..] == [] then now else time
    ensures n <= m && Punctual(TimersOf(dues[n..], m - n, now, last))
  {
    hide Punctual, CountDue;
    CheckedPunctual(TimersOf(dues, m, time, outlasts), now);
    CutTwice(dues, m, n);
    Rejoined(dues[n..], m - n);
  }

  lemma AllOutlast(dues: seq<nat>, m: nat, time: nat, outlasts: nat)
    requires m <= |dues| && Punctual(TimersOf(dues, m, time, outlasts))
    ensures forall i :: 0 <= i < |dues| ==> outlasts < dues[i] <= time + 5
  {
    Rejoined(dues, m);
    WithinConcat(dues[..m], dues[m..], outlasts, time);
    assert forall i :: 0 <= i < |dues| ==> dues[i] in dues;
  }

  /** A write-back touches no deadline but takes a finished response's away. */
  lemma DeliveredStored(q: seq<InFlight>, dues: seq<nat>, size: nat, addr: nat, value: nat)
    requires AllCursors(q) && Stored(q, dues)
    ensures var (next, done) := Deliver(q, size, addr, value);
            var k := Find(q, TargetOf(addr));
            if done.None? then Stored(next, dues) else k < |dues| && Stored(next, LeftOut(dues, k))
  {
    hide Apply, TargetOf, Find;
    DeliverCases(q, size, addr, value);
    hide Deliver;
  }

  /** A queue of responses, the time, and the true deadlines of all that is in flight. */
  class Watch {
    const queue: Queue
    var time: nat
    ghost var dues: seq<nat>
    ghost var outlasts: nat

    /** Nothing in flight was due at the poll before the last, the one at `outlasts`. */
    ghost predicate Valid()
      reads this, queue, queue.mem
    {
      && queue.Valid() && |queue.firsts| <= |dues| && Stored(queue.Held(), dues)
      && Punctual(TimersOf(dues, |queue.firsts|, time, outlasts))
    }

    constructor (queue: Queue)
      requires queue.Valid() && queue.Fifo() == []
      ensures Valid() && this.queue == queue && dues == [] && time == 0
    {
      this.queue, time, dues, outlasts := queue, 0, [], 0;
    }

    lemma Counts()
      requires Valid()
      ensures |dues| == |queue.Held()| == |queue.Fifo()|
    {
      queue.HeldAre();
    }

    /** A flush issues a response, due in five seconds. */
    method Issue(r: nat, entry: InFlight)
      requires Valid() && r < queue.mem.Length && r !in queue.Fifo() && Cursors(entry.response)
      requires entry.deadline == Deadline(time)
      modifies this`dues, queue`last, queue`lasts, queue.mem
      ensures Valid() && dues == old(dues) + [time + 5] && queue.Held() == old(queue.Held()) + [entry]
    {
      hide Punctual, Queue.Valid, Queue.Held, Queue.Fifo;
      IssuedPunctual(dues, |queue.firsts|, time, outlasts);
      queue.Issue(r, entry);
      dues := dues + [time + 5];
    }

    /** A write-back arrives; a finished response takes its deadline with it. */
    method WriteBack(size: nat, addr: nat, value: nat) returns (done: Option<Finished>, ghost freed: Option<nat>)
      requires Valid() && AllCursors(queue.Held()) && size > 0
      modifies this`dues, queue`first, queue`firsts, queue`last, queue`lasts, queue.mem
      ensures Valid() && (queue.Held(), done) == Deliver(old(queue.Held()), size, addr, value)
      ensures var k := Find(old(queue.Held()), TargetOf(addr));
              if done.None? then dues == old(dues) else k < |old(dues)| && dues == LeftOut(old(dues), k)
    {
      hide Punctual, TimersOf, Stored, Deliver, Queue.Valid, Queue.Held, Queue.Fifo, Find, TargetOf;
      ghost var q, k, m := queue.Held(), Find(queue.Held(), TargetOf(addr)), |queue.firsts|;
      Counts();
      MergedPunctual(dues, m, time, outlasts);
      DeliveredStored(q, dues, size, addr, value);
      done, freed := queue.WriteBack(size, addr, value);
      if done.Some? {
        RemovedPunctual(dues, |queue.firsts| + 1, k, time, outlasts);
        dues := LeftOut(dues, k);
      }
    }

    /** A device is closed; its responses take their deadlines with them. */
    method Kill(owner: nat -> nat, device: nat) returns (killed: seq<InFlight>)
      requires Valid()
      modifies this`dues, queue`first, queue`firsts, queue`last, queue`lasts, queue.mem
      ensures Valid() && queue.Held() == Select(old(queue.Held()), Owned(owner, device, false))
      ensures killed == Select(old(queue.Held()), Owned(owner, device, true))
      ensures |old(queue.Held())| == |old(dues)|
           && dues == Kept(old(queue.Held()), old(dues), Owned(owner, device, false))
    {
      hide Punctual, Queue.Valid, Queue.Held, Select, Kept, Owned;
      Counts();
      ghost var q, f := queue.Held(), Owned(owner, device, false);
      KeptPunctual(q, dues, |queue.firsts|, f, time, outlasts);
      KeptStored(q, dues, f);
      killed := queue.Kill(owner, device);
      dues := Kept(q, dues, f);
      queue.HeldAre();
    }

    /** Ask for the next deadline, then check the socket. Exactly those responses of the first list
        whose true deadline has passed are taken out, oldest first, and whatever stays in flight
        was not due at the poll before. Polls must not be more than 2^15 seconds apart while both
        lists hold responses; otherwise they may be any time apart, as the first is from time 0. */
    method Poll(now: nat) returns (expired: seq<InFlight>)
      requires Valid() && time <= now && now + 5 < WORD32
      requires 0 < |queue.firsts| < |dues| ==> now <= time + 0x8000
      modifies this, queue`first, queue`firsts, queue`last, queue`lasts, queue.mem
      ensures Valid() && time == now && |expired| <= |old(dues)| == |old(queue.Held())|
      ensures expired == old(queue.Held())[..|expired|] && queue.Held() == old(queue.Held())[|expired|..]
      ensures dues == old(dues)[|expired|..]
      ensures forall i :: 0 <= i < |expired| ==> old(dues)[i] <= now
      ensures forall i :: 0 <= i < |dues| ==> dues[i] > old(time)
      ensures old(queue.firsts) == [] ==> forall i :: 0 <= i < |dues| ==> dues[i] > now
    {
      hide Punctual, TimersOf, Stored, Queue.Valid, Queue.Held, Queue.Fifo, Stale, Due, Polled;
      Counts();
      ghost var q, m := queue.Held(), if queue.firsts == [] then |dues| else |queue.firsts|;
      MergedPunctual(dues, |queue.firsts|, time, outlasts);
      PolledPunctual(q, dues, m, time, outlasts, now);
      ghost var n := Stale(q[..m], time, now);
      PolledIs(q, dues, m, time, now, n);
      expired := Sweep(now, m);
      dues := dues[n..];
      outlasts, time := if dues == [] then now else time, now;
    }

    /** The query and the check, as the queue sees them. */
    method Sweep(now: nat, ghost m: nat) returns (expired: seq<InFlight>)
      requires queue.Valid()
      requires m == if queue.firsts == [] then |queue.Held()| else |queue.firsts|
      modifies queue`first, queue`firsts, queue`last, queue`lasts, queue.mem
      ensures queue.Valid() && m <= |old(queue.Held())|
      ensures var n := Stale(old(queue.Held())[..m], time, now);
              && expired == old(queue.Held())[..n] && |expired| == n && queue.Held() == old(queue.Held())[n..]
              && |queue.firsts| == m - n
    {
      hide *;
      FirstsCount();
      var t := queue.Timeout(time);
      FirstsCount();
      expired := queue.Expire(time, now);
    }

    lemma FirstsCount()
      requires queue.Valid()
      ensures |queue.Fifo()| == |queue.Held()| && (queue.firsts == queue.Fifo() ==> |queue.firsts| == |queue.Held()|)
    {
      queue.HeldAre();
    }
  }
}
