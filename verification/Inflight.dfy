/** The queue of responses in flight: two index-linked lists over pool memory, `first` oldest
    first and `last` newest first, standing for the sequence `first ++ reverse(last)`. */
module Inflight {
  import opened Widths
  import opened Lists
  import opened ReadWrite
  import opened EndToEnd
  import opened Flush
  import opened Replies
  import opened Links

  /** The responses of a socket. */
  class Queue {
    const mem: array<Slot>
    var first: nat                    // oldest first
    var last: nat                     // newest first
    ghost var firsts: seq<nat>
    ghost var lasts: seq<nat>

    ghost predicate Valid()
      reads this, mem
    {
      && IsList(mem[..], first, firsts) && IsList(mem[..], last, lasts) && Distinct(firsts + lasts)
      && SlotCursors(mem[..])
    }

    /** The queue, oldest response first. */
    ghost function Fifo(): seq<nat>
      reads this
    {
      firsts + Reverse(lasts)
    }

    constructor (mem: array<Slot>)
      requires mem.Length <= NULL && SlotCursors(mem[..])
      ensures Valid() && Fifo() == [] && this.mem == mem
    {
      this.mem, first, last, firsts, lasts := mem, NULL, NULL, [], [];
    }

    /** Attach the flipped second list where the walk of the first one ended, behind `prev`. */
    method Splice(prev: nat)
      requires Valid() && prev == if firsts == [] then NULL else firsts[|firsts| - 1]
      modifies this`first, this`firsts, this`last, this`lasts, mem
      ensures Valid() && lasts == [] && firsts == old(Fifo())
      ensures OnlyLinks(old(mem[..]), mem[..], old(Fifo()))
    {
      hide IsList, Distinct, Reverse, OnlyLinks, SlotCursors;
      ghost var before, back := mem[..], Reverse(lasts);
      DistinctConcat(firsts, lasts);
      var flipped := Flip(mem, last, lasts);
      FlippedApart(before, mem[..], first, firsts, lasts);
      ghost var mid := mem[..];
      if prev == NULL {
        PrevIsNull(mid, first, firsts);
        first := flipped;
        assert firsts + back == back;
      } else {
        LastOf(mid, first, firsts);
        mem[prev] := mem[prev].(next := flipped);
        ListHead(mid, flipped, back);
        ListHead(mid, first, firsts);
        ListJoin(mid, mem[..], firsts, back);
        LinkWritten(before, mid, mem[..], firsts + back, prev, flipped);
      }
      last := NULL;
      firsts, lasts := firsts + back, [];
      EndOfFifo(mem[..], first, firsts);
      CursorsKept(before, mem[..], firsts);
    }

    /** Walk the queue, oldest response first, to the first one at `target`; reaching the end of
        the first list, splice in the flipped second one and go on. The order never changes. */
    method Lookup(target: nat) returns (found: bool, r: nat, prev: nat, ghost k: nat)
      requires Valid()
      modifies this`first, this`firsts, this`last, this`lasts, mem
      ensures Valid() && Fifo() == old(Fifo()) && OnlyLinks(old(mem[..]), mem[..], old(Fifo()))
      ensures found ==> k < |firsts| && r == firsts[k] && mem[r].entry.rba == target
      ensures found ==> prev == if k == 0 then NULL else firsts[k - 1]
      ensures found ==> NoneBefore(mem[..], firsts, k, target)
      ensures !found ==> lasts == [] && NoneBefore(mem[..], firsts, |firsts|, target)
      ensures |firsts| == |old(firsts)| || |firsts| == |old(Fifo())|
    {
      hide IsList, Distinct, Reverse, OnlyLinks;
      r, prev, k := first, NULL, 0;
      ListHead(mem[..], first, firsts);
      LinksRefl(mem[..], Fifo());
      while true
        invariant Valid() && Fifo() == old(Fifo()) && OnlyLinks(old(mem[..]), mem[..], old(Fifo()))
        invariant k <= |firsts| && r == At(firsts, k) && prev == if k == 0 then NULL else firsts[k - 1]
        invariant NoneBefore(mem[..], firsts, k, target)
        invariant |firsts| == |old(firsts)| || |firsts| == |old(Fifo())|
        decreases |Fifo()| - k, |lasts|
      {
        ghost var before := mem[..];
        if r == NULL {
          WalkEnd(before, first, firsts, k);
          if last == NULL {
            EmptyHead(before, lasts);
            return false, r, prev, k;
          }
          NonEmptyHead(before, last, lasts);
          Splice(prev);
          LinksTrans(old(mem[..]), before, mem[..], old(Fifo()));
          NoneBeforeKept(before, mem[..], old(Fifo()), firsts, k, target);
          NoReverse(firsts);
          ListHead(mem[..], first, firsts);
          if k > 0 {
            ListNth(mem[..], first, firsts, k - 1);
          }
          r := if prev == NULL then first else mem[prev].next;
        } else {
          ListNth(before, first, firsts, k);
          if mem[r].entry.rba == target {
            return true, r, prev, k;
          }
          prev, r, k := r, mem[r].next, k + 1;
        }
      }
    }

    /** Unlink the response found by `Lookup`. */
    method Unlink(r: nat, prev: nat, ghost k: nat)
      requires Valid() && k < |firsts| && r == firsts[k] && prev == if k == 0 then NULL else firsts[k - 1]
      modifies this`first, this`firsts, mem
      ensures Valid() && k < |old(Fifo())| && Fifo() == old(Fifo())[..k] + old(Fifo())[k + 1..]
      ensures OnlyLinks(old(mem[..]), mem[..], old(Fifo())) && |firsts| == |old(firsts)| - 1
    {
      hide Reverse;
      ghost var before := mem[..];
      ListNth(before, first, firsts, k);
      if prev == NULL {
        first := mem[r].next;
        UnlinkFirst(before, firsts);
      } else {
        ListNth(before, first, firsts, k - 1);
        mem[prev] := mem[prev].(next := mem[r].next);
        UnlinkLater(before, mem[..], firsts, lasts, last, k);
      }
      Removed(firsts, lasts, k);
      firsts := firsts[..k] + firsts[k + 1..];
    }

    lemma HeldInMem()
      requires Valid()
      ensures InMem(mem[..], firsts) && InMem(mem[..], lasts) && InMem(mem[..], Fifo())
      ensures Distinct(Fifo())
    {
      ListInMem(mem[..], first, firsts);
      ListInMem(mem[..], last, lasts);
      FifoInMem(mem[..], firsts, lasts);
      DistinctConcat(firsts, lasts);
      DistinctConcat(firsts, Reverse(lasts));
      DistinctReverse(lasts);
      ReverseMembers(lasts);
    }

    /** What is in flight, oldest first. */
    ghost function Held(): seq<InFlight>
      reads this, mem
      requires Valid()
    {
      HeldInMem();
      Entries(mem[..], Fifo())
    }

    /** The oldest response at `target`, in terms of what is held. */
    method Locate(target: nat) returns (found: bool, r: nat, prev: nat, ghost k: nat)
      requires Valid()
      modifies this`first, this`firsts, this`last, this`lasts, mem
      ensures Valid() && Fifo() == old(Fifo()) && Held() == old(Held()) && Outside(old(mem[..]), mem[..], Fifo())
      ensures found <==> Find(Held(), target) < |Held()|
      ensures found ==> k == Find(Held(), target) < |firsts| && r == firsts[k]
      ensures found ==> prev == if k == 0 then NULL else firsts[k - 1]
      ensures |firsts| == |old(firsts)| || |firsts| == |old(Fifo())|
    {
      hide *;
      HeldInMem();
      HeldAre();
      ghost var before, s := mem[..], Fifo();
      found, r, prev, k := Lookup(target);
      LinksKeepEntries(before, mem[..], s, s);
      LinksOutside(before, mem[..], s);
      HeldAre();
      HeldInMem();
      if found {
        FoundAt(mem[..], firsts, Fifo(), k, target);
      } else {
        AllFirst(firsts, lasts);
        NotFound(mem[..], firsts, target);
      }
    }

    lemma HeldAre()
      requires Valid()
      ensures InMem(mem[..], Fifo()) && Held() == Entries(mem[..], Fifo())
      ensures Fifo() == firsts + Reverse(lasts) && firsts <= Fifo() && IsList(mem[..], first, firsts)
    {
      HeldInMem();
    }

    /** Chain a response to a slot that is not in the queue. */
    method Issue(r: nat, entry: InFlight)
      requires Valid() && r < mem.Length && r !in Fifo() && Cursors(entry.response)
      modifies this`last, this`lasts, mem
      ensures Valid() && Fifo() == old(Fifo()) + [r] && Held() == old(Held()) + [entry]
      ensures Outside(old(mem[..]), mem[..], [r]) && firsts == old(firsts)
    {
      HeldAre();
      HeldInMem();
      hide Reverse;
      ghost var before, s := mem[..], Fifo();
      mem[r] := Slot(last, entry);
      last := r;
      Issued(before, mem[..], r, first, old(last), firsts, lasts);
      lasts := [r] + lasts;
      EntriesAdded(before, mem[..], s, r);
      HeldAre();
    }

    /** Change what a slot of the queue holds. */
    method Update(r: nat, entry: InFlight, ghost k: nat)
      requires Valid() && k < |Fifo()| && r == Fifo()[k] && Cursors(entry.response)
      modifies mem
      ensures Valid() && Fifo() == old(Fifo()) && Held() == old(Held())[k := entry] && firsts == old(firsts)
      ensures Outside(old(mem[..]), mem[..], Fifo())
    {
      HeldInMem();
      hide Reverse, Distinct;
      ghost var before, s := mem[..], Fifo();
      assert s[k] in s;
      mem[r] := mem[r].(entry := entry);
      ListFrame(before, mem[..], first, firsts);
      ListFrame(before, mem[..], last, lasts);
      EntriesUpdated(before, mem[..], s, k);
    }

    /** Unlink the response found, in terms of what is held. */
    method Remove(r: nat, prev: nat, ghost k: nat)
      requires Valid() && k < |firsts| && r == firsts[k] && prev == if k == 0 then NULL else firsts[k - 1]
      modifies this`first, this`firsts, mem
      ensures Valid() && k < |old(Fifo())| && Fifo() == old(Fifo())[..k] + old(Fifo())[k + 1..]
      ensures Held() == old(Held())[..k] + old(Held())[k + 1..] && Outside(old(mem[..]), mem[..], old(Fifo()))
      ensures |firsts| == |old(firsts)| - 1
    {
      hide *;
      HeldInMem();
      HeldAre();
      ghost var before, s := mem[..], Fifo();
      Unlink(r, prev, k);
      LinksKeepEntries(before, mem[..], s, s);
      LinksOutside(before, mem[..], s);
      EntriesRemoved(mem[..], s, k);
      HeldAre();
    }

    /** Process a write-back from the other side. */
    method WriteBack(size: nat, addr: nat, value: nat) returns (done: Option<Finished>, ghost freed: Option<nat>)
      requires Valid() && AllCursors(Held()) && size > 0
      modifies this`first, this`firsts, this`last, this`lasts, mem
      ensures Valid() && (Held(), done) == Deliver(old(Held()), size, addr, value)
      ensures done.Some? <==> freed.Some?
      ensures Fifo() == Without(old(Fifo()), freed) && Outside(old(mem[..]), mem[..], old(Fifo()))
      ensures var whole := |firsts| + if done.Some? then 1 else 0;
              && (whole == |old(firsts)| || whole == |old(Fifo())|)
              && (done.Some? ==> Find(old(Held()), TargetOf(addr)) < whole)
    {
      hide *;
      ghost var start := mem[..];
      var found, r, prev, k := Locate(TargetOf(addr));
      ghost var q, s := Held(), Fifo();
      HeldAre();
      HeldInMem();
      DeliverCases(q, size, addr, value);
      done, freed := None, None;
      WithoutNone(s);
      if found {
        ghost var before := mem[..];
        EntryAt(before, s, k);
        var entry := mem[r].entry;
        HeldCursor(q, k);
        var step := Receive(entry.response, size, addr, value);
        ApplyKeepsOps(entry.response, size, addr, value);
        Update(r, entry.(response := step.r), k);
        OutsideTrans(start, before, mem[..], s);
        if step.done.Some? {
          done, freed := Some(Finished(entry.id, step.r.cells, step.done.value)), Some(r);
          ghost var mid := mem[..];
          WithoutAt(s, k);
          Remove(r, prev, k);
          OutsideTrans(start, mid, mem[..], s);
        }
      }
    }

    /** When the oldest response expires, or 0 if none is in flight. */
    method Timeout(time: nat) returns (t: nat)
      requires Valid()
      modifies this`first, this`firsts, this`last, this`lasts, mem
      ensures Valid() && Fifo() == old(Fifo()) && Held() == old(Held()) && Outside(old(mem[..]), mem[..], Fifo())
      ensures firsts == if old(firsts) == [] then Fifo() else old(firsts)
      ensures t == if Held() == [] then 0 else Due(Held()[0].deadline, time)
    {
      hide *;
      HeldAre();
      HeldInMem();
      LinksRefl(mem[..], Fifo());
      ghost var before, s := mem[..], Fifo();
      HeadOf(before, first, firsts);
      if first == NULL {
        Splice(NULL);
        AllFirst(firsts, lasts);
        HeldAre();
        HeadOf(mem[..], first, firsts);
      }
      LinksKeepEntries(before, mem[..], s, s);
      LinksOutside(before, mem[..], s);
      HeldAre();
      if first == NULL {
        return 0;
      }
      EntryAt(mem[..], s, 0);
      t := Due(mem[first].entry.deadline, time);
    }

    /** Take the first response out of the queue if it is due by `now`. */
    method ExpireOne(time: nat, now: nat) returns (due: bool, entry: InFlight)
      requires Valid() && first != NULL
      modifies this`first, this`firsts, this`last, this`lasts, mem
      ensures Valid() && Outside(old(mem[..]), mem[..], old(Fifo()))
      ensures old(Held()) != [] && entry == old(Held())[0] && due == (Due(entry.deadline, time) <= now)
      ensures |old(firsts)| > 0 && |old(Fifo())| > 0
      ensures due ==> firsts == old(firsts)[1..] && Fifo() == old(Fifo())[1..] && Held() == old(Held())[1..]
      ensures !due ==> firsts == old(firsts) && Fifo() == old(Fifo()) && Held() == old(Held())
    {
      hide *;
      HeldAre();
      HeadOf(mem[..], first, firsts);
      ghost var a, s := mem[..], Fifo();
      Untaken(s);
      Untaken(firsts);
      Untaken(Held());
      var t := Timeout(time);
      HeldAre();
      HeadOf(mem[..], first, firsts);
      EntryAt(mem[..], s, 0);
      due, entry := t <= now, mem[first].entry;
      if due {
        Pop();
      }
    }

    /** The same, and whether there is another to look at. */
    method ExpireNext(time: nat, now: nat) returns (due: bool, entry: InFlight, more: bool)
      requires Valid() && first != NULL
      modifies this`first, this`firsts, this`last, this`lasts, mem
      ensures Valid() && Outside(old(mem[..]), mem[..], old(Fifo()))
      ensures old(Held()) != [] && entry == old(Held())[0] && due == (Due(entry.deadline, time) <= now)
      ensures |old(firsts)| > 0 && |old(Fifo())| > 0
      ensures due ==> firsts == old(firsts)[1..] && Fifo() == old(Fifo())[1..] && Held() == old(Held())[1..]
      ensures !due ==> firsts == old(firsts) && Fifo() == old(Fifo()) && Held() == old(Held())
      ensures more <==> due && first != NULL
      ensures due && !more ==> firsts == []
    {
      hide *;
      due, entry := ExpireOne(time, now);
      HeldAre();
      HeadOf(mem[..], first, firsts);
      more := due && first != NULL;
    }

    /** Take the oldest response out of the first list. */
    method Pop()
      requires Valid() && first != NULL
      modifies this`first, this`firsts
      ensures Valid() && |old(firsts)| > 0 && |old(Fifo())| > 0 && |old(Held())| > 0
      ensures firsts == old(firsts)[1..] && Fifo() == old(Fifo())[1..] && Held() == old(Held())[1..]
    {
      hide *;
      HeldAre();
      Parts();
      HeadOf(mem[..], first, firsts);
      PopFirst(mem[..], firsts, last, lasts);
      EntriesSplit(mem[..], Fifo(), 1);
      first := mem[first].next;
      firsts := firsts[1..];
      Whole();
      HeldAre();
    }

    lemma Whole()
      requires IsList(mem[..], first, firsts) && IsList(mem[..], last, lasts) && Distinct(firsts + lasts)
           && SlotCursors(mem[..])
      ensures Valid()
    {
    }

    /** Call back the expired responses at the front of the first list. */
    method Expire(time: nat, now: nat) returns (expired: seq<InFlight>)
      requires Valid()
      modifies this`first, this`firsts, this`last, this`lasts, mem
      ensures Valid() && Outside(old(mem[..]), mem[..], old(Fifo())) && |old(firsts)| <= |old(Held())| == |old(Fifo())|
      ensures var n := Stale(old(Held())[..|old(firsts)|], time, now);
              expired == old(Held())[..n] && Held() == old(Held())[n..] && Fifo() == old(Fifo())[n..]
                  && firsts == old(firsts)[n..]
    {
      hide *;
      expired := [];
      HeldAre();
      ghost var start, q, s, f, n := mem[..], Held(), Fifo(), firsts, 0;
      OutsideRefl(start, s);
      ExpiringStart(q, s, f, time, now);
      HeadOf(mem[..], first, firsts);
      var more := first != NULL;
      while more
        invariant Valid() && Outside(start, mem[..], s)
        invariant Expiring(q, s, f, n, expired, firsts, Fifo(), Held(), time, now)
        invariant if more then first != NULL else firsts == [] || Stale(q[..|f|], time, now) == n
        decreases |f| - n, more
      {
        ghost var a, firsts0, fifo0, held0 := mem[..], firsts, Fifo(), Held();
        var entry, due;
        due, entry, more := ExpireNext(time, now);
        ExpiringStep(q, s, f, n, expired, firsts0, fifo0, held0, time, now);
        OutsideWithin(start, a, mem[..], s, n);
        if due {
          expired, n := expired + [entry], n + 1;
        }
      }
      ExpiringEnd(q, s, f, n, expired, firsts, Fifo(), Held(), time, now);
    }

    lemma Parts()
      requires Valid()
      ensures IsList(mem[..], first, firsts) && IsList(mem[..], last, lasts) && Distinct(firsts + lasts)
      ensures SlotCursors(mem[..])
    {
    }

    /** The queue is well formed again after slots have been relinked. */
    lemma Restored(a: seq<Slot>, s: seq<nat>, b: seq<Slot>)
      requires b == mem[..] && OnlyLinks(a, b, s) && SlotCursors(a)
      requires IsList(b, first, firsts) && IsList(b, last, lasts) && Distinct(firsts + lasts) && lasts == []
      ensures Valid() && Fifo() == firsts
    {
      CursorsKept(a, b, s);
      AllFirst(firsts, lasts);
    }

    /** Split the queue: `device`'s responses are chained from `bad`, the others stay. */
    method Split(owner: nat -> nat, device: nat) returns (bad: nat, ghost b: seq<nat>)
      requires Valid()
      modifies this`first, this`firsts, this`last, this`lasts, mem
      ensures Valid() && OnlyLinks(old(mem[..]), mem[..], old(Fifo()))
      ensures Fifo() == Select(old(Fifo()), OwnedSlot(Ids(old(mem[..])), owner, device, false)) && firsts == Fifo()
      ensures b == Select(old(Fifo()), OwnedSlot(Ids(old(mem[..])), owner, device, true)) && IsList(mem[..], bad, b)
    {
      hide *;
      HeldAre();
      Parts();
      ghost var a, ids, s := mem[..], Ids(mem[..]), Fifo();
      ghost var no, yes := OwnedSlot(ids, owner, device, false), OwnedSlot(ids, owner, device, true);
      SlotsOppose(ids, owner, device);
      FifoMembers(firsts, lasts);
      Survivors(firsts, lasts, no);
      Survivors(firsts, lasts, yes);
      DisjointLast(a, first, firsts, last, lasts);
      var good;
      ghost var g;
      good, bad, g, b := Partition(mem, NULL, NULL, owner, device, last, lasts, [], []);
      ghost var m := mem[..];
      DisjointEnd(m, [], good, g, bad, b);
      FirstUntouched(a, m, first, firsts, lasts);
      var flipped := Flip(mem, first, firsts);
      DisjointFlipped(m, mem[..], flipped, firsts, lasts, no, yes, good, g, bad, b);
      LinksWithin(a, m, lasts, s);
      LinksWithin(m, mem[..], firsts, s);
      LinksTrans(a, m, mem[..], s);
      m := mem[..];
      LinksKeepIds(a, m, s);
      good, bad, g, b := Partition(mem, good, bad, owner, device, flipped, Reverse(firsts), g, b);
      DisjointEnd(mem[..], [], good, g, bad, b);
      LinksWithin(m, mem[..], Reverse(firsts), s);
      LinksTrans(a, m, mem[..], s);
      ListInMemory(mem[..], good, g, bad, b);
      first, last, firsts, lasts := good, NULL, g, [];
      Restored(a, s, mem[..]);
    }

    /** Call back and release everything in flight for a device, oldest first; the rest keep their
        order. */
    method Kill(owner: nat -> nat, device: nat) returns (killed: seq<InFlight>)
      requires Valid()
      modifies this`first, this`firsts, this`last, this`lasts, mem
      ensures Valid() && Outside(old(mem[..]), mem[..], old(Fifo()))
      ensures Held() == Select(old(Held()), Owned(owner, device, false))
      ensures killed == Select(old(Held()), Owned(owner, device, true))
      ensures Fifo() == Select(old(Fifo()), OwnedSlot(Ids(old(mem[..])), owner, device, false)) && firsts == Fifo()
    {
      hide *;
      HeldAre();
      HeldInMem();
      ghost var a, s := mem[..], Fifo();
      var bad, b := Split(owner, device);
      LinksOutside(a, mem[..], s);
      EntriesSelected(a, s, owner, device, false);
      EntriesSelected(a, s, owner, device, true);
      LinksKeepEntries(a, mem[..], s, Fifo());
      LinksKeepEntries(a, mem[..], s, b);
      HeldAre();
      killed := Collect(mem, bad, b);
    }
  }

  /** Walk a list. */
  method Collect(mem: array<Slot>, head: nat, ghost s: seq<nat>) returns (q: seq<InFlight>)
    requires IsList(mem[..], head, s) && InMem(mem[..], s)
    ensures q == Entries(mem[..], s)
  {
    hide *;
    q := [];
    var responsep := head;
    ghost var n := 0;
    Untaken(s);
    EntriesSplit(mem[..], s, 0);
    while responsep != NULL
      invariant n <= |s| && IsList(mem[..], responsep, s[n..]) && q == Entries(mem[..], s)[..n]
      decreases |s| - n
    {
      HeadOf(mem[..], responsep, s[n..]);
      EntryAt(mem[..], s, n);
      ListTail(mem[..], s[n..]);
      q := q + [mem[responsep].entry];
      responsep, n := mem[responsep].next, n + 1;
      assert s[n - 1..][1..] == s[n..];
    }
    HeadOf(mem[..], responsep, s[n..]);
  }

  lemma CursorsKept(a: seq<Slot>, b: seq<Slot>, s: seq<nat>)
    requires SlotCursors(a) && OnlyLinks(a, b, s)
    ensures SlotCursors(b)
  {
    forall i | 0 <= i < |b| ensures Cursors(b[i].entry.response) { assert b[i] == a[i].(next := b[i].next); }
  }

  predicate SlotCursors(mem: seq<Slot>) {
    forall i :: 0 <= i < |mem| ==> Cursors(mem[i].entry.response)
  }

  /** Expiry has removed the first `n` responses, all of them due. */
  ghost predicate Expiring(q: seq<InFlight>, s: seq<nat>, f: seq<nat>, n: nat, expired: seq<InFlight>,
                           firsts: seq<nat>, fifo: seq<nat>, held: seq<InFlight>, time: nat, now: nat) {
    && n <= |f| <= |s| == |q|
    && expired == q[..n] && firsts == f[n..] && fifo == s[n..] && held == q[n..]
    && Stale(q[..|f|], time, now) == n + Stale(q[..|f|][n..], time, now)
  }

  lemma ExpiringStart(q: seq<InFlight>, s: seq<nat>, f: seq<nat>, time: nat, now: nat)
    requires |f| <= |s| == |q|
    ensures Expiring(q, s, f, 0, [], f, s, q, time, now)
  {
    assert q[..|f|][0..] == q[..|f|];
  }

  lemma ExpiringStep(q: seq<InFlight>, s: seq<nat>, f: seq<nat>, n: nat, expired: seq<InFlight>,
                     firsts: seq<nat>, fifo: seq<nat>, held: seq<InFlight>, time: nat, now: nat)
    requires Expiring(q, s, f, n, expired, firsts, fifo, held, time, now) && firsts != []
    ensures held != [] && fifo != [] && n < |f| <= |s| && fifo == s[n..]
    ensures if Due(held[0].deadline, time) <= now
            then Expiring(q, s, f, n + 1, expired + [held[0]], firsts[1..], fifo[1..], held[1..], time, now)
            else Stale(q[..|f|], time, now) == n
  {
    var g := q[..|f|];
    assert g[n..][0] == held[0] && g[n..][1..] == g[n + 1..];
    assert firsts[1..] == f[n + 1..] && fifo[1..] == s[n + 1..] && held[1..] == q[n + 1..];
    assert expired + [held[0]] == q[..n + 1];
  }

  lemma ExpiringEnd(q: seq<InFlight>, s: seq<nat>, f: seq<nat>, n: nat, expired: seq<InFlight>,
                    firsts: seq<nat>, fifo: seq<nat>, held: seq<InFlight>, time: nat, now: nat)
    requires Expiring(q, s, f, n, expired, firsts, fifo, held, time, now)
    ensures firsts == [] ==> Stale(q[..|f|], time, now) == n
    ensures expired == q[..n] && n <= |s| && fifo == s[n..] && held == q[n..] && firsts == f[n..]
  {
  }

  /** The list without one of its members. */
  function Without(s: seq<nat>, freed: Option<nat>): seq<nat> {
    match freed
    case None => s
    case Some(r) => if r in s then (var k := First(s, r); s[..k] + s[k + 1..]) else s
  }

  lemma WithoutNone(s: seq<nat>)
    ensures Without(s, None) == s
  {
  }

  lemma WithoutAt(s: seq<nat>, k: nat)
    requires k < |s| && Distinct(s)
    ensures Without(s, Some(s[k])) == s[..k] + s[k + 1..]
  {
    FirstAt(s, k);
  }

  lemma {:induction false} FirstAt(s: seq<nat>, k: nat)
    requires k < |s| && forall j :: 0 <= j < k ==> s[j] != s[k]
    ensures First(s, s[k]) == k
  {
    if k > 0 {
      assert s[1..][k - 1] == s[k];
      forall j | 0 <= j < k - 1 ensures s[1..][j] != s[k] { assert s[j + 1] != s[k]; }
      FirstAt(s[1..], k - 1);
    }
  }

  function First(s: seq<nat>, r: nat): (k: nat)
    requires r in s
    ensures k < |s| && s[k] == r && r !in s[..k]
  {
    if s[0] == r then 0 else 1 + First(s[1..], r)
  }
}
