/** Deadlines are kept in 16 bits. When polls come often enough the code nevertheless acts on the
    true 32-bit deadlines, and nothing stays in flight for two polls after its deadline. */
module Timers {
  import opened Flush
  import opened Replies

  const WORD32: nat := 0x1_0000_0000

  predicate Near(due: nat, time: nat) {
    -0x8000 <= due - time < 0x8000
  }

  /** The 32-bit deadline is recovered from its low half exactly when it lies within 2^15 seconds
      of the current time, on the 32-bit clock face. */
  lemma DueExact(due: nat, time: nat)
    requires due < WORD32 && time < WORD32
    ensures Due(due % 0x1_0000, time) == due <==>
            Near(due, time) || Near(due + WORD32, time) || Near(due, time + WORD32)
  {
    var delta := (due % 0x1_0000 - time) % 0x1_0000;
    var signed := if delta < 0x8000 then delta else delta - 0x1_0000;
    LowHalf(due, time);
    var t := Due(due % 0x1_0000, time);
    assert t == (time + signed) % WORD32;
    WrapOnce(time + signed);
    if Near(due, time) {
      OnlyNear(due - time, signed);
    } else if Near(due + WORD32, time) {
      OnlyNear(due + WORD32 - time, signed);
    } else if Near(due, time + WORD32) {
      OnlyNear(due - time - WORD32, signed);
    }
  }

  lemma LowHalf(due: nat, time: nat)
    ensures (due % 0x1_0000 - time) % 0x1_0000 == (due - time) % 0x1_0000
  {
    var q := due / 0x1_0000;
    assert due == 0x1_0000 * q + due % 0x1_0000;
  }

  lemma WrapOnce(x: int)
    requires 0 <= x + WORD32 && x < 2 * WORD32
    ensures x % WORD32 == if x < 0 then x + WORD32 else if x < WORD32 then x else x - WORD32
  {
    var q, r := x / WORD32, x % WORD32;
    assert x == WORD32 * q + r && 0 <= r < WORD32;
    assert q == if x < 0 then -1 else if x < WORD32 then 0 else 1;
  }

  /** A difference within 2^15 is the signed reading of its low half. */
  lemma OnlyNear(d: int, signed: int)
    requires -0x8000 <= d < 0x8000
    requires signed == (if d % 0x1_0000 < 0x8000 then d % 0x1_0000 else d % 0x1_0000 - 0x1_0000)
    ensures signed == d
  {
  }

  /** The true deadlines of the responses in the two lists, oldest first; the time of the last
      poll; and a time that everything in flight is known to outlast. */
  datatype Timers = Timers(firsts: seq<nat>, lasts: seq<nat>, time: nat, outlasts: nat)

  predicate Sorted(s: seq<nat>) {
    forall i, j :: 0 <= i < j < |s| ==> s[i] <= s[j]
  }

  predicate Punctual(t: Timers) {
    && Sorted(t.firsts + t.lasts)
    && t.outlasts <= t.time && t.time - t.outlasts <= 0x8000 && t.time + 5 < WORD32
    && Within(t.firsts, t.outlasts, t.time) && Within(t.lasts, t.outlasts, t.time)
    && (t.firsts != [] ==> Within(t.lasts, t.time, t.time))
  }

  /** Every deadline is later than `from` and at most 5 seconds after `to`. */
  predicate Within(s: seq<nat>, from: nat, to: nat) {
    forall d :: d in s ==> from < d <= to + 5
  }

  lemma WithinConcat(a: seq<nat>, b: seq<nat>, from: nat, to: nat)
    ensures Within(a + b, from, to) <==> Within(a, from, to) && Within(b, from, to)
  {
    assert forall x :: x in a + b <==> x in a || x in b;
  }

  /** The 16-bit deadlines as stored in the responses. */
  predicate Stored(q: seq<InFlight>, dues: seq<nat>) {
    |q| == |dues| && forall i :: 0 <= i < |q| ==> q[i].deadline == dues[i] % 0x1_0000
  }

  datatype Event =
    | Issue                // a flush issues a response
    | Merge                // a lookup, a kill or a timeout query splices the second list in
    | Remove(k: nat)       // a reply completes or a kill takes the k-th oldest
    | Poll(now: nat)       // the deadline is queried, then the socket checked

  function CountDue(s: seq<nat>, now: nat): (n: nat)
    ensures n <= |s|
    ensures forall i :: 0 <= i < n ==> s[i] <= now
    ensures n < |s| ==> s[n] > now
  {
    if s == [] || s[0] > now then 0 else 1 + CountDue(s[1..], now)
  }

  /** The deadline query splices when the first list is empty. */
  function Queried(t: Timers): Timers {
    if t.firsts == [] then t.(firsts := t.lasts, lasts := []) else t
  }

  /** Whatever is left after a check was not due at the poll before; if nothing is left, all that
      comes will outlast the present. */
  function Checked(t: Timers, now: nat): Timers {
    var rest := t.firsts[CountDue(t.firsts, now)..];
    Timers(rest, t.lasts, now, if rest + t.lasts == [] then now else t.time)
  }

  function After(t: Timers, e: Event): Timers {
    match e
    case Issue => t.(lasts := t.lasts + [t.time + 5])
    case Merge => t.(firsts := t.firsts + t.lasts, lasts := [])
    case Remove(k) =>
      if k < |t.firsts| then t.(firsts := t.firsts[..k] + t.firsts[k + 1..])
      else if k < |t.firsts| + |t.lasts| then
        var j := k - |t.firsts|;
        t.(lasts := t.lasts[..j] + t.lasts[j + 1..])
      else t
    case Poll(now) => Checked(Queried(t), now)
  }

  /** Polls come in order, and at most 2^15 seconds after the one before while both lists hold
      responses. */
  predicate Timely(t: Timers, e: Event) {
    e.Poll? ==>
      t.time <= e.now && e.now + 5 < WORD32 && (t.firsts != [] && t.lasts != [] ==> e.now <= t.time + 0x8000)
  }

  /** The code, looking at 16 bits, expires exactly the front responses whose true deadline has
      passed. */
  lemma {:induction false} StaleIsDue(q: seq<InFlight>, dues: seq<nat>, time: nat, now: nat)
    requires Stored(q, dues) && time < WORD32
    requires forall d :: d in dues ==> d < WORD32 && Near(d, time)
    ensures Stale(q, time, now) == CountDue(dues, now)
  {
    if q != [] {
      assert dues[0] in dues;
      DueExact(dues[0], time);
      assert forall d :: d in dues[1..] ==> d in dues;
      StaleIsDue(q[1..], dues[1..], time, now);
    }
  }

  /** In a punctual state that covers the whole first list, and what remains there is not due. */
  lemma ExpiryExact(t: Timers, q: seq<InFlight>, now: nat)
    requires Punctual(t) && Stored(q, t.firsts)
    ensures var n := Stale(q, t.time, now);
            && n == CountDue(t.firsts, now)
            && (forall i :: 0 <= i < |q| ==> (i < n <==> t.firsts[i] <= now))
  {
    StaleIsDue(q, t.firsts, t.time, now);
    var n := CountDue(t.firsts, now);
    forall i | n <= i < |q|
      ensures t.firsts[i] > now
    {
      assert (t.firsts + t.lasts)[n] <= (t.firsts + t.lasts)[i];
    }
  }

  lemma SortedParts(a: seq<nat>, b: seq<nat>)
    ensures Sorted(a + b) <==> Sorted(a) && Sorted(b) && forall x, y :: x in a && y in b ==> x <= y
  {
    var c := a + b;
    if Sorted(c) {
      forall i, j | 0 <= i < j < |a| ensures a[i] <= a[j] { assert c[i] <= c[j]; }
      forall i, j | 0 <= i < j < |b| ensures b[i] <= b[j] { assert c[|a| + i] <= c[|a| + j]; }
      forall x, y | x in a && y in b ensures x <= y {
        var i :| 0 <= i < |a| && a[i] == x;
        var j :| 0 <= j < |b| && b[j] == y;
        assert c[i] <= c[|a| + j];
      }
    }
    if Sorted(a) && Sorted(b) && (forall x, y :: x in a && y in b ==> x <= y) {
      forall i, j | 0 <= i < j < |c| ensures c[i] <= c[j] {
        if i < |a| <= j {
          assert c[i] in a && c[j] in b;
        }
      }
    }
  }

  lemma SortedWithout(s: seq<nat>, k: nat)
    requires Sorted(s) && k < |s|
    ensures Sorted(s[..k] + s[k + 1..]) && forall x :: x in s[..k] + s[k + 1..] ==> x in s
  {
  }

  lemma NotDue(s: seq<nat>, now: nat)
    requires Sorted(s)
    ensures var rest := s[CountDue(s, now)..]; Sorted(rest) && forall d :: d in rest ==> d in s && d > now
  {
    var n := CountDue(s, now);
    var rest := s[n..];
    forall d | d in rest
      ensures d in s && d > now
    {
      var i :| 0 <= i < |rest| && rest[i] == d;
      assert s[n] <= s[n + i];
    }
  }

  lemma QueriedPunctual(t: Timers)
    requires Punctual(t)
    ensures Punctual(Queried(t)) && (Queried(t).firsts == [] ==> Queried(t).lasts == [])
  {
    assert t.lasts + [] == t.lasts == [] + t.lasts;
  }

  lemma CheckedPunctual(t: Timers, now: nat)
    requires Punctual(t) && (t.firsts == [] ==> t.lasts == []) && t.time <= now && now + 5 < WORD32
    requires t.lasts != [] ==> now <= t.time + 0x8000
    ensures Punctual(Checked(t, now))
  {
    var rest := t.firsts[CountDue(t.firsts, now)..];
    RestWithin(t, now);
    hide Sorted, CountDue;
    if rest == [] && t.lasts == [] {
      assert [] + t.lasts == [];
      NothingLeft(now);
    }
  }

  /** What a check leaves in the first list outlasts the poll, and what is behind it too. */
  lemma RestWithin(t: Timers, now: nat)
    requires Punctual(t) && (t.firsts == [] ==> t.lasts == []) && t.time <= now
    ensures var rest := t.firsts[CountDue(t.firsts, now)..];
            && Sorted(rest + t.lasts) && Within(rest, t.time, now) && Within(t.lasts, t.time, now)
            && (rest != [] ==> now < t.time + 5 && Within(t.lasts, now, now))
  {
    SortedParts(t.firsts, t.lasts);
    NotDue(t.firsts, now);
    var rest := t.firsts[CountDue(t.firsts, now)..];
    SortedParts(rest, t.lasts);
    hide Sorted, CountDue;
    if rest != [] {
      assert rest[0] in t.firsts && rest[0] in rest;
    }
  }

  lemma NothingLeft(now: nat)
    requires now + 5 < WORD32
    ensures Punctual(Timers([], [], now, now))
  {
  }

  lemma QueriedTimely(t: Timers, now: nat)
    requires Timely(t, Poll(now))
    ensures Queried(t).lasts != [] ==> now <= t.time + 0x8000
  {
  }

  lemma PollPunctual(t: Timers, now: nat)
    requires Punctual(t) && Timely(t, Poll(now))
    ensures Punctual(After(t, Poll(now)))
  {
    hide Punctual;
    QueriedPunctual(t);
    QueriedTimely(t, now);
    CheckedPunctual(Queried(t), now);
  }

  lemma RemovePunctual(t: Timers, k: nat)
    requires Punctual(t)
    ensures Punctual(After(t, Remove(k)))
  {
    SortedParts(t.firsts, t.lasts);
    var u := After(t, Remove(k));
    if k < |t.firsts| {
      SortedWithout(t.firsts, k);
      assert forall x :: x in u.firsts ==> x in t.firsts;
    } else if k < |t.firsts| + |t.lasts| {
      SortedWithout(t.lasts, k - |t.firsts|);
      assert forall x :: x in u.lasts ==> x in t.lasts;
    }
    hide Sorted;
    SortedParts(u.firsts, u.lasts);
    assert Sorted(u.firsts + u.lasts);
    assert Within(u.firsts, t.outlasts, t.time) && Within(u.lasts, t.outlasts, t.time);
  }

  lemma StepPunctual(t: Timers, e: Event)
    requires Punctual(t) && Timely(t, e)
    ensures Punctual(After(t, e))
  {
    match e
    case Issue =>
      SortedParts(t.firsts, t.lasts);
      SortedParts(t.lasts, [t.time + 5]);
      SortedParts(t.firsts, t.lasts + [t.time + 5]);
      assert Sorted([t.time + 5]);
      hide Sorted;
      WithinConcat(t.lasts, [t.time + 5], t.time, t.time);
      WithinConcat(t.lasts, [t.time + 5], t.outlasts, t.time);
    case Merge =>
      assert (t.firsts + t.lasts) + [] == t.firsts + t.lasts;
      WithinConcat(t.firsts, t.lasts, t.outlasts, t.time);
    case Remove(k) => RemovePunctual(t, k);
    case Poll(now) => PollPunctual(t, now);
  }

  function AfterAll(t: Timers, events: seq<Event>): Timers
    decreases |events|
  {
    if events == [] then t else AfterAll(After(t, events[0]), events[1..])
  }

  predicate TimelyAll(t: Timers, events: seq<Event>)
    decreases |events|
  {
    events == [] || (Timely(t, events[0]) && TimelyAll(After(t, events[0]), events[1..]))
  }

  /** Over every run with timely polls. */
  lemma {:induction false} RunPunctual(t: Timers, events: seq<Event>)
    requires Punctual(t) && TimelyAll(t, events)
    ensures Punctual(AfterAll(t, events))
    decreases |events|
  {
    if events != [] {
      StepPunctual(t, events[0]);
      RunPunctual(After(t, events[0]), events[1..]);
    }
  }

  /** Whatever happens around them, a response whose deadline had passed by one poll is gone
      after the next. With nothing in flight polls may pause for any time. */
  lemma NothingOutlivesTwoPolls(t: Timers, before: seq<Event>, now: nat, d: nat)
    requires Punctual(t) && TimelyAll(t, before) && Timely(AfterAll(t, before), Poll(now))
    requires var u := After(AfterAll(t, before), Poll(now)); d in u.firsts + u.lasts
    ensures d > AfterAll(t, before).time
  {
    var u := AfterAll(t, before);
    RunPunctual(t, before);
    PollPunctual(u, now);
    var v := After(u, Poll(now));
    WithinConcat(v.firsts, v.lasts, v.outlasts, v.time);
  }
}
