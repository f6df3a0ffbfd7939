/** Time stamps of the digital I/O card: one ring buffer a channel, filled by the interrupt handler
    and emptied by the stamp command. Each interrupt and each command is one atomic step. */
module DioRing {
  import Lists

  const LENGTH: nat := 512
  const CAPACITY: nat := 511
  const N_STAMP: nat := 16
  const CHANNELS: nat := 5

  /** Seconds and nanoseconds. */
  datatype Stamp = Stamp(sec: int, nsec: int)

  function Next(i: nat): nat { (i + 1) % LENGTH }

  /** How many slots from `tail` to `head`, going round. */
  function Distance(head: nat, tail: nat): nat
    requires head < LENGTH && tail < LENGTH
  {
    if head >= tail then head - tail else head + LENGTH - tail
  }

  function Slot(tail: nat, k: nat): nat { (tail + k) % LENGTH }

  /** The stamps waiting, oldest first. */
  function Waiting(buf: seq<Stamp>, head: nat, tail: nat): (s: seq<Stamp>)
    requires |buf| == LENGTH && head < LENGTH && tail < LENGTH
    ensures |s| == Distance(head, tail) <= CAPACITY
    ensures forall k :: 0 <= k < |s| ==> s[k] == buf[Slot(tail, k)]
  {
    seq(Distance(head, tail), k requires 0 <= k < Distance(head, tail) => buf[Slot(tail, k)])
  }

  /** Keep the newest that fit. */
  function Kept(s: seq<Stamp>): seq<Stamp> {
    if |s| > CAPACITY then s[|s| - CAPACITY..] else s
  }

  /** One more stamp in a ring that drops its oldest when full. */
  function Captured(s: seq<Stamp>, t: Stamp): seq<Stamp> { Kept(s + [t]) }

  function CapturedAll(s: seq<Stamp>, ts: seq<Stamp>): seq<Stamp>
    decreases |ts|
  {
    if ts == [] then s else CapturedAll(Captured(s, ts[0]), ts[1..])
  }

  /** Dropping one at a time or all at once comes to the same. */
  lemma {:induction false} CapturedAllIs(s: seq<Stamp>, ts: seq<Stamp>)
    requires |s| <= CAPACITY
    ensures CapturedAll(s, ts) == Kept(s + ts)
    decreases |ts|
  {
    if ts == [] {
      assert s + ts == s;
    } else {
      var one := Captured(s, ts[0]);
      CapturedAllIs(one, ts[1..]);
      assert s + ts == (s + [ts[0]]) + ts[1..];
      KeptTwice(s + [ts[0]], ts[1..]);
    }
  }

  /** Dropping early or late leaves the same. */
  lemma KeptTwice(a: seq<Stamp>, b: seq<Stamp>)
    ensures Kept(Kept(a) + b) == Kept(a + b)
  {
    if |a| > CAPACITY {
      Suffixes(a, b, |a| - CAPACITY);
    }
  }

  lemma Suffixes(a: seq<Stamp>, b: seq<Stamp>, n: nat)
    requires n <= |a|
    ensures (a + b)[n..] == a[n..] + b
    ensures forall m :: n <= m <= |a + b| ==> (a + b)[m..] == (a[n..] + b)[m - n..]
  {
  }

  /** Storing at the head and stepping over the oldest if the head has caught up with it. */
  lemma Stored(buf: seq<Stamp>, head: nat, tail: nat, t: Stamp)
    requires |buf| == LENGTH && head < LENGTH && tail < LENGTH
    ensures Next(head) < LENGTH && Next(tail) < LENGTH
    ensures Waiting(buf[head := t], Next(head), if Next(head) == tail then Next(tail) else tail)
            == Captured(Waiting(buf, head, tail), t)
  {
    var full := Next(head) == tail;
    Around(head, tail);
    hide Next, Distance;
    var was, now := Waiting(buf, head, tail), Waiting(buf[head := t], Next(head), if full then Next(tail) else tail);
    if full {
      StoredFull(buf, head, tail, t);
    } else {
      StoredRoom(buf, head, tail, t);
    }
  }

  /** Stepping round the ring. */
  lemma Around(head: nat, tail: nat)
    requires head < LENGTH && tail < LENGTH
    ensures Next(head) < LENGTH && Next(tail) < LENGTH
    ensures Next(head) == tail <==> Distance(head, tail) == CAPACITY
    ensures Next(head) == tail ==> Distance(Next(head), Next(tail)) == CAPACITY
    ensures Next(head) != tail ==> Distance(Next(head), tail) == Distance(head, tail) + 1
    ensures Slot(tail, Distance(head, tail)) == head
    ensures forall k :: 0 <= k < LENGTH ==> 0 <= Slot(tail, k) < LENGTH
    ensures forall k :: 0 <= k < CAPACITY ==> Slot(Next(tail), k) == Slot(tail, k + 1)
    ensures forall k :: 0 <= k < Distance(head, tail) ==> Slot(tail, k) != head
  {
    NextIs(head);
    NextIs(tail);
    SlotsAre(tail);
    SlotsAre(Next(tail));
    hide Next, Slot;
  }

  lemma NextIs(i: nat)
    requires i < LENGTH
    ensures Next(i) == if i == CAPACITY then 0 else i + 1
  {
  }

  lemma SlotsAre(tail: nat)
    requires tail < LENGTH
    ensures forall k :: 0 <= k < LENGTH ==> Slot(tail, k) == if tail + k < LENGTH then tail + k else tail + k - LENGTH
  {
  }

  lemma StoredRoom(buf: seq<Stamp>, head: nat, tail: nat, t: Stamp)
    requires |buf| == LENGTH && head < LENGTH && tail < LENGTH && Next(head) != tail
    ensures Next(head) < LENGTH
    ensures Waiting(buf[head := t], Next(head), tail) == Captured(Waiting(buf, head, tail), t)
  {
    Around(head, tail);
    hide Next, Distance, Slot;
    var was, now := Waiting(buf, head, tail), Waiting(buf[head := t], Next(head), tail);
    forall k | 0 <= k < |now| ensures now[k] == (was + [t])[k] { }
    assert now == was + [t];
  }

  lemma StoredFull(buf: seq<Stamp>, head: nat, tail: nat, t: Stamp)
    requires |buf| == LENGTH && head < LENGTH && tail < LENGTH && Next(head) == tail
    ensures Next(head) < LENGTH && Next(tail) < LENGTH
    ensures Waiting(buf[head := t], Next(head), Next(tail)) == Captured(Waiting(buf, head, tail), t)
  {
    Around(head, tail);
    hide Next, Distance, Slot;
    var was, now := Waiting(buf, head, tail), Waiting(buf[head := t], Next(head), Next(tail));
    forall k | 0 <= k < |now| ensures now[k] == (was + [t])[k + 1] { }
    assert now == (was + [t])[1..];
  }

  lemma Taken(buf: seq<Stamp>, head: nat, tail: nat)
    requires |buf| == LENGTH && head < LENGTH && tail < LENGTH && head != tail
    ensures Next(tail) < LENGTH && Waiting(buf, head, tail) != []
    ensures Waiting(buf, head, tail) == [buf[tail]] + Waiting(buf, head, Next(tail))
  {
    var a, b := Waiting(buf, head, tail), Waiting(buf, head, Next(tail));
    TakenSlots(head, tail);
    hide Next, Slot, Distance;
    forall k | 0 <= k < |b| ensures b[k] == a[k + 1] { }
    assert a[0] == buf[tail];
  }

  lemma TakenSlots(head: nat, tail: nat)
    requires head < LENGTH && tail < LENGTH && head != tail
    ensures Next(tail) < LENGTH && Slot(tail, 0) == tail
    ensures Distance(head, tail) == Distance(head, Next(tail)) + 1
    ensures forall k :: 0 <= k < CAPACITY ==> Slot(Next(tail), k) == Slot(tail, k + 1)
    ensures forall k :: 0 <= k < LENGTH ==> 0 <= Slot(tail, k) < LENGTH
  {
    NextIs(tail);
    SlotsAre(tail);
    SlotsAre(Next(tail));
    hide Next, Slot;
  }

  lemma Empty(buf: seq<Stamp>, head: nat, tail: nat)
    requires |buf| == LENGTH && head < LENGTH && tail < LENGTH
    ensures Waiting(buf, head, tail) == [] <==> head == tail
  {
  }

  class Channel {
    const tsbuf: array<Stamp>
    var bhead: nat
    var btail: nat

    ghost predicate Valid()
      reads this, tsbuf
    {
      tsbuf.Length == LENGTH && bhead < LENGTH && btail < LENGTH
    }

    ghost function Contents(): seq<Stamp>
      reads this, tsbuf
      requires Valid()
    {
      Waiting(tsbuf[..], bhead, btail)
    }

    constructor ()
      ensures Valid() && fresh(tsbuf) && Contents() == []
    {
      tsbuf := new Stamp[LENGTH](_ => Stamp(0, 0));
      bhead, btail := 0, 0;
    }

    /** One pass of the interrupt handler's loop. */
    method Capture(t: Stamp)
      requires Valid()
      modifies this, tsbuf
      ensures Valid() && Contents() == Captured(old(Contents()), t)
    {
      Stored(tsbuf[..], bhead, btail, t);
      var h := bhead;
      bhead := Next(h);
      if bhead == btail {
        btail := Next(btail);
      }
      tsbuf[h] := t;
    }

    /** Pull the hardware FIFO into the ring. */
    method Pull(fifo: seq<Stamp>)
      requires Valid()
      modifies this, tsbuf
      ensures Valid() && Contents() == Kept(old(Contents()) + fifo)
    {
      var i := 0;
      assert fifo[0..] == fifo;
      CapturedAllIs(Contents(), fifo);
      while i < |fifo|
        invariant 0 <= i <= |fifo| && Valid()
        invariant CapturedAll(Contents(), fifo[i..]) == CapturedAll(old(Contents()), fifo)
      {
        assert fifo[i..][0] == fifo[i] && fifo[i..][1..] == fifo[i + 1..];
        Capture(fifo[i]);
        i := i + 1;
      }
    }

    /** Hand out the oldest stamps, as many as there is room for. */
    method Take(room: nat) returns (ts: seq<Stamp>)
      requires Valid()
      modifies this`btail
      ensures Valid() && ts + Contents() == old(Contents())
      ensures |ts| == if |old(Contents())| < room then |old(Contents())| else room
    {
      ts := [];
      hide Waiting, Next;
      Empty(tsbuf[..], bhead, btail);
      assert [] + Contents() == old(Contents());
      while |ts| < room && bhead != btail
        invariant Valid() && ts + Contents() == old(Contents()) && |ts| <= room
        invariant Contents() == [] <==> bhead == btail
        decreases room - |ts|
      {
        Taken(tsbuf[..], bhead, btail);
        ghost var rest := Waiting(tsbuf[..], bhead, Next(btail));
        assert ts + ([tsbuf[btail]] + rest) == (ts + [tsbuf[btail]]) + rest;
        ts := ts + [tsbuf[btail]];
        btail := Next(btail);
        Empty(tsbuf[..], bhead, btail);
      }
    }
  }

  /* ---------- the card ---------- */

  const F_NOW: bv8 := 0x01
  const F_MASK: bv8 := 0x04
  const F_WAIT: bv8 := 0x10

  /** `Stray` stands for a command that reaches for a channel the card does not have. */
  datatype Reply = Invalid | Again | WaitOn(channel: nat) | Stamps(channel: nat, ts: seq<Stamp>) | Stray(channel: nat)

  /** The test meant to refuse waiting on several channels looks at another flag. */
  predicate Refused(flags: bv8) { flags & F_NOW == F_NOW }

  predicate Selected(flags: bv8, channel: bv16, ch: nat)
    requires ch < CHANNELS
  {
    if flags & F_MASK != 0 then (channel >> ch) & 1 == 1 else channel as nat == ch
  }

  /** The first selected channel with stamps waiting, or `CHANNELS`. */
  function FirstFull(flags: bv8, channel: bv16, rings: seq<seq<Stamp>>, ch: nat): (r: nat)
    requires |rings| == CHANNELS && ch <= CHANNELS
    ensures ch <= r <= CHANNELS
    ensures r < CHANNELS ==> Selected(flags, channel, r) && rings[r] != []
    ensures forall k :: ch <= k < r && Selected(flags, channel, k) ==> rings[k] == []
    decreases CHANNELS - ch
  {
    if ch == CHANNELS || (Selected(flags, channel, ch) && rings[ch] != []) then ch
    else FirstFull(flags, channel, rings, ch + 1)
  }

  function Oldest(s: seq<Stamp>): seq<Stamp> { if |s| <= N_STAMP then s else s[..N_STAMP] }

  /** What a stamp command answers and leaves. */
  function Command(flags: bv8, channel: bv16, rings: seq<seq<Stamp>>): (Reply, seq<seq<Stamp>>)
    requires |rings| == CHANNELS
  {
    if Refused(flags) then (Invalid, rings)
    else if flags & F_MASK == 0 && channel as nat >= CHANNELS then (Stray(channel as nat), rings)
    else
      var ch := FirstFull(flags, channel, rings, 0);
      if ch < CHANNELS then
        var ts := Oldest(rings[ch]);
        (Stamps(ch, ts), rings[ch := rings[ch][|ts|..]])
      else if flags & F_WAIT != 0 then (WaitOn(if flags & F_MASK != 0 then CHANNELS - 1 else channel as nat), rings)
      else (Again, rings)
  }

  /** What an interrupt leaves; `fifos` holds what the hardware has captured on each channel. */
  function Interrupted(fifos: seq<seq<Stamp>>, rings: seq<seq<Stamp>>): (r: seq<seq<Stamp>>)
    requires |rings| == |fifos| == CHANNELS
    ensures |r| == CHANNELS && forall ch :: 0 <= ch < CHANNELS ==> r[ch] == Kept(rings[ch] + fifos[ch])
  {
    seq(CHANNELS, ch requires 0 <= ch < CHANNELS => Kept(rings[ch] + fifos[ch]))
  }

  class Card {
    const ch: seq<Channel>

    ghost predicate Valid()
      reads this, ch, set c | c in ch :: c.tsbuf
    {
      && |ch| == CHANNELS
      && (forall i, j :: 0 <= i < j < CHANNELS ==> ch[i] != ch[j] && ch[i].tsbuf != ch[j].tsbuf)
      && forall i :: 0 <= i < CHANNELS ==> ch[i].Valid()
    }

    ghost function Rings(): (r: seq<seq<Stamp>>)
      reads this, ch, set c | c in ch :: c.tsbuf
      requires Valid()
      ensures |r| == CHANNELS && forall i :: 0 <= i < CHANNELS ==> r[i] == ch[i].Contents() && |r[i]| <= CAPACITY
    {
      [ch[0].Contents(), ch[1].Contents(), ch[2].Contents(), ch[3].Contents(), ch[4].Contents()]
    }

    constructor ()
      ensures Valid() && fresh(ch) && Rings() == [[], [], [], [], []]
    {
      hide Waiting, Channel.Contents, Channel.Valid;
      var a := new Channel();
      var b := new Channel();
      var c := new Channel();
      var d := new Channel();
      var e := new Channel();
      ch := [a, b, c, d, e];
      new;
      assert ch[0] == a && ch[1] == b && ch[2] == c && ch[3] == d && ch[4] == e;
      assert a.Contents() == [] && b.Contents() == [] && c.Contents() == [] && d.Contents() == [] && e.Contents() == [];
      assert Valid();
    }

    /** Pull one channel's FIFO. */
    method PullOn(i: nat, fifo: seq<Stamp>)
      requires Valid() && i < CHANNELS
      modifies ch[i], ch[i].tsbuf
      ensures Valid() && Rings() == old(Rings())[i := Kept(old(Rings())[i] + fifo)]
    {
      hide Waiting, Kept;
      ghost var was := Rings();
      ch[i].Pull(fifo);
      forall k | 0 <= k < CHANNELS && k != i ensures ch[k].Contents() == was[k] {
        assert ch[k] != ch[i] && ch[k].tsbuf != ch[i].tsbuf;
      }
    }

    /** Take from one channel. */
    method TakeFrom(i: nat) returns (ts: seq<Stamp>)
      requires Valid() && i < CHANNELS
      modifies ch[i]
      ensures Valid() && ts == Oldest(old(Rings())[i]) && |ts| <= |old(Rings())[i]|
      ensures Rings() == old(Rings())[i := old(Rings())[i][|ts|..]]
    {
      hide Waiting;
      ghost var was := Rings();
      ts := ch[i].Take(N_STAMP);
      TakenOldest(was[i], ts, ch[i].Contents());
      forall k | 0 <= k < CHANNELS && k != i ensures ch[k].Contents() == was[k] {
        assert ch[k] != ch[i] && ch[k].tsbuf != ch[i].tsbuf;
      }
    }

    /** Visit the channels with a pending interrupt; the others' FIFOs are empty. */
    method Interrupt(fifos: seq<seq<Stamp>>)
      requires Valid() && |fifos| == CHANNELS
      modifies ch, set c | c in ch :: c.tsbuf
      ensures Valid() && Rings() == Interrupted(fifos, old(Rings()))
    {
      hide Channel.Contents, Channel.Valid;
      ghost var was := Rings();
      var i := 0;
      while i < CHANNELS
        invariant 0 <= i <= CHANNELS && Valid()
        invariant Halfway(fifos, was, Rings(), i)
      {
        HalfwayOn(fifos, was, Rings(), i);
        if fifos[i] != [] {
          PullOn(i, fifos[i]);
        }
        i := i + 1;
      }
    }

    /** Answer from the first selected channel that has stamps. The code checks no channel number
        before it looks at `ch`; `looked` are the channels it looks at, in order, and the method
        stops at one that does not exist. */
    method Stamp(flags: bv8, channel: bv16) returns (reply: Reply, ghost looked: seq<nat>)
      requires Valid()
      modifies ch
      ensures Valid() && (reply, Rings()) == Command(flags, channel, old(Rings()))
      ensures (forall k :: k in looked ==> k < CHANNELS)
         <==> Refused(flags) || flags & F_MASK != 0 || (channel as nat) < CHANNELS
      ensures reply.Stray? <==> exists k :: k in looked && k >= CHANNELS
    {
      hide Channel.Contents, Channel.Valid, FirstFull, Selected, Command, Looking, Oldest, Waiting, Refused;
      looked := [];
      RefusedCommand(flags, channel, Rings());
      if Refused(flags) {
        return Invalid, looked;
      }
      ghost var was := Rings();
      var i, last := 0, CHANNELS - 1;
      if flags & F_MASK == 0 {
        i, last := channel as nat, channel as nat;
      }
      LookingStart(flags, channel, was);
      while i <= last
        invariant Valid() && Rings() == was && Looking(flags, channel, was, i, last, looked)
        decreases last + 1 - i
      {
        LookingOn(flags, channel, was, i, last, looked);
        looked := looked + [i];
        if i >= CHANNELS {
          return Stray(i), looked;
        }
        if Selected(flags, channel, i) {
          var ts := TakeFrom(i);
          if ts != [] {
            return Stamps(i, ts), looked;
          }
        }
        i := i + 1;
      }
      LookingDone(flags, channel, was, i, last, looked);
      if flags & F_WAIT != 0 {
        return WaitOn(last), looked;
      }
      reply := Again;
    }
  }

  lemma RefusedCommand(flags: bv8, channel: bv16, was: seq<seq<Stamp>>)
    requires |was| == CHANNELS
    ensures Refused(flags) ==> Command(flags, channel, was) == (Invalid, was)
  {
  }

  /** A command on its way through the channels: those looked at exist and hold nothing for it. */
  ghost predicate Looking(flags: bv8, channel: bv16, was: seq<seq<Stamp>>, i: nat, last: nat, looked: seq<nat>) {
    && |was| == CHANNELS && !Refused(flags) && i <= last + 1
    && last == (if flags & F_MASK != 0 then CHANNELS - 1 else channel as nat)
    && (last >= CHANNELS ==> i == last)
    && (last < CHANNELS ==>
          FirstFull(flags, channel, was, 0) == if i <= last then FirstFull(flags, channel, was, i) else CHANNELS)
    && forall k :: k in looked ==> k < CHANNELS
  }

  lemma LookingStart(flags: bv8, channel: bv16, was: seq<seq<Stamp>>)
    requires |was| == CHANNELS && !Refused(flags)
    ensures flags & F_MASK != 0 ==> Looking(flags, channel, was, 0, CHANNELS - 1, [])
    ensures flags & F_MASK == 0 ==> Looking(flags, channel, was, channel as nat, channel as nat, [])
  {
    hide FirstFull;
    OneSelected(flags, channel, was, 0);
  }

  /** The next channel: it does not exist, or answers the command, or is passed by. */
  lemma LookingOn(flags: bv8, channel: bv16, was: seq<seq<Stamp>>, i: nat, last: nat, looked: seq<nat>)
    requires i <= last && Looking(flags, channel, was, i, last, looked)
    ensures |was| == CHANNELS
    ensures i >= CHANNELS ==>
              && Command(flags, channel, was) == (Stray(i), was) && i in looked + [i]
              && !Refused(flags) && flags & F_MASK == 0 && channel as nat >= CHANNELS
    ensures i < CHANNELS ==>
              && (Refused(flags) || flags & F_MASK != 0 || (channel as nat) < CHANNELS)
              && (forall k :: k in looked + [i] ==> k < CHANNELS)
              && |Oldest(was[i])| <= |was[i]| && was[i := was[i][0..]] == was
              && (Oldest(was[i]) == [] <==> was[i] == [])
              && if Selected(flags, channel, i) && was[i] != [] then
                   Command(flags, channel, was) == (Stamps(i, Oldest(was[i])), was[i := was[i][|Oldest(was[i])|..]])
                 else Looking(flags, channel, was, i + 1, last, looked + [i])
  {
    NoneBeyond(flags, channel, was);
    hide FirstFull;
    if i < CHANNELS {
      OneSelected(flags, channel, was, i);
    }
  }

  lemma NoneBeyond(flags: bv8, channel: bv16, was: seq<seq<Stamp>>)
    requires |was| == CHANNELS
    ensures FirstFull(flags, channel, was, CHANNELS) == CHANNELS
  {
  }

  lemma LookingDone(flags: bv8, channel: bv16, was: seq<seq<Stamp>>, i: nat, last: nat, looked: seq<nat>)
    requires i > last && Looking(flags, channel, was, i, last, looked)
    ensures forall k :: k in looked ==> k < CHANNELS
    ensures flags & F_MASK != 0 || (channel as nat) < CHANNELS
    ensures Command(flags, channel, was) == (if flags & F_WAIT != 0 then WaitOn(last) else Again, was)
  {
    hide FirstFull, Selected;
  }

  /** An interrupt that has visited the first `i` channels. */
  ghost predicate Halfway(fifos: seq<seq<Stamp>>, was: seq<seq<Stamp>>, rings: seq<seq<Stamp>>, i: nat)
    requires |fifos| == |was| == |rings| == CHANNELS && i <= CHANNELS
  {
    && (forall k :: 0 <= k < i ==> rings[k] == Kept(was[k] + fifos[k]))
    && (forall k :: i <= k < CHANNELS ==> rings[k] == was[k] && |was[k]| <= CAPACITY)
  }

  lemma HalfwayOn(fifos: seq<seq<Stamp>>, was: seq<seq<Stamp>>, rings: seq<seq<Stamp>>, i: nat)
    requires |fifos| == |was| == |rings| == CHANNELS && i < CHANNELS && Halfway(fifos, was, rings, i)
    ensures Halfway(fifos, was, rings[i := Kept(rings[i] + fifos[i])], i + 1)
    ensures fifos[i] == [] ==> rings[i := Kept(rings[i] + fifos[i])] == rings
  {
    if fifos[i] == [] {
      assert rings[i] + [] == rings[i];
    }
  }

  lemma TakenOldest(s: seq<Stamp>, ts: seq<Stamp>, rest: seq<Stamp>)
    requires s == ts + rest && |ts| == if |s| < N_STAMP then |s| else N_STAMP
    ensures ts == Oldest(s) && rest == s[|ts|..]
  {
  }

  /** Without a mask only the named channel counts. */
  lemma {:induction false} OneSelected(flags: bv8, channel: bv16, rings: seq<seq<Stamp>>, ch: nat)
    requires |rings| == CHANNELS && ch < CHANNELS
    ensures FirstFull(flags, channel, rings, ch) ==
              if Selected(flags, channel, ch) && rings[ch] != [] then ch else FirstFull(flags, channel, rings, ch + 1)
    ensures flags & F_MASK == 0 && (channel as nat) < CHANNELS && ch <= channel as nat ==>
              FirstFull(flags, channel, rings, ch) == FirstFull(flags, channel, rings, channel as nat)
    ensures flags & F_MASK == 0 && ch == channel as nat && rings[ch] == [] ==>
              FirstFull(flags, channel, rings, ch) == CHANNELS
    decreases CHANNELS - ch
  {
    if flags & F_MASK == 0 && ch != channel as nat && ch + 1 < CHANNELS {
      OneSelected(flags, channel, rings, ch + 1);
    }
    if flags & F_MASK == 0 && ch == channel as nat && rings[ch] == [] {
      NoneSelected(flags, channel, rings, ch + 1);
    }
  }

  lemma {:induction false} NoneSelected(flags: bv8, channel: bv16, rings: seq<seq<Stamp>>, ch: nat)
    requires |rings| == CHANNELS && ch <= CHANNELS && flags & F_MASK == 0 && (channel as nat) < ch
    ensures FirstFull(flags, channel, rings, ch) == CHANNELS
    decreases CHANNELS - ch
  {
    if ch < CHANNELS {
      NoneSelected(flags, channel, rings, ch + 1);
    }
  }

  /* ---------- histories ---------- */

  /** All stamps captured on a channel, the number of the oldest still waiting, the numbers of those
      delivered, in order, and how many were lost. */
  datatype Track = Track(captured: seq<Stamp>, next: nat, delivered: seq<nat>, lost: nat)

  predicate TrackOk(t: Track) {
    && t.next <= |t.captured| <= t.next + CAPACITY
    && t.next == |t.delivered| + t.lost
    && (forall k :: 0 <= k < |t.delivered| ==> t.delivered[k] < t.next)
    && (forall j, k :: 0 <= j < k < |t.delivered| ==> t.delivered[j] < t.delivered[k])
  }

  function Outstanding(t: Track): seq<Stamp>
    requires TrackOk(t)
  {
    t.captured[t.next..]
  }

  function Gained(t: Track, fifo: seq<Stamp>): Track {
    var captured := t.captured + fifo;
    var over := if |captured| > t.next + CAPACITY then |captured| - t.next - CAPACITY else 0;
    Track(captured, t.next + over, t.delivered, t.lost + over)
  }

  function Given(t: Track, n: nat): Track {
    Track(t.captured, t.next + n, t.delivered + Lists.Numbers(t.next, n), t.lost)
  }

  lemma GainedOk(t: Track, fifo: seq<Stamp>)
    requires TrackOk(t)
    ensures TrackOk(Gained(t, fifo)) && Outstanding(Gained(t, fifo)) == Kept(Outstanding(t) + fifo)
  {
    GainedTrack(t, fifo);
    hide Kept, TrackOk;
    var u := Gained(t, fifo);
    Suffix(t.captured, fifo, t.next, u.next);
    KeptIs(Outstanding(t) + fifo);
  }

  lemma GainedTrack(t: Track, fifo: seq<Stamp>)
    requires TrackOk(t)
    ensures TrackOk(Gained(t, fifo)) && t.next <= Gained(t, fifo).next
  {
  }

  lemma Suffix(a: seq<Stamp>, b: seq<Stamp>, n: nat, m: nat)
    requires n <= |a| && n <= m <= |a + b|
    ensures (a + b)[m..] == (a[n..] + b)[m - n..]
  {
  }

  lemma KeptIs(s: seq<Stamp>)
    ensures Kept(s) == if |s| > CAPACITY then s[|s| - CAPACITY..] else s[0..]
  {
  }

  lemma GivenOk(t: Track, n: nat)
    requires TrackOk(t) && n <= |Outstanding(t)|
    ensures TrackOk(Given(t, n)) && Outstanding(Given(t, n)) == Outstanding(t)[n..]
  {
  }

  /** A channel that has lost nothing has delivered its stamps exactly in capture order, with no
      gap; and one that has delivered them so has lost nothing. */
  lemma NoneLostIff(t: Track)
    requires TrackOk(t)
    ensures t.lost == 0 <==> t.delivered == Lists.Numbers(0, t.next)
  {
    if t.lost == 0 {
      Dense(t.delivered, t.next);
      assert t.delivered == Lists.Numbers(0, t.next);
    }
  }

  lemma {:induction false} Dense(s: seq<nat>, n: nat)
    requires |s| == n && (forall k :: 0 <= k < n ==> s[k] < n) && forall j, k :: 0 <= j < k < n ==> s[j] < s[k]
    ensures forall k :: 0 <= k < n ==> s[k] == k
    decreases n
  {
    if n > 0 {
      var rest := s[..n - 1];
      forall k | 0 <= k < n - 1 ensures rest[k] < n - 1 { assert s[k] < s[n - 1]; }
      Dense(rest, n - 1);
      assert n > 1 ==> s[n - 2] == rest[n - 2] == n - 2;
    }
  }

  datatype Event = Interrupts(fifos: seq<seq<Stamp>>) | Commands(flags: bv8, channel: bv16)

  /** What the code demands of its callers. */
  predicate Legal(e: Event) {
    match e
    case Interrupts(fifos) => |fifos| == CHANNELS
    case Commands(flags, channel) => Refused(flags) || flags & F_MASK != 0 || (channel as nat) < CHANNELS
  }

  predicate TracksOk(ts: seq<Track>) {
    |ts| == CHANNELS && forall ch :: 0 <= ch < CHANNELS ==> TrackOk(ts[ch])
  }

  function Outstandings(ts: seq<Track>): (r: seq<seq<Stamp>>)
    requires TracksOk(ts)
    ensures |r| == CHANNELS && forall ch :: 0 <= ch < CHANNELS ==> r[ch] == Outstanding(ts[ch])
  {
    seq(CHANNELS, ch requires 0 <= ch < CHANNELS => Outstanding(ts[ch]))
  }

  function RingsAfter(rings: seq<seq<Stamp>>, e: Event): seq<seq<Stamp>>
    requires |rings| == CHANNELS && Legal(e)
  {
    match e
    case Interrupts(fifos) => Interrupted(fifos, rings)
    case Commands(flags, channel) => Command(flags, channel, rings).1
  }

  function TracksAfter(ts: seq<Track>, e: Event): seq<Track>
    requires TracksOk(ts) && Legal(e)
  {
    match e
    case Interrupts(fifos) => seq(CHANNELS, ch requires 0 <= ch < CHANNELS => Gained(ts[ch], fifos[ch]))
    case Commands(flags, channel) =>
      match Command(flags, channel, Outstandings(ts)).0
      case Stamps(ch, out) => if ch < CHANNELS then ts[ch := Given(ts[ch], |out|)] else ts
      case _ => ts
  }

  /** One step: the ring buffers hold exactly the outstanding stamps, and a command delivers the
      next ones of its channel. */
  lemma StepTracks(ts: seq<Track>, e: Event)
    requires TracksOk(ts) && Legal(e)
    ensures TracksOk(TracksAfter(ts, e)) && Outstandings(TracksAfter(ts, e)) == RingsAfter(Outstandings(ts), e)
    ensures e.Commands? ==>
              match Command(e.flags, e.channel, Outstandings(ts)).0
              case Stamps(ch, out) =>
                && ch < CHANNELS && 0 < |out| <= N_STAMP && ts[ch].next + |out| <= |ts[ch].captured|
                && out == ts[ch].captured[ts[ch].next..ts[ch].next + |out|]
              case _ => TracksAfter(ts, e) == ts
  {
    match e
    case Interrupts(fifos) => StepInterrupts(ts, fifos);
    case Commands(flags, channel) => StepCommands(ts, flags, channel);
  }

  lemma StepInterrupts(ts: seq<Track>, fifos: seq<seq<Stamp>>)
    requires TracksOk(ts) && |fifos| == CHANNELS
    ensures var e := Interrupts(fifos);
            TracksOk(TracksAfter(ts, e)) && Outstandings(TracksAfter(ts, e)) == RingsAfter(Outstandings(ts), e)
  {
    hide TrackOk, Outstanding, Gained, Kept;
    var e := Interrupts(fifos);
    forall ch | 0 <= ch < CHANNELS
      ensures TrackOk(Gained(ts[ch], fifos[ch]))
      ensures Outstanding(Gained(ts[ch], fifos[ch])) == Kept(Outstanding(ts[ch]) + fifos[ch])
    {
      GainedOk(ts[ch], fifos[ch]);
    }
    assert Outstandings(TracksAfter(ts, e)) == RingsAfter(Outstandings(ts), e);
  }

  lemma StepCommands(ts: seq<Track>, flags: bv8, channel: bv16)
    requires TracksOk(ts) && Legal(Commands(flags, channel))
    ensures var e := Commands(flags, channel);
            TracksOk(TracksAfter(ts, e)) && Outstandings(TracksAfter(ts, e)) == RingsAfter(Outstandings(ts), e)
    ensures match Command(flags, channel, Outstandings(ts)).0
            case Stamps(ch, out) =>
              && ch < CHANNELS && 0 < |out| <= N_STAMP && ts[ch].next + |out| <= |ts[ch].captured|
              && out == ts[ch].captured[ts[ch].next..ts[ch].next + |out|]
            case _ => TracksAfter(ts, Commands(flags, channel)) == ts
  {
    hide TrackOk, Outstanding, Given, FirstFull, Selected;
    var e, ch := Commands(flags, channel), FirstFull(flags, channel, Outstandings(ts), 0);
    if !Refused(flags) && ch < CHANNELS {
      var out := Oldest(Outstandings(ts)[ch]);
      GivenOk(ts[ch], |out|);
      NextOnes(ts[ch], |out|);
      assert Outstandings(TracksAfter(ts, e)) == RingsAfter(Outstandings(ts), e);
    }
  }

  lemma NextOnes(t: Track, n: nat)
    requires TrackOk(t) && n <= |Outstanding(t)|
    ensures t.next + n <= |t.captured| && Outstanding(t)[..n] == t.captured[t.next..t.next + n]
    ensures |Outstanding(t)| == n ==> Outstanding(t)[..n] == Outstanding(t)
  {
  }

  function AllTracks(ts: seq<Track>, events: seq<Event>): seq<Track>
    requires TracksOk(ts) && forall k :: 0 <= k < |events| ==> Legal(events[k])
    decreases |events|
  {
    if events == [] then ts
    else
      StepTracks(ts, events[0]);
      AllTracks(TracksAfter(ts, events[0]), events[1..])
  }

  function AllRings(rings: seq<seq<Stamp>>, events: seq<Event>): seq<seq<Stamp>>
    requires |rings| == CHANNELS && forall k :: 0 <= k < |events| ==> Legal(events[k])
    decreases |events|
  {
    if events == [] then rings else AllRings(RingsAfter(rings, events[0]), events[1..])
  }

  /** STAMPS. Over every sequence of interrupts and commands each channel's ring buffer is what a
      queue would hold that drops its oldest beyond 511; its stamps are delivered in capture order
      and never twice, and each is delivered, lost or waiting. */
  lemma {:induction false} RunTracks(ts: seq<Track>, events: seq<Event>)
    requires TracksOk(ts) && forall k :: 0 <= k < |events| ==> Legal(events[k])
    ensures TracksOk(AllTracks(ts, events)) && Outstandings(AllTracks(ts, events)) == AllRings(Outstandings(ts), events)
    decreases |events|
  {
    if events != [] {
      StepTracks(ts, events[0]);
      hide TracksAfter, RingsAfter, TracksOk;
      RunTracks(TracksAfter(ts, events[0]), events[1..]);
    }
  }

  /** A step loses stamps on a channel exactly when more are captured than there is room for. */
  lemma LossIff(ts: seq<Track>, e: Event, ch: nat)
    requires TracksOk(ts) && Legal(e) && ch < CHANNELS
    ensures TracksOk(TracksAfter(ts, e))
    ensures TracksAfter(ts, e)[ch].lost > ts[ch].lost
           <==> e.Interrupts? && |Outstanding(ts[ch])| + |e.fifos[ch]| > CAPACITY
  {
    StepTracks(ts, e);
    hide FirstFull;
  }

  /** What is meant to be refused: waiting on several channels. */
  predicate WaitsOnSeveral(flags: bv8) { flags & (F_MASK | F_WAIT) == F_MASK | F_WAIT }

  /** A command is refused exactly when it carries the flag for immediate output; so exactly those
      that are meant to be refused are, if and only if that flag is set exactly with both others. */
  lemma RefusedIff(flags: bv8, channel: bv16, rings: seq<seq<Stamp>>)
    requires |rings| == CHANNELS
    ensures Command(flags, channel, rings).0 == Invalid <==> flags & F_NOW != 0
    ensures (Command(flags, channel, rings).0 == Invalid <==> flags & F_MASK != 0 && flags & F_WAIT != 0)
       <==> (flags & F_NOW != 0 <==> WaitsOnSeveral(flags))
  {
    FlagBits(flags);
    hide F_NOW, F_MASK, F_WAIT, WaitsOnSeveral;
  }

  lemma FlagBits(flags: bv8)
    ensures Refused(flags) <==> flags & F_NOW != 0
    ensures WaitsOnSeveral(flags) <==> flags & F_MASK != 0 && flags & F_WAIT != 0
  {
  }

  /** The bit of a channel in a mask. */
  function MaskOf(ch: nat): bv16
    requires ch < CHANNELS
  {
    if ch == 0 then 0x01 else if ch == 1 then 0x02 else if ch == 2 then 0x04 else if ch == 3 then 0x08 else 0x10
  }

  /** The user asks for this channel: by its bit in a mask, or by its number. */
  predicate AsksFor(flags: bv8, channel: bv16, ch: nat)
    requires ch < CHANNELS
  {
    if flags & 0x04 != 0 then channel & MaskOf(ch) != 0 else channel as nat == ch
  }

  lemma SelectedIff(flags: bv8, channel: bv16, ch: nat)
    requires ch < CHANNELS
    ensures Selected(flags, channel, ch) <==> AsksFor(flags, channel, ch)
  {
    BitOf(channel, ch);
    hide MaskOf;
  }

  lemma BitOf(c: bv16, ch: nat)
    requires ch < CHANNELS
    ensures (c >> ch) & 1 == 1 <==> c & MaskOf(ch) != 0
  {
    match ch
    case 0 => Bits0(c);
    case 1 => Bits1(c);
    case 2 => Bits2(c);
    case 3 => Bits3(c);
    case _ => Bits4(c);
  }

  lemma Bits0(c: bv16)
    ensures (c >> 0) & 1 == 1 <==> c & 0x01 != 0
  {
  }

  lemma Bits1(c: bv16)
    ensures (c >> 1) & 1 == 1 <==> c & 0x02 != 0
  {
  }

  lemma Bits2(c: bv16)
    ensures (c >> 2) & 1 == 1 <==> c & 0x04 != 0
  {
  }

  lemma Bits3(c: bv16)
    ensures (c >> 3) & 1 == 1 <==> c & 0x08 != 0
  {
  }

  lemma Bits4(c: bv16)
    ensures (c >> 4) & 1 == 1 <==> c & 0x10 != 0
  {
  }

  /** Nothing waits on any channel asked for. */
  ghost predicate NothingThere(flags: bv8, channel: bv16, rings: seq<seq<Stamp>>, to: nat)
    requires to <= CHANNELS == |rings|
  {
    forall k :: 0 <= k < to && AsksFor(flags, channel, k) ==> rings[k] == []
  }

  /** ANSWERS. A command that is not refused and names channels of the card is answered from the lowest
      channel it asks for that has stamps: with its oldest ones, at most 16, which leave the ring.
      If there is none the answer is to wait, on the channel named or on the last one, or to come
      again, and no ring changes. */
  lemma CommandExact(flags: bv8, channel: bv16, rings: seq<seq<Stamp>>)
    requires |rings| == CHANNELS && flags & 0x01 == 0 && (flags & 0x04 != 0 || (channel as nat) < CHANNELS)
    ensures var (reply, after) := Command(flags, channel, rings);
            && (forall ch: nat, ts :: reply == Stamps(ch, ts) ==>
                  && ch < CHANNELS && AsksFor(flags, channel, ch) && NothingThere(flags, channel, rings, ch)
                  && 0 < |ts| == (if |rings[ch]| < 16 then |rings[ch]| else 16)
                  && ts + after[ch] == rings[ch]
                  && (forall k :: 0 <= k < CHANNELS && k != ch ==> after[k] == rings[k]))
            && |after| == CHANNELS
            && (!reply.Stamps? <==> NothingThere(flags, channel, rings, CHANNELS))
            && (!reply.Stamps? ==> after == rings)
            && (!reply.Stamps? && flags & 0x10 == 0 ==> reply == Again)
            && (!reply.Stamps? && flags & 0x10 != 0 ==>
                  reply == WaitOn(if flags & 0x04 != 0 then 4 else channel as nat))
  {
    forall k | 0 <= k < CHANNELS ensures Selected(flags, channel, k) <==> AsksFor(flags, channel, k) {
      SelectedIff(flags, channel, k);
    }
    hide Selected, AsksFor;
    var ch := FirstFull(flags, channel, rings, 0);
    hide FirstFull;
    if ch < CHANNELS {
      assert rings[ch] == Oldest(rings[ch]) + rings[ch][|Oldest(rings[ch])|..];
    }
  }
}
