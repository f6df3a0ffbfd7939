/** The output side of a device: a buffer of formatted records, the transport below it, and the
    flush that empties the device's queue into it. */
module Device {
  import opened Bytes
  import opened Widths
  import opened Format
  import opened Lists
  import opened Master
  import opened EndToEnd
  import opened Scan
  import opened Flush
  import opened Sender

  function Concat(parts: seq<seq<byte>>): seq<byte> {
    if parts == [] then [] else parts[0] + Concat(parts[1..])
  }

  lemma {:induction false} ConcatAppend(a: seq<seq<byte>>, b: seq<seq<byte>>)
    ensures Concat(a + b) == Concat(a) + Concat(b)
  {
    if a == [] {
      assert a + b == b;
    } else {
      assert (a + b)[1..] == a[1..] + b;
      ConcatAppend(a[1..], b);
    }
  }

  lemma ConcatSnoc(a: seq<seq<byte>>, b: seq<byte>)
    ensures Concat(a + [b]) == Concat(a) + b
  {
    ConcatAppend(a, [b]);
    assert [b][1..] == [];
  }

  function Join(groups: seq<seq<seq<byte>>>): seq<seq<byte>> {
    if groups == [] then [] else groups[0] + Join(groups[1..])
  }

  lemma {:induction false} JoinSnoc(a: seq<seq<seq<byte>>>, b: seq<seq<byte>>)
    ensures Join(a + [b]) == Join(a) + b
  {
    if a == [] {
      assert a + [b] == [b] && [b][1..] == [];
      assert b + [] == b;
    } else {
      assert (a + [b])[1..] == a[1..] + [b];
      JoinSnoc(a[1..], b);
      assert a[0] + (Join(a[1..]) + b) == (a[0] + Join(a[1..])) + b;
    }
  }

  /** Magic, version 1 with or without the no-reads bit, and the port widths. */
  predicate IsHeader(p: Port, h: seq<byte>) {
    && |h| == HeadAlign(p) && h[0] == 0x4E && h[1] == 0x6F && (h[2] == 0x10 || h[2] == 0x14)
    && h[3] == 16 * p.addr + p.data && (forall i :: 4 <= i < |h| ==> h[i] == 0)
  }

  /** A packet is a header followed by whole cycles, at least one, and fits the transport. */
  ghost predicate IsPacket(p: Port, mtu: nat, packet: seq<byte>, cycles: seq<seq<byte>>) {
    && HeadAlign(p) <= |packet| <= mtu && IsHeader(p, packet[..HeadAlign(p)])
    && cycles != [] && packet[HeadAlign(p)..] == Concat(cycles)
  }

  ghost predicate ArePackets(p: Port, mtu: nat, sent: seq<seq<byte>>, packets: seq<seq<seq<byte>>>) {
    |sent| == |packets| && forall k :: 0 <= k < |sent| ==> IsPacket(p, mtu, sent[k], packets[k])
  }

  /** How packets are filled: those sent, each as its cycles, and the cycles for the next one. */
  datatype Filling = Filling(packets: seq<seq<seq<byte>>>, group: seq<seq<byte>>)

  /** A cycle of so many bytes does not fit behind the group. */
  predicate Overflows(p: Port, mtu: nat, group: seq<seq<byte>>, size: nat) {
    HeadAlign(p) + |Concat(group)| + size > mtu
  }

  /** A cycle goes in the packet being filled if it fits; otherwise that one is sent, and the cycle goes in
      the next, unless it does not even fit there. */
  function Fill(p: Port, mtu: nat, f: Filling, cycle: seq<byte>): Filling {
    var g := if f.group != [] && Overflows(p, mtu, f.group, |cycle|) then Filling(f.packets + [f.group], []) else f;
    if Overflows(p, mtu, g.group, |cycle|) then g else g.(group := g.group + [cycle])
  }

  /** At the end the last packet is sent if there is anything in it. */
  function Filled(f: Filling): seq<seq<seq<byte>>> {
    if f.group == [] then f.packets else f.packets + [f.group]
  }

  /** While a cycle of `size` bytes is formatted the group before it stays, or has been sent because the two
      do not fit together. */
  predicate Spilled(p: Port, mtu: nat, f: Filling, g: Filling, size: nat) {
    g == f || (f.group != [] && g == Filling(f.packets + [f.group], []) && Overflows(p, mtu, f.group, size))
  }

  lemma SpilledMore(p: Port, mtu: nat, f: Filling, g: Filling, h: Filling, small: nat, size: nat)
    requires Spilled(p, mtu, f, g, size) && Spilled(p, mtu, g, h, small) && small <= size
    ensures Spilled(p, mtu, f, h, size)
  {
    hide Concat;
  }

  lemma SpilledFits(p: Port, mtu: nat, f: Filling, g: Filling, cycle: seq<byte>)
    requires Spilled(p, mtu, f, g, |cycle|) && !Overflows(p, mtu, g.group, |cycle|)
    ensures Fill(p, mtu, f, cycle) == g.(group := g.group + [cycle])
  {
    hide Concat;
  }

  lemma SpilledMisfits(p: Port, mtu: nat, f: Filling, g: Filling, cycle: seq<byte>)
    requires Spilled(p, mtu, f, g, |cycle|) && g.group == [] && Overflows(p, mtu, [], |cycle|)
    ensures Fill(p, mtu, f, cycle) == g
  {
    hide Concat;
  }

  lemma HeaderMarked(p: Port, a: seq<byte>, b: seq<byte>)
    requires IsHeader(p, a) && (b == a || (|b| == |a| && b == a[2 := 0x14]))
    ensures IsHeader(p, b)
  {
  }

  lemma PacketSent(p: Port, mtu: nat, packet: seq<byte>, group: seq<seq<byte>>, h: seq<byte>)
    requires IsHeader(p, h) && HeadAlign(p) < |packet| <= mtu && packet[..HeadAlign(p)] == h
    requires packet[HeadAlign(p)..] == Concat(group)
    ensures IsPacket(p, mtu, packet, group)
  {
    assert |packet[HeadAlign(p)..]| > 0 && Concat([]) == [];
  }

  lemma NextPacket(p: Port, mtu: nat, sent: seq<seq<byte>>, packets: seq<seq<seq<byte>>>, packet: seq<byte>,
                   group: seq<seq<byte>>)
    requires ArePackets(p, mtu, sent, packets) && IsPacket(p, mtu, packet, group)
    ensures ArePackets(p, mtu, sent + [packet], packets + [group])
    ensures Join(packets + [group]) == Join(packets) + group
  {
    hide IsPacket;
    JoinSnoc(packets, group);
  }

  lemma NoCycles()
    ensures Concat([]) == []
  {
  }

  lemma EmptyGroup(packets: seq<seq<seq<byte>>>)
    ensures Concat([]) == [] && Join(packets) + [] == Join(packets)
  {
  }

  /** Appending at `w` keeps everything before it. */
  lemma AppendKeeps(a: seq<byte>, b: seq<byte>, w: nat, h: nat, c: nat, bytes: seq<byte>)
    requires |a| == |b| && w + |bytes| <= |a| && b[..w + |bytes|] == a[..w] + bytes
    ensures b[..w] == a[..w] && b[w..w + |bytes|] == bytes
    ensures h <= c <= w ==> b[..h] == a[..h] && b[h..c] == a[h..c] && b[c..w + |bytes|] == a[c..w] + bytes
  {
    assert b[0..w] == b[..w] == b[..w + |bytes|][..w] && a[0..w] == a[..w];
    assert b[w..w + |bytes|] == b[..w + |bytes|][w..];
    if h <= c <= w {
      assert b[..h] == b[..w][..h] && a[..h] == a[..w][..h];
      SliceSlice(b, 0, w, h, c - h);
      SliceSlice(a, 0, w, h, c - h);
      assert b[c..w + |bytes|] == b[..w + |bytes|][c..];
    }
  }

  lemma SameBehind(a: seq<byte>, b: seq<byte>, h: nat, c: nat, w: nat)
    requires |a| == |b| && h <= c <= w <= |a| && a[h..] == b[h..]
    ensures a[h..c] == b[h..c] && a[c..w] == b[c..w]
  {
    SliceDrop(a, h, h, c - h);
    SliceDrop(b, h, h, c - h);
    SliceDrop(a, h, c, w - c);
    SliceDrop(b, h, c, w - c);
  }

  lemma NothingAfter(s: seq<byte>, at: nat)
    requires at <= |s|
    ensures s[at..at] == []
  {
  }

  lemma EmptyConcat(done: seq<seq<byte>>)
    ensures Concat(done) + [] == Concat(done)
  {
  }

  lemma SplitSlice(s: seq<byte>, a: nat, b: nat, c: nat)
    requires a <= b <= c <= |s|
    ensures s[a..c] == s[a..b] + s[b..c]
  {
  }

  lemma SizeLimit(p: Port, checked: bool, ops: seq<Op>, i: nat, n: nat, plan: Plan, rba: nat)
    requires ValidOps(p, ops) && i <= |ops| && GoodPlan(p, checked, ops, i, n, plan) && ReturnAddress(rba)
    ensures i + plan.wcount + plan.rcount <= |ops|
    ensures 0 < |RecordBytes(p, ops, i, plan, rba)| <= BUFFER_SIZE
  {
    hide GoodPlan, MakeRecord, Fits, Serialize;
    PlanBounds(p, checked, ops, i, n, plan);
    MadeRecordFits(p, checked, ops, i, n, rba, plan);
    SerializedSize(p, MakeRecord(p, ops, i, plan, rba));
  }

  /** One step of formatting a cycle, in terms of what is left of it. */
  lemma PackStep(p: Port, checked: bool, ops: seq<Op>, i: nat, n: nat, rba: nat, partial: seq<byte>, room: nat)
    requires ValidOps(p, ops) && Pending(p, checked, ops, i, n)
    ensures var plan := PlanRecord(p, checked, ops, i, n);
            && i + plan.wcount + plan.rcount <= |ops|
            && var bytes := RecordBytes(p, ops, i, plan, rba);
            && (plan.last ==> partial + TailBytes(p, checked, ops, i, n, rba) == partial + bytes)
            && (!plan.last ==>
                  var i1 := i + plan.wcount + plan.rcount;
                  && Pending(p, checked, ops, i1, plan.n)
                  && partial + TailBytes(p, checked, ops, i, n, rba)
                      == (partial + bytes) + TailBytes(p, checked, ops, i1, plan.n, rba)
                  && (|partial| + |bytes| <= room ==>
                        Misfit(p, checked, ops, i, n, rba, room - |partial|)
                        == Misfit(p, checked, ops, i1, plan.n, rba, room - |partial| - |bytes|)))
            && (|partial| <= room < |partial| + |bytes| ==>
                Misfit(p, checked, ops, i, n, rba, room - |partial|) == Some(i))
            && (|partial| + |bytes| <= room && plan.last ==>
                Misfit(p, checked, ops, i, n, rba, room - |partial|) == None)
  {
    hide PlanRecord, GoodPlan, RecordBytes;
    PlanIsGood(p, checked, ops, i, n);
    PlanBounds(p, checked, ops, i, n, PlanRecord(p, checked, ops, i, n));
  }

  /** What is owed before and after a record, and that packing makes progress. */
  lemma OwedAfter(p: Port, checked: bool, ops: seq<Op>, i: nat, n: nat)
    requires Pending(p, checked, ops, i, n)
    ensures var plan := PlanRecord(p, checked, ops, i, n);
            && (plan.rcount > 0 || plan.status ==> Owed(checked, ops, i, n))
            && (plan.last && plan.rcount == 0 && !plan.status ==> !Owed(checked, ops, i, n))
            && (plan.rcount == 0 && !plan.status ==>
                (Owed(checked, ops, i, n) <==> Owed(checked, ops, i + plan.wcount + plan.rcount, plan.n)))
            && (!plan.last ==> plan.wcount + plan.rcount > 0 || plan.n < n)
  {
    hide PlanRecord, GoodPlan, Owed;
    PlanIsGood(p, checked, ops, i, n);
    var plan := PlanRecord(p, checked, ops, i, n);
    PlanBounds(p, checked, ops, i, n, plan);
    OwedStep(p, checked, ops, i, n, plan);
    if plan.last {
      LastOwesNothing(p, checked, ops, i, n, plan);
    }
  }

  /** A cycle being formatted: `partial` holds its records before operation `i`. */
  ghost predicate Packing(p: Port, mtu: nat, checked: bool, ops: seq<Op>, rba: nat, i: nat, n: nat, readback: bool,
                          partial: seq<byte>)
    requires ValidOps(p, ops) && ops != []
  {
    && Pending(p, checked, ops, i, n)
    && partial + TailBytes(p, checked, ops, i, n, rba) == TailBytes(p, checked, ops, 0, 0, rba)
    && (mtu != 0 ==>
          && |partial| <= Room(p, mtu)
          && Misfit(p, checked, ops, 0, 0, rba, Room(p, mtu))
              == Misfit(p, checked, ops, i, n, rba, Room(p, mtu) - |partial|))
    && (readback || Owed(checked, ops, i, n) <==> Owed(checked, ops, 0, 0))
  }

  ghost predicate Packed(p: Port, mtu: nat, checked: bool, ops: seq<Op>, rba: nat, readback: bool, partial: seq<byte>)
    requires ValidOps(p, ops) && ops != []
  {
    && partial == TailBytes(p, checked, ops, 0, 0, rba)
    && (mtu != 0 ==> Misfit(p, checked, ops, 0, 0, rba, Room(p, mtu)) == None)
    && (readback <==> Owed(checked, ops, 0, 0))
  }

  lemma BeginPacking(p: Port, mtu: nat, checked: bool, ops: seq<Op>, rba: nat)
    requires ValidOps(p, ops) && ops != []
    ensures Packing(p, mtu, checked, ops, rba, 0, 0, false, [])
  {
    hide TailBytes, Misfit, Owed;
    assert [] + TailBytes(p, checked, ops, 0, 0, rba) == TailBytes(p, checked, ops, 0, 0, rba);
  }

  lemma PackingIsPending(p: Port, mtu: nat, checked: bool, ops: seq<Op>, rba: nat, i: nat, n: nat, readback: bool,
                         partial: seq<byte>)
    requires ValidOps(p, ops) && ops != [] && Packing(p, mtu, checked, ops, rba, i, n, readback, partial)
    ensures Pending(p, checked, ops, i, n) && i <= |ops|
  {
    hide TailBytes, Misfit, Owed;
  }

  lemma PackedFacts(p: Port, mtu: nat, checked: bool, ops: seq<Op>, rba: nat, readback: bool, partial: seq<byte>)
    requires ValidOps(p, ops) && ops != [] && Packed(p, mtu, checked, ops, rba, readback, partial)
    ensures partial == TailBytes(p, checked, ops, 0, 0, rba)
    ensures mtu != 0 ==> Misfit(p, checked, ops, 0, 0, rba, Room(p, mtu)) == None
    ensures readback <==> Owed(checked, ops, 0, 0)
  {
    hide TailBytes, Misfit, Owed;
  }

  /** Formatting one more record keeps `Packing`, completes the cycle, or finds the misfit. */
  lemma PackingStep(p: Port, mtu: nat, checked: bool, ops: seq<Op>, rba: nat, i: nat, n: nat, readback: bool,
                    partial: seq<byte>)
    requires ValidOps(p, ops) && ops != [] && Packing(p, mtu, checked, ops, rba, i, n, readback, partial)
    ensures var plan := PlanRecord(p, checked, ops, i, n);
            && i + plan.wcount + plan.rcount <= |ops|
            && (!plan.last ==> plan.wcount + plan.rcount > 0 || plan.n < n)
            && var bytes := RecordBytes(p, ops, i, plan, rba);
            && var back := readback || plan.status || plan.rcount > 0;
            && (mtu == 0 || |partial| + |bytes| <= Room(p, mtu) ==>
                  if plan.last then Packed(p, mtu, checked, ops, rba, back, partial + bytes)
                  else Packing(p, mtu, checked, ops, rba, i + plan.wcount + plan.rcount, plan.n, back, partial + bytes))
            && (mtu != 0 && |partial| + |bytes| > Room(p, mtu) ==>
                  Misfit(p, checked, ops, 0, 0, rba, Room(p, mtu)) == Some(i))
  {
    hide PlanRecord, TailBytes, Misfit, Owed, RecordBytes, Room;
    PackStep(p, checked, ops, i, n, rba, partial, Room(p, mtu));
    OwedAfter(p, checked, ops, i, n);
  }

  /** The records so far and the next are part of the cycle. */
  lemma PackingSize(p: Port, mtu: nat, checked: bool, ops: seq<Op>, rba: nat, i: nat, n: nat, readback: bool,
                    partial: seq<byte>)
    requires ValidOps(p, ops) && ops != [] && Packing(p, mtu, checked, ops, rba, i, n, readback, partial)
    ensures var plan := PlanRecord(p, checked, ops, i, n);
            && i + plan.wcount + plan.rcount <= |ops|
            && |partial| + |RecordBytes(p, ops, i, plan, rba)| <= |TailBytes(p, checked, ops, 0, 0, rba)|
  {
    hide PlanRecord, RecordBytes, GoodPlan, Misfit, Owed;
    PlanIsGood(p, checked, ops, i, n);
    PlanBounds(p, checked, ops, i, n, PlanRecord(p, checked, ops, i, n));
  }

  lemma TooLarge(p: Port, mtu: nat, checked: bool, ops: seq<Op>, rba: nat)
    requires ValidOps(p, ops) && ops != [] && ReturnAddress(rba) && mtu >= 8
    requires Misfit(p, checked, ops, 0, 0, rba, Room(p, mtu)).Some?
    ensures Overflows(p, mtu, [], |CycleBytes(p, checked, ops, rba)|)
  {
    TailIsCycleBytes(p, checked, ops, rba);
    MisfitIff(p, checked, ops, 0, 0, rba, Room(p, mtu));
    hide Misfit, TailBytes, CycleBytes;
  }

  lemma TailIsCycleBytes(p: Port, checked: bool, ops: seq<Op>, rba: nat)
    requires ValidOps(p, ops) && ops != [] && ReturnAddress(rba)
    ensures Pending(p, checked, ops, 0, 0)
    ensures TailBytes(p, checked, ops, 0, 0, rba) == CycleBytes(p, checked, ops, rba) != []
  {
    hide PlanRecord, GoodPlan, RecordBytes;
    TailIsCycle(p, checked, ops, 0, 0, rba);
    PlanIsGood(p, checked, ops, 0, 0);
    SizeLimit(p, checked, ops, 0, 0, PlanRecord(p, checked, ops, 0, 0), rba);
  }

  /** Move `buf[from..to]` down to `at`. */
  method MoveUp(buf: array<byte>, at: nat, from: nat, to: nat)
    requires at <= from <= to <= buf.Length
    modifies buf
    ensures buf[..at] == old(buf[..at]) && buf[at..at + (to - from)] == old(buf[from..to])
  {
    forall i | 0 <= i < to - from {
      buf[at + i] := buf[from + i];
    }
  }

  /** The buffer of one flush. `mtu` is 0 on streams. */
  class Output {
    const p: Port
    const mtu: nat
    const buf: array<byte>
    var wptr: nat                              // end of the formatted records
    var cptr: nat                              // end of the last whole cycle
    var hasReads: bool
    var sent: seq<seq<byte>>                   // what the transport was given
    ghost var partial: seq<byte>               // records of the cycle being formatted
    ghost var done: seq<seq<byte>>             // the whole cycles so far
    ghost var group: seq<seq<byte>>            // those still in the buffer
    ghost var packets: seq<seq<seq<byte>>>     // those of each packet sent

    function Head(): nat { if mtu == 0 then 0 else HeadAlign(p) }

    function Limit(): nat { if mtu == 0 then BUFFER_SIZE else mtu }

    ghost predicate Shape()
      reads this
    {
      buf.Length == BUFFER_SIZE && (mtu == 0 || 8 <= mtu <= BUFFER_SIZE) && Head() <= cptr && Head() <= wptr <= Limit()
    }

    ghost predicate StreamState()
      reads this, buf
      requires Shape()
    {
      Concat(sent) + buf[..wptr] == Concat(done) + partial
    }

    ghost predicate PacketState()
      reads this, buf
      requires Shape()
    {
      && cptr <= wptr && IsHeader(p, buf[..Head()])
      && buf[Head()..cptr] == Concat(group) && buf[cptr..wptr] == partial
      && Join(packets) + group == done && ArePackets(p, mtu, sent, packets)
      && (group != [] ==> Head() < cptr)
    }

    ghost predicate Valid()
      reads this, buf
    {
      Shape() && if mtu == 0 then StreamState() else PacketState()
    }

    constructor (p: Port, mtu: nat)
      requires mtu == 0 || 8 <= mtu <= BUFFER_SIZE
      ensures Valid() && fresh(buf) && this.p == p && this.mtu == mtu
      ensures Idle() && sent == [] && done == [] && State() == Filling([], [])
    {
      this.p, this.mtu := p, mtu;
      buf := new byte[BUFFER_SIZE](_ => 0);
      var h := if mtu == 0 then 0 else HeadAlign(p);
      wptr, cptr, hasReads, sent := h, h, false, [];
      partial, done, group, packets := [], [], [], [];
      new;
      if mtu != 0 {
        buf[0], buf[1], buf[2], buf[3] := 0x4E, 0x6F, 0x10, 16 * p.addr + p.data;
      }
    }

    /** Say in the header when a packet has no reads. */
    method MarkHeader()
      requires buf.Length == BUFFER_SIZE && Head() <= buf.Length && IsHeader(p, buf[..Head()])
      modifies buf
      ensures IsHeader(p, buf[..Head()]) && buf[Head()..] == old(buf[Head()..])
    {
      ghost var h, before := Head(), buf[..];
      if !hasReads { buf[2] := 0x14; }
      HeaderMarked(p, before[..h], buf[..h]);
    }

    ghost function State(): Filling
      reads this
    {
      Filling(packets, group)
    }

    /** What the buffer holds, in bytes. */
    lemma Used()
      requires Valid()
      ensures mtu != 0 ==> wptr == HeadAlign(p) + |Concat(group)| + |partial| && (cptr == Head() <==> group == [])
    {
      hide IsHeader, ArePackets, Join, Concat;
      if mtu != 0 {
        assert |buf[Head()..cptr]| == cptr - Head() && |buf[cptr..wptr]| == wptr - cptr;
        NoCycles();
      }
    }

    /** Send the whole cycles in the buffer and move the unfinished one up behind the header. */
    method SendPacket()
      requires Valid() && mtu != 0 && cptr != Head()
      modifies this`cptr, this`wptr, this`sent, this`hasReads, this`group, this`packets, buf
      ensures Valid() && cptr == Head() && State() == Filling(old(packets) + [old(group)], [])
      ensures wptr == Head() + |partial|
    {
      hide Concat, Join, ArePackets, IsPacket, IsHeader;
      var h := Head();
      ghost var before := buf[..];
      MarkHeader();
      hasReads := false;
      SameBehind(before, buf[..], h, cptr, wptr);
      var packet := buf[..cptr];
      PacketSent(p, mtu, packet, group, buf[..h]);
      NextPacket(p, mtu, sent, packets, packet, group);
      sent, packets := sent + [packet], packets + [group];
      MoveUp(buf, h, cptr, wptr);
      wptr, cptr := h + (wptr - cptr), h;
      group := [];
      EmptyGroup(packets);
      assert buf[h..h] == [];
    }

    /** Make room for a record of `length` bytes; fails only if the cycle itself is too long. */
    method Reserve(length: nat) returns (ok: bool)
      requires Valid() && length <= BUFFER_SIZE
      modifies this`cptr, this`wptr, this`sent, this`hasReads, this`group, this`packets, buf
      ensures Valid() && (ok ==> wptr + length <= Limit())
      ensures !ok ==> mtu != 0 && cptr == Head() && group == [] && wptr == Head() + |partial| && wptr + length > mtu
      ensures mtu != 0 ==> Spilled(p, mtu, old(State()), State(), |partial| + length)
    {
      ok := true;
      Used();
      if wptr + length > Limit() {
        if mtu == 0 {
          ConcatSnoc(sent, buf[..wptr]);
          sent := sent + [buf[..wptr]];
          wptr := 0;
          assert buf[..0] == [];
          assert Concat(sent) + [] == Concat(sent);
        } else {
          if cptr != Head() {
            SendPacket();
          } else {
            assert group == [];
            assert |buf[cptr..wptr]| == |partial|;
          }
          if wptr + length > mtu {
            ok := false;
          }
        }
      }
    }

    /** Append one formatted record to the cycle in progress. */
    method Append(checked: bool, ops: seq<Op>, i: nat, n: nat, plan: Plan, rba: nat)
      requires Valid() && ValidOps(p, ops) && i <= |ops| && GoodPlan(p, checked, ops, i, n, plan) && ReturnAddress(rba)
      requires i + plan.wcount + plan.rcount <= |ops| && wptr + |RecordBytes(p, ops, i, plan, rba)| <= Limit()
      modifies this`wptr, this`partial, buf
      ensures Valid() && partial == old(partial) + RecordBytes(p, ops, i, plan, rba)
    {
      hide ValidOps, GoodPlan, ReturnAddress, RecordBytes, Concat, Join, IsHeader, ArePackets;
      ghost var before, w, bytes := buf[..], wptr, RecordBytes(p, ops, i, plan, rba);
      wptr := StoreRecord(p, buf, wptr, checked, ops, i, n, plan, rba);
      AppendKeeps(before, buf[..], w, Head(), cptr, bytes);
      assert before[..w] == old(buf[..wptr]);
      partial := partial + bytes;
      assert (Concat(sent) + before[..w]) + bytes == Concat(sent) + (before[..w] + bytes);
      assert (Concat(done) + old(partial)) + bytes == Concat(done) + partial;
    }

    /** The cycle in progress is complete. */
    method EndCycle()
      requires Valid() && partial != []
      modifies this`cptr, this`partial, this`done, this`group
      ensures Valid() && partial == [] && done == old(done) + [old(partial)] && cptr == wptr
      ensures mtu != 0 ==> State() == old(State()).(group := old(group) + [old(partial)])
    {
      hide IsHeader, ArePackets, Concat, Join;
      ConcatSnoc(done, partial);
      NothingAfter(buf[..], wptr);
      EmptyConcat(done);
      if mtu != 0 {
        ConcatSnoc(group, partial);
        SplitSlice(buf[..], Head(), cptr, wptr);
        group := group + [partial];
        assert Join(packets) + (old(group) + [partial]) == (Join(packets) + old(group)) + [partial];
      }
      done := done + [partial];
      partial := [];
      cptr := wptr;
    }

    /** Drop the unfinished cycle. */
    method DropCycle()
      requires Valid() && mtu != 0 && cptr == Head() && group == []
      modifies this`wptr, this`partial
      ensures Valid() && partial == [] && cptr == wptr
    {
      hide IsHeader, ArePackets;
      wptr := Head();
      partial := [];
      assert buf[cptr..wptr] == [];
    }

    /** Room used by the cycle in progress. */
    lemma RoomLeft()
      requires Valid()
      ensures mtu != 0 ==> Head() + |partial| <= wptr && Room(p, mtu) == mtu - Head() && |partial| <= Room(p, mtu)
    {
      hide IsHeader, ArePackets, Join, Concat;
      if mtu != 0 {
        assert |buf[cptr..wptr]| == |partial|;
      }
    }

    /** At a cycle boundary: nothing unfinished in the buffer. */
    ghost predicate Idle()
      reads this, buf
    {
      Valid() && partial == [] && (mtu != 0 ==> cptr == wptr)
    }

    /** Format the next record, if there is room; on overflow the unfinished cycle is dropped. */
    method PackRecord(checked: bool, ops: seq<Op>, i: nat, n: nat, rba: nat) returns (ok: bool, plan: Plan)
      requires Valid() && ValidOps(p, ops) && Pending(p, checked, ops, i, n) && ReturnAddress(rba)
      modifies this`wptr, this`cptr, this`hasReads, this`sent, this`partial, this`group, this`packets, buf
      ensures Valid() && plan == PlanRecord(p, checked, ops, i, n) && i + plan.wcount + plan.rcount <= |ops|
      ensures ok ==> partial == old(partial) + RecordBytes(p, ops, i, plan, rba)
      ensures ok && mtu != 0 ==> |partial| <= Room(p, mtu)
      ensures !ok ==> mtu != 0 && Idle()
      ensures !ok ==> |old(partial)| <= Room(p, mtu) < |old(partial)| + |RecordBytes(p, ops, i, plan, rba)|
      ensures !ok ==> group == []
      ensures mtu != 0 ==>
                Spilled(p, mtu, old(State()), State(), |old(partial)| + |RecordBytes(p, ops, i, plan, rba)|)
    {
      hide Spilled, Valid, ValidOps, GoodPlan, PlanRecord, ReturnAddress, RecordBytes, MakeRecord, Pending, Room;
      hide RecordSize;
      plan := ScanRecord(p, checked, ops, i, n);
      PlanIsGood(p, checked, ops, i, n);
      PendingRange(p, checked, ops, i, n);
      SizeLimit(p, checked, ops, i, n, plan, rba);
      RecordPieces(p, checked, ops, i, n, plan, rba);
      var rxcount := if plan.status then 1 else plan.rcount;
      var length := RecordSize(p, plan.wcount, rxcount);
      RoomLeft();
      ok := Reserve(length);
      RoomLeft();
      if ok {
        Append(checked, ops, i, n, plan, rba);
        MarkReads(rxcount > 0);
        RoomLeft();
      } else {
        DropCycle();
      }
    }

    lemma PendingRange(p: Port, checked: bool, ops: seq<Op>, i: nat, n: nat)
      requires Pending(p, checked, ops, i, n)
      ensures i <= |ops|
    {
    }

    /** Format a whole cycle; on overflow return the operation at which it happened. */
    method PackCycle(checked: bool, ops: seq<Op>, rba: nat) returns (misfit: Option<nat>, readback: bool)
      requires Idle() && ValidOps(p, ops) && ops != [] && ReturnAddress(rba)
      modifies this, buf
      ensures Idle()
      ensures misfit == if mtu == 0 then None else Misfit(p, checked, ops, 0, 0, rba, Room(p, mtu))
      ensures misfit.None? ==> done == old(done) + [CycleBytes(p, checked, ops, rba)]
      ensures misfit.None? ==> (readback <==> Owed(checked, ops, 0, 0))
      ensures misfit.Some? ==> done == old(done)
      ensures mtu != 0 ==> State() == Fill(p, mtu, old(State()), CycleBytes(p, checked, ops, rba))
    {
      TailIsCycleBytes(p, checked, ops, rba);
      IdleIsValid();
      hide *;
      BeginPacking(p, mtu, checked, ops, rba);
      var i: nat, n: nat, fits, end := 0, 0, true, false;
      readback := false;
      while !end
        invariant Valid() && done == old(done) && fits
        invariant !end ==> Packing(p, mtu, checked, ops, rba, i, n, readback, partial) && i <= |ops|
        invariant end ==> Packed(p, mtu, checked, ops, rba, readback, partial)
        invariant mtu != 0 ==> Spilled(p, mtu, old(State()), State(), |CycleBytes(p, checked, ops, rba)|)
        decreases !end, |ops| - i, n
      {
        var at := i;
        ghost var before, size := State(), 0;
        fits, end, readback, i, n, size := PackNext(checked, ops, i, n, rba, readback);
        if mtu != 0 {
          SpilledMore(p, mtu, old(State()), before, State(), size, |CycleBytes(p, checked, ops, rba)|);
        }
        if !fits {
          TooLarge(p, mtu, checked, ops, rba);
          SpilledMisfits(p, mtu, old(State()), State(), CycleBytes(p, checked, ops, rba));
          return Some(at), readback;
        }
      }
      PackedFacts(p, mtu, checked, ops, rba, readback, partial);
      ghost var f, cycle := State(), partial;
      WithinLimit();
      EndCycle();
      if mtu != 0 {
        SpilledFits(p, mtu, old(State()), f, cycle);
      }
      IdleAfter();
      misfit := None;
    }

    /** One turn of the packing loop. */
    method PackNext(checked: bool, ops: seq<Op>, i0: nat, n0: nat, rba: nat, readback0: bool)
        returns (fits: bool, end: bool, readback: bool, i: nat, n: nat, ghost size: nat)
      requires Valid() && ValidOps(p, ops) && ops != [] && ReturnAddress(rba)
      requires Packing(p, mtu, checked, ops, rba, i0, n0, readback0, partial)
      modifies this`wptr, this`cptr, this`hasReads, this`sent, this`partial, this`group, this`packets, buf
      ensures Valid() && i0 <= |ops|
      ensures !fits ==> Idle() && mtu != 0 && Misfit(p, checked, ops, 0, 0, rba, Room(p, mtu)) == Some(i0)
      ensures fits && end ==> Packed(p, mtu, checked, ops, rba, readback, partial)
      ensures fits && !end ==> Packing(p, mtu, checked, ops, rba, i, n, readback, partial)
      ensures fits && !end ==> i <= |ops| && (i0 < i || (i == i0 && n < n0))
      ensures !fits ==> group == []
      ensures size <= |CycleBytes(p, checked, ops, rba)|
      ensures mtu != 0 ==> Spilled(p, mtu, old(State()), State(), size)
    {
      hide *;
      TailIsCycleBytes(p, checked, ops, rba);
      PackingSize(p, mtu, checked, ops, rba, i0, n0, readback0, partial);
      size := |partial| + |RecordBytes(p, ops, i0, PlanRecord(p, checked, ops, i0, n0), rba)|;
      PackingIsPending(p, mtu, checked, ops, rba, i0, n0, readback0, partial);
      PackingStep(p, mtu, checked, ops, rba, i0, n0, readback0, partial);
      var plan;
      fits, plan := PackRecord(checked, ops, i0, n0, rba);
      readback := readback0 || plan.status || plan.rcount > 0;
      end, i, n := plan.last, i0 + plan.wcount + plan.rcount, plan.n;
    }

    lemma WithinLimit()
      requires Valid()
      ensures mtu != 0 ==> !Overflows(p, mtu, State().group, |partial|)
    {
      Used();
      hide PacketState, StreamState, Concat;
    }

    lemma IdleIsValid()
      requires Idle()
      ensures Valid() && partial == [] && (mtu != 0 ==> Head() <= wptr && |partial| <= Room(p, mtu))
    {
      hide PacketState, StreamState;
    }

    lemma IdleAfter()
      requires Valid() && partial == [] && cptr == wptr
      ensures Idle()
    {
    }

    method MarkReads(some: bool)
      requires Valid()
      modifies this`hasReads
      ensures Valid()
    {
      if some { hasReads := true; }
    }

    /** End of the flush: send what is left. */
    method Finish()
      requires Idle()
      modifies this`sent, this`group, this`packets, buf
      ensures mtu == 0 ==> Concat(sent) == Concat(done)
      ensures mtu != 0 ==> ArePackets(p, mtu, sent, packets) && Join(packets) == done
      ensures mtu != 0 ==> packets == Filled(old(State()))
    {
      hide Concat, Join, ArePackets, IsPacket;
      if mtu == 0 {
        if wptr != 0 {
          ConcatSnoc(sent, buf[..wptr]);
          sent := sent + [buf[..wptr]];
        }
        assert buf[..0] == [];
        assert Concat(done) + [] == Concat(done);
        assert wptr == 0 ==> Concat(sent) + buf[..wptr] == Concat(sent);
      } else {
        var h := Head();
        assert Join(packets) + [] == Join(packets);
        Used();
        if wptr != h {
          ghost var before := buf[..];
          MarkHeader();
          SameBehind(before, buf[..], h, wptr, wptr);
          PacketSent(p, mtu, buf[..wptr], group, buf[..h]);
          NextPacket(p, mtu, sent, packets, buf[..wptr], group);
          sent, packets := sent + [buf[..wptr]], packets + [group];
          group := [];
        }
      }
    }
  }

  /* ---------- the device ---------- */

  /** Validate operations in order; stop at the first bad one. */
  method FindBad(p: Port, requests: seq<Request>) returns (bad: Option<(nat, Status)>)
    ensures bad == FirstBad(p, requests, 0)
  {
    hide Validate;
    var i := 0;
    while i < |requests|
      invariant 0 <= i <= |requests| && FirstBad(p, requests, 0) == FirstBad(p, requests, i)
    {
      var v := Validate(p, requests[i]);
      if v.Rejected? {
        return Some((i, v.status));
      }
      i := i + 1;
    }
    bad := None;
  }

  /** A cycle gets as far as being formatted. */
  predicate Tried(p: Port, alloc: bool, c: Queued) {
    !c.dead && c.requests != [] && FirstBad(p, c.requests, 0) == None && alloc
  }

  /** What a cycle does to the packets. */
  function FillCycle(p: Port, mtu: nat, alloc: bool, c: Queued, rba: nat, f: Filling): Filling
    requires ReturnAddress(rba)
  {
    if Tried(p, alloc, c) then
      AcceptedOpsValid(p, c.requests);
      Fill(p, mtu, f, CycleBytes(p, c.checked, Ops(p, c.requests), rba))
    else f
  }

  lemma CycleTried(p: Port, mtu: nat, c: Queued, rba: nat, f: Filling)
    requires Tried(p, true, c) && ReturnAddress(rba)
    ensures ValidOps(p, Ops(p, c.requests))
    ensures FillCycle(p, mtu, true, c, rba, f) == Fill(p, mtu, f, CycleBytes(p, c.checked, Ops(p, c.requests), rba))
  {
    AcceptedOpsValid(p, c.requests);
  }

  /** The return address on offer after a cycle. */
  function AddressAfter(p: Port, mtu: nat, alloc: bool, c: Queued, rba: nat): (r: nat)
    requires ReturnAddress(rba)
    ensures ReturnAddress(r)
  {
    NextAddressReturns(rba);
    if FateOf(p, mtu, rba, alloc, c).Awaiting? then NextAddress(rba) else rba
  }

  lemma AddressIsAfter(p: Port, mtu: nat, time: nat, alloc: bool, c: Queued, t: Tally)
    requires ReturnAddress(t.rba)
    ensures Settle(p, mtu, time, alloc, c, t).rba == AddressAfter(p, mtu, alloc, c, t.rba)
  {
    hide FateOf, NextAddress;
  }

  /** What a queue does to the packets. */
  function FillAll(p: Port, mtu: nat, alloc: nat -> bool, queue: seq<Queued>, rba: nat, f: Filling): Filling
    requires ReturnAddress(rba)
    decreases |queue|
  {
    if queue == [] then f
    else
      FillAll(p, mtu, alloc, queue[1..], AddressAfter(p, mtu, alloc(queue[0].id), queue[0], rba),
          FillCycle(p, mtu, alloc(queue[0].id), queue[0], rba, f))
  }

  /** Send a valid cycle for which a response has been allocated. */
  method SendCycle(p: Port, mtu: nat, time: nat, rba0: nat, callbacks0: seq<Callback>, c: Queued, out: Output)
      returns (rba: nat, callbacks: seq<Callback>, issued: seq<InFlight>)
    requires out.Idle() && out.p == p && out.mtu == mtu && ReturnAddress(rba0)
    requires !c.dead && c.requests != [] && FirstBad(p, c.requests, 0) == None
    modifies out, out.buf
    ensures out.Idle() && ReturnAddress(rba)
    ensures Tally(rba, callbacks, issued, out.done)
            == Settle(p, mtu, time, true, c, Tally(rba0, callbacks0, [], old(out.done)))
    ensures mtu != 0 ==> out.State() == FillCycle(p, mtu, true, c, rba0, old(out.State()))
  {
    AcceptedOpsValid(p, c.requests);
    var ops := Ops(p, c.requests);
    StartArrived(c.checked, ops);
    NextAddressReturns(rba0);
    SettleSent(p, mtu, time, c, Tally(rba0, callbacks0, [], out.done));
    CycleTried(p, mtu, c, rba0, out.State());
    hide *;
    rba, callbacks, issued := rba0, callbacks0, [];
    var misfit, readback := out.PackCycle(c.checked, ops, rba);
    if misfit.Some? {
      callbacks := callbacks + [Callback(c.id, misfit, Overflow)];
    } else if !readback {
      callbacks := callbacks + [Callback(c.id, Some(0), Ok)];
    } else {
      issued := [] + [InFlight(c.id, rba, Deadline(time), Start(c.checked, ops))];
      rba := NextAddress(rba);
    }
  }

  /** An active device together with the parts of its socket a flush touches. Queues that the
      source links newest first are kept newest first. */
  class Device {
    const p: Port
    const mtu: nat
    var linked: bool                  // the connection is up
    var ready: seq<Queued>            // closed cycles, newest first
    var time: nat                     // the socket's idea of the time, in seconds
    var rba: nat                      // next return address
    var last: seq<InFlight>           // responses issued, newest first
    var callbacks: seq<Callback>      // user callbacks made, in order
    var wire: seq<seq<byte>>          // everything given to the transport

    ghost predicate Valid()
      reads this
    {
      (mtu == 0 || 8 <= mtu <= BUFFER_SIZE) && ReturnAddress(rba)
    }

    constructor (p: Port, mtu: nat)
      requires mtu == 0 || 8 <= mtu <= BUFFER_SIZE
      ensures Valid() && this.p == p && this.mtu == mtu
      ensures linked && ready == [] && last == [] && callbacks == [] && wire == [] && rba == 0x8000 && time == 0
    {
      this.p, this.mtu := p, mtu;
      linked, ready, time, rba, last, callbacks, wire := true, [], 0, 0x8000, [], [], [];
    }

    /** Send one cycle, or report why it cannot be sent. */
    method FlushCycle(c: Queued, alloc: bool, out: Output)
      requires Valid() && out.Idle() && out.p == p && out.mtu == mtu
      modifies this`rba, this`last, this`callbacks, out, out.buf
      ensures Valid() && out.Idle()
      ensures var t := Settle(p, mtu, time, alloc, c, Tally(old(rba), old(callbacks), [], old(out.done)));
              rba == t.rba && callbacks == t.callbacks && out.done == t.wire && last == t.issued + old(last)
      ensures mtu != 0 ==> out.State() == FillCycle(p, mtu, alloc, c, old(rba), old(out.State()))
    {
      hide ValidOps, Misfit, CycleBytes, Start, Owed, Ops, FirstBad, Output.Idle;
      assert [] + last == last;
      if c.dead {
        callbacks := callbacks + [Callback(c.id, None, OutOfMemory)];
        return;
      }
      if c.requests == [] {
        callbacks := callbacks + [Callback(c.id, None, Ok)];
        return;
      }
      var bad := FindBad(p, c.requests);
      if bad.Some? {
        callbacks := callbacks + [Callback(c.id, Some(bad.value.0), bad.value.1)];
        return;
      }
      if !alloc {
        callbacks := callbacks + [Callback(c.id, None, OutOfMemory)];
        return;
      }
      var issued;
      rba, callbacks, issued := SendCycle(p, mtu, time, rba, callbacks, c, out);
      last := issued + last;
    }

    /** Send every ready cycle, oldest first. `alloc` says for which cycles memory for a response
        can be had. Cycles go out whole, in order, and each one's fate is its own. */
    method Flush(alloc: nat -> bool)
        returns (status: Status, ghost sends: seq<seq<byte>>, ghost packets: seq<seq<seq<byte>>>)
      requires Valid()
      modifies this`ready, this`rba, this`last, this`callbacks, this`wire
      ensures Valid() && wire == old(wire) + sends
      ensures !linked ==> status == Fail && sends == []
      ensures !linked ==> ready == old(ready) && rba == old(rba) && last == old(last) && callbacks == old(callbacks)
      ensures linked ==> status == Ok && ready == []
      ensures var t := Account(p, mtu, time, alloc, Reverse(old(ready)), Tally(old(rba), old(callbacks), [], []));
              linked ==>
                && rba == t.rba && callbacks == t.callbacks && last == Reverse(t.issued) + old(last)
                && (mtu == 0 ==> Concat(sends) == Concat(t.wire))
                && (mtu != 0 ==> ArePackets(p, mtu, sends, packets) && Join(packets) == t.wire)
      ensures linked && mtu != 0 ==>
                packets == Filled(FillAll(p, mtu, alloc, Reverse(old(ready)), old(rba), Filling([], [])))
    {
      sends, packets := [], [];
      assert wire + [] == wire;
      if !linked {
        return Fail, sends, packets;
      }
      var out := new Output(p, mtu);
      var queue := Turned(ready);
      FlushQueue(queue, alloc, out);
      out.Finish();
      sends, packets := out.sent, out.packets;
      wire := wire + out.sent;
      ready := [];
      status := Ok;
    }

    /** Send the cycles of `queue` in order. */
    method FlushQueue(queue: seq<Queued>, alloc: nat -> bool, out: Output)
      requires Valid() && out.Idle() && out.p == p && out.mtu == mtu
      modifies this`rba, this`last, this`callbacks, out, out.buf
      ensures Valid() && out.Idle()
      ensures var t := Account(p, mtu, time, alloc, queue, Tally(old(rba), old(callbacks), [], old(out.done)));
              rba == t.rba && callbacks == t.callbacks && last == Reverse(t.issued) + old(last) && out.done == t.wire
      ensures mtu != 0 ==> out.State() == FillAll(p, mtu, alloc, queue, old(rba), old(out.State()))
    {
      hide Settle, Reverse, ReturnAddress, Output.Idle, Output.Valid, Account, FillAll, FillCycle, AddressAfter;
      ghost var issued: seq<InFlight>, t0 := [], Tally(rba, callbacks, [], out.done);
      NothingReversed(last);
      assert queue[0..] == queue;
      var i := 0;
      while i < |queue|
        invariant 0 <= i <= |queue| && Valid() && out.Idle()
        invariant last == Reverse(issued) + old(last)
        invariant Account(p, mtu, time, alloc, queue[i..], Tally(rba, callbacks, issued, out.done))
               == Account(p, mtu, time, alloc, queue, t0)
        invariant mtu != 0 ==>
            FillAll(p, mtu, alloc, queue[i..], rba, out.State())
              == FillAll(p, mtu, alloc, queue, old(rba), old(out.State()))
      {
        ghost var before := Tally(rba, callbacks, issued, out.done);
        FillStep(p, mtu, alloc, queue[i..], rba, out.State());
        AddressIsAfter(p, mtu, time, alloc(queue[i].id), queue[i], before);
        AddressIsAfter(p, mtu, time, alloc(queue[i].id), queue[i], before.(issued := []));
        AccountStep(p, mtu, time, alloc, queue[i..], before);
        assert queue[i..][0] == queue[i] && queue[i..][1..] == queue[i + 1..];
        FlushCycle(queue[i], alloc(queue[i].id), out);
        issued := IssuedNext(p, mtu, time, alloc(queue[i].id), queue[i], before, old(last));
        i := i + 1;
      }
      AccountStep(p, mtu, time, alloc, queue[i..], Tally(rba, callbacks, issued, out.done));
      FillStep(p, mtu, alloc, queue[i..], rba, out.State());
    }
  }

  lemma FillStep(p: Port, mtu: nat, alloc: nat -> bool, queue: seq<Queued>, rba: nat, f: Filling)
    requires ReturnAddress(rba)
    ensures FillAll(p, mtu, alloc, queue, rba, f) ==
              if queue == [] then f
              else FillAll(p, mtu, alloc, queue[1..], AddressAfter(p, mtu, alloc(queue[0].id), queue[0], rba),
                  FillCycle(p, mtu, alloc(queue[0].id), queue[0], rba, f))
  {
  }

  /** The fate of a cycle that gets as far as being formatted. */
  lemma SettleSent(p: Port, mtu: nat, time: nat, c: Queued, t: Tally)
    requires !c.dead && c.requests != [] && FirstBad(p, c.requests, 0) == None && ReturnAddress(t.rba)
    ensures ValidOps(p, Ops(p, c.requests))
    ensures var ops := Ops(p, c.requests);
            var misfit := if mtu == 0 then None else Misfit(p, c.checked, ops, 0, 0, t.rba, Room(p, mtu));
            var u := Settle(p, mtu, time, true, c, t);
            && (misfit.Some? ==> u == t.(callbacks := t.callbacks + [Callback(c.id, misfit, Overflow)]))
            && (misfit.None? && AllArrived(Start(c.checked, ops)) ==>
                  u == t.(callbacks := t.callbacks + [Callback(c.id, Some(0), Ok)],
                          wire := t.wire + [CycleBytes(p, c.checked, ops, t.rba)]))
            && (misfit.None? && !AllArrived(Start(c.checked, ops)) ==>
                  u == Tally(NextAddress(t.rba), t.callbacks,
                             t.issued + [InFlight(c.id, t.rba, Deadline(time), Start(c.checked, ops))],
                             t.wire + [CycleBytes(p, c.checked, ops, t.rba)]))
  {
    AcceptedOpsValid(p, c.requests);
    hide ValidOps, Misfit, CycleBytes, Start, Ops, FirstBad, AllArrived, NextAddress;
  }

  /** Responses issued for earlier cycles do not influence a cycle's fate; new ones go in front. */
  lemma IssuedNext(p: Port, mtu: nat, time: nat, alloc: bool, c: Queued, t: Tally, last0: seq<InFlight>)
      returns (issued: seq<InFlight>)
    requires ReturnAddress(t.rba)
    ensures var alone := Settle(p, mtu, time, alloc, c, t.(issued := []));
            && Settle(p, mtu, time, alloc, c, t) == alone.(issued := issued)
            && Reverse(issued) + last0 == alone.issued + (Reverse(t.issued) + last0)
  {
    hide FateOf;
    var more := Settle(p, mtu, time, alloc, c, t.(issued := [])).issued;
    issued := t.issued + more;
    assert t.issued + [] == t.issued;
    ReverseConcat(t.issued, more);
    if more != [] {
      ReverseOne(more[0]);
    }
    assert (Reverse(more) + Reverse(t.issued)) + last0 == Reverse(more) + (Reverse(t.issued) + last0);
  }
}
