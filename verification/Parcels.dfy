/** Packets are filled as far as they go: each is sent only because the next cycle tried did not fit. */
module Parcels {
  import opened Bytes
  import opened Format
  import opened Master
  import opened EndToEnd
  import opened Flush
  import opened Device

  /** The bytes of the cycles of a queue that get as far as being formatted, in order. */
  function TriedBytes(p: Port, mtu: nat, alloc: nat -> bool, queue: seq<Queued>, rba: nat): seq<seq<byte>>
    requires ReturnAddress(rba)
    decreases |queue|
  {
    if queue == [] then []
    else
      var c := queue[0];
      (if Tried(p, alloc(c.id), c) then
         AcceptedOpsValid(p, c.requests);
         [CycleBytes(p, c.checked, Ops(p, c.requests), rba)]
       else [])
      + TriedBytes(p, mtu, alloc, queue[1..], AddressAfter(p, mtu, alloc(c.id), c, rba))
  }

  function FillSeq(p: Port, mtu: nat, f: Filling, cycles: seq<seq<byte>>): Filling
    decreases |cycles|
  {
    if cycles == [] then f else FillSeq(p, mtu, Fill(p, mtu, f, cycles[0]), cycles[1..])
  }

  lemma {:induction false} FillAllIs(p: Port, mtu: nat, alloc: nat -> bool, queue: seq<Queued>, rba: nat, f: Filling)
    requires ReturnAddress(rba)
    ensures FillAll(p, mtu, alloc, queue, rba, f) == FillSeq(p, mtu, f, TriedBytes(p, mtu, alloc, queue, rba))
    decreases |queue|
  {
    hide AddressAfter, Fill, Tried, CycleBytes, Ops;
    if queue != [] {
      var c := queue[0];
      var next, rest := AddressAfter(p, mtu, alloc(c.id), c, rba), queue[1..];
      FillAllIs(p, mtu, alloc, rest, next, FillCycle(p, mtu, alloc(c.id), c, rba, f));
      var tried := TriedBytes(p, mtu, alloc, rest, next);
      if Tried(p, alloc(c.id), c) {
        CycleWasTried(p, mtu, alloc(c.id), c, rba, f);
        var b := CycleBytes(p, c.checked, Ops(p, c.requests), rba);
        assert ([b] + tried)[1..] == tried;
      } else {
        assert [] + tried == tried;
      }
    }
  }

  lemma CycleWasTried(p: Port, mtu: nat, alloc: bool, c: Queued, rba: nat, f: Filling)
    requires Tried(p, alloc, c) && ReturnAddress(rba)
    ensures ValidOps(p, Ops(p, c.requests)) && c.requests != []
    ensures FillCycle(p, mtu, alloc, c, rba, f) == Fill(p, mtu, f, CycleBytes(p, c.checked, Ops(p, c.requests), rba))
  {
    AcceptedOpsValid(p, c.requests);
    hide FirstBad, Ops, CycleBytes, Fill;
  }

  /** Those that fit a packet of their own. */
  function Fitting(p: Port, mtu: nat, cycles: seq<seq<byte>>): seq<seq<byte>> {
    if cycles == [] then []
    else
      var n := |cycles| - 1;
      Fitting(p, mtu, cycles[..n]) + if HeadAlign(p) + |cycles[n]| > mtu then [] else [cycles[n]]
  }

  /** Together with the packets up to it, this one holds the cycles before the `m`-th tried, and that one did
      not fit behind them. */
  predicate FullAt(p: Port, mtu: nat, cycles: seq<seq<byte>>, packets: seq<seq<seq<byte>>>, k: nat, m: nat) {
    && k < |packets| && m < |cycles|
    && Join(packets[..k + 1]) == Fitting(p, mtu, cycles[..m])
    && HeadAlign(p) + |Concat(packets[k])| + |cycles[m]| > mtu
  }

  ghost predicate Full(p: Port, mtu: nat, cycles: seq<seq<byte>>, packets: seq<seq<seq<byte>>>, k: nat) {
    exists m: nat :: FullAt(p, mtu, cycles, packets, k, m)
  }

  /** What holds after some cycles have been tried. */
  ghost predicate WellFilled(p: Port, mtu: nat, cycles: seq<seq<byte>>, f: Filling) {
    && Join(f.packets) + f.group == Fitting(p, mtu, cycles)
    && (forall k :: 0 <= k < |f.packets| ==> f.packets[k] != [] && HeadAlign(p) + |Concat(f.packets[k])| <= mtu)
    && (f.group != [] ==> HeadAlign(p) + |Concat(f.group)| <= mtu)
    && (forall k :: 0 <= k < |f.packets| ==> Full(p, mtu, cycles, f.packets, k))
  }

  lemma FittingSnoc(p: Port, mtu: nat, cycles: seq<seq<byte>>, b: seq<byte>)
    ensures Fitting(p, mtu, cycles + [b]) == Fitting(p, mtu, cycles) + if HeadAlign(p) + |b| > mtu then [] else [b]
  {
    assert (cycles + [b])[..|cycles|] == cycles;
  }

  lemma FullMore(p: Port, mtu: nat, cycles: seq<seq<byte>>, b: seq<byte>, a: seq<seq<seq<byte>>>,
                 c: seq<seq<seq<byte>>>, k: nat)
    requires Full(p, mtu, cycles, a, k) && a <= c && k < |a|
    ensures Full(p, mtu, cycles + [b], c, k)
  {
    hide Concat, Join, Fitting;
    var m: nat :| FullAt(p, mtu, cycles, a, k, m);
    assert (cycles + [b])[..m] == cycles[..m] && (cycles + [b])[m] == cycles[m] && c[..k + 1] == a[..k + 1];
    assert FullAt(p, mtu, cycles + [b], c, k, m);
  }

  /** Sending the group because `b` does not fit behind it. */
  lemma SentFull(p: Port, mtu: nat, cycles: seq<seq<byte>>, b: seq<byte>, f: Filling)
    requires WellFilled(p, mtu, cycles, f) && HeadAlign(p) + |Concat(f.group)| + |b| > mtu
    ensures Full(p, mtu, cycles + [b], f.packets + [f.group], |f.packets|)
  {
    var packets := f.packets + [f.group];
    JoinSnoc(f.packets, f.group);
    hide Concat, Join, Fitting;
    assert packets[..|f.packets| + 1] == packets;
    assert (cycles + [b])[..|cycles|] == cycles && (cycles + [b])[|cycles|] == b;
    assert FullAt(p, mtu, cycles + [b], packets, |f.packets|, |cycles|);
  }

  /** The group has been sent or stays; `b` has been tried but not yet put anywhere. */
  ghost predicate Between(p: Port, mtu: nat, cycles: seq<seq<byte>>, b: seq<byte>, g: Filling) {
    && Join(g.packets) + g.group == Fitting(p, mtu, cycles)
    && (forall k :: 0 <= k < |g.packets| ==> g.packets[k] != [] && HeadAlign(p) + |Concat(g.packets[k])| <= mtu)
    && (g.group != [] ==> HeadAlign(p) + |Concat(g.group)| <= mtu)
    && (forall k :: 0 <= k < |g.packets| ==> Full(p, mtu, cycles + [b], g.packets, k))
  }

  lemma StaysBetween(p: Port, mtu: nat, cycles: seq<seq<byte>>, b: seq<byte>, f: Filling)
    requires WellFilled(p, mtu, cycles, f)
    ensures Between(p, mtu, cycles, b, f)
  {
    hide Concat, Join, Fitting, Full;
    forall k | 0 <= k < |f.packets| ensures Full(p, mtu, cycles + [b], f.packets, k) {
      FullMore(p, mtu, cycles, b, f.packets, f.packets, k);
    }
  }

  lemma SentBetween(p: Port, mtu: nat, cycles: seq<seq<byte>>, b: seq<byte>, f: Filling)
    requires WellFilled(p, mtu, cycles, f) && f.group != [] && Overflows(p, mtu, f.group, |b|)
    ensures Between(p, mtu, cycles, b, Filling(f.packets + [f.group], []))
  {
    var packets := f.packets + [f.group];
    SentFull(p, mtu, cycles, b, f);
    JoinSnoc(f.packets, f.group);
    hide Concat, Join, Fitting, Full;
    assert Join(packets) + [] == Join(packets);
    forall k | 0 <= k < |packets| ensures Full(p, mtu, cycles + [b], packets, k) {
      if k < |f.packets| {
        FullMore(p, mtu, cycles, b, f.packets, packets, k);
      }
    }
  }

  lemma PutIn(p: Port, mtu: nat, cycles: seq<seq<byte>>, b: seq<byte>, g: Filling)
    requires Between(p, mtu, cycles, b, g) && (g.group != [] ==> !Overflows(p, mtu, g.group, |b|))
    ensures WellFilled(p, mtu, cycles + [b],
                       if Overflows(p, mtu, g.group, |b|) then g else g.(group := g.group + [b]))
  {
    FittingSnoc(p, mtu, cycles, b);
    ConcatSnoc(g.group, b);
    NoCycles();
    hide Concat, Join, Fitting, Full;
    assert (Join(g.packets) + g.group) + [b] == Join(g.packets) + (g.group + [b]);
    assert Fitting(p, mtu, cycles) + [] == Fitting(p, mtu, cycles);
  }

  lemma FillWell(p: Port, mtu: nat, cycles: seq<seq<byte>>, b: seq<byte>, f: Filling)
    requires WellFilled(p, mtu, cycles, f)
    ensures WellFilled(p, mtu, cycles + [b], Fill(p, mtu, f, b))
  {
    hide WellFilled, Between, Overflows;
    if f.group != [] && Overflows(p, mtu, f.group, |b|) {
      SentBetween(p, mtu, cycles, b, f);
      PutIn(p, mtu, cycles, b, Filling(f.packets + [f.group], []));
    } else {
      StaysBetween(p, mtu, cycles, b, f);
      PutIn(p, mtu, cycles, b, f);
    }
  }

  lemma {:induction false} FillSeqWell(p: Port, mtu: nat, before: seq<seq<byte>>, f: Filling, cycles: seq<seq<byte>>)
    requires WellFilled(p, mtu, before, f)
    ensures WellFilled(p, mtu, before + cycles, FillSeq(p, mtu, f, cycles))
    decreases |cycles|
  {
    hide Fill, WellFilled;
    if cycles == [] {
      assert before + [] == before;
    } else {
      FillWell(p, mtu, before, cycles[0], f);
      FillSeqWell(p, mtu, before + [cycles[0]], Fill(p, mtu, f, cycles[0]), cycles[1..]);
      assert before + cycles == (before + [cycles[0]]) + cycles[1..];
    }
  }

  /** PACKETS ARE FULL. The packets of a flush hold, in order, the cycles tried that fit one at all; none is
      empty or too large; and each but the last was sent because the next cycle tried did not fit. */
  lemma PacketsAreFull(p: Port, mtu: nat, alloc: nat -> bool, queue: seq<Queued>, rba: nat)
    requires ReturnAddress(rba)
    ensures var packets := Filled(FillAll(p, mtu, alloc, queue, rba, Filling([], [])));
            var tried := TriedBytes(p, mtu, alloc, queue, rba);
            && Join(packets) == Fitting(p, mtu, tried)
            && (forall k :: 0 <= k < |packets| ==> packets[k] != [] && HeadAlign(p) + |Concat(packets[k])| <= mtu)
            && (forall k :: 0 <= k < |packets| - 1 ==> Full(p, mtu, tried, packets, k))
  {
    var tried, f := TriedBytes(p, mtu, alloc, queue, rba), FillAll(p, mtu, alloc, queue, rba, Filling([], []));
    FillAllIs(p, mtu, alloc, queue, rba, Filling([], []));
    FillSeqWell(p, mtu, [], Filling([], []), tried);
    assert [] + tried == tried;
    LastSent(p, mtu, tried, f);
  }

  lemma LastSent(p: Port, mtu: nat, tried: seq<seq<byte>>, f: Filling)
    requires WellFilled(p, mtu, tried, f)
    ensures var packets := Filled(f);
            && Join(packets) == Fitting(p, mtu, tried)
            && (forall k :: 0 <= k < |packets| ==> packets[k] != [] && HeadAlign(p) + |Concat(packets[k])| <= mtu)
            && (forall k :: 0 <= k < |packets| - 1 ==> Full(p, mtu, tried, packets, k))
  {
    var packets := Filled(f);
    JoinSnoc(f.packets, f.group);
    assert Join(f.packets) + [] == Join(f.packets);
    hide Concat, Join, Fitting;
    forall k | 0 <= k < |packets| - 1 ensures Full(p, mtu, tried, packets, k) {
      assert Full(p, mtu, tried, f.packets, k);
      var m: nat :| FullAt(p, mtu, tried, f.packets, k, m);
      assert packets[..k + 1] == f.packets[..k + 1];
      assert FullAt(p, mtu, tried, packets, k, m);
    }
  }
}
