/** What a write-back does to the responses in flight, and the loops that do it. */
module Replies {
  import opened Bytes
  import opened Format
  import opened Widths
  import opened Slave
  import opened Master
  import opened ReadWrite
  import opened EndToEnd
  import opened Flush

  /** A cycle handed back to the user with its operations. */
  datatype Finished = Finished(id: nat, cells: seq<Cell>, status: Status)

  predicate AllCursors(q: seq<InFlight>) {
    forall e :: e in q ==> Cursors(e.response)
  }

  /** The oldest response at `target`, or the end of the queue. */
  function Find(q: seq<InFlight>, target: nat): (k: nat)
    ensures k <= |q|
    ensures k < |q| ==> q[k].rba == target
    ensures forall j :: 0 <= j < k ==> q[j].rba != target
  {
    if q == [] then 0 else if q[0].rba == target then 0 else 1 + Find(q[1..], target)
  }

  lemma {:induction false} FindIs(q: seq<InFlight>, target: nat, k: nat)
    requires k <= |q| && (forall j :: 0 <= j < k ==> q[j].rba != target)
    requires k < |q| ==> q[k].rba == target
    ensures Find(q, target) == k
  {
    var f := Find(q, target);
    assert f < |q| ==> q[f].rba == target;
  }

  /** A write-back reaches the oldest response at its address, which keeps its place or, when
      done, leaves the queue and is called back; without such a response it is ignored. */
  function Deliver(q: seq<InFlight>, size: nat, addr: nat, value: nat): (seq<InFlight>, Option<Finished>)
    requires AllCursors(q)
  {
    var k := Find(q, TargetOf(addr));
    if k == |q| then (q, None)
    else
      assert q[k] in q;
      var s := Apply(q[k].response, size, addr, value);
      if s.done.None? then (q[k := q[k].(response := s.r)], None)
      else (q[..k] + q[k + 1..], Some(Finished(q[k].id, s.r.cells, s.done.value)))
  }

  /** The 32-bit time meant by a 16-bit deadline: the nearest one around the current `time`. */
  function Due(deadline: nat, time: nat): (t: nat)
    ensures t < 0x1_0000_0000
  {
    var delta := (deadline - time) % 0x1_0000;
    (time + if delta < 0x8000 then delta else delta - 0x1_0000) % 0x1_0000_0000
  }

  /** How many responses at the front of a list are due by `now`. */
  function Stale(q: seq<InFlight>, time: nat, now: nat): (n: nat)
    ensures n <= |q|
    ensures forall j :: 0 <= j < n ==> Due(q[j].deadline, time) <= now
    ensures n < |q| ==> Due(q[n].deadline, time) > now
  {
    if q == [] || Due(q[0].deadline, time) > now then 0 else 1 + Stale(q[1..], time, now)
  }

  lemma HeldCursor(q: seq<InFlight>, k: nat)
    requires AllCursors(q) && k < |q|
    ensures Cursors(q[k].response)
  {
    assert q[k] in q;
  }

  lemma DeliverCases(q: seq<InFlight>, size: nat, addr: nat, value: nat)
    requires AllCursors(q)
    ensures var k := Find(q, TargetOf(addr));
            if k == |q| then Deliver(q, size, addr, value) == (q, None)
            else
              && Cursors(q[k].response)
              && var s := Apply(q[k].response, size, addr, value);
              var p := q[k := q[k].(response := s.r)];
              Deliver(q, size, addr, value) ==
                if s.done.None? then (p, None)
                else (p[..k] + p[k + 1..], Some(Finished(q[k].id, s.r.cells, s.done.value)))
  {
    var k := Find(q, TargetOf(addr));
    if k < |q| {
      HeldCursor(q, k);
      hide Apply;
      var s := Apply(q[k].response, size, addr, value);
      var p := q[k := q[k].(response := s.r)];
      assert p[..k] == q[..k] && p[k + 1..] == q[k + 1..];
    }
  }

  /* ---------- the cursor loops ---------- */

  method NextBus(cells: seq<Cell>, from: nat) returns (i: nat)
    requires from <= |cells|
    ensures i == FindBus(cells, from)
  {
    i := from;
    while i < |cells|
      invariant from <= i <= |cells| && FindBus(cells, i) == FindBus(cells, from)
    {
      if !cells[i].cfg {
        return;
      }
      i := i + 1;
    }
  }

  method NextRead(cells: seq<Cell>, from: nat) returns (i: nat)
    requires from <= |cells|
    ensures i == FindRead(cells, from)
  {
    i := from;
    while i < |cells|
      invariant from <= i <= |cells| && FindRead(cells, i) == FindRead(cells, from)
    {
      if !cells[i].write {
        return;
      }
      i := i + 1;
    }
  }

  /** How many operations a status word will report. */
  method CountGroup(cells: seq<Cell>, from: nat, most: nat) returns (n: nat)
    requires from <= |cells| && most > 0
    ensures n == Group(cells, from, most)
  {
    var i := from;
    n := 0;
    while i < |cells|
      invariant from <= i <= |cells| && n < most
      invariant n + Group(cells, i, most - n) == Group(cells, from, most)
    {
      if !cells[i].cfg {
        n := n + 1;
        if n == most {
          return;
        }
      }
      i := i + 1;
    }
  }

  /** Give the next `n` bus operations their error bits. */
  method MarkGroup(before: seq<Cell>, from: nat, n: nat, value: nat) returns (cells: seq<Cell>, i: nat)
    requires from <= |before| && Group(before, from, n) == n
    ensures (cells, i) == Mark(before, from, n, value)
  {
    cells, i := before, from;
    var left := n;
    while left > 0
      invariant i <= |cells| && Group(cells, i, left) == left
      invariant Mark(cells, i, left, value) == Mark(before, from, n, value)
      decreases |cells| - i
    {
      if !cells[i].cfg {
        ghost var was := cells;
        cells := cells[i := cells[i].(error := cells[i].error || TestBit(value, left - 1))];
        GroupOfSame(was, cells, i + 1, left - 1);
        left := left - 1;
      }
      i := i + 1;
    }
  }

  /** The status the user will see: whether any operation carries the error flag. */
  method Outcome(r: Response, fail: bool) returns (s: Step)
    ensures s == Complete(r, fail)
  {
    if !fail && !(r.wcur == |r.cells| && r.scur == |r.cells|) {
      return Step(r, None);
    }
    var status := Ok;
    var i := 0;
    while i < |r.cells|
      invariant 0 <= i <= |r.cells|
      invariant status == if exists m :: 0 <= m < i && r.cells[m].error then Segfault else Ok
    {
      if r.cells[i].error {
        status := Segfault;
      }
      i := i + 1;
    }
    s := Step(r, Some(if fail then Fail else status));
  }

  /** Process one write-back to a response. */
  method Receive(r: Response, size: nat, addr: nat, value: nat) returns (s: Step)
    requires Cursors(r) && size > 0
    ensures s == Apply(r, size, addr, value)
  {
    if addr % 2 == 0 {
      if r.wcur == |r.cells| {
        s := Outcome(r, true);
      } else {
        var cells := r.cells[r.wcur := r.cells[r.wcur].(value := value)];
        var next := NextRead(cells, r.wcur + 1);
        s := Outcome(Response(cells, next, r.scur), false);
      }
    } else {
      var n := CountGroup(r.cells, r.scur, 8 * size);
      GroupSaturates(r.cells, r.scur, 8 * size);
      var cells, stop := MarkGroup(r.cells, r.scur, n, value);
      var next := NextBus(cells, stop);
      s := Outcome(Response(cells, r.wcur, next), n == 0);
    }
  }

  /** Read configuration space: gather the bytes asked for from the error register, most significant
      first, followed by zeros. The 64-bit accumulator never overflows. */
  method ReadConfigWord(size: nat, addr: nat, error: nat) returns (out: nat)
    requires size <= 8
    ensures out == ReadConfig(size, addr, error) && out < Pow256(size)
  {
    hide Encode, Pow256;
    var buf := Encode(error, 8) + Zeros(8);
    out := 0;
    if addr >= 8 {
      return;
    }
    var len: nat, at: nat := size, addr;
    assert buf[addr..addr] == [];
    while len > 0
      invariant addr <= at && at + len == addr + size && out == Decode(buf[addr..at])
    {
      NextByte(buf, addr, at);
      out := Wrap64(out * 256 + buf[at]);
      at, len := at + 1, len - 1;
    }
    DecodeBound(buf[addr..at]);
  }
}
