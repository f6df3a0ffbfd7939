/** What a slave answers, told without its own definitions: which bytes a configuration read
    returns, what refused accesses leave behind, and which reply records there are. */
module Answers {
  import opened Bytes
  import opened Widths
  import opened Format
  import opened Slave
  import opened Master
  import opened ReadWrite
  import opened EndToEnd

  /* ---------- configuration reads ---------- */

  lemma {:induction false} EncodePrefix(v: nat, k: nat, b: nat)
    requires b <= k
    ensures Encode(v, k)[..b] == Encode(v / Pow256(k - b), b)
    decreases k - b
  {
    if b < k {
      var n := k - 1 - b;
      EncodePrefix(v / 256, k - 1, b);
      DivideTwice(v, Pow256(n));
      assert Encode(v, k)[..b] == Encode(v / 256, k - 1)[..b];
    } else {
      assert v / 1 == v;
    }
  }

  lemma DivideTwice(v: nat, d: nat)
    requires d > 0
    ensures (v / 256) / d == v / (256 * d)
  {
    var q, r := v / 256, v % 256;
    var a, b := q / d, q % d;
    assert v == 256 * (a * d + b) + r;
    assert 256 * (a * d + b) + r == a * (256 * d) + (256 * b + r);
    DivModUnique(v, 256 * d, a, 256 * b + r);
  }

  /** Some bytes out of the middle of a word. */
  lemma DecodeMiddle(v: nat, k: nat, a: nat, b: nat)
    requires a <= b <= k
    ensures Decode(Encode(v, k)[a..b]) == (v / Pow256(k - b)) % Pow256(b - a)
  {
    hide Pow256, Encode, Decode;
    var w := v / Pow256(k - b);
    EncodePrefix(v, k, b);
    EncodeSuffix(w, b, b - a);
    assert Encode(v, k)[a..b] == Encode(v, k)[..b][a..];
    DecodeEncode(w, b - a);
  }

  lemma {:induction false} DecodeZeros(s: seq<byte>, m: nat)
    ensures Decode(s + Zeros(m)) == Decode(s) * Pow256(m)
  {
    if m == 0 {
      assert s + Zeros(m) == s;
    } else {
      var all := s + Zeros(m);
      assert all[..|all| - 1] == s + Zeros(m - 1) && all[|all| - 1] == 0;
      DecodeZeros(s, m - 1);
      assert Decode(s) * Pow256(m - 1) * 256 == Decode(s) * Pow256(m);
    }
  }

  /** CONFIGURATION READS. Inside the error register they return the bytes asked for, the register's
      most significant byte being at address 0; where they reach past its end they return its last
      bytes, followed by zeros; beyond it they return zero. */
  lemma ReadConfigIs(size: nat, addr: nat, error: nat)
    requires size <= 8
    ensures addr < 8 && addr + size <= 8 ==>
              ReadConfig(size, addr, error) == (error / Pow256(8 - addr - size)) % Pow256(size)
    ensures addr < 8 < addr + size ==>
              ReadConfig(size, addr, error) == (error % Pow256(8 - addr)) * Pow256(addr + size - 8)
    ensures addr >= 8 ==> ReadConfig(size, addr, error) == 0
  {
    hide Pow256, Encode, Decode, Zeros;
    var e, z := Encode(error, 8), Zeros(8);
    if addr < 8 && addr + size <= 8 {
      assert (e + z)[addr..addr + size] == e[addr..addr + size];
      DecodeMiddle(error, 8, addr, addr + size);
    } else if addr < 8 {
      var m := addr + size - 8;
      ZerosPart(m);
      assert (e + z)[addr..addr + size] == e[addr..8] + z[..m];
      DecodeMiddle(error, 8, addr, 8);
      OneByteless(error);
      DecodeZeros(e[addr..8], m);
    }
  }

  lemma ZerosPart(m: nat)
    requires m <= 8
    ensures Zeros(8)[..m] == Zeros(m)
  {
  }

  lemma OneByteless(v: nat)
    ensures v / Pow256(0) == v
  {
  }

  /* ---------- refused accesses ---------- */

  /** The register after `n` failures. */
  ghost predicate FailuresShifted(before: nat, after: nat, n: nat) {
    forall i: nat :: i < 64 ==> (TestBit(after, i) <==> i < n || TestBit(before, i - n))
  }

  lemma OneFailure(error: nat, x: nat, n: nat)
    requires n > 0 && FailuresShifted(ShiftIn(error, true), x, n - 1)
    ensures FailuresShifted(error, x, n)
  {
    forall i: nat | i < 64 ensures TestBit(x, i) <==> i < n || TestBit(error, i - n) {
      if i >= n - 1 {
        ShiftInBits(error, true, i - (n - 1));
      }
    }
  }

  /** Writes whose select lines name no lane: in configuration space they are dropped; on the bus each
      is recorded as a failure, and no device is asked. */
  lemma {:induction false} RefusedWrites(p: Port, bus: Bus, rec: Record, i: nat, x: Exec)
    requires DecodeLane(p, rec).None? && i <= |rec.wvals|
    ensures var y, n := Writes(p, bus, rec, i, x), |rec.wvals| - i;
            && y.count == x.count
            && (rec.wca ==> y == x)
            && (!rec.wca ==> y.trace == x.trace + seq(n, _ => BadSelect) && FailuresShifted(x.error, y.error, n))
    decreases |rec.wvals| - i
  {
    hide ShiftIn, FailuresShifted, TestBit;
    if i == |rec.wvals| {
      NoFailure(x.error);
      assert x.trace + [] == x.trace;
    } else {
      var y, n := WriteOne(p, bus, rec, i, x), |rec.wvals| - i;
      RefusedWrites(p, bus, rec, i + 1, y);
      if !rec.wca {
        OneFailure(x.error, Writes(p, bus, rec, i + 1, y).error, n);
        assert [BadSelect] + seq(n - 1, _ => BadSelect) == seq(n, _ => BadSelect);
      }
    }
  }

  lemma NoFailure(error: nat)
    ensures FailuresShifted(error, error, 0)
  {
  }

  /** So with reads, which all answer zero. */
  lemma {:induction false} RefusedReads(p: Port, bus: Bus, rec: Record, i: nat, x: Exec)
    requires DecodeLane(p, rec).None? && i <= |rec.raddrs|
    ensures var (y, words) := Reads(p, bus, rec, i, x);
            var n := |rec.raddrs| - i;
            && y.count == x.count && words == seq(n, _ => 0)
            && (rec.rca ==> y == x)
            && (!rec.rca ==> y.trace == x.trace + seq(n, _ => BadSelect) && FailuresShifted(x.error, y.error, n))
    decreases |rec.raddrs| - i
  {
    hide ShiftIn, FailuresShifted, TestBit;
    if i == |rec.raddrs| {
      NoFailure(x.error);
      assert x.trace + [] == x.trace;
    } else {
      var y, n := ReadOne(p, bus, rec, i, x).0, |rec.raddrs| - i;
      RefusedReads(p, bus, rec, i + 1, y);
      var zeros: seq<nat> := seq(n - 1, _ => 0);
      assert [0] + zeros == seq(n, _ => 0);
      if !rec.rca {
        OneFailure(x.error, Reads(p, bus, rec, i + 1, y).0.error, n);
        assert [BadSelect] + seq(n - 1, _ => BadSelect) == seq(n, _ => BadSelect);
      }
    }
  }

  /* ---------- reply records ---------- */

  /** The last of the first `k` records that reads anything, if there is one, leaves its cycle open. */
  ghost predicate LeftOpen(recs: seq<Record>, k: nat)
    requires k <= |recs|
  {
    exists j :: 0 <= j < k && recs[j].raddrs != [] && !recs[j].cyc && forall i :: j < i < k ==> recs[i].raddrs == []
  }

  lemma {:induction false} OpenIs(p: Port, bus: Bus, recs: seq<Record>, k: nat)
    requires k <= |recs|
    ensures RunRecords(p, bus, IDLE, recs[..k]).open <==> LeftOpen(recs, k)
  {
    if k > 0 {
      OpenIs(p, bus, recs, k - 1);
      RunSnoc(p, bus, IDLE, recs[..k - 1], recs[k - 1]);
      assert recs[..k] == recs[..k - 1] + [recs[k - 1]];
      hide RunRecords, Writes, Reads;
      StillOpen(recs, k);
    }
  }

  lemma StillOpen(recs: seq<Record>, k: nat)
    requires 0 < k <= |recs|
    ensures LeftOpen(recs, k) <==> if recs[k - 1].raddrs == [] then LeftOpen(recs, k - 1) else !recs[k - 1].cyc
  {
    if recs[k - 1].raddrs == [] {
      if LeftOpen(recs, k - 1) {
        var j :| 0 <= j < k - 1 && recs[j].raddrs != [] && !recs[j].cyc
                 && forall i :: j < i < k - 1 ==> recs[i].raddrs == [];
        assert recs[j].raddrs != [] && forall i :: j < i < k ==> recs[i].raddrs == [];
      }
    } else if !recs[k - 1].cyc {
      assert recs[k - 1].raddrs != [];
    }
  }

  lemma {:induction false} RunSnoc(p: Port, bus: Bus, s: Session, recs: seq<Record>, rec: Record)
    ensures RunRecords(p, bus, s, recs + [rec]) == StepRecord(p, bus, rec, RunRecords(p, bus, s, recs))
    decreases |recs|
  {
    hide StepRecord;
    if recs == [] {
      assert [] + [rec] == [rec] && [rec][1..] == [];
    } else {
      assert (recs + [rec])[1..] == recs[1..] + [rec];
      RunSnoc(p, bus, StepRecord(p, bus, recs[0], s), recs[1..], rec);
    }
  }

  /** A record of replies: writes to the return address, in the space and manner the request asks for,
      on the request's own lanes, one for each read; it ends the cycle when the request does. */
  ghost predicate Answers(rec: Record, reply: Record) {
    && reply.raddrs == [] && |reply.wvals| == |rec.raddrs|
    && reply.wbase == rec.rbase && reply.sel == rec.sel
    && (reply.wca <==> rec.bca) && (reply.wff <==> rec.rff) && (reply.cyc <==> rec.cyc)
    && !reply.bca && !reply.rca && !reply.rff
  }

  /** REPLIES. A record that reads is answered by one reply record; a record that reads nothing is
      answered by a bare end of cycle exactly when it ends its cycle and the last record before it
      that read anything did not - even if that one belongs to an earlier cycle. */
  lemma RecordAnswered(p: Port, bus: Bus, recs: seq<Record>, k: nat)
    requires k < |recs|
    ensures var before, after := RunRecords(p, bus, IDLE, recs[..k]).replies,
                                 RunRecords(p, bus, IDLE, recs[..k + 1]).replies;
            && before <= after
            && var more := after[|before|..];
            if recs[k].raddrs != [] then |more| == 1 && Answers(recs[k], more[0])
            else more == if recs[k].cyc && LeftOpen(recs, k) then
                [Record(false, false, false, true, false, false, 0, 0, [], 0, [])] else []
  {
    OpenIs(p, bus, recs, k);
    RunSnoc(p, bus, IDLE, recs[..k], recs[k]);
    assert recs[..k + 1] == recs[..k] + [recs[k]];
    hide RunRecords, Writes, Reads, LeftOpen;
  }

  /** So a cycle that asks for nothing, in the same call after one whose end had to be sent separately, is
      answered by an end of its own. */
  lemma SpareEnd(p: Port, bus: Bus, a: Record, b: Record, c: Record)
    requires a.raddrs != [] && !a.cyc && b.raddrs == [] && b.cyc && c.raddrs == [] && c.cyc
    ensures RunRecords(p, bus, IDLE, [a, b, c]).replies == RunRecords(p, bus, IDLE, [a, b]).replies + [TERMINATOR]
  {
    var recs := [a, b, c];
    assert recs[..2] == [a, b] && recs[..3] == recs;
    assert LeftOpen(recs, 2) by { assert recs[0].raddrs != [] && !recs[0].cyc && recs[1].raddrs == []; }
    RecordAnswered(p, bus, recs, 2);
    hide RunRecords, LeftOpen;
  }

  /* ---------- what a write-back does to a response ---------- */

  /** `n` bus operations from `a` up to `b`, where the next group starts. */
  predicate Ended(cells: seq<Cell>, a: nat, n: nat, most: nat, b: nat) {
    a <= b <= |cells| && Count(cells, a, b) == n && (n < most ==> b == |cells|)
  }

  lemma EndedConfig(cells: seq<Cell>, a: nat, n: nat, most: nat, b: nat)
    requires a < |cells| && cells[a].cfg && Ended(cells, a + 1, n, most, b)
    ensures Ended(cells, a, n, most, b)
  {
    CountFirst(cells, a, b);
  }

  lemma EndedBus(cells: seq<Cell>, next: seq<Cell>, a: nat, n: nat, most: nat, b: nat)
    requires a < |cells| && !cells[a].cfg && n > 0 && most > 0 && SameOps(cells, next)
    requires Ended(next, a + 1, n - 1, most - 1, b)
    ensures Ended(cells, a, n, most, b)
  {
    CountOfSame(cells, next, a + 1, b);
    CountFirst(cells, a, b);
  }

  /** One operation of a group. */
  lemma MarkStep(cells: seq<Cell>, a: nat, most: nat, value: nat)
    requires a < |cells| && most > 0 && Group(cells, a, most) > 0
    ensures var n := Group(cells, a, most);
            && Group(cells, a, n) == n
            && (cells[a].cfg ==>
                  && Group(cells, a + 1, most) == n && Group(cells, a + 1, n) == n
                  && Mark(cells, a, n, value) == Mark(cells, a + 1, n, value))
            && (!cells[a].cfg ==>
                  var next := cells[a := cells[a].(error := cells[a].error || TestBit(value, n - 1))];
                  && SameOps(cells, next) && Group(next, a + 1, most - 1) == n - 1 && Group(next, a + 1, n - 1) == n - 1
                  && Mark(cells, a, n, value) == Mark(next, a + 1, n - 1, value))
  {
    GroupSaturates(cells, a, most);
    var n := Group(cells, a, most);
    if !cells[a].cfg {
      var next := cells[a := cells[a].(error := cells[a].error || TestBit(value, n - 1))];
      GroupOfSame(cells, next, a + 1, n - 1);
      GroupOfSame(cells, next, a + 1, most - 1);
    }
  }

  /** The group a status word reports on, and where the next one starts. */
  lemma {:induction false} GroupEnds(cells: seq<Cell>, a: nat, most: nat, value: nat)
    requires a <= |cells|
    ensures var n := Group(cells, a, most);
            && n <= most && Group(cells, a, n) == n
            && var (marked, stop) := Mark(cells, a, n, value);
            && |marked| == |cells| && a <= stop <= |cells| && Ended(cells, a, n, most, FindBus(marked, stop))
    decreases |cells| - a
  {
    hide Group, Mark, FindBus, Ended, TestBit, SameOps, Count;
    GroupSaturates(cells, a, most);
    var n := Group(cells, a, most);
    if n == 0 {
      GroupOfNone(cells, a, most, value);
    } else {
      GroupNeedsOne(cells, a, most);
      MarkStep(cells, a, most, value);
      if cells[a].cfg {
        GroupEnds(cells, a + 1, most, value);
        EndedConfig(cells, a, n, most, FindBus(Mark(cells, a, n, value).0, Mark(cells, a, n, value).1));
      } else {
        var next := cells[a := cells[a].(error := cells[a].error || TestBit(value, n - 1))];
        GroupEnds(next, a + 1, most - 1, value);
        EndedBus(cells, next, a, n, most, FindBus(Mark(cells, a, n, value).0, Mark(cells, a, n, value).1));
      }
    }
  }

  lemma GroupNeedsOne(cells: seq<Cell>, a: nat, most: nat)
    requires a <= |cells| && Group(cells, a, most) > 0
    ensures a < |cells| && most > 0
  {
  }

  lemma GroupOfNone(cells: seq<Cell>, a: nat, most: nat, value: nat)
    requires a <= |cells| && Group(cells, a, most) == 0
    ensures Group(cells, a, 0) == 0 && Mark(cells, a, 0, value) == (cells, a)
    ensures Ended(cells, a, 0, most, FindBus(cells, a))
  {
    FindBusPlain(cells, a);
    if most > 0 {
      NoneInGroup(cells, a, most);
    }
  }

  lemma {:induction false} NoneInGroup(cells: seq<Cell>, a: nat, most: nat)
    requires a <= |cells| && most > 0 && Group(cells, a, most) == 0
    ensures FindBus(cells, a) == |cells| && Count(cells, a, |cells|) == 0
    ensures forall m :: a <= m < |cells| ==> cells[m].cfg
    decreases |cells| - a
  {
    if a < |cells| {
      NoneInGroup(cells, a + 1, most);
      CountFirst(cells, a, |cells|);
    }
  }

  lemma {:induction false} FindBusPlain(cells: seq<Cell>, a: nat)
    requires a <= |cells|
    ensures Count(cells, a, FindBus(cells, a)) == 0
    decreases |cells| - a
  {
    if a < |cells| && cells[a].cfg {
      FindBusPlain(cells, a + 1);
      CountFirst(cells, a, FindBus(cells, a));
    }
  }

  /** VALUES. A value goes to the read that has waited longest, and the response goes on to the next;
      when no read waits, the cycle fails. */
  lemma ValueArrives(r: Response, size: nat, addr: nat, value: nat)
    requires Cursors(r) && addr % 2 == 0
    ensures var s := Apply(r, size, addr, value);
            && (s.done == Some(Fail) <==> r.wcur == |r.cells|)
            && s.r.scur == r.scur
            && (r.wcur < |r.cells| ==>
                  && s.r.cells == r.cells[r.wcur := r.cells[r.wcur].(value := value)]
                  && r.wcur < s.r.wcur <= |r.cells|
                  && (forall m :: r.wcur < m < s.r.wcur ==> r.cells[m].write)
                  && (s.r.wcur < |r.cells| ==> !r.cells[s.r.wcur].write)
                  && Finishes(s))
  {
    var s := Apply(r, size, addr, value);
    assert forall m :: 0 <= m < |r.cells| ==> s.r.cells[m].write == r.cells[m].write;
    hide FindRead;
  }

  /** A response is done exactly when it waits for nothing more, with a segfault exactly if an
      operation carries an error. */
  predicate Finishes(s: Step) {
    && (s.done.Some? <==> s.r.wcur == s.r.scur == |s.r.cells|)
    && (s.done.Some? ==>
          s.done.value == if exists m :: 0 <= m < |s.r.cells| && s.r.cells[m].error then Segfault else Ok)
  }

  /** STATUS WORDS. A status word reports on the next bus operations, as many as it has bits or as there
      are, each getting its own bit, the oldest the highest; when none is left, the cycle fails. */
  lemma StatusArrives(r: Response, size: nat, addr: nat, value: nat)
    requires Cursors(r) && addr % 2 == 1 && size > 0
    ensures var s := Apply(r, size, addr, value);
            && (s.done == Some(Fail) <==> forall m :: r.scur <= m < |r.cells| ==> r.cells[m].cfg)
            && s.r.wcur == r.wcur && r.scur <= s.r.scur <= |r.cells| == |s.r.cells|
            && (s.r.scur < |r.cells| ==> !r.cells[s.r.scur].cfg)
            && var n := Count(r.cells, r.scur, s.r.scur);
            && n <= 8 * size && (n < 8 * size ==> s.r.scur == |r.cells|)
            && (forall m :: 0 <= m < |r.cells| ==>
                  s.r.cells[m] == r.cells[m].(error := r.cells[m].error
                    || (r.scur <= m < s.r.scur && !r.cells[m].cfg && TestBit(value, Count(r.cells, m + 1, s.r.scur)))))
            && (s.done != Some(Fail) ==> Finishes(s))
  {
    var n := Group(r.cells, r.scur, 8 * size);
    hide Mark, FindBus, Count, TestBit;
    GroupSaturates(r.cells, r.scur, 8 * size);
    GroupEnds(r.cells, r.scur, 8 * size, value);
    MarkKeepsOps(r.cells, r.scur, n, value);
    var s := Apply(r, size, addr, value);
    hide Group;
    MarkSpec(r.cells, r.scur, s.r.scur, n, value);
    NoneIff(r.cells, r.scur, 8 * size);
    assert forall m :: 0 <= m < |r.cells| ==> s.r.cells[m].cfg == r.cells[m].cfg;
  }

  lemma {:induction false} NoneIff(cells: seq<Cell>, a: nat, most: nat)
    requires a <= |cells| && most > 0
    ensures Group(cells, a, most) == 0 <==> forall m :: a <= m < |cells| ==> cells[m].cfg
    decreases |cells| - a
  {
    if a < |cells| {
      NoneIff(cells, a + 1, most);
    }
  }
}
