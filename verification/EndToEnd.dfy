/** From the master's operations to the user's callback: bytes out, execution at the slave, bytes
    back, and the response that turns write-backs into read values and error bits. */
module EndToEnd {
  import opened Bytes
  import opened Widths
  import opened Format
  import opened Slave
  import opened Master
  import opened Meaning
  import opened ReadWrite

  /* ---------- the error shift register ---------- */

  function Pow2(n: nat): (r: nat)
    ensures r > 0
  {
    if n == 0 then 1 else 2 * Pow2(n - 1)
  }

  lemma {:induction false} Pow2OfBytes(k: nat)
    ensures Pow2(8 * k) == Pow256(k)
  {
    if k > 0 {
      Pow2OfBytes(k - 1);
      assert Pow2(8 * k) == 2 * Pow2(8 * k - 1) == 4 * Pow2(8 * k - 2) == 8 * Pow2(8 * k - 3);
      assert Pow2(8 * k - 3) == 2 * Pow2(8 * k - 4) == 4 * Pow2(8 * k - 5) == 8 * Pow2(8 * k - 6);
      assert Pow2(8 * k - 6) == 2 * Pow2(8 * k - 7) == 4 * Pow2(8 * k - 8);
    }
  }

  lemma HalfMod(v: nat, p: nat)
    requires p > 0
    ensures (v % (2 * p)) / 2 == (v / 2) % p
    ensures (v % (2 * p)) % 2 == v % 2
  {
    var q := v / 2;
    var h, r := q / p, q % p;
    assert q == h * p + r;
    assert v == 2 * (h * p + r) + v % 2;
    assert 2 * (h * p + r) == h * (2 * p) + 2 * r;
    DivModUnique(v, 2 * p, h, 2 * r + v % 2);
  }

  /** Truncating a word keeps its low bits. */
  lemma {:induction false} ModKeepsBit(v: nat, k: nat, i: nat)
    requires i < k
    ensures TestBit(v % Pow2(k), i) == TestBit(v, i)
    decreases i
  {
    HalfMod(v, Pow2(k - 1));
    if i > 0 {
      ModKeepsBit(v / 2, k - 1, i - 1);
      BitOfHalf(v, i);
      BitOfHalf(v % Pow2(k), i);
    }
  }

  lemma BitOfHalf(v: nat, i: nat)
    requires i > 0
    ensures TestBit(v, i) == TestBit(v / 2, i - 1)
  {
  }

  lemma ShiftInBits(error: nat, fail: bool, i: nat)
    requires i < 64
    ensures TestBit(ShiftIn(error, fail), i) == if i == 0 then fail else TestBit(error, i - 1)
  {
    var v := 2 * error + if fail then 1 else 0;
    Pow2OfBytes(8);
    Pow256Table();
    ModKeepsBit(v, 64, i);
    if i > 0 {
      BitOfHalf(v, i);
      assert v / 2 == error;
    }
  }

  /** The register after `c` bus accesses, the first of them being the slave's `base`-th. */
  function Register(bus: Bus, start: nat, base: nat, c: nat): nat {
    if c == 0 then start else ShiftIn(Register(bus, start, base, c - 1), bus(base + c - 1).fail)
  }

  /** Its bits are the outcomes of the latest accesses, the latest in bit 0. */
  lemma {:induction false} RegisterBits(bus: Bus, start: nat, base: nat, c: nat, i: nat)
    requires i < c && i < 64
    ensures TestBit(Register(bus, start, base, c), i) == bus(base + c - 1 - i).fail
    decreases c
  {
    ShiftInBits(Register(bus, start, base, c - 1), bus(base + c - 1).fail, i);
    if i > 0 {
      RegisterBits(bus, start, base, c - 1, i - 1);
    }
  }

  lemma StatusBits(p: Port, bus: Bus, start: nat, base: nat, c: nat, i: nat)
    requires i < c && i < MaxOps(p)
    ensures TestBit(Register(bus, start, base, c) % Pow256(p.data), i) == bus(base + c - 1 - i).fail
  {
    Pow2OfBytes(p.data);
    ModKeepsBit(Register(bus, start, base, c), MaxOps(p), i);
    RegisterBits(bus, start, base, c, i);
  }

  /* ---------- what the user should see ---------- */

  function CellOf(op: Op): Cell { Cell(op.write, op.cfg, if op.write then op.value else 0, false) }

  function Cells(ops: seq<Op>): (cells: seq<Cell>)
    ensures |cells| == |ops|
    ensures forall m :: 0 <= m < |ops| ==> cells[m] == CellOf(ops[m])
  {
    seq(|ops|, m requires 0 <= m < |ops| => CellOf(ops[m]))
  }

  /** Which of the slave's bus accesses operation `m` is, counted from the cycle's first. */
  function Rank(ops: seq<Op>, m: nat): nat
    requires m <= |ops|
  {
    Count(Cells(ops), 0, m)
  }

  /** Operation `m`'s own bus access failed. */
  predicate Failed(bus: Bus, base: nat, ops: seq<Op>, m: nat)
    requires m < |ops|
  {
    !ops[m].cfg && bus(base + Rank(ops, m)).fail
  }

  /** What operation `m` reads: its own access's value, or the register as it stood then. */
  function ReadResult(p: Port, bus: Bus, start: nat, base: nat, ops: seq<Op>, m: nat): nat
    requires m < |ops| && ValidOps(p, ops)
  {
    var op := ops[m];
    assert ValidOp(p, op);
    if op.cfg then ReadConfig(op.size, ConfigAddress(p, op), Register(bus, start, base, Rank(ops, m))) % Pow256(op.size)
    else bus(base + Rank(ops, m)).value % Pow256(op.size)
  }

  /** The cell a user should see once operations before `i` have returned their values and those
      before `from` their error bits. */
  function CellAt(p: Port, bus: Bus, checked: bool, start: nat, base: nat, ops: seq<Op>, i: nat, from: nat,
                  m: nat): Cell
    requires m < |ops| && ValidOps(p, ops)
  {
    Cell(ops[m].write, ops[m].cfg,
         if ops[m].write then ops[m].value
         else if m < i then ReadResult(p, bus, start, base, ops, m) else 0,
         checked && m < from && Failed(bus, base, ops, m))
  }

  ghost predicate CellsAt(p: Port, bus: Bus, checked: bool, start: nat, base: nat, ops: seq<Op>, i: nat, from: nat,
                          cells: seq<Cell>)
    requires ValidOps(p, ops)
  {
    && |cells| == |ops|
    && forall m :: 0 <= m < |ops| ==> cells[m] == CellAt(p, bus, checked, start, base, ops, i, from, m)
  }

  /** Lock-step state of a plain run that has reached operation `i` with `n` bus operations since
      `from` not yet reported, and of the response that has received everything delivered so far. */
  ghost predicate InStep(p: Port, bus: Bus, checked: bool, start: nat, base: nat, ops: seq<Op>, i: nat, n: nat,
                         from: nat, g: Progress, r: Response)
    requires ValidOps(p, ops)
  {
    && from <= i <= |ops|
    && g.x.count == base + Rank(ops, i) && g.x.error == Register(bus, start, base, Rank(ops, i))
    && (checked ==> n == Count(Cells(ops), from, i) <= MaxOps(p))
    && CellsAt(p, bus, checked, start, base, ops, i, from, r.cells)
    && r.wcur == FindRead(r.cells, i)
    && r.scur == (if checked then FindBus(r.cells, from) else |r.cells|)
  }

  /* ---------- delivering write-backs to one response ---------- */

  /** The response a write-back addresses: bit 0 only tells values from status words. */
  function TargetOf(addr: nat): nat { addr % 0x1_0000 - addr % 2 }

  datatype Delivery = Waiting(r: Response) | Called(r: Response, status: Status, unread: seq<Access>)

  /** Feed write-backs to the response at `rba` until its callback is due. */
  function Feed(r: Response, rba: nat, writes: seq<Access>): Delivery
    requires Cursors(r)
    decreases |writes|
  {
    if writes == [] then Waiting(r)
    else
      match writes[0]
      case ConfigWrite(size, addr, value) =>
        if TargetOf(addr) != rba then Feed(r, rba, writes[1..])
        else
          ApplyKeepsOps(r, size, addr, value);
          var s := Apply(r, size, addr, value);
          if s.done.Some? then Called(s.r, s.done.value, writes[1..]) else Feed(s.r, rba, writes[1..])
      case _ => Feed(r, rba, writes[1..])
  }

  predicate AllArrived(r: Response) { r.wcur == |r.cells| && r.scur == |r.cells| }

  /** The callback a finished cycle must get. */
  ghost predicate Right(p: Port, bus: Bus, checked: bool, start: nat, base: nat, ops: seq<Op>, cells: seq<Cell>,
                        status: Status)
    requires ValidOps(p, ops)
  {
    && CellsAt(p, bus, checked, start, base, ops, |ops|, |ops|, cells)
    && status == (if checked && exists m :: 0 <= m < |ops| && Failed(bus, base, ops, m) then Segfault else Ok)
  }

  /* ---------- single steps keep the lock-step ---------- */

  lemma SameAsCells(p: Port, bus: Bus, checked: bool, start: nat, base: nat, ops: seq<Op>, i: nat, from: nat,
                    cells: seq<Cell>)
    requires ValidOps(p, ops) && CellsAt(p, bus, checked, start, base, ops, i, from, cells)
    ensures SameOps(cells, Cells(ops))
  {
    hide ReadResult, Failed;
  }

  lemma RankStep(ops: seq<Op>, i: nat)
    requires i < |ops|
    ensures Rank(ops, i + 1) == Rank(ops, i) + Cost(ops[i])
  {
  }

  lemma StepWrite(p: Port, bus: Bus, checked: bool, start: nat, base: nat, ops: seq<Op>, i: nat, n: nat, from: nat,
                  rba: nat, g: Progress, r: Response)
    requires ValidOps(p, ops) && InStep(p, bus, checked, start, base, ops, i, n, from, g, r)
    requires i < |ops| && ops[i].write && !Full(p, checked, n)
    ensures ValidOp(p, ops[i])
    ensures InStep(p, bus, checked, start, base, ops, i + 1, n + Cost(ops[i]), from, DoOp(p, bus, rba, ops[i], g), r)
    ensures DoOp(p, bus, rba, ops[i], g).back == g.back
  {
    hide ReadResult, Failed, AddressB, AddressL, ShiftIn;
    assert ValidOp(p, ops[i]);
    RankStep(ops, i);
  }

  lemma StepRead(p: Port, bus: Bus, checked: bool, start: nat, base: nat, ops: seq<Op>, i: nat, n: nat, from: nat,
                 rba: nat, g: Progress, r: Response)
      returns (value: nat)
    requires ValidOps(p, ops) && InStep(p, bus, checked, start, base, ops, i, n, from, g, r) && Cursors(r)
    requires i < |ops| && !ops[i].write && !Full(p, checked, n)
    ensures ValidOp(p, ops[i])
    ensures DoOp(p, bus, rba, ops[i], g).back == g.back + [ConfigWrite(ops[i].size, rba, value)]
    ensures InStep(p, bus, checked, start, base, ops, i + 1, n + Cost(ops[i]), from, DoOp(p, bus, rba, ops[i], g),
                   ApplyValue(r, value).r)
    ensures ApplyValue(r, value).done == (if AllArrived(ApplyValue(r, value).r) then
                                            Some(if HasError(ApplyValue(r, value).r.cells) then Segfault else Ok)
                                                else None)
  {
    hide ReadConfig, Failed, AddressB, AddressL, ShiftIn, ConfigAddress, Pow256, HasError, Register, Rank;
    assert ValidOp(p, ops[i]);
    RankStep(ops, i);
    RegisterStep(bus, start, base, Rank(ops, i));
    value := ReadResult(p, bus, start, base, ops, i);
    assert r.wcur == i;
    var cells := r.cells[i := r.cells[i].(value := value)];
    ValueIsRight(p, bus, checked, start, base, ops, i, from, r.cells, cells, value);
    FindBusOfSame(r.cells, cells, from);
  }

  lemma RegisterStep(bus: Bus, start: nat, base: nat, c: nat)
    ensures Register(bus, start, base, c + 1) == ShiftIn(Register(bus, start, base, c), bus(base + c).fail)
  {
  }

  lemma ValueIsRight(p: Port, bus: Bus, checked: bool, start: nat, base: nat, ops: seq<Op>, i: nat, from: nat,
                     before: seq<Cell>, after: seq<Cell>, value: nat)
    requires ValidOps(p, ops) && i < |ops| && !ops[i].write
    requires CellsAt(p, bus, checked, start, base, ops, i, from, before)
    requires value == ReadResult(p, bus, start, base, ops, i)
    requires after == before[i := before[i].(value := value)]
    ensures CellsAt(p, bus, checked, start, base, ops, i + 1, from, after)
  {
    hide ReadResult, Failed;
    forall m | 0 <= m < |ops|
      ensures after[m] == CellAt(p, bus, checked, start, base, ops, i + 1, from, m)
    {
      assert before[m] == CellAt(p, bus, checked, start, base, ops, i, from, m);
    }
  }

  lemma {:induction false} FindBusOfSame(a: seq<Cell>, b: seq<Cell>, i: nat)
    requires SameOps(a, b) && i <= |a|
    ensures FindBus(a, i) == FindBus(b, i)
    decreases |a| - i
  {
    if i < |a| {
      FindBusOfSame(a, b, i + 1);
    }
  }

  lemma {:induction false} FindReadOfSame(a: seq<Cell>, b: seq<Cell>, i: nat)
    requires SameOps(a, b) && i <= |a|
    ensures FindRead(a, i) == FindRead(b, i)
    decreases |a| - i
  {
    if i < |a| {
      FindReadOfSame(a, b, i + 1);
    }
  }

  lemma {:induction false} FindBusNext(cells: seq<Cell>, a: nat, b: nat)
    requires a <= b <= |cells| && Count(cells, a, b) > 0
    ensures a <= FindBus(cells, a) < b && Count(cells, FindBus(cells, a), b) == Count(cells, a, b)
    decreases b - a
  {
    CountFirst(cells, a, b);
    if cells[a].cfg {
      FindBusNext(cells, a + 1, b);
    }
  }

  /** A status word reports exactly the operations since the previous one. */
  lemma StepStatus(p: Port, bus: Bus, checked: bool, start: nat, base: nat, ops: seq<Op>, i: nat, n: nat, from: nat,
                   rba: nat, g: Progress, r: Response)
    requires ValidOps(p, ops) && InStep(p, bus, checked, start, base, ops, i, n, from, g, r) && Cursors(r)
    requires checked && n > 0 && (n == MaxOps(p) || i == |ops|)
    ensures var value := g.x.error % Pow256(p.data);
            var s := ApplyStatus(r, p.data, value);
            && InStep(p, bus, checked, start, base, ops, i, 0, i, DoStatus(p, rba, g), s.r)
            && s.done == (if AllArrived(s.r) then Some(if HasError(s.r.cells) then Segfault else Ok) else None)
            && DoStatus(p, rba, g).back == g.back + [ConfigWrite(p.data, rba + 1, value)]
  {
    hide ReadResult, Register, TestBit, Failed, Pow256, HasError;
    var value := g.x.error % Pow256(p.data);
    SameAsCells(p, bus, checked, start, base, ops, i, from, r.cells);
    CountOfSame(r.cells, Cells(ops), from, i);
    FindBusNext(r.cells, from, i);
    GroupIsCount(r.cells, r.scur, i, MaxOps(p));
    assert Group(r.cells, r.scur, MaxOps(p)) == n;
    GroupSaturates(r.cells, r.scur, MaxOps(p));
    MarkSpec(r.cells, r.scur, i, n, value);
    var (marked, stop) := Mark(r.cells, r.scur, n, value);
    NothingSkipped(r.cells, from, r.scur);
    MarkedIsRight(p, bus, start, base, ops, i, n, from, r, marked);
    MarkKeepsOps(r.cells, r.scur, n, value);
    CountOfSame(r.cells, marked, stop, i);
    NoBusInEmptyCount(marked, stop, i);
    FindBusSkips(marked, stop, i);
    FindReadOfSame(r.cells, marked, i);
  }

  lemma NothingSkipped(cells: seq<Cell>, a: nat, b: nat)
    requires a <= b <= |cells| && b == FindBus(cells, a)
    ensures forall m :: a <= m < b ==> cells[m].cfg
  {
  }

  lemma MarkedIsRight(p: Port, bus: Bus, start: nat, base: nat, ops: seq<Op>, i: nat, n: nat, from: nat, r: Response,
                      marked: seq<Cell>)
    requires ValidOps(p, ops) && from <= i <= |ops| && n == Count(Cells(ops), from, i) <= MaxOps(p)
    requires CellsAt(p, bus, true, start, base, ops, i, from, r.cells)
    requires from <= r.scur <= |ops| && (forall m :: from <= m < r.scur ==> r.cells[m].cfg)
    requires |marked| == |ops|
    requires var value := Register(bus, start, base, Rank(ops, i)) % Pow256(p.data);
             forall m :: 0 <= m < |ops| ==>
               marked[m] == r.cells[m].(error := r.cells[m].error
                 || (r.scur <= m < i && !r.cells[m].cfg && TestBit(value, Count(r.cells, m + 1, i))))
    ensures CellsAt(p, bus, true, start, base, ops, i, i, marked)
  {
    hide ReadResult, Register, TestBit, Pow256;
    SameAsCells(p, bus, true, start, base, ops, i, from, r.cells);
    forall m | 0 <= m < |ops|
      ensures marked[m] == CellAt(p, bus, true, start, base, ops, i, i, m)
    {
      assert r.cells[m] == CellAt(p, bus, true, start, base, ops, i, from, m);
      if from <= m < i && !ops[m].cfg {
        OwnBit(p, bus, start, base, ops, i, n, from, m);
        CountOfSame(r.cells, Cells(ops), m + 1, i);
        assert m >= r.scur;
      }
    }
  }

  /** The bit that reports operation `m` is the outcome of its own access. */
  lemma OwnBit(p: Port, bus: Bus, start: nat, base: nat, ops: seq<Op>, i: nat, n: nat, from: nat, m: nat)
    requires ValidOps(p, ops) && from <= m < i <= |ops| && !ops[m].cfg
    requires n == Count(Cells(ops), from, i) <= MaxOps(p)
    ensures var later := Count(Cells(ops), m + 1, i);
            TestBit(Register(bus, start, base, Rank(ops, i)) % Pow256(p.data), later) == Failed(bus, base, ops, m)
  {
    hide Register, TestBit, Pow256;
    var cells := Cells(ops);
    var later := Count(cells, m + 1, i);
    CountSplit(cells, 0, m + 1, i);
    RankStep(ops, m);
    CountSplit(cells, from, m, i);
    CountFirst(cells, m, i);
    StatusBits(p, bus, start, base, Rank(ops, i), later);
  }

  lemma RightWhenArrived(p: Port, bus: Bus, checked: bool, start: nat, base: nat, ops: seq<Op>, i: nat, n: nat,
                         from: nat, g: Progress, r: Response)
    requires ValidOps(p, ops) && InStep(p, bus, checked, start, base, ops, i, n, from, g, r) && AllArrived(r)
    ensures Right(p, bus, checked, start, base, ops, r.cells, if HasError(r.cells) then Segfault else Ok)
    ensures checked ==> n == 0
    ensures forall m :: i <= m < |ops| ==> ops[m].write && (checked ==> ops[m].cfg)
  {
    hide ReadResult, Register;
    SameAsCells(p, bus, checked, start, base, ops, i, from, r.cells);
    CountOfSame(r.cells, Cells(ops), from, i);
    if checked && n > 0 {
      FindBusNext(r.cells, from, i);
    }
    forall m | 0 <= m < |ops|
      ensures r.cells[m] == CellAt(p, bus, checked, start, base, ops, |ops|, |ops|, m)
    {
      assert r.cells[m] == CellAt(p, bus, checked, start, base, ops, i, from, m);
    }
    if checked && exists m :: 0 <= m < |ops| && Failed(bus, base, ops, m) {
      var m :| 0 <= m < |ops| && Failed(bus, base, ops, m);
      assert r.cells[m].error;
    }
  }

  /* ---------- the whole run ---------- */

  /** Once everything has arrived, the rest of the plain run owes nothing. */
  lemma {:induction false} NothingOwed(p: Port, bus: Bus, checked: bool, ops: seq<Op>, i: nat, n: nat, rba: nat,
                                       g: Progress)
    requires ValidOps(p, ops) && i <= |ops| && (checked ==> n == 0)
    requires forall m :: i <= m < |ops| ==> ops[m].write && (checked ==> ops[m].cfg)
    ensures Direct(p, bus, checked, ops, i, n, rba, g).back == g.back
    decreases |ops| - i
  {
    hide AddressB, AddressL;
    if i < |ops| {
      assert ValidOp(p, ops[i]);
      NothingOwed(p, bus, checked, ops, i + 1, n + Cost(ops[i]), rba, DoOp(p, bus, rba, ops[i], g));
    }
  }

  /** What is due to the response once its next write-back `w` has been applied. */
  lemma FeedNext(r: Response, rba: nat, w: Access, more: seq<Access>)
    requires Cursors(r) && w.ConfigWrite? && TargetOf(w.addr) == rba
    ensures var s := Apply(r, w.size, w.addr, w.value);
            && Cursors(s.r)
            && Feed(r, rba, [w] + more) == if s.done.Some? then Called(s.r, s.done.value, more)
                else Feed(s.r, rba, more)
  {
    hide Apply;
    ApplyKeepsOps(r, w.size, w.addr, w.value);
    assert ([w] + more)[1..] == more;
  }

  /** The write-backs a plain run owes complete the response exactly at the last one, and then
      every read has its own value, every failing bus access - and nothing else - has its error
      bit, and the callback status says whether there was one. */
  lemma {:induction false} DeliveriesComplete(p: Port, bus: Bus, checked: bool, start: nat, base: nat, ops: seq<Op>,
                                              i: nat, n: nat, from: nat, rba: nat, g: Progress, r: Response)
    requires ValidOps(p, ops) && InStep(p, bus, checked, start, base, ops, i, n, from, g, r) && Cursors(r)
    requires ReturnAddress(rba)
    ensures var d := Direct(p, bus, checked, ops, i, n, rba, g);
            && g.back <= d.back
            && var owed := d.back[|g.back|..];
            if AllArrived(r) then owed == []
                && Right(p, bus, checked, start, base, ops, r.cells, if HasError(r.cells) then Segfault else Ok)
            else
              var f := Feed(r, rba, owed);
              f.Called? && f.unread == [] && Right(p, bus, checked, start, base, ops, f.r.cells, f.status)
    decreases |ops| - i, n
  {
    hide InStep, Right, DoOp, DoStatus, Apply, ApplyValue, ApplyStatus, HasError, Feed;
    InStepBounds(p, bus, checked, start, base, ops, i, n, from, g, r);
    var d := Direct(p, bus, checked, ops, i, n, rba, g);
    if AllArrived(r) {
      RightWhenArrived(p, bus, checked, start, base, ops, i, n, from, g, r);
      NothingOwed(p, bus, checked, ops, i, n, rba, g);
    } else if Full(p, checked, n) || (i == |ops| && checked && n > 0) {
      StepStatus(p, bus, checked, start, base, ops, i, n, from, rba, g, r);
      var w := ConfigWrite(p.data, rba + 1, g.x.error % Pow256(p.data));
      var s := ApplyStatus(r, p.data, w.value);
      TargetOfStatus(rba);
      assert Apply(r, w.size, w.addr, w.value) == s by { ApplyOdd(r, w.size, w.addr, w.value); }
      ApplyKeepsOps(r, w.size, w.addr, w.value);
      DeliveriesComplete(p, bus, checked, start, base, ops, i, 0, i, rba, DoStatus(p, rba, g), s.r);
      Arrival(p, bus, checked, start, base, ops, rba, g, r, w, s, DoStatus(p, rba, g), d);
    } else if i == |ops| {
      AtEnd(p, bus, checked, start, base, ops, n, from, g, r);
    } else if ops[i].write {
      StepWrite(p, bus, checked, start, base, ops, i, n, from, rba, g, r);
      DeliveriesComplete(p, bus, checked, start, base, ops, i + 1, n + Cost(ops[i]), from, rba,
          DoOp(p, bus, rba, ops[i], g), r);
    } else {
      var value := StepRead(p, bus, checked, start, base, ops, i, n, from, rba, g, r);
      var w := ConfigWrite(ops[i].size, rba, value);
      var s := ApplyValue(r, value);
      TargetOfStatus(rba);
      assert Apply(r, w.size, w.addr, w.value) == s by { ApplyEven(r, w.size, w.addr, w.value); }
      ApplyKeepsOps(r, w.size, w.addr, w.value);
      var h := DoOp(p, bus, rba, ops[i], g);
      DeliveriesComplete(p, bus, checked, start, base, ops, i + 1, n + Cost(ops[i]), from, rba, h, s.r);
      Arrival(p, bus, checked, start, base, ops, rba, g, r, w, s, h, d);
    }
  }

  lemma InStepBounds(p: Port, bus: Bus, checked: bool, start: nat, base: nat, ops: seq<Op>, i: nat, n: nat, from: nat,
                     g: Progress, r: Response)
    requires ValidOps(p, ops) && InStep(p, bus, checked, start, base, ops, i, n, from, g, r)
    ensures i <= |ops| && |r.cells| == |ops| && (checked ==> n <= MaxOps(p))
  {
    hide CellAt, Register;
  }

  lemma AtEnd(p: Port, bus: Bus, checked: bool, start: nat, base: nat, ops: seq<Op>, n: nat, from: nat, g: Progress,
              r: Response)
    requires ValidOps(p, ops) && InStep(p, bus, checked, start, base, ops, |ops|, n, from, g, r)
    requires !checked || n == 0
    ensures AllArrived(r)
  {
    hide ReadResult, Register;
    SameAsCells(p, bus, checked, start, base, ops, |ops|, from, r.cells);
    if checked {
      CountOfSame(r.cells, Cells(ops), from, |ops|);
      NoBusInEmptyCount(r.cells, from, |ops|);
      FindBusSkips(r.cells, from, |ops|);
    }
  }

  lemma TargetOfStatus(rba: nat)
    requires ReturnAddress(rba)
    ensures TargetOf(rba) == rba && TargetOf(rba + 1) == rba && (rba + 1) % 2 == 1
  {
  }

  lemma ApplyOdd(r: Response, size: nat, addr: nat, value: nat)
    requires Cursors(r) && addr % 2 == 1
    ensures Apply(r, size, addr, value) == ApplyStatus(r, size, value)
  {
  }

  lemma ApplyEven(r: Response, size: nat, addr: nat, value: nat)
    requires Cursors(r) && addr % 2 == 0
    ensures Apply(r, size, addr, value) == ApplyValue(r, value)
  {
  }

  /** Prepending one write-back to a completed delivery. */
  lemma Arrival(p: Port, bus: Bus, checked: bool, start: nat, base: nat, ops: seq<Op>, rba: nat, g: Progress,
                r: Response, w: Access, s: Step, h: Progress, d: Progress)
    requires ValidOps(p, ops) && Cursors(r) && Cursors(s.r) && w.ConfigWrite? && TargetOf(w.addr) == rba
    requires s == Apply(r, w.size, w.addr, w.value) && h.back == g.back + [w] && h.back <= d.back
    requires s.done == (if AllArrived(s.r) then Some(if HasError(s.r.cells) then Segfault else Ok) else None)
    requires var owed := d.back[|h.back|..];
             if AllArrived(s.r) then owed == []
                 && Right(p, bus, checked, start, base, ops, s.r.cells, if HasError(s.r.cells) then Segfault else Ok)
             else
               var f := Feed(s.r, rba, owed);
               f.Called? && f.unread == [] && Right(p, bus, checked, start, base, ops, f.r.cells, f.status)
    ensures g.back <= d.back
    ensures var f := Feed(r, rba, d.back[|g.back|..]);
            f.Called? && f.unread == [] && Right(p, bus, checked, start, base, ops, f.r.cells, f.status)
  {
    hide Right, Apply, HasError, Feed, AllArrived;
    var owed := d.back[|h.back|..];
    assert g.back == d.back[..|g.back|] by { assert g.back == h.back[..|g.back|]; }
    assert d.back[|g.back|] == h.back[|g.back|] == w;
    assert d.back[|g.back|..] == [w] + owed;
    FeedNext(r, rba, w, owed);
  }

  /* ---------- the top-level results ---------- */

  /** The response set up when a cycle has been sent. */
  function Start(checked: bool, ops: seq<Op>): (r: Response)
    ensures Cursors(r)
  {
    var cells := Cells(ops);
    Response(cells, FindRead(cells, 0), if checked then FindBus(cells, 0) else |cells|)
  }

  /** Bytes of one cycle on the wire. */
  function CycleBytes(p: Port, checked: bool, ops: seq<Op>, rba: nat): seq<byte>
    requires ValidOps(p, ops) && ops != [] && ReturnAddress(rba)
  {
    CycleRecordsFit(p, checked, ops, 0, 0, rba);
    SerializeAll(p, CycleRecords(p, checked, ops, 0, 0, rba))
  }

  lemma StartInStep(p: Port, bus: Bus, checked: bool, ops: seq<Op>, x: Exec, back: seq<Access>)
    requires ValidOps(p, ops)
    ensures InStep(p, bus, checked, x.error, x.count, ops, 0, 0, 0, Progress(x, back), Start(checked, ops))
  {
    hide ReadResult, Failed;
  }

  /** Sent bytes make the slave perform the plain run, whatever it did before and whatever its
      devices answer; nothing is left over and the cycle is closed. */
  lemma SlaveExecutesCycle(p: Port, bus: Bus, checked: bool, ops: seq<Op>, rba: nat, s: Session, more: seq<byte>)
    requires ValidOps(p, ops) && ops != [] && ReturnAddress(rba)
    ensures var t := RunRecords(p, bus, s, CycleRecords(p, checked, ops, 0, 0, rba));
            && Run(p, bus, s, CycleBytes(p, checked, ops, rba) + more) == Run(p, bus, t, more)
            && t.end && s.replies <= t.replies
            && t.x == Direct(p, bus, checked, ops, 0, 0, rba, Progress(s.x, [])).x
  {
    hide Direct, Run, RunRecords, Fits, CycleRecords, ReturnAddress;
    CycleRecordsFit(p, checked, ops, 0, 0, rba);
    RunSerialized(p, bus, s, CycleRecords(p, checked, ops, 0, 0, rba), more);
    PackingPreservesMeaning(p, bus, checked, ops, 0, 0, rba, s, []);
  }

  /** END TO END. The write-backs in the slave's replies to a cycle complete its response exactly
      when the last of them arrives; then every read holds the value its own access returned,
      an operation carries the error flag exactly when the cycle is checked and its own access
      failed, and the callback status is a segfault exactly when there is such an operation.
      A cycle that waits for nothing gets no write-backs at all. */
  lemma RepliesCompleteCycle(p: Port, bus: Bus, checked: bool, ops: seq<Op>, rba: nat, s: Session)
    requires ValidOps(p, ops) && ops != [] && ReturnAddress(rba)
    ensures var t := RunRecords(p, bus, s, CycleRecords(p, checked, ops, 0, 0, rba));
            && s.replies <= t.replies
            && var writes := Delivered(p, NewReplies(s, t));
            var r := Start(checked, ops);
            if AllArrived(r) then writes == [] && Right(p, bus, checked, s.x.error, s.x.count, ops, r.cells, Ok)
            else
              var f := Feed(r, rba, writes);
              f.Called? && f.unread == [] && Right(p, bus, checked, s.x.error, s.x.count, ops, f.r.cells, f.status)
  {
    hide Direct, RunRecords, CycleRecords, Delivered, Feed, InStep, Right, ReturnAddress;
    PackingPreservesMeaning(p, bus, checked, ops, 0, 0, rba, s, []);
    var t := RunRecords(p, bus, s, CycleRecords(p, checked, ops, 0, 0, rba));
    var writes := Delivered(p, NewReplies(s, t));
    StartInStep(p, bus, checked, ops, s.x, []);
    DeliveriesComplete(p, bus, checked, s.x.error, s.x.count, ops, 0, 0, 0, rba, Progress(s.x, []),
        Start(checked, ops));
    assert [] + writes == writes;
    assert writes[0..] == writes;
    StartHasNoErrors(checked, ops);
  }

  lemma StartHasNoErrors(checked: bool, ops: seq<Op>)
    ensures !HasError(Start(checked, ops).cells)
  {
  }

  predicate WritesOnly(replies: seq<Record>) {
    forall k :: 0 <= k < |replies| ==> replies[k].raddrs == []
  }

  /** A cycle leaves well-formed replies: they fit the buffer, ask for nothing, and the last of them
      ends its cycle. */
  lemma CycleReplies(p: Port, bus: Bus, checked: bool, ops: seq<Op>, rba: nat, s: Session)
    requires ValidOps(p, ops) && ops != [] && ReturnAddress(rba)
    requires AllFit(p, s.replies) && Closed(s)
    ensures var t := RunRecords(p, bus, s, CycleRecords(p, checked, ops, 0, 0, rba));
            && s.replies <= t.replies && AllFit(p, t.replies) && Closed(t) && t.end
            && (t.replies != [] ==> t.replies[|t.replies| - 1].cyc)
            && WritesOnly(NewReplies(s, t))
  {
    hide Delivered, Fits, CycleRecords, Closed, Direct, Run, RunRecords, Serialize, NewReplies;
    var recs := CycleRecords(p, checked, ops, 0, 0, rba);
    CycleRecordsFit(p, checked, ops, 0, 0, rba);
    PackingPreservesMeaning(p, bus, checked, ops, 0, 0, rba, s, []);
    var bytes := SerializeAll(p, recs);
    assert bytes + [] == bytes;
    RunSerialized(p, bus, s, recs, []);
    NothingToRun(p, bus, RunRecords(p, bus, s, recs));
    RunRepliesFit(p, bus, s, bytes);
    LastReplyEndsCycle(p, bus, s, bytes);
    ReplyRecordsHaveNoReads(p, bus, s, recs);
  }

  lemma NothingToRun(p: Port, bus: Bus, s: Session)
    ensures Run(p, bus, s, []) == (s, [])
  {
    assert Parse(p, []) == Short;
  }

  /** The master reads reply bytes as exactly the write-backs in them, with nothing left over. */
  lemma RepliesRead(p: Port, bus: Bus, s: Session, replies: seq<Record>)
    requires AllFit(p, replies) && WritesOnly(replies)
    ensures var (t, rest) := Run(p, bus, s, SerializeAll(p, replies));
            rest == [] && t.x.trace == s.x.trace + Delivered(p, replies)
  {
    hide Run, RunRecords, SerializeAll, Delivered, Fits;
    MasterReceives(p, bus, s, replies);
    RunSerialized(p, bus, s, replies, []);
    assert SerializeAll(p, replies) + [] == SerializeAll(p, replies);
    NothingToRun(p, bus, RunRecords(p, bus, s, replies));
  }

  lemma StepHasNoReads(p: Port, bus: Bus, s: Session, rec: Record)
    ensures s.replies <= StepRecord(p, bus, rec, s).replies
    ensures WritesOnly(NewReplies(s, StepRecord(p, bus, rec, s)))
  {
    hide Reads, Writes;
  }

  lemma NoReadsJoin(s: Session, t: Session, u: Session)
    requires s.replies <= t.replies <= u.replies && WritesOnly(NewReplies(s, t)) && WritesOnly(NewReplies(t, u))
    ensures s.replies <= u.replies && WritesOnly(NewReplies(s, u))
  {
    assert NewReplies(s, u) == NewReplies(s, t) + NewReplies(t, u);
  }

  lemma {:induction false} ReplyRecordsHaveNoReads(p: Port, bus: Bus, s: Session, recs: seq<Record>)
    ensures s.replies <= RunRecords(p, bus, s, recs).replies
    ensures WritesOnly(NewReplies(s, RunRecords(p, bus, s, recs)))
    decreases |recs|
  {
    hide StepRecord, WritesOnly, NewReplies;
    if recs == [] {
      NothingNew(s);
    } else {
      var t := StepRecord(p, bus, recs[0], s);
      StepHasNoReads(p, bus, s, recs[0]);
      ReplyRecordsHaveNoReads(p, bus, t, recs[1..]);
      NoReadsJoin(s, t, RunRecords(p, bus, t, recs[1..]));
    }
  }

  lemma NothingNew(s: Session)
    ensures NewReplies(s, s) == [] && WritesOnly(NewReplies(s, s))
  {
  }

  /** A configuration read reaches the address asked for exactly when that address fits the
      port's address width and the operation is not little-endian. */
  lemma ConfigReadExact(p: Port, op: Op)
    requires ValidOp(p, op) && op.cfg
    ensures ConfigAddress(p, op) == op.addr <==> op.addr < Pow256(p.addr) && op.endian != Little
  {
    hide Pow256, Low, Addressable;
    LowFits(p, op);
    var m := op.addr % Pow256(p.addr);
    LowOfTruncated(p, op.addr);
    assert m % p.data == Low(p, op) by { LowMeans(p, op); }
    assert m == op.addr <==> op.addr < Pow256(p.addr) by {
      if op.addr < Pow256(p.addr) { DivModUnique(op.addr, Pow256(p.addr), 0, op.addr); }
    }
    if op.endian == Little {
      LittleNeverMirrors(p, op);
      WordPlus(p, m, p.data - op.size - Low(p, op));
      LowMeans(p, op);
    }
  }

  lemma WordPlus(p: Port, m: nat, l: nat)
    requires l < p.data
    ensures (m - m % p.data + l) % p.data == l
  {
  }

  lemma LittleNeverMirrors(p: Port, op: Op)
    requires ValidOp(p, op) && op.endian == Little
    ensures p.data - op.size - Low(p, op) != Low(p, op)
  {
    LowFits(p, op);
    hide Pow256, Addressable;
  }

  lemma LowOfTruncated(p: Port, a: nat)
    ensures a % Pow256(p.addr) % p.data == a % p.data
  {
    Pow256Add(1, p.addr - 1);
    var q := (256 / p.data) * Pow256(p.addr - 1);
    assert Pow256(1) == 256;
    hide Pow256;
    assert Pow256(p.addr) == q * p.data by {
      assert 256 == (256 / p.data) * p.data;
      MulSwap(256 / p.data, Pow256(p.addr - 1), p.data);
    }
    ModOfMultiple(a, q, p.data);
  }

  lemma MulSwap(a: nat, b: nat, c: nat)
    ensures (a * b) * c == (a * c) * b
  {
  }

  lemma ModOfMultiple(a: nat, q: nat, d: nat)
    requires q > 0 && d > 0
    ensures q * d > 0 && a % (q * d) % d == a % d
  {
    var m := q * d;
    var h, r := a / m, a % m;
    assert a == h * m + r;
    assert r == (r / d) * d + r % d;
    assert h * m == (h * q) * d;
    assert a == (h * q + r / d) * d + r % d by {
      assert (h * q + r / d) * d == (h * q) * d + (r / d) * d;
    }
    DivModUnique(a, d, h * q + r / d, r % d);
  }
}
