/** The plain meaning of a cycle - its operations one after the other, with a status read after
    every full group - and the proof that the packed records mean exactly that. */
module Meaning {
  import opened Bytes
  import opened Widths
  import opened Format
  import opened Slave
  import opened Master

  /** State of a plain run: the slave's execution state, and the configuration writes it owes
      the master (read values to `rba`, error words to `rba + 1`). */
  datatype Progress = Progress(x: Exec, back: seq<Access>)

  function DoOp(p: Port, bus: Bus, rba: nat, op: Op, g: Progress): Progress
    requires ValidOp(p, op)
  {
    if op.write then
      Progress(if op.cfg then Logged(g.x, ConfigWrite(op.size, op.addr, op.value))
               else OnBus(bus, g.x, BusWrite(op.size, AddressB(p, op), AddressL(p, op), op.value)),
               g.back)
    else if op.cfg then
      Progress(Logged(g.x, ConfigRead(op.size, ConfigAddress(p, op))),
               g.back + [ConfigWrite(op.size, rba,
                   ReadConfig(op.size, ConfigAddress(p, op), g.x.error) % Pow256(op.size))])
    else
      Progress(OnBus(bus, g.x, BusRead(op.size, AddressB(p, op), AddressL(p, op))),
               g.back + [ConfigWrite(op.size, rba, bus(g.x.count).value % Pow256(op.size))])
  }

  /** A status read returns the outcomes of the latest bus accesses, as many as fit a word. */
  function DoStatus(p: Port, rba: nat, g: Progress): Progress {
    Progress(Logged(g.x, ConfigRead(p.data, StatusAddress(p))),
             g.back + [ConfigWrite(p.data, rba + 1, g.x.error % Pow256(p.data))])
  }

  /** The plain run from operation `i`, with `n` bus operations not yet reported on. */
  function Direct(p: Port, bus: Bus, checked: bool, ops: seq<Op>, i: nat, n: nat, rba: nat, g: Progress): Progress
    requires ValidOps(p, ops) && i <= |ops|
    decreases |ops| - i, n
  {
    if Full(p, checked, n) then Direct(p, bus, checked, ops, i, 0, rba, DoStatus(p, rba, g))
    else if i == |ops| then (if checked && n > 0 then DoStatus(p, rba, g) else g)
    else Direct(p, bus, checked, ops, i + 1, n + Cost(ops[i]), rba, DoOp(p, bus, rba, ops[i], g))
  }

  /** The operations `ops[i..i+count]` alone. */
  function DoOps(p: Port, bus: Bus, rba: nat, ops: seq<Op>, i: nat, count: nat, g: Progress): Progress
    requires ValidOps(p, ops) && i + count <= |ops|
    decreases count
  {
    if count == 0 then g
    else DoOps(p, bus, rba, ops, i + 1, count - 1, DoOp(p, bus, rba, ops[i], g))
  }

  /** `count` operations from `i` on are all bus, or all configuration, operations. */
  predicate OneSpace(ops: seq<Op>, i: nat, count: nat)
    requires i + count <= |ops|
  {
    forall m :: i <= m < i + count ==> ops[m].cfg == ops[i].cfg
  }

  lemma {:induction false} DirectRun(p: Port, bus: Bus, checked: bool, ops: seq<Op>, i: nat, count: nat, n: nat,
                                     rba: nat, g: Progress)
    requires ValidOps(p, ops) && i + count <= |ops| && OneSpace(ops, i, count)
    requires checked && count > 0 ==> n + (count - 1) * Cost(ops[i]) < MaxOps(p)
    ensures Direct(p, bus, checked, ops, i, n, rba, g)
         == Direct(p, bus, checked, ops, i + count, n + Spent(ops, i, count), rba, DoOps(p, bus, rba, ops, i, count, g))
    decreases count
  {
    hide DoOp, DoStatus;
    if count > 0 {
      DirectRun(p, bus, checked, ops, i + 1, count - 1, n + Cost(ops[i]), rba, DoOp(p, bus, rba, ops[i], g));
    }
  }

  /* ---------- addresses computed by the slave ---------- */

  lemma FilterOfAligned(p: Port, op: Op)
    requires ValidOp(p, op) && !op.cfg
    ensures Filter(p, op.addr) == op.addr - Low(p, op)
  {
    hide Pow256;
    assert op.addr % Pow256(p.addr) == op.addr by { DivModUnique(op.addr, Pow256(p.addr), 0, op.addr); }
  }

  lemma BusAddressFits(p: Port, op: Op)
    requires ValidOp(p, op) && !op.cfg
    ensures op.addr < TWO64
  {
    hide Low;
    Pow256Mono(p.addr, 8);
    Pow256Table();
  }

  /** The low bits of a stepped address are those of the first one, because the word size
      divides the step and the wrap-around. */
  lemma SteppedLow(p: Port, a: nat, k: nat, fifo: bool)
    ensures Wrap64(a + k * Step(p, fifo)) % p.data == a % p.data
  {
    ModOfWord(p, a + k * Step(p, fifo));
    if fifo {
      assert k * Step(p, fifo) == 0;
    } else {
      WholeSteps(a, k, p.data);
    }
  }

  lemma WholeSteps(a: nat, k: nat, d: nat)
    requires d > 0
    ensures (a + k * d) % d == a % d
  {
    var q := a / d;
    assert a == q * d + a % d;
    assert (q + k) * d == q * d + k * d;
    DivModUnique(a + k * d, d, q + k, a % d);
  }

  lemma ModOfWord(p: Port, s: nat)
    ensures Wrap64(s) % p.data == s % p.data
  {
  }

  /** Stepping the word address and adding a lane gives the lane of the stepped address. */
  lemma SteppedLane(p: Port, a: nat, k: nat, fifo: bool, lane: nat)
    requires a < TWO64 && lane < p.data
    ensures var w := Wrap64(a + k * Step(p, fifo));
            Wrap64(a - a % p.data + lane + k * Step(p, fifo)) == w - w % p.data + lane
  {
    var s := a + k * Step(p, fifo);
    var w := Wrap64(s);
    SteppedLow(p, a, k, fifo);
    WordRoom(p, w);
    var q := s / TWO64;
    assert s == q * TWO64 + w;
    assert s - a % p.data + lane == q * TWO64 + (w - w % p.data + lane);
    DivModUnique(s - a % p.data + lane, TWO64, q, w - w % p.data + lane);
  }

  lemma WordRoom(p: Port, w: nat)
    requires w < TWO64
    ensures w - w % p.data + p.data <= TWO64
  {
  }

  lemma StepShape(rec: Record, p: Port, base: nat, k: nat)
    ensures WriteAddress(p, rec, base, k) == Wrap64(base + k * Step(p, rec.wff))
  {
  }

  /* ---------- one record ---------- */

  /** Facts about a record made from a good plan that the two halves below share. */
  ghost predicate Made(p: Port, checked: bool, ops: seq<Op>, i: nat, n: nat, plan: Plan, rba: nat, rec: Record) {
    && ValidOps(p, ops) && i <= |ops| && GoodPlan(p, checked, ops, i, n, plan)
    && ReturnAddress(rba) && rec == MakeRecord(p, ops, i, plan, rba)
  }

  lemma MadeLane(p: Port, ops: seq<Op>, i: nat, plan: Plan, rba: nat)
    requires ValidOps(p, ops) && i + plan.wcount + plan.rcount <= |ops|
    ensures DecodeLane(p, MakeRecord(p, ops, i, plan, rba)) == Some(RecordLane(p, ops, i, plan))
  {
    hide SelectLane, SelectBits;
    LaneBounds(p, ops, i, plan);
    SelectRoundTrip(RecordLane(p, ops, i, plan), p.data);
  }

  lemma SameLane(p: Port, a: Op, b: Op)
    requires ValidOp(p, a) && ValidOp(p, b) && SameFormat(a, b) && Low(p, a) == Low(p, b)
    ensures LaneOf(p, a) == LaneOf(p, b)
  {
  }

  lemma MadeWrite(p: Port, ops: seq<Op>, i: nat, plan: Plan, rba: nat, k: nat)
    requires ValidOps(p, ops) && i + plan.wcount + plan.rcount <= |ops| && k < plan.wcount
    ensures var rec := MakeRecord(p, ops, i, plan, rba);
            && ValidOp(p, ops[i]) && RecordLane(p, ops, i, plan) == LaneOf(p, ops[i])
            && |rec.wvals| == plan.wcount && rec.wff == plan.fifo
            && rec.wbase == ops[i].addr && rec.wca == ops[i].cfg
            && rec.wvals[k] == ShiftUp(ops[i + k].value, LaneOf(p, ops[i]).shift)
  {
    hide LaneOf, ShiftUp;
    assert ValidOp(p, ops[i]);
  }

  /** The slave's `k`-th write of a packed record is the `k`-th operation. */
  lemma WriteIsOp(p: Port, bus: Bus, checked: bool, ops: seq<Op>, i: nat, n: nat, plan: Plan, rba: nat, rec: Record,
                  k: nat, g: Progress)
    requires Made(p, checked, ops, i, n, plan, rba, rec) && k < plan.wcount
    ensures |rec.wvals| == plan.wcount && i + k < |ops| && ValidOp(p, ops[i + k])
    ensures DoOp(p, bus, rba, ops[i + k], g) == Progress(WriteOne(p, bus, rec, k, g.x), g.back)
  {
    hide *;
    MadeOp(p, checked, ops, i, n, plan, rba, rec, k);
    var a, op := ops[i], ops[i + k];
    WriteAddressFits(p, a);
    SteppedLow(p, a.addr, k, plan.fifo);
    LowMeans(p, op);
    LowMeans(p, a);
    SameLane(p, a, op);
    LaneIsValid(p, op);
    StepShape(rec, p, rec.wbase, k);
    if !op.cfg {
      WriteLanes(p, a, op, k, plan.fifo, rec);
    }
    WriteMatches(p, bus, rec, k, op, rba, g);
  }

  /** How the `k`-th write of a record relates to its first. */
  lemma MadeOp(p: Port, checked: bool, ops: seq<Op>, i: nat, n: nat, plan: Plan, rba: nat, rec: Record, k: nat)
    requires Made(p, checked, ops, i, n, plan, rba, rec) && k < plan.wcount
    ensures i + k < |ops| && ValidOp(p, ops[i]) && ValidOp(p, ops[i + k])
    ensures var a, op := ops[i], ops[i + k];
            && SameFormat(a, op) && op.write && op.cfg == a.cfg
            && op.addr == Wrap64(a.addr + k * Step(p, plan.fifo))
            && |rec.wvals| == plan.wcount && rec.wff == plan.fifo && rec.wbase == a.addr && rec.wca == a.cfg
            && rec.wvals[k] == ShiftUp(op.value, LaneOf(p, a).shift)
            && DecodeLane(p, rec) == Some(LaneOf(p, a))
  {
    hide GoodPlan, MakeRecord, RecordLane, DecodeLane, LaneOf, Wrap64, Step, ValidOp, ShiftUp;
    RecordSpaces(p, checked, ops, i, n, plan);
    WriteFormats(p, checked, ops, i, n, plan, k);
    MadeLane(p, ops, i, plan, rba);
    MadeWrite(p, ops, i, plan, rba, k);
    assert ValidOp(p, ops[i + k]);
    WriteAddressFits(p, ops[i]);
    FirstWrite(p, ops[i], plan.fifo);
  }

  lemma LowMeans(p: Port, op: Op)
    ensures Low(p, op) == op.addr % p.data
  {
  }

  lemma FirstWrite(p: Port, a: Op, fifo: bool)
    requires a.addr < TWO64
    ensures a.addr == Wrap64(a.addr + 0 * Step(p, fifo))
  {
  }

  lemma WriteMatches(p: Port, bus: Bus, rec: Record, k: nat, op: Op, rba: nat, g: Progress)
    requires ValidOp(p, op) && op.write && k < |rec.wvals|
    requires DecodeLane(p, rec) == Some(LaneOf(p, op)) && (rec.wca <==> op.cfg)
    requires rec.wvals[k] == ShiftUp(op.value, LaneOf(p, op).shift)
    requires op.cfg ==> WriteAddress(p, rec, rec.wbase, k) == op.addr
    requires !op.cfg ==>
               && ValidLane(LaneOf(p, op), p.data)
               && WriteAddress(p, rec, Filter(p, rec.wbase) + LaneB(p, LaneOf(p, op)), k) == AddressB(p, op)
               && WriteAddress(p, rec, Filter(p, rec.wbase) + LaneOf(p, op).shift, k) == AddressL(p, op)
    ensures DoOp(p, bus, rba, op, g) == Progress(WriteOne(p, bus, rec, k, g.x), g.back)
  {
    hide Pow256, DecodeLane, LaneOf, LaneB, Filter, ShiftUp, ShiftDown, AddressB, AddressL, WriteAddress, Addressable;
    var lane := LaneOf(p, op);
    LaneIsValid(p, op);
    LaneRoundTrip(op.value, lane.shift, lane.size, p.data);
  }

  lemma WriteAddressFits(p: Port, op: Op)
    requires ValidOp(p, op)
    ensures op.addr < TWO64
  {
    if !op.cfg {
      BusAddressFits(p, op);
    }
  }

  /** Offsets of an operation inside its word, in either byte order. */
  lemma LaneOffsets(p: Port, op: Op)
    requires ValidOp(p, op)
    ensures ValidLane(LaneOf(p, op), p.data)
    ensures LaneB(p, LaneOf(p, op)) == if op.endian == Little then p.data - op.size - Low(p, op) else Low(p, op)
    ensures LaneOf(p, op).shift == if op.endian == Big then p.data - op.size - Low(p, op) else Low(p, op)
    ensures LaneB(p, LaneOf(p, op)) < p.data && LaneOf(p, op).shift < p.data
  {
    hide Low, ValidLane, Addressable, Pow256;
    LaneIsValid(p, op);
    LowFits(p, op);
  }

  lemma WriteLanes(p: Port, a: Op, op: Op, k: nat, fifo: bool, rec: Record)
    requires ValidOp(p, a) && ValidOp(p, op) && !a.cfg && !op.cfg && SameFormat(a, op)
    requires op.addr == Wrap64(a.addr + k * Step(p, fifo)) && Low(p, op) == Low(p, a)
    requires rec.wff == fifo
    ensures ValidLane(LaneOf(p, op), p.data)
    ensures WriteAddress(p, rec, Filter(p, a.addr) + LaneB(p, LaneOf(p, op)), k) == AddressB(p, op)
    ensures WriteAddress(p, rec, Filter(p, a.addr) + LaneOf(p, op).shift, k) == AddressL(p, op)
  {
    hide Pow256, LaneOf, LaneB, ValidLane, Filter, WriteAddress, Wrap64, Step;
    LaneOffsets(p, op);
    FilterOfAligned(p, a);
    BusAddressFits(p, a);
    var b, l := LaneB(p, LaneOf(p, op)), LaneOf(p, op).shift;
    StepShape(rec, p, Filter(p, a.addr) + b, k);
    StepShape(rec, p, Filter(p, a.addr) + l, k);
    SteppedLane(p, a.addr, k, fifo, b);
    SteppedLane(p, a.addr, k, fifo, l);
  }

  lemma {:induction false} WritesAreOps(p: Port, bus: Bus, checked: bool, ops: seq<Op>, i: nat, n: nat, plan: Plan,
                                        rba: nat, rec: Record, k: nat, g: Progress)
    requires Made(p, checked, ops, i, n, plan, rba, rec) && k <= plan.wcount && i + plan.wcount <= |ops|
    ensures DoOps(p, bus, rba, ops, i + k, plan.wcount - k, g) == Progress(Writes(p, bus, rec, k, g.x), g.back)
    decreases plan.wcount - k
  {
    hide DoOp, WriteOne, GoodPlan;
    if k < plan.wcount {
      WriteIsOp(p, bus, checked, ops, i, n, plan, rba, rec, k, g);
      var h := DoOp(p, bus, rba, ops[i + k], g);
      WritesAreOps(p, bus, checked, ops, i, n, plan, rba, rec, k + 1, h);
    }
  }

  /** Configuration writes carried by reply words. */
  function Values(lane: Lane, addr: nat, words: seq<nat>): seq<Access> {
    if words == [] then []
    else [ConfigWrite(lane.size, addr, ShiftDown(words[0], lane.shift, lane.size))] + Values(lane, addr, words[1..])
  }

  lemma ReadIsOp(p: Port, bus: Bus, checked: bool, ops: seq<Op>, i: nat, n: nat, plan: Plan, rba: nat, rec: Record,
                 k: nat, g: Progress)
    requires Made(p, checked, ops, i, n, plan, rba, rec) && k < plan.rcount
    ensures var (x, w) := ReadOne(p, bus, rec, k, g.x);
            var lane := RecordLane(p, ops, i, plan);
            DoOp(p, bus, rba, ops[i + plan.wcount + k], g)
            == Progress(x, g.back + [ConfigWrite(lane.size, rba, ShiftDown(w, lane.shift, lane.size))])
  {
    hide Pow256, EncodeSelect, DecodeLane, JoinsReads, JoinsWrites, LaneOf, ReadConfig;
    ReadFormats(p, checked, ops, i, n, plan, k);
    MadeLane(p, ops, i, plan, rba);
    var a, op := ops[i], ops[i + plan.wcount + k];
    assert ValidOp(p, a) && ValidOp(p, op);
    SameLane(p, a, op);
    assert rec.raddrs[k] == op.addr && (rec.rca <==> op.cfg) by {
      if plan.status { StatusHasNoReads(p, checked, ops, i, n, plan); }
    }
    ReadMatches(p, bus, rec, k, op, rba, g);
  }

  lemma ReadMatches(p: Port, bus: Bus, rec: Record, k: nat, op: Op, rba: nat, g: Progress)
    requires ValidOp(p, op) && !op.write && k < |rec.raddrs|
    requires DecodeLane(p, rec) == Some(LaneOf(p, op)) && rec.raddrs[k] == op.addr && (rec.rca <==> op.cfg)
    ensures var (x, w) := ReadOne(p, bus, rec, k, g.x);
            var lane := LaneOf(p, op);
            DoOp(p, bus, rba, op, g)
            == Progress(x, g.back + [ConfigWrite(lane.size, rba, ShiftDown(w, lane.shift, lane.size))])
  {
    hide Pow256, DecodeLane, LaneOf, ReadConfig, LaneB, Filter, ShiftUp, ShiftDown, AddressB, AddressL, ConfigAddress;
    var lane := LaneOf(p, op);
    LaneIsValid(p, op);
    ReadLanes(p, op);
    var v := if op.cfg then ReadConfig(op.size, ConfigAddress(p, op), g.x.error) else bus(g.x.count).value;
    LaneRoundTrip(v % Pow256(op.size), lane.shift, lane.size, p.data);
  }

  lemma ReadLanes(p: Port, op: Op)
    requires ValidOp(p, op)
    ensures ValidLane(LaneOf(p, op), p.data)
    ensures Filter(p, op.addr) + LaneB(p, LaneOf(p, op)) == ConfigAddress(p, op)
    ensures !op.cfg ==> Filter(p, op.addr) + LaneB(p, LaneOf(p, op)) == AddressB(p, op)
    ensures !op.cfg ==> Filter(p, op.addr) + LaneOf(p, op).shift == AddressL(p, op)
  {
    hide Pow256, LaneOf, LaneB, Filter;
    LaneOffsets(p, op);
    if !op.cfg {
      FilterOfAligned(p, op);
    }
  }

  lemma {:induction false} ReadsAreOps(p: Port, bus: Bus, checked: bool, ops: seq<Op>, i: nat, n: nat, plan: Plan,
                                       rba: nat, rec: Record, k: nat, g: Progress)
    requires Made(p, checked, ops, i, n, plan, rba, rec) && !plan.status
    requires k <= plan.rcount && i + plan.wcount + plan.rcount <= |ops|
    ensures |rec.raddrs| == plan.rcount
    ensures var (x, words) := Reads(p, bus, rec, k, g.x);
            DoOps(p, bus, rba, ops, i + plan.wcount + k, plan.rcount - k, g)
            == Progress(x, g.back + Values(RecordLane(p, ops, i, plan), rba, words))
    decreases plan.rcount - k
  {
    hide DoOp, ReadOne, GoodPlan, RecordLane;
    if k < plan.rcount {
      ReadIsOp(p, bus, checked, ops, i, n, plan, rba, rec, k, g);
      var (x1, w) := ReadOne(p, bus, rec, k, g.x);
      var h := DoOp(p, bus, rba, ops[i + plan.wcount + k], g);
      ReadsAreOps(p, bus, checked, ops, i, n, plan, rba, rec, k + 1, h);
      var (x2, ws) := Reads(p, bus, rec, k + 1, x1);
      var lane := RecordLane(p, ops, i, plan);
      assert Reads(p, bus, rec, k, g.x) == (x2, [w] + ws);
      assert ([w] + ws)[1..] == ws;
      assert Values(lane, rba, [w] + ws)
          == [ConfigWrite(lane.size, rba, ShiftDown(w, lane.shift, lane.size))] + Values(lane, rba, ws);
      assert h.back + Values(lane, rba, ws) == g.back + Values(lane, rba, [w] + ws);
    } else {
      assert g.back + [] == g.back;
    }
  }

  /** Reading the error register through the port returns its low-order bytes. */
  lemma StatusValue(p: Port, error: nat)
    ensures ReadConfig(p.data, StatusAddress(p), error) == error % Pow256(p.data)
  {
    var a := StatusAddress(p);
    var e := Encode(error, 8);
    EncodeSuffix(error, 8, p.data);
    assert (e + Zeros(8))[a..a + p.data] == e[a..];
    DecodeEncode(error, p.data);
  }

  lemma StatusIsRead(p: Port, bus: Bus, checked: bool, ops: seq<Op>, i: nat, n: nat, plan: Plan, rba: nat, rec: Record,
                     g: Progress)
    requires Made(p, checked, ops, i, n, plan, rba, rec) && plan.status
    ensures var (x, words) := Reads(p, bus, rec, 0, g.x);
            var lane := RecordLane(p, ops, i, plan);
            DoStatus(p, rba, g) == Progress(x, g.back + Values(lane, rba + 1, words))
  {
    hide GoodPlan, DecodeLane, EncodeSelect, RecordLane;
    RecordSpaces(p, checked, ops, i, n, plan);
    MadeLane(p, ops, i, plan, rba);
    FullWordLane(p, checked, ops, i, n, plan);
    assert rec.raddrs == [StatusAddress(p)] && rec.rca;
    hide *;
    StatusWord(p, bus, rec, rba, g);
  }

  lemma StatusWord(p: Port, bus: Bus, rec: Record, rba: nat, g: Progress)
    requires DecodeLane(p, rec) == Some(Lane(0, p.data)) && rec.raddrs == [StatusAddress(p)] && rec.rca
    ensures var (x, words) := Reads(p, bus, rec, 0, g.x);
            DoStatus(p, rba, g) == Progress(x, g.back + Values(Lane(0, p.data), rba + 1, words))
  {
    hide Pow256, DecodeLane, ReadConfig, Filter, ShiftUp, ShiftDown, StatusAddress;
    StatusValue(p, g.x.error);
    StatusFilter(p);
    var (x, w) := ReadOne(p, bus, rec, 0, g.x);
    assert Reads(p, bus, rec, 0, g.x) == (x, [w] + []);
    var v := g.x.error % Pow256(p.data);
    assert v % Pow256(p.data) == v by { DivModUnique(v, Pow256(p.data), 0, v); }
    LaneRoundTrip(v, 0, p.data, p.data);
    assert [w][1..] == [];
    NoValues(Lane(0, p.data), rba + 1);
  }

  lemma FullWordLane(p: Port, checked: bool, ops: seq<Op>, i: nat, n: nat, plan: Plan)
    requires ValidOps(p, ops) && i <= |ops| && GoodPlan(p, checked, ops, i, n, plan) && plan.status
    ensures RecordLane(p, ops, i, plan) == Lane(0, p.data)
  {
    if plan.wcount > 0 {
      assert ValidOp(p, ops[i]);
      LowFits(p, ops[i]);
    }
  }

  lemma StatusFilter(p: Port)
    ensures Filter(p, StatusAddress(p)) + LaneB(p, Lane(0, p.data)) == StatusAddress(p)
  {
    Pow256Mono(1, p.addr);
    Pow256Table();
    hide Pow256;
    var a := StatusAddress(p);
    assert a % Pow256(p.addr) == a by { DivModUnique(a, Pow256(p.addr), 0, a); }
    assert a % p.data == 0;
  }

  /* ---------- what replies deliver ---------- */

  const SILENT: Bus := k => Outcome(0, false)

  /** Configuration writes a master performs on receiving one reply record. */
  function DeliveredBy(p: Port, rec: Record): seq<Access> {
    Writes(p, SILENT, rec, 0, IDLE.x).trace
  }

  function Delivered(p: Port, replies: seq<Record>): seq<Access> {
    if replies == [] then [] else DeliveredBy(p, replies[0]) + Delivered(p, replies[1..])
  }

  lemma {:induction false} DeliveredConcat(p: Port, a: seq<Record>, b: seq<Record>)
    ensures Delivered(p, a + b) == Delivered(p, a) + Delivered(p, b)
    decreases |a|
  {
    hide DeliveredBy;
    if a == [] {
      assert a + b == b;
    } else {
      assert (a + b)[1..] == a[1..] + b;
      DeliveredConcat(p, a[1..], b);
    }
  }

  lemma DeliveredOne(p: Port, rec: Record)
    ensures Delivered(p, [rec]) == DeliveredBy(p, rec)
  {
    hide DeliveredBy;
    assert [rec][1..] == [];
  }

  lemma {:induction false} ReplyWrites(p: Port, rec: Record, words: seq<nat>, lane: Lane, k: nat, x: Exec)
    requires DecodeLane(p, rec) == Some(lane) && rec.bca && rec.rff && rec.rbase < TWO64 && k <= |words|
    ensures Writes(p, SILENT, Reply(rec, words), k, x).trace == x.trace + Values(lane, rec.rbase, words[k..])
    decreases |words| - k
  {
    if k < |words| {
      var y := WriteOne(p, SILENT, Reply(rec, words), k, x);
      ReplyWrites(p, rec, words, lane, k + 1, y);
      assert words[k..][1..] == words[k + 1..];
    }
  }

  lemma ReplyDelivers(p: Port, rec: Record, words: seq<nat>, lane: Lane)
    requires DecodeLane(p, rec) == Some(lane) && rec.bca && rec.rff && rec.rbase < TWO64
    ensures DeliveredBy(p, Reply(rec, words)) == Values(lane, rec.rbase, words)
  {
    ReplyWrites(p, rec, words, lane, 0, IDLE.x);
    assert words[0..] == words;
  }

  lemma TerminatorDelivers(p: Port)
    ensures DeliveredBy(p, TERMINATOR) == []
  {
  }

  /** A master that receives reply records performs exactly their configuration writes. */
  lemma {:induction false} MasterReceives(p: Port, bus: Bus, s: Session, replies: seq<Record>)
    requires forall r :: r in replies ==> r.raddrs == []
    ensures RunRecords(p, bus, s, replies).x.trace == s.x.trace + Delivered(p, replies)
    decreases |replies|
  {
    if replies != [] {
      var rec := replies[0];
      var more := WritesTrace(p, bus, SILENT, rec, 0, s.x, IDLE.x);
      assert DeliveredBy(p, rec) == more;
      MasterReceives(p, bus, StepRecord(p, bus, rec, s), replies[1..]);
    }
  }

  /* ---------- the whole cycle ---------- */

  /** Replies produced since session `s`. */
  function NewReplies(s: Session, t: Session): seq<Record>
    requires s.replies <= t.replies
  {
    t.replies[|s.replies|..]
  }

  lemma StepDelivers(p: Port, bus: Bus, rec: Record, s: Session, lane: Lane)
    requires DecodeLane(p, rec) == Some(lane) && rec.bca && rec.rff && rec.rbase < TWO64
    ensures var t := StepRecord(p, bus, rec, s);
            var (x, words) := Reads(p, bus, rec, 0, Writes(p, bus, rec, 0, s.x));
            && t.x == x && t.end == rec.cyc && s.replies <= t.replies
            && Delivered(p, NewReplies(s, t)) == Values(lane, rec.rbase, words)
  {
    hide Writes, DeliveredBy, DecodeLane, Reads, Values;
    var t := StepRecord(p, bus, rec, s);
    var (x, words) := Reads(p, bus, rec, 0, Writes(p, bus, rec, 0, s.x));
    TerminatorDelivers(p);
    DeliveredOne(p, TERMINATOR);
    if rec.raddrs != [] {
      ReplyDelivers(p, rec, words, lane);
      DeliveredOne(p, Reply(rec, words));
      assert NewReplies(s, t) == [Reply(rec, words)];
    } else {
      NoReads(p, bus, rec, Writes(p, bus, rec, 0, s.x), lane, rec.rbase, rec.rbase);
      NoValues(lane, rec.rbase);
      assert NewReplies(s, t) == [] || NewReplies(s, t) == [TERMINATOR];
    }
  }

  /** The slave's work on one packed record is the plain run of the operations it took, then of
      the status read it carries; its reply delivers what that run owes. */
  lemma RecordMeansOps(p: Port, bus: Bus, checked: bool, ops: seq<Op>, i: nat, n: nat, plan: Plan, rba: nat,
                       s: Session, back: seq<Access>)
    requires ValidOps(p, ops) && i <= |ops| && GoodPlan(p, checked, ops, i, n, plan) && ReturnAddress(rba)
    ensures var rec := MakeRecord(p, ops, i, plan, rba);
            var t := StepRecord(p, bus, rec, s);
            var g := DoOps(p, bus, rba, ops, i + plan.wcount, plan.rcount,
                           DoOps(p, bus, rba, ops, i, plan.wcount, Progress(s.x, back)));
            && s.replies <= t.replies && t.end == plan.last
            && (if plan.status then DoStatus(p, rba, g) else g)
               == Progress(t.x, back + Delivered(p, NewReplies(s, t)))
  {
    hide GoodPlan, StepRecord, MakeRecord, DoOp, DecodeLane, RecordLane, Writes, Reads, DoOps, Values, Delivered;
    RecordSpaces(p, checked, ops, i, n, plan);
    var rec := MakeRecord(p, ops, i, plan, rba);
    assert Made(p, checked, ops, i, n, plan, rba, rec);
    MadeFields(p, ops, i, plan, rba);
    var lane := RecordLane(p, ops, i, plan);
    MadeLane(p, ops, i, plan, rba);
    StepDelivers(p, bus, rec, s, lane);
    var g0 := Progress(s.x, back);
    WritesAreOps(p, bus, checked, ops, i, n, plan, rba, rec, 0, g0);
    var g1 := DoOps(p, bus, rba, ops, i, plan.wcount, g0);
    if plan.status {
      StatusHasNoReads(p, checked, ops, i, n, plan);
      StatusIsRead(p, bus, checked, ops, i, n, plan, rba, rec, g1);
      NoOps(p, bus, rba, ops, i + plan.wcount, g1);
    } else {
      ReadsAreOps(p, bus, checked, ops, i, n, plan, rba, rec, 0, g1);
      if plan.rcount == 0 {
        NoReads(p, bus, rec, Writes(p, bus, rec, 0, s.x), lane, rec.rbase, rba);
      }
    }
  }

  lemma NoOps(p: Port, bus: Bus, rba: nat, ops: seq<Op>, i: nat, g: Progress)
    requires ValidOps(p, ops) && i <= |ops|
    ensures DoOps(p, bus, rba, ops, i, 0, g) == g
  {
  }

  lemma NoReads(p: Port, bus: Bus, rec: Record, x: Exec, lane: Lane, a: nat, b: nat)
    requires rec.raddrs == []
    ensures Reads(p, bus, rec, 0, x).1 == []
    ensures Values(lane, a, []) == Values(lane, b, [])
  {
  }

  lemma NoValues(lane: Lane, a: nat)
    ensures Values(lane, a, []) == []
  {
  }

  lemma MadeFields(p: Port, ops: seq<Op>, i: nat, plan: Plan, rba: nat)
    requires ValidOps(p, ops) && i + plan.wcount + plan.rcount <= |ops| && ReturnAddress(rba)
    ensures var rec := MakeRecord(p, ops, i, plan, rba);
            && rec.bca && rec.rff && rec.cyc == plan.last && rec.rbase < TWO64
            && rec.rbase == (if plan.status then rba + 1 else if plan.rcount > 0 then rba else 0)
            && |rec.wvals| == plan.wcount
            && |rec.raddrs| == (if plan.status then 1 else plan.rcount)
  {
  }

  lemma StatusHasNoReads(p: Port, checked: bool, ops: seq<Op>, i: nat, n: nat, plan: Plan)
    requires i <= |ops| && GoodPlan(p, checked, ops, i, n, plan) && plan.status
    ensures plan.rcount == 0
  {
  }

  lemma RecordSpaces(p: Port, checked: bool, ops: seq<Op>, i: nat, n: nat, plan: Plan)
    requires i <= |ops| && GoodPlan(p, checked, ops, i, n, plan)
    ensures i + plan.wcount + plan.rcount <= |ops|
    ensures OneSpace(ops, i, plan.wcount) && OneSpace(ops, i + plan.wcount, plan.rcount)
  {
    forall m | i <= m < i + plan.wcount
      ensures ops[m].cfg == ops[i].cfg
    {
      WriteFormats(p, checked, ops, i, n, plan, m - i);
    }
    var j := i + plan.wcount;
    forall m | j <= m < j + plan.rcount
      ensures ops[m].cfg == ops[j].cfg
    {
      ReadFormats(p, checked, ops, i, n, plan, m - j);
    }
  }

  /** The plain run follows a good plan. */
  lemma DirectFollowsPlan(p: Port, bus: Bus, checked: bool, ops: seq<Op>, i: nat, n: nat, plan: Plan, rba: nat,
                          g: Progress)
    requires ValidOps(p, ops) && i <= |ops| && GoodPlan(p, checked, ops, i, n, plan)
    ensures var h := DoOps(p, bus, rba, ops, i + plan.wcount, plan.rcount, DoOps(p, bus, rba, ops, i, plan.wcount, g));
            var h' := if plan.status then DoStatus(p, rba, h) else h;
            Direct(p, bus, checked, ops, i, n, rba, g)
            == if plan.last then h' else Direct(p, bus, checked, ops, i + plan.wcount + plan.rcount, plan.n, rba, h')
  {
    hide DoOp, DoStatus, DoOps;
    var j := i + plan.wcount;
    RecordSpaces(p, checked, ops, i, n, plan);
    DirectRun(p, bus, checked, ops, i, plan.wcount, n, rba, g);
    var g1 := DoOps(p, bus, rba, ops, i, plan.wcount, g);
    var n1 := n + Spent(ops, i, plan.wcount);
    DirectRun(p, bus, checked, ops, j, plan.rcount, n1, rba, g1);
  }

  /** MAIN THEOREM of packing. Whatever the slave's state and whatever its devices answer, the
      records of a cycle make it perform exactly the plain run, and its replies deliver exactly
      the values and error words that run owes. */
  lemma {:induction false} PackingPreservesMeaning(p: Port, bus: Bus, checked: bool, ops: seq<Op>, i: nat, n: nat,
                                                   rba: nat, s: Session, back: seq<Access>)
    requires ValidOps(p, ops) && Pending(p, checked, ops, i, n) && ReturnAddress(rba)
    ensures var t := RunRecords(p, bus, s, CycleRecords(p, checked, ops, i, n, rba));
            && s.replies <= t.replies && t.end
            && Direct(p, bus, checked, ops, i, n, rba, Progress(s.x, back))
               == Progress(t.x, back + Delivered(p, NewReplies(s, t)))
    decreases |ops| - i, n
  {
    hide GoodPlan, PlanRecord, MakeRecord, StepRecord, DoOps, DoStatus, Delivered, Direct, ReturnAddress, ValidOps,
        CycleRecords, RunRecords, Pending;
    PlanIsGood(p, checked, ops, i, n);
    PendingBounds(p, checked, ops, i, n);
    var plan := PlanRecord(p, checked, ops, i, n);
    RecordSpaces(p, checked, ops, i, n, plan);
    var rec := MakeRecord(p, ops, i, plan, rba);
    var t := StepRecord(p, bus, rec, s);
    RecordMeansOps(p, bus, checked, ops, i, n, plan, rba, s, back);
    DirectFollowsPlan(p, bus, checked, ops, i, n, plan, rba, Progress(s.x, back));
    CycleUnfolds(p, bus, checked, ops, i, n, rba, s);
    if !plan.last {
      var i1 := i + plan.wcount + plan.rcount;
      NextIsPending(p, checked, ops, i, n, plan);
      PackingPreservesMeaning(p, bus, checked, ops, i1, plan.n, rba, t, back + Delivered(p, NewReplies(s, t)));
      var u := RunRecords(p, bus, t, CycleRecords(p, checked, ops, i1, plan.n, rba));
      assert NewReplies(s, u) == NewReplies(s, t) + NewReplies(t, u);
      DeliveredConcat(p, NewReplies(s, t), NewReplies(t, u));
    }
  }

  lemma PendingBounds(p: Port, checked: bool, ops: seq<Op>, i: nat, n: nat)
    requires Pending(p, checked, ops, i, n)
    ensures i <= |ops|
  {
  }

  /** Running a cycle's records is running its first one, then those of the rest of the list. */
  lemma CycleUnfolds(p: Port, bus: Bus, checked: bool, ops: seq<Op>, i: nat, n: nat, rba: nat, s: Session)
    requires ValidOps(p, ops) && Pending(p, checked, ops, i, n)
    ensures var plan := PlanRecord(p, checked, ops, i, n);
            && i + plan.wcount + plan.rcount <= |ops|
            && var t := StepRecord(p, bus, MakeRecord(p, ops, i, plan, rba), s);
            && (plan.last ==> RunRecords(p, bus, s, CycleRecords(p, checked, ops, i, n, rba)) == t)
            && (!plan.last ==>
                  && Pending(p, checked, ops, i + plan.wcount + plan.rcount, plan.n)
                  && RunRecords(p, bus, s, CycleRecords(p, checked, ops, i, n, rba))
                     == RunRecords(p, bus, t, CycleRecords(p, checked, ops, i + plan.wcount + plan.rcount, plan.n,
                         rba)))
  {
    hide GoodPlan, PlanRecord, MakeRecord, StepRecord;
    PlanIsGood(p, checked, ops, i, n);
    var plan := PlanRecord(p, checked, ops, i, n);
    RecordSpaces(p, checked, ops, i, n, plan);
    var rec := MakeRecord(p, ops, i, plan, rba);
    var recs := CycleRecords(p, checked, ops, i, n, rba);
    if plan.last {
      assert recs == [rec] && recs[1..] == [];
    } else {
      NextIsPending(p, checked, ops, i, n, plan);
      assert recs[0] == rec && recs[1..] == CycleRecords(p, checked, ops, i + plan.wcount + plan.rcount, plan.n, rba);
    }
  }

  lemma NextIsPending(p: Port, checked: bool, ops: seq<Op>, i: nat, n: nat, plan: Plan)
    requires i <= |ops| && GoodPlan(p, checked, ops, i, n, plan) && !plan.last
    ensures Pending(p, checked, ops, i + plan.wcount + plan.rcount, plan.n)
    ensures plan.wcount + plan.rcount > 0 || plan.n < n
  {
  }
}
