/** How a master packs one cycle of operations into records, and the plain op-by-op meaning the
    packing has to preserve. An operation list is a sequence; the source's list cursors are
    indices into it, with `|ops|` for the end of the list. */
module Master {
  import opened Bytes
  import opened Widths
  import opened Format
  import opened Slave

  datatype Endian = NoEndian | Big | Little

  datatype Status =
    Ok | Fail | BadAddress | BadWidth | Overflow | BadEndian | Busy | Timeout | OutOfMemory | Segfault

  /** An operation as the user queued it: `format` offers sizes (low nibble) and byte orders. */
  datatype Request = Request(write: bool, cfg: bool, addr: nat, format: bv8, value: nat)

  /** An operation after validation: one size in bytes, and a byte order unless it is a full word. */
  datatype Op = Op(write: bool, cfg: bool, addr: nat, size: nat, endian: Endian, value: nat)

  datatype Verdict = Accepted(op: Op) | Rejected(status: Status)

  predicate Addressable(p: Port, op: Op)
    requires op.size > 0
  {
    op.addr % op.size == 0 && op.addr < if op.cfg then 0x1_0000 else Pow256(p.addr)
  }

  predicate ValidOp(p: Port, op: Op) {
    && IsWidth(op.size) && op.size <= p.data
    && (op.endian == NoEndian <==> op.size == p.data)
    && Addressable(p, op)
    && (op.write ==> op.value < Pow256(op.size))
  }

  predicate ValidOps(p: Port, ops: seq<Op>) {
    forall op :: op in ops ==> ValidOp(p, op)
  }

  /** Largest size on offer that the port can move; 0 if there is none. */
  function ChosenSize(data: bv8, format: bv8): bv8 { Refine(format & (data - 1 + data)) }

  function OrderOf(endian: bv8): Endian {
    if endian == 0x10 then Big else if endian == 0x20 then Little else NoEndian
  }

  function Validate(p: Port, r: Request): Verdict {
    var data := p.data as bv8;
    var size := ChosenSize(data, r.format);
    var endian := if size == data then 0 else r.format & 0x30;
    if size == 0 then Rejected(BadWidth)
    else if endian == 0x30 || (size != data && endian == 0) then Rejected(BadEndian)
    else
      var op := Op(r.write, r.cfg, r.addr, size as nat, OrderOf(endian), r.value);
      if !Addressable(p, op) then Rejected(BadAddress)
      else if op.write && op.value >= Pow256(op.size) then Rejected(BadWidth)
      else Accepted(op)
  }

  /** A format offers a size when it has that size's bit. */
  predicate Offers(format: bv8, size: bv8) {
    (size == 1 || size == 2 || size == 4 || size == 8) && format & size == size
  }

  lemma ChosenSizeLargest(data: bv8, format: bv8)
    requires data == 1 || data == 2 || data == 4 || data == 8
    ensures var s := ChosenSize(data, format);
            && (s != 0 ==> Offers(format, s) && s <= data)
            && (forall t: bv8 :: Offers(format, t) && t <= data ==> t <= s)
  {
  }

  /** An accepted operation is valid, keeps everything the user asked for, and uses the largest
      offered size the port supports. */
  lemma ValidateSound(p: Port, r: Request)
    ensures var v := Validate(p, r);
            v.Accepted? ==>
              && ValidOp(p, v.op)
              && v.op.write == r.write && v.op.cfg == r.cfg && v.op.addr == r.addr && v.op.value == r.value
              && Offers(r.format, v.op.size as bv8)
              && (forall t: bv8 :: Offers(r.format, t) && t <= p.data as bv8 ==> t <= v.op.size as bv8)
  {
    hide ChosenSize, Pow256;
    var data := p.data as bv8;
    var size := ChosenSize(data, r.format);
    ChosenSizeLargest(data, r.format);
    if size != 0 {
      SizeBits(size, data);
    }
  }

  /** The largest size on offer that the port can move. */
  ghost predicate LargestOffer(p: Port, r: Request, s: bv8) {
    && Offers(r.format, s) && s <= p.data as bv8
    && forall t: bv8 :: Offers(r.format, t) && t <= p.data as bv8 ==> t <= s
  }

  /** Without a size that the port can move the width is bad. Otherwise the largest such size is used,
      and validation names the first of these that fails: a byte order, exactly one, unless it is a
      full word; an address aligned to the size and within its space; a value that fits. */
  lemma ValidateExact(p: Port, r: Request)
    ensures (forall t: bv8 :: Offers(r.format, t) ==> t > p.data as bv8) ==> Validate(p, r) == Rejected(BadWidth)
    ensures forall s: bv8 :: LargestOffer(p, r, s) ==>
              s as nat > 0 && Validate(p, r) == Judged(p, r, s as nat)
  {
    hide ChosenSize, Pow256, OrderOf;
    var data := p.data as bv8;
    ChosenSizeLargest(data, r.format);
    EndianBits(r.format);
    forall s: bv8 | LargestOffer(p, r, s) ensures s as nat > 0 && Validate(p, r) == Judged(p, r, s as nat) {
      assert ChosenSize(data, r.format) == s;
      SizeBits(s, data);
    }
  }

  lemma EndianBits(format: bv8)
    ensures var e, big, little := format & 0x30, format & 0x10 != 0, format & 0x20 != 0;
            && (big == little <==> e == 0 || e == 0x30)
            && (big != little ==> OrderOf(e) == if big then Big else Little)
    ensures OrderOf(0) == NoEndian
  {
  }

  /** The verdict on a request that uses `size` bytes. */
  function Judged(p: Port, r: Request, size: nat): Verdict
    requires size > 0
  {
    var big, little := r.format & 0x10 != 0, r.format & 0x20 != 0;
    if size != p.data && big == little then Rejected(BadEndian)
    else if r.addr % size != 0 || r.addr >= (if r.cfg then 0x1_0000 else Pow256(p.addr)) then Rejected(BadAddress)
    else if r.write && r.value >= Pow256(size) then Rejected(BadWidth)
    else Accepted(Op(r.write, r.cfg, r.addr, size,
        if size == p.data then NoEndian else if big then Big else Little, r.value))
  }

  lemma SizeBits(size: bv8, data: bv8)
    requires size == 1 || size == 2 || size == 4 || size == 8
    requires data == 1 || data == 2 || data == 4 || data == 8
    ensures IsWidth(size as nat) && (size as nat) as bv8 == size
    ensures size <= data <==> size as nat <= data as nat
    ensures size == data <==> size as nat == data as nat
  {
  }

  /* ---------- lanes and addresses ---------- */

  function Low(p: Port, op: Op): nat { op.addr % p.data }

  /** Byte lane of an operation: big-endian words number their bytes from the other end. */
  function LaneOf(p: Port, op: Op): Lane
    requires ValidOp(p, op)
  {
    LowFits(p, op);
    Lane(if op.endian == Big then p.data - (Low(p, op) + op.size) else Low(p, op), op.size)
  }

  lemma LowFits(p: Port, op: Op)
    requires ValidOp(p, op)
    ensures Low(p, op) % op.size == 0 && Low(p, op) + op.size <= p.data
    ensures op.size == p.data ==> Low(p, op) == 0
    ensures (p.data - (Low(p, op) + op.size)) % op.size == 0
  {
  }

  lemma LaneIsValid(p: Port, op: Op)
    requires ValidOp(p, op)
    ensures ValidLane(LaneOf(p, op), p.data) && LaneOf(p, op).size == op.size
  {
    LowFits(p, op);
  }

  /** The same bytes of the same word, addressed in the opposite byte order. */
  function Mirror(p: Port, op: Op): nat
    requires ValidOp(p, op)
  {
    LowFits(p, op);
    op.addr - Low(p, op) + (p.data - op.size - Low(p, op))
  }

  /** Address a big-endian device sees. */
  function AddressB(p: Port, op: Op): nat
    requires ValidOp(p, op)
  {
    if op.endian == Little then Mirror(p, op) else op.addr
  }

  /** Address a little-endian device sees. */
  function AddressL(p: Port, op: Op): nat
    requires ValidOp(p, op)
  {
    if op.endian == Big then Mirror(p, op) else op.addr
  }

  /** Address at which the slave reads configuration space: it keeps only the bits the port
      decodes and always takes the big-endian lane. */
  function ConfigAddress(p: Port, op: Op): nat
    requires ValidOp(p, op)
  {
    LowFits(p, op);
    Filter(p, op.addr) + if op.endian == Little then p.data - op.size - Low(p, op) else Low(p, op)
  }

  /* ---------- packing ---------- */

  /** Bus operations a status read can report on. */
  function MaxOps(p: Port): nat { 8 * p.data }

  /** In a checked cycle, no further bus operation may be packed before a status read. */
  predicate Full(p: Port, checked: bool, n: nat) { checked && n >= MaxOps(p) }

  function Cost(op: Op): nat { if op.cfg then 0 else 1 }

  predicate SameFormat(a: Op, b: Op) { a.size == b.size && a.endian == b.endian }

  /** Distance between the addresses of consecutive writes. */
  function Step(p: Port, fifo: bool): nat { if fifo then 0 else p.data }

  /** Operation `i + k` can join the writes that start at `i`. */
  predicate JoinsWrites(p: Port, ops: seq<Op>, i: nat, k: nat, step: nat)
    requires i < |ops|
  {
    && i + k < |ops| && ops[i + k].write && ops[i + k].cfg == ops[i].cfg
    && SameFormat(ops[i + k], ops[i]) && ops[i + k].addr == Wrap64(ops[i].addr + k * step)
  }

  function WriteRun(p: Port, checked: bool, ops: seq<Op>, i: nat, k: nat, n: nat, step: nat): nat
    requires i < |ops|
    decreases |ops| - (i + k)
  {
    if JoinsWrites(p, ops, i, k, step) && k < MAX_COUNT && !Full(p, checked, n)
    then WriteRun(p, checked, ops, i, k + 1, n + Cost(ops[i]), step)
    else k
  }

  /** Operation `j + k` can join the reads that start at `j`. */
  predicate JoinsReads(p: Port, ops: seq<Op>, j: nat, k: nat)
    requires j < |ops|
  {
    && j + k < |ops| && !ops[j + k].write && ops[j + k].cfg == ops[j].cfg
    && SameFormat(ops[j + k], ops[j]) && Low(p, ops[j + k]) == Low(p, ops[j])
  }

  function ReadRun(p: Port, checked: bool, ops: seq<Op>, j: nat, k: nat, n: nat): nat
    requires j < |ops|
    decreases |ops| - (j + k)
  {
    if JoinsReads(p, ops, j, k) && k < MAX_COUNT && !Full(p, checked, n)
    then ReadRun(p, checked, ops, j, k + 1, n + Cost(ops[j]))
    else k
  }

  /** One record: how many writes and reads it takes from the list, whether it carries a status
      read, whether it ends the cycle, and the bus operations left unreported after it. */
  datatype Plan = Plan(fifo: bool, wcount: nat, rcount: nat, status: bool, last: bool, n: nat)

  predicate StartsWrites(p: Port, checked: bool, ops: seq<Op>, i: nat, n: nat) {
    !Full(p, checked, n) && i < |ops| && ops[i].write
  }

  /** The first two writes go to one address, so the run is a FIFO. */
  predicate StartsFifo(p: Port, checked: bool, ops: seq<Op>, i: nat, n: nat)
    requires i < |ops|
  {
    JoinsWrites(p, ops, i, 1, 0) && !Full(p, checked, n + Cost(ops[i]))
  }

  function WriteCount(p: Port, checked: bool, ops: seq<Op>, i: nat, n: nat): nat {
    if !StartsWrites(p, checked, ops, i, n) then 0
    else WriteRun(p, checked, ops, i, 1, n + Cost(ops[i]),
                  Step(p, StartsFifo(p, checked, ops, i, n)))
  }

  /** Operation `j` may open the reads of a record whose first operation is `i`. */
  predicate StartsReads(p: Port, checked: bool, ops: seq<Op>, i: nat, j: nat, n: nat)
    requires i <= j
  {
    && !Full(p, checked, n) && j < |ops| && !ops[j].write
    && (i < j ==> SameFormat(ops[j], ops[i]) && Low(p, ops[j]) == Low(p, ops[i]))
  }

  function ReadCount(p: Port, checked: bool, ops: seq<Op>, i: nat, j: nat, n: nat): nat
    requires i <= j
  {
    if !StartsReads(p, checked, ops, i, j, n) then 0
    else ReadRun(p, checked, ops, j, 1, n + Cost(ops[j]))
  }

  function Spent(ops: seq<Op>, i: nat, count: nat): nat
    requires count > 0 ==> i < |ops|
  {
    if count == 0 then 0 else count * Cost(ops[i])
  }

  function PlanRecord(p: Port, checked: bool, ops: seq<Op>, i: nat, n: nat): Plan
    requires i <= |ops|
  {
    var w := WriteCount(p, checked, ops, i, n);
    var n1 := n + Spent(ops, i, w);
    var r := ReadCount(p, checked, ops, i, i + w, n1);
    var n2 := n1 + Spent(ops, i + w, r);
    var status := && r == 0 && (w == 0 || ops[i].size == p.data)
                  && (Full(p, checked, n2) || (i + w == |ops| && checked && n2 > 0));
    Plan(w >= 2 && StartsFifo(p, checked, ops, i, n), w, r, status,
         i + w + r == |ops| && (!checked || n2 == 0 || status),
         if status then 0 else n2)
  }

  /** There is work left: operations, or bus operations nobody has reported on. */
  predicate Pending(p: Port, checked: bool, ops: seq<Op>, i: nat, n: nat) {
    i <= |ops| && (checked ==> n <= MaxOps(p)) && (i < |ops| || (checked && n > 0))
  }

  lemma {:induction false} WriteRunFacts(p: Port, checked: bool, ops: seq<Op>, i: nat, k: nat, n: nat, step: nat)
    requires i < |ops| && 1 <= k <= MAX_COUNT && i + k <= |ops|
    requires forall m :: 0 < m < k ==> JoinsWrites(p, ops, i, m, step)
    requires checked ==> n <= MaxOps(p)
    ensures var c := WriteRun(p, checked, ops, i, k, n, step);
            && k <= c <= MAX_COUNT && i + c <= |ops|
            && (forall m :: 0 < m < c ==> JoinsWrites(p, ops, i, m, step))
            && (checked ==> n + (c - k) * Cost(ops[i]) <= MaxOps(p))
            && (checked && c > k ==> n + (c - k - 1) * Cost(ops[i]) < MaxOps(p))
    decreases |ops| - (i + k)
  {
    if JoinsWrites(p, ops, i, k, step) && k < MAX_COUNT && !Full(p, checked, n) {
      WriteRunFacts(p, checked, ops, i, k + 1, n + Cost(ops[i]), step);
    }
  }

  lemma {:induction false} ReadRunFacts(p: Port, checked: bool, ops: seq<Op>, j: nat, k: nat, n: nat)
    requires j < |ops| && 1 <= k <= MAX_COUNT && j + k <= |ops|
    requires forall m :: 0 < m < k ==> JoinsReads(p, ops, j, m)
    requires checked ==> n <= MaxOps(p)
    ensures var c := ReadRun(p, checked, ops, j, k, n);
            && k <= c <= MAX_COUNT && j + c <= |ops|
            && (forall m :: 0 < m < c ==> JoinsReads(p, ops, j, m))
            && (checked ==> n + (c - k) * Cost(ops[j]) <= MaxOps(p))
            && (checked && c > k ==> n + (c - k - 1) * Cost(ops[j]) < MaxOps(p))
    decreases |ops| - (j + k)
  {
    if JoinsReads(p, ops, j, k) && k < MAX_COUNT && !Full(p, checked, n) {
      ReadRunFacts(p, checked, ops, j, k + 1, n + Cost(ops[j]));
    }
  }

  /** The writes a record takes: a FIFO or a stride-sequential run in one address space. */
  predicate GoodWrites(p: Port, checked: bool, ops: seq<Op>, i: nat, n: nat, w: nat, fifo: bool) {
    && w <= MAX_COUNT && i + w <= |ops|
    && (w > 0 ==> ops[i].write)
    && (forall m :: 0 < m < w ==> JoinsWrites(p, ops, i, m, Step(p, fifo)))
    && (checked && w > 0 ==> n + Spent(ops, i, w) <= MaxOps(p) && n + (w - 1) * Cost(ops[i]) < MaxOps(p))
  }

  predicate GoodReads(p: Port, checked: bool, ops: seq<Op>, j: nat, n: nat, r: nat) {
    && r <= MAX_COUNT && j + r <= |ops|
    && (r > 0 ==> !ops[j].write)
    && (forall m :: 0 < m < r ==> JoinsReads(p, ops, j, m))
    && (checked && r > 0 ==> n + Spent(ops, j, r) <= MaxOps(p) && n + (r - 1) * Cost(ops[j]) < MaxOps(p))
  }

  lemma WriteCountFacts(p: Port, checked: bool, ops: seq<Op>, i: nat, n: nat)
    requires i <= |ops| && (checked ==> n <= MaxOps(p))
    ensures GoodWrites(p, checked, ops, i, n, WriteCount(p, checked, ops, i, n),
                       PlanRecord(p, checked, ops, i, n).fifo)
    ensures WriteCount(p, checked, ops, i, n) == 0 <==> !StartsWrites(p, checked, ops, i, n)
  {
    if StartsWrites(p, checked, ops, i, n) {
      var step := Step(p, StartsFifo(p, checked, ops, i, n));
      WriteRunFacts(p, checked, ops, i, 1, n + Cost(ops[i]), step);
    }
  }

  lemma ReadCountFacts(p: Port, checked: bool, ops: seq<Op>, i: nat, j: nat, n: nat)
    requires i <= j <= |ops| && (checked ==> n <= MaxOps(p))
    ensures GoodReads(p, checked, ops, j, n, ReadCount(p, checked, ops, i, j, n))
    ensures ReadCount(p, checked, ops, i, j, n) == 0 <==> !StartsReads(p, checked, ops, i, j, n)
  {
    if StartsReads(p, checked, ops, i, j, n) {
      ReadRunFacts(p, checked, ops, j, 1, n + Cost(ops[j]));
    }
  }

  /** What every planned record satisfies. Termination of packing is the last clause: operations
      are consumed, or a status read clears a positive count. */
  ghost predicate GoodPlan(p: Port, checked: bool, ops: seq<Op>, i: nat, n: nat, plan: Plan)
    requires i <= |ops|
  {
    var j := i + plan.wcount;
    && GoodWrites(p, checked, ops, i, n, plan.wcount, plan.fifo)
    && var n1 := n + Spent(ops, i, plan.wcount);
    && GoodReads(p, checked, ops, j, n1, plan.rcount)
    && var n2 := n1 + Spent(ops, j, plan.rcount);
    && (plan.wcount > 0 && plan.rcount > 0 ==> SameFormat(ops[j], ops[i]) && Low(p, ops[j]) == Low(p, ops[i]))
    && (plan.status ==> checked && plan.rcount == 0 && (plan.wcount > 0 ==> ops[i].size == p.data))
    && (plan.status ==> n2 == MaxOps(p) || (j == |ops| && 0 < n2 < MaxOps(p)))
    && plan.n == (if plan.status then 0 else n2)
    && (checked ==> n2 <= MaxOps(p))
    && (plan.last ==> j + plan.rcount == |ops| && (checked ==> plan.n == 0))
    && (!plan.last ==> Pending(p, checked, ops, j + plan.rcount, plan.n))
    && (plan.wcount + plan.rcount > 0 || (plan.status && n > 0))
  }

  lemma PlanIsGood(p: Port, checked: bool, ops: seq<Op>, i: nat, n: nat)
    requires Pending(p, checked, ops, i, n)
    ensures GoodPlan(p, checked, ops, i, n, PlanRecord(p, checked, ops, i, n))
  {
    hide WriteRun, ReadRun;
    WriteCountFacts(p, checked, ops, i, n);
    var w := WriteCount(p, checked, ops, i, n);
    var n1 := n + Spent(ops, i, w);
    ReadCountFacts(p, checked, ops, i, i + w, n1);
  }

  /* ---------- formatting ---------- */

  /** Byte lanes of a record: those of its first operation, or the full word for a lone status read. */
  function RecordLane(p: Port, ops: seq<Op>, i: nat, plan: Plan): Lane
    requires ValidOps(p, ops) && (plan.wcount + plan.rcount > 0 ==> i < |ops|)
  {
    if plan.wcount + plan.rcount > 0 then LaneOf(p, ops[i]) else Lane(0, p.data)
  }

  function WriteWords(ops: seq<Op>, i: nat, count: nat, shift: nat): (ws: seq<nat>)
    requires i + count <= |ops|
    ensures |ws| == count
  {
    seq<nat>(count, k requires 0 <= k < count => ShiftUp(ops[i + k].value, shift))
  }

  function ReadWords(ops: seq<Op>, j: nat, count: nat): (ws: seq<nat>)
    requires j + count <= |ops|
    ensures |ws| == count
  {
    seq<nat>(count, k requires 0 <= k < count => ops[j + k].addr)
  }

  /** Where the error register is read, so that the port's width covers its low-order bytes. */
  function StatusAddress(p: Port): nat { 8 - p.data }

  /** The record a plan stands for. Values return to `rba`, status words to `rba + 1`. */
  function MakeRecord(p: Port, ops: seq<Op>, i: nat, plan: Plan, rba: nat): Record
    requires ValidOps(p, ops) && i + plan.wcount + plan.rcount <= |ops|
  {
    var j := i + plan.wcount;
    var lane := RecordLane(p, ops, i, plan);
    LaneBounds(p, ops, i, plan);
    Record(true, plan.status || (plan.rcount > 0 && ops[j].cfg), true, plan.last,
           plan.wcount > 0 && ops[i].cfg, plan.fifo, EncodeSelect(lane),
           if plan.wcount > 0 then ops[i].addr else 0,
           WriteWords(ops, i, plan.wcount, lane.shift),
           if plan.status then rba + 1 else if plan.rcount > 0 then rba else 0,
           if plan.status then [StatusAddress(p)] else ReadWords(ops, j, plan.rcount))
  }

  lemma LaneBounds(p: Port, ops: seq<Op>, i: nat, plan: Plan)
    requires ValidOps(p, ops) && (plan.wcount + plan.rcount > 0 ==> i < |ops|)
    ensures ValidLane(RecordLane(p, ops, i, plan), p.data)
  {
    if plan.wcount + plan.rcount > 0 {
      LaneIsValid(p, ops[i]);
    }
  }

  /** Return addresses are even and lie in the upper half of configuration space. */
  predicate ReturnAddress(rba: nat) { 0x8000 <= rba < 0x1_0000 && rba % 2 == 0 }

  /** All records of a cycle from operation `i` on, with `n` bus operations still unreported. */
  function CycleRecords(p: Port, checked: bool, ops: seq<Op>, i: nat, n: nat, rba: nat): seq<Record>
    requires ValidOps(p, ops) && Pending(p, checked, ops, i, n)
    decreases |ops| - i, n
  {
    PlanIsGood(p, checked, ops, i, n);
    var plan := PlanRecord(p, checked, ops, i, n);
    [MakeRecord(p, ops, i, plan, rba)]
    + if plan.last then []
      else CycleRecords(p, checked, ops, i + plan.wcount + plan.rcount, plan.n, rba)
  }

  lemma MadeRecordFits(p: Port, checked: bool, ops: seq<Op>, i: nat, n: nat, rba: nat, plan: Plan)
    requires ValidOps(p, ops) && i <= |ops| && GoodPlan(p, checked, ops, i, n, plan) && ReturnAddress(rba)
    ensures Fits(p, MakeRecord(p, ops, i, plan, rba))
  {
    hide Pow256, EncodeSelect, JoinsReads, JoinsWrites;
    var rec := MakeRecord(p, ops, i, plan, rba);
    var lane := RecordLane(p, ops, i, plan);
    LaneBounds(p, ops, i, plan);
    Pow256Table();
    Pow256Mono(2, Align(p));
    Pow256Mono(p.addr, Align(p));
    Pow256Mono(p.data, Align(p));
    if plan.wcount > 0 {
      assert ValidOp(p, ops[i]);
    }
    forall k | 0 <= k < |rec.wvals|
      ensures rec.wvals[k] < Pow256(Align(p))
    {
      WriteFormats(p, checked, ops, i, n, plan, k);
      assert ValidOp(p, ops[i + k]);
      LaneRoundTrip(ops[i + k].value, lane.shift, lane.size, p.data);
    }
    forall k | 0 <= k < |rec.raddrs|
      ensures rec.raddrs[k] < Pow256(Align(p))
    {
      if !plan.status {
        assert ValidOp(p, ops[i + plan.wcount + k]);
      }
    }
  }

  /** Every operation a record takes shares the lanes of its first one. */
  lemma WriteFormats(p: Port, checked: bool, ops: seq<Op>, i: nat, n: nat, plan: Plan, k: nat)
    requires i <= |ops| && GoodPlan(p, checked, ops, i, n, plan) && k < plan.wcount
    ensures ops[i + k].write && ops[i + k].cfg == ops[i].cfg && SameFormat(ops[i + k], ops[i])
    ensures k > 0 ==> ops[i + k].addr == Wrap64(ops[i].addr + k * Step(p, plan.fifo))
  {
    if k > 0 {
      assert JoinsWrites(p, ops, i, k, Step(p, plan.fifo));
    }
  }

  lemma ReadFormats(p: Port, checked: bool, ops: seq<Op>, i: nat, n: nat, plan: Plan, k: nat)
    requires i <= |ops| && GoodPlan(p, checked, ops, i, n, plan) && k < plan.rcount
    ensures var j := i + plan.wcount;
            && !ops[j + k].write && ops[j + k].cfg == ops[j].cfg
            && SameFormat(ops[j + k], ops[i]) && Low(p, ops[j + k]) == Low(p, ops[i])
  {
    if k > 0 {
      assert JoinsReads(p, ops, i + plan.wcount, k);
    }
  }

  lemma {:induction false} CycleRecordsFit(p: Port, checked: bool, ops: seq<Op>, i: nat, n: nat, rba: nat)
    requires ValidOps(p, ops) && Pending(p, checked, ops, i, n) && ReturnAddress(rba)
    ensures AllFit(p, CycleRecords(p, checked, ops, i, n, rba))
    decreases |ops| - i, n
  {
    hide PlanRecord, Fits, MakeRecord, ValidOps, ReturnAddress;
    PlanIsGood(p, checked, ops, i, n);
    var plan := PlanRecord(p, checked, ops, i, n);
    MadeRecordFits(p, checked, ops, i, n, rba, plan);
    if plan.last {
      FitFirst(p, MakeRecord(p, ops, i, plan, rba), []);
    } else {
      var j := i + plan.wcount + plan.rcount;
      CycleRecordsFit(p, checked, ops, j, plan.n, rba);
      FitFirst(p, MakeRecord(p, ops, i, plan, rba), CycleRecords(p, checked, ops, j, plan.n, rba));
    }
  }

  lemma FitFirst(p: Port, rec: Record, tail: seq<Record>)
    requires Fits(p, rec) && AllFit(p, tail)
    ensures AllFit(p, [rec] + tail) && AllFit(p, [rec])
  {
    hide Fits;
  }
}
