/** Flushing as the source does it: records are formatted into one buffer, which is sent when the
    next record does not fit; on packet transports only whole cycles leave the buffer. */
module Sender {
  import opened Bytes
  import opened Widths
  import opened Format
  import opened Buffer
  import opened Master
  import opened Meaning
  import opened Flush

  /* ---------- formatting one record ---------- */

  /** The write section: base address, then every value in its lane. */
  method StoreWrites(buf: array<byte>, at: nat, k: Stride, ops: seq<Op>, i: nat, count: nat, shift: nat)
      returns (end: nat)
    requires 0 < count && i + count <= |ops| && at + k + Scale(count, k) <= buf.Length
    modifies buf
    ensures end == at + k + Scale(count, k)
    ensures buf[..end] == old(buf[..at]) + Words(Section(ops[i].addr, WriteWords(ops, i, count, shift)), k)
  {
    hide Words, Encode, ShiftUp;
    ghost var base, before := ops[i].addr, buf[..at];
    StoreWord(buf, at, ops[i].addr, k);
    WordsOne(base, k);
    end := at + k;
    var done := 0;
    assert [base] + WriteWords(ops, i, 0, shift) == [base];
    while done < count
      invariant 0 <= done <= count && end == at + k + Scale(done, k)
      invariant buf[..end] == before + Words([base] + WriteWords(ops, i, done, shift), k)
    {
      ghost var ws := [base] + WriteWords(ops, i, done, shift);
      var wv := ShiftUp(ops[i + done].value, shift);
      StoreWord(buf, end, wv, k);
      end := end + k;
      WordsSnoc(ws, wv, k);
      assert ws + [wv] == [base] + WriteWords(ops, i, done + 1, shift);
      done := done + 1;
    }
  }

  /** The read section: return address, then every address to read. */
  method StoreReads(buf: array<byte>, at: nat, k: Stride, rba: nat, ops: seq<Op>, j: nat, count: nat) returns (end: nat)
    requires 0 < count && j + count <= |ops| && at + k + Scale(count, k) <= buf.Length
    modifies buf
    ensures end == at + k + Scale(count, k)
    ensures buf[..end] == old(buf[..at]) + Words(Section(rba, ReadWords(ops, j, count)), k)
  {
    hide Words, Encode, ReadWords, Scale;
    NoReadWords(ops, j, rba, k);
    ghost var before := buf[..at];
    ScaleStep(at + k, 0, count, k);
    StoreWord(buf, at, rba, k);
    WordsOne(rba, k);
    end := at + k;
    var done := 0;
    while done < count
      invariant 0 <= done <= count && end == at + k + Scale(done, k) <= buf.Length
      invariant buf[..end] == before + Words([rba] + ReadWords(ops, j, done), k)
    {
      ghost var ws := [rba] + ReadWords(ops, j, done);
      NextReadWord(ops, j, done, rba);
      ScaleStep(at + k, done, count, k);
      StoreWord(buf, end, ops[j + done].addr, k);
      end := end + k;
      WordsSnoc(ws, ops[j + done].addr, k);
      done := done + 1;
    }
  }

  lemma NoReadWords(ops: seq<Op>, j: nat, rba: nat, k: Stride)
    requires j <= |ops|
    ensures [rba] + ReadWords(ops, j, 0) == [rba] && Scale(0, k) == 0
  {
  }

  lemma NextReadWord(ops: seq<Op>, j: nat, done: nat, rba: nat)
    requires j + done < |ops|
    ensures ([rba] + ReadWords(ops, j, done)) + [ops[j + done].addr] == [rba] + ReadWords(ops, j, done + 1)
  {
  }

  lemma ScaleStep(at: nat, done: nat, count: nat, k: Stride)
    requires done < count
    ensures at + Scale(done + 1, k) == at + Scale(done, k) + k && at + Scale(done, k) + k <= at + Scale(count, k)
  {
  }

  /** The error-flag read-back. */
  method StoreStatus(p: Port, buf: array<byte>, at: nat, rba: nat) returns (end: nat)
    requires at + 2 * Align(p) <= buf.Length
    modifies buf
    ensures end == at + 2 * Align(p)
    ensures buf[..end] == old(buf[..at]) + Words(Section(rba + 1, [StatusAddress(p)]), Align(p))
  {
    hide Words, Encode;
    var k := Align(p);
    StoreWord(buf, at, rba + 1, k);
    WordsOne(rba + 1, k);
    StoreWord(buf, at + k, 8 - p.data, k);
    WordsSnoc([rba + 1], StatusAddress(p), k);
    end := at + k + k;
  }

  /** Flag byte of a request record. */
  function RequestFlags(plan: Plan, rcfg: bool, wcfg: bool): byte {
    0x80 + 0x20 + Bit(rcfg, 0x40) + Bit(wcfg, 0x04) + Bit(plan.fifo, 0x02) + Bit(plan.last, 0x08)
  }

  /** A formatted record, piece by piece. */
  lemma RecordPieces(p: Port, checked: bool, ops: seq<Op>, i: nat, n: nat, plan: Plan, rba: nat)
    requires ValidOps(p, ops) && i <= |ops| && GoodPlan(p, checked, ops, i, n, plan) && ReturnAddress(rba)
    ensures i + plan.wcount + plan.rcount <= |ops| && (plan.status ==> plan.rcount == 0)
    ensures var rec := MakeRecord(p, ops, i, plan, rba);
            && Fits(p, rec) && |rec.wvals| == plan.wcount && |rec.raddrs| == (if plan.status then 1 else plan.rcount)
            && |RecordBytes(p, ops, i, plan, rba)| == RecordSize(p, plan.wcount, |rec.raddrs|)
            && RecordBytes(p, ops, i, plan, rba)
               == [Flags(rec), rec.sel, plan.wcount, |rec.raddrs|] + Zeros(HeadAlign(p) - 4)
                  + Words(Section(rec.wbase, rec.wvals), Align(p)) + Words(Section(rec.rbase, rec.raddrs), Align(p))
  {
    hide Words, Zeros, Fits, GoodPlan, Flags;
    PlanBounds(p, checked, ops, i, n, plan);
    MadeRecordFits(p, checked, ops, i, n, rba, plan);
    if plan.status {
      StatusHasNoReads(p, checked, ops, i, n, plan);
    }
    var rec := MakeRecord(p, ops, i, plan, rba);
    SerializedSize(p, rec);
    WordsConcat(Section(rec.wbase, rec.wvals), Section(rec.rbase, rec.raddrs), Align(p));
    CountsFit(p, rec);
  }

  lemma CountsFit(p: Port, rec: Record)
    requires Fits(p, rec)
    ensures |rec.wvals| <= MAX_COUNT && |rec.raddrs| <= MAX_COUNT
  {
  }

  lemma MadeHeader(p: Port, ops: seq<Op>, i: nat, plan: Plan, rba: nat)
    requires ValidOps(p, ops) && i + plan.wcount + plan.rcount <= |ops|
    ensures var rec := MakeRecord(p, ops, i, plan, rba);
            && Flags(rec) == RequestFlags(plan, plan.status || (plan.rcount > 0 && ops[i + plan.wcount].cfg),
                                          plan.wcount > 0 && ops[i].cfg)
            && ValidLane(RecordLane(p, ops, i, plan), p.data)
            && rec.sel == EncodeSelect(RecordLane(p, ops, i, plan))
  {
    LaneBounds(p, ops, i, plan);
    hide RecordLane, WriteWords, ReadWords, EncodeSelect;
  }

  /** Payload sections of a planned record. */
  function WriteSection(ops: seq<Op>, i: nat, plan: Plan, shift: nat): seq<nat>
    requires i + plan.wcount <= |ops|
  {
    if plan.wcount > 0 then Section(ops[i].addr, WriteWords(ops, i, plan.wcount, shift)) else []
  }

  function ReadSection(p: Port, ops: seq<Op>, i: nat, plan: Plan, rba: nat): seq<nat>
    requires i + plan.wcount + plan.rcount <= |ops|
  {
    if plan.status then Section(rba + 1, [StatusAddress(p)])
    else if plan.rcount > 0 then Section(rba, ReadWords(ops, i + plan.wcount, plan.rcount))
    else []
  }

  lemma MadeSections(p: Port, ops: seq<Op>, i: nat, plan: Plan, rba: nat)
    requires ValidOps(p, ops) && i + plan.wcount + plan.rcount <= |ops|
    ensures var rec := MakeRecord(p, ops, i, plan, rba);
            && Section(rec.wbase, rec.wvals) == WriteSection(ops, i, plan, RecordLane(p, ops, i, plan).shift)
            && Section(rec.rbase, rec.raddrs) == ReadSection(p, ops, i, plan, rba)
  {
    hide RecordLane, ShiftUp, EncodeSelect;
  }

  method StoreWritePart(buf: array<byte>, at: nat, k: Stride, ops: seq<Op>, i: nat, plan: Plan, shift: nat)
      returns (end: nat)
    requires i + plan.wcount <= |ops| && at + Scale(|WriteSection(ops, i, plan, shift)|, k) <= buf.Length
    modifies buf
    ensures end == at + Scale(|WriteSection(ops, i, plan, shift)|, k)
    ensures buf[..end] == old(buf[..at]) + Words(WriteSection(ops, i, plan, shift), k)
  {
    hide WriteWords, Words;
    end := at;
    if plan.wcount > 0 {
      end := StoreWrites(buf, at, k, ops, i, plan.wcount, shift);
    } else {
      NoWords(k);
    }
  }

  method StoreReadPart(p: Port, buf: array<byte>, at: nat, ops: seq<Op>, i: nat, plan: Plan, rba: nat)
      returns (end: nat)
    requires i + plan.wcount + plan.rcount <= |ops|
         && at + Scale(|ReadSection(p, ops, i, plan, rba)|, Align(p)) <= buf.Length
    modifies buf
    ensures end == at + Scale(|ReadSection(p, ops, i, plan, rba)|, Align(p))
    ensures buf[..end] == old(buf[..at]) + Words(ReadSection(p, ops, i, plan, rba), Align(p))
  {
    hide ReadWords, Words;
    end := at;
    if plan.status {
      end := StoreStatus(p, buf, at, rba);
    } else if plan.rcount > 0 {
      end := StoreReads(buf, at, Align(p), rba, ops, i + plan.wcount, plan.rcount);
    } else {
      NoWords(Align(p));
    }
  }

  /** Bytes of a planned record as the formatter lays them out. */
  lemma RecordLayout(p: Port, checked: bool, ops: seq<Op>, i: nat, n: nat, plan: Plan, rba: nat)
    requires ValidOps(p, ops) && i <= |ops| && GoodPlan(p, checked, ops, i, n, plan) && ReturnAddress(rba)
    ensures i + plan.wcount + plan.rcount <= |ops| && plan.wcount <= 255 && plan.rcount <= 255
    ensures var lane := RecordLane(p, ops, i, plan);
            && lane.size <= 8 && lane.shift <= 8
            && var rcfg := plan.status || (plan.rcount > 0 && ops[i + plan.wcount].cfg);
               var wcfg := plan.wcount > 0 && ops[i].cfg;
               var ws, rs := WriteSection(ops, i, plan, lane.shift), ReadSection(p, ops, i, plan, rba);
               var bytes := RecordBytes(p, ops, i, plan, rba);
            && |bytes| == HeadAlign(p) + Scale(|ws|, Align(p)) + Scale(|rs|, Align(p))
            && bytes == ([RequestFlags(plan, rcfg, wcfg), EncodeSelect(lane), plan.wcount,
                if plan.status then 1 else plan.rcount]
                         + Zeros(HeadAlign(p) - 4)) + Words(ws, Align(p)) + Words(rs, Align(p))
  {
    RecordPieces(p, checked, ops, i, n, plan, rba);
    MadeHeader(p, ops, i, plan, rba);
    MadeSections(p, ops, i, plan, rba);
    var rec := MakeRecord(p, ops, i, plan, rba);
    CountsFit(p, rec);
    LaneIsSmall(p, RecordLane(p, ops, i, plan));
    SectionSizes(p, rec);
    hide Words, Zeros, GoodPlan, MakeRecord, Flags, RequestFlags, RecordBytes, Fits, WriteSection, ReadSection,
        ValidLane, RecordLane, EncodeSelect, ValidOps, Section;
  }

  /** Format the planned record at `at`. */
  method StoreRecord(p: Port, buf: array<byte>, at: nat, checked: bool, ops: seq<Op>, i: nat, n: nat, plan: Plan,
                     rba: nat)
      returns (end: nat)
    requires ValidOps(p, ops) && i <= |ops| && GoodPlan(p, checked, ops, i, n, plan) && ReturnAddress(rba)
    requires i + plan.wcount + plan.rcount <= |ops| && at + |RecordBytes(p, ops, i, plan, rba)| <= buf.Length
    modifies buf
    ensures end == at + |RecordBytes(p, ops, i, plan, rba)|
    ensures buf[..end] == old(buf[..at]) + RecordBytes(p, ops, i, plan, rba)
  {
    hide *;
    RecordLayout(p, checked, ops, i, n, plan, rba);
    var lane := RecordLane(p, ops, i, plan);
    var rcfg, wcfg := plan.status || (plan.rcount > 0 && ops[i + plan.wcount].cfg), plan.wcount > 0 && ops[i].cfg;
    StoreHeader(p, buf, at, RequestFlags(plan, rcfg, wcfg), EncodeSelect(lane), plan.wcount,
                if plan.status then 1 else plan.rcount);
    end := StoreWritePart(buf, at + HeadAlign(p), Align(p), ops, i, plan, lane.shift);
    end := StoreReadPart(p, buf, end, ops, i, plan, rba);
  }

  lemma SectionSizes(p: Port, rec: Record)
    ensures RecordSize(p, |rec.wvals|, |rec.raddrs|)
         == HeadAlign(p) + Scale(|Section(rec.wbase, rec.wvals)|, Align(p)) + Scale(|Section(rec.rbase, rec.raddrs)|,
             Align(p))
  {
  }

  lemma LaneIsSmall(p: Port, lane: Lane)
    requires ValidLane(lane, p.data)
    ensures lane.size <= 8 && lane.shift <= 8
  {
  }

  lemma NoWords(k: Stride)
    ensures Words([], k) == []
  {
  }
}
