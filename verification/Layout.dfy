/** What is on the wire, byte by byte and bit by bit. */
module Layout {
  import opened Bytes
  import opened Widths
  import opened Format
  import opened SlaveLoop
  import opened Master
  import opened ReadWrite
  import opened EndToEnd
  import opened Device

  function Larger(a: nat, b: nat): nat { if a >= b then a else b }

  /** Words are as wide as the wider of data and address, but at least two bytes; headers are as wide as
      a word, but at least four. */
  lemma AlignIs(p: Port)
    ensures Align(p) == Larger(2, Larger(p.data, p.addr)) && HeadAlign(p) == Larger(4, Align(p))
  {
  }

  /** Bits of a byte, the lowest being number 0. */
  predicate BitOn(b: byte, k: nat) { TestBit(b, k) }

  lemma FlagBits(rec: Record)
    ensures var f := Flags(rec);
            && (BitOn(f, 7) <==> rec.bca) && (BitOn(f, 6) <==> rec.rca) && (BitOn(f, 5) <==> rec.rff) && !BitOn(f, 4)
            && (BitOn(f, 3) <==> rec.cyc) && (BitOn(f, 2) <==> rec.wca) && (BitOn(f, 1) <==> rec.wff) && !BitOn(f, 0)
  {
    var f := Flags(rec);
    BitsAre(f);
    FlagsRoundTrip(rec);
    UnusedFlags(rec);
    hide Flags, TestBit;
  }

  lemma UnusedFlags(rec: Record)
    ensures !HasFlag(Flags(rec), 0x10) && !HasFlag(Flags(rec), 0x01)
  {
    var high := (if rec.bca then 8 else 0) + (if rec.rca then 4 else 0) + if rec.rff then 2 else 0;
    var low := (if rec.cyc then 8 else 0) + (if rec.wca then 4 else 0) + if rec.wff then 2 else 0;
    assert Flags(rec) == 16 * high + low;
    hide Flags;
    Nibbles(high, low);
  }

  lemma Nibbles(high: nat, low: nat)
    requires high % 2 == 0 && low % 2 == 0 && low < 16
    ensures (16 * high + low) / 16 % 2 == 0 && (16 * high + low) % 2 == 0
  {
  }

  lemma BitsAre(f: byte)
    ensures (BitOn(f, 0) <==> HasFlag(f, 0x01)) && (BitOn(f, 1) <==> HasFlag(f, 0x02))
    ensures (BitOn(f, 2) <==> HasFlag(f, 0x04)) && (BitOn(f, 3) <==> HasFlag(f, 0x08))
    ensures (BitOn(f, 4) <==> HasFlag(f, 0x10)) && (BitOn(f, 5) <==> HasFlag(f, 0x20))
    ensures (BitOn(f, 6) <==> HasFlag(f, 0x40)) && (BitOn(f, 7) <==> HasFlag(f, 0x80))
  {
    assert Shifted(f, 0) == f && Shifted(f, 1) == f / 2 && Shifted(f, 2) == f / 4 && Shifted(f, 3) == f / 8;
    assert Shifted(f, 4) == f / 16 && Shifted(f, 5) == f / 32 && Shifted(f, 6) == f / 64 && Shifted(f, 7) == f / 128;
  }

  /** Flags, select lines and the two counts; the rest of the header is zero. */
  ghost predicate HeaderOut(p: Port, s: seq<byte>, rec: Record) {
    && HeadAlign(p) <= |s|
    && (BitOn(s[0], 7) <==> rec.bca) && (BitOn(s[0], 6) <==> rec.rca) && (BitOn(s[0], 5) <==> rec.rff)
    && (BitOn(s[0], 3) <==> rec.cyc) && (BitOn(s[0], 2) <==> rec.wca) && (BitOn(s[0], 1) <==> rec.wff)
    && !BitOn(s[0], 4) && !BitOn(s[0], 0)
    && s[1] == rec.sel && s[2] == |rec.wvals| && s[3] == |rec.raddrs|
    && forall i :: 4 <= i < HeadAlign(p) ==> s[i] == 0
  }

  /** If the record writes, the base address of the writes and the values; then, if it reads, the base
      return address and the addresses to read. All words are big-endian and of the same width. */
  ghost predicate SectionsOut(p: Port, s: seq<byte>, rec: Record) {
    var h, k, w, r := HeadAlign(p), Align(p), |rec.wvals|, |rec.raddrs|;
    var at := h + if w == 0 then 0 else k * (w + 1);
    && |s| == at + (if r == 0 then 0 else k * (r + 1))
    && (w > 0 ==> Holds(s, h, k, rec.wbase, rec.wvals))
    && (r > 0 ==> Holds(s, at, k, rec.rbase, rec.raddrs))
  }

  /** At `at` a base word and then some more words. */
  ghost predicate Holds(s: seq<byte>, at: nat, k: Stride, base: nat, words: seq<nat>) {
    && at + k <= |s| && Decode(s[at..at + k]) == base
    && forall i :: 0 <= i < |words| ==> WordIn(s, at, k, i, words[i])
  }

  /** THE RECORD. */
  lemma RecordLayout(p: Port, rec: Record)
    requires Fits(p, rec)
    ensures HeaderOut(p, Serialize(p, rec), rec) && SectionsOut(p, Serialize(p, rec), rec)
  {
    hide SectionsOut, Serialize, BitOn, Fits, Flags, Parse;
    FlagBits(rec);
    HeaderIs(p, rec);
    var s := Serialize(p, rec);
    ParseSerialize(p, rec, []);
    assert s + [] == s;
    Sections(p, s, rec);
  }

  /** The `i`-th word behind the base word at `at`. */
  predicate WordIn(s: seq<byte>, at: nat, k: Stride, i: nat, v: nat) {
    at + k * (i + 1) + k <= |s| && Decode(s[at + k * (i + 1)..at + k * (i + 1) + k]) == v
  }

  lemma HeaderIs(p: Port, rec: Record)
    requires Fits(p, rec)
    ensures var s, h := Serialize(p, rec), HeadAlign(p);
            && |s| >= h && s[0] == Flags(rec) && s[1] == rec.sel && s[2] == |rec.wvals| && s[3] == |rec.raddrs|
            && forall i :: 4 <= i < h ==> s[i] == 0
  {
    hide Flags, Words, Payload;
  }

  lemma Sections(p: Port, s: seq<byte>, rec: Record)
    requires Parse(p, s) == Whole(rec, []) && |s| >= 4 && s[2] == |rec.wvals| && s[3] == |rec.raddrs|
    ensures SectionsOut(p, s, rec)
  {
    hide HasFlag, Decode, WordIn, LoadWords;
    var h, k, w, r := HeadAlign(p), Align(p), |rec.wvals|, |rec.raddrs|;
    ScaleTimes(w + 1, k);
    ScaleTimes(r + 1, k);
    if w > 0 {
      forall i | 0 <= i < w ensures WordIn(s, h, k, i, rec.wvals[i]) { SectionWord(s, h, k, w, i); }
    }
    if r > 0 {
      var at := ReadAt(p, w);
      forall i | 0 <= i < r ensures WordIn(s, at, k, i, rec.raddrs[i]) { SectionWord(s, at, k, r, i); }
    }
  }

  lemma SectionWord(s: seq<byte>, at: nat, k: Stride, count: nat, i: nat)
    requires i < count && at + k + Scale(count, k) <= |s|
    ensures WordIn(s, at, k, i, LoadWords(s, at + k, count, k)[i])
  {
    LoadWordsAt(s, at + k, count, k, i);
    ScaleTimes(i, k);
    hide Decode, Scale, LoadWords;
    assert at + k + Scale(i, k) == at + k * (i + 1);
  }

  lemma ScaleTimes(n: nat, k: Stride)
    ensures Scale(n, k) == k * n && (n > 0 ==> Scale(n, k) == k + Scale(n - 1, k))
  {
  }

  /* ---------- lanes and addresses ---------- */

  /** The `k`-th bit of a mask. */
  function Bit8(k: nat): bv8
    requires k < 8
  {
    if k == 0 then 0x01 else if k == 1 then 0x02 else if k == 2 then 0x04 else if k == 3 then 0x08
    else if k == 4 then 0x10 else if k == 5 then 0x20 else if k == 6 then 0x40 else 0x80
  }

  /** The lines for all lanes there are. */
  function Pattern(lane: Lane): bv8 {
    if lane.size == 8 then 0xFF
    else if lane.size == 4 then (if lane.shift == 0 then 0x0F else 0xF0)
    else if lane.size == 2 then
      (if lane.shift == 0 then 0x03 else if lane.shift == 2 then 0x0C else if lane.shift == 4 then 0x30 else 0xC0)
    else
      (if lane.shift == 0 then 0x01 else if lane.shift == 1 then 0x02 else if lane.shift == 2 then 0x04
       else if lane.shift == 3 then 0x08 else if lane.shift == 4 then 0x10 else if lane.shift == 5 then 0x20
       else if lane.shift == 6 then 0x40 else 0x80)
  }

  lemma PatternIs(lane: Lane)
    requires ValidLane(lane, 8)
    ensures SelectBits(lane) == Pattern(lane)
  {
    if lane.size == 8 {
      assert lane.shift == 0;
    } else if lane.size == 4 {
      assert lane.shift == 0 || lane.shift == 4;
    } else if lane.size == 2 {
      assert lane.shift == 0 || lane.shift == 2 || lane.shift == 4 || lane.shift == 6;
    } else {
      assert lane.shift == 0 || lane.shift == 1 || lane.shift == 2 || lane.shift == 3
          || lane.shift == 4 || lane.shift == 5 || lane.shift == 6 || lane.shift == 7;
    }
  }

  lemma PatternBits(lane: Lane, k: nat)
    requires ValidLane(lane, 8) && k < 8
    ensures Pattern(lane) & Bit8(k) != 0 <==> lane.shift <= k < lane.shift + lane.size
  {
  }

  /** Select lines: one for each byte of the bus word, and those of the operation's bytes are raised. */
  lemma SelectLines(lane: Lane, data: nat, k: nat)
    requires IsWidth(data) && ValidLane(lane, data) && k < 8
    ensures (EncodeSelect(lane) as bv8) & Bit8(k) != 0 <==> lane.shift <= k < lane.shift + lane.size
  {
    LinesAre(lane);
    LaneWithin(lane, data);
    PatternIs(lane);
    PatternBits(lane, k);
    hide *;
  }

  lemma LinesAre(lane: Lane)
    requires lane.size <= 8 && lane.shift <= 8
    ensures EncodeSelect(lane) as bv8 == SelectBits(lane)
  {
    hide SelectBits;
    BackToBits(SelectBits(lane));
  }

  lemma LaneWithin(lane: Lane, data: nat)
    requires IsWidth(data) && ValidLane(lane, data)
    ensures ValidLane(lane, 8) && lane.size <= 8 && lane.shift <= 8
  {
  }

  lemma BackToBits(x: bv8)
    ensures (x as byte) as bv8 == x
  {
  }

  /** A device sees the address the user gave in the byte order the user chose, and in the other byte order
      the address of the same bytes of the bus word, counted from its other end. */
  lemma AddressesExact(p: Port, op: Op)
    requires ValidOp(p, op)
    ensures op.endian == Big ==> AddressB(p, op) == op.addr
    ensures op.endian == Little ==> AddressL(p, op) == op.addr
    ensures op.endian == NoEndian ==> AddressB(p, op) == AddressL(p, op) == op.addr
    ensures AddressB(p, op) - AddressB(p, op) % p.data == AddressL(p, op) - AddressL(p, op) % p.data
    ensures AddressB(p, op) % p.data + op.size + AddressL(p, op) % p.data == p.data
  {
    LowFits(p, op);
    MirrorLow(p, op);
  }

  lemma MirrorLow(p: Port, op: Op)
    requires ValidOp(p, op)
    ensures Mirror(p, op) % p.data == p.data - op.size - op.addr % p.data
    ensures Mirror(p, op) - Mirror(p, op) % p.data == op.addr - op.addr % p.data
  {
    LowFits(p, op);
    var q, r := op.addr / p.data, p.data - op.size - op.addr % p.data;
    assert op.addr == q * p.data + op.addr % p.data && Mirror(p, op) == q * p.data + r;
    DivModUnique(Mirror(p, op), p.data, q, r);
  }

  /** Write-backs are routed by 16 bits of their address, the lowest of them left out. */
  lemma TargetsExact(addr: nat, turns: nat)
    ensures TargetOf(addr) < 0x1_0000 && TargetOf(addr) % 2 == 0
    ensures TargetOf(addr + 0x1_0000 * turns) == TargetOf(addr)
    ensures addr < 0x1_0000 ==> TargetOf(addr) <= addr <= TargetOf(addr) + 1
  {
    SameRemainder(addr, 0x1_0000, turns);
    SameRemainder(addr, 2, 0x8000 * turns);
    EvenPart(addr);
  }

  lemma SameRemainder(a: nat, d: nat, n: nat)
    requires d > 0
    ensures (a + d * n) % d == a % d
  {
    var q := a / d;
    assert a == q * d + a % d;
    assert a + d * n == (q + n) * d + a % d;
    DivModUnique(a + d * n, d, q + n, a % d);
  }

  lemma EvenPart(a: nat)
    ensures a % 0x1_0000 % 2 == a % 2 && (a < 0x1_0000 ==> a % 0x1_0000 == a)
  {
  }

  /** A packet header names the port it was made for, and no other. */
  lemma HeaderNamesPort(p: Port, q: Port, h: seq<byte>)
    requires IsHeader(p, h)
    ensures h[0] == 0x4E && h[1] == 0x6F && h[2] / 16 == 1
    ensures h[3] / 16 == p.addr && h[3] % 16 == p.data && (IsHeader(q, h) ==> q == p)
  {
  }
}
