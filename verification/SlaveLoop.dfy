/** The slave's record loop as the source runs it: one buffer, the reply written over the request
    behind the read position, and on streams the buffer refilled in the middle of a record or of
    an open cycle. The result is proved equal to `Slave.Run` on all the bytes received. */
module SlaveLoop {
  import opened Bytes
  import opened Widths
  import opened Format
  import opened Buffer
  import opened Slave

  /* ---------- sections in a buffer ---------- */

  /** The `i`-th word of a section whose base word is at `at`. */
  function WordAt(at: nat, i: nat, k: Stride): nat { at + k + Scale(i, k) }

  /** A section of base word and data words lies in the buffer at `at`. */
  ghost predicate SectionIn(s: seq<byte>, at: nat, base: nat, words: seq<nat>, k: Stride) {
    && WordAt(at, |words|, k) <= |s|
    && Load(s, at, k) == base
    && forall i :: 0 <= i < |words| ==> Load(s, WordAt(at, i, k), k) == words[i]
  }

  lemma {:induction false} LoadWordsAt(s: seq<byte>, at: nat, count: nat, k: Stride, i: nat)
    requires at + Scale(count, k) <= |s| && i < count
    ensures at + Scale(i, k) + k <= |s|
    ensures LoadWords(s, at, count, k)[i] == Load(s, at + Scale(i, k), k)
    decreases i
  {
    if i > 0 {
      LoadWordsAt(s, at + k, count - 1, k, i - 1);
    }
  }

  lemma LoadSlice(s: seq<byte>, from: nat, end: nat, at: nat, k: Stride)
    requires from <= end <= |s| && from + at + k <= end
    ensures Load(s[from..end], at, k) == Load(s, from + at, k)
  {
    SliceSlice(s, from, end, at, k);
  }

  /** Sections of the record that starts at `from`, located in the buffer. */
  lemma SectionsOf(p: Port, s: seq<byte>, from: nat, end: nat)
    requires from <= end <= |s| && Parse(p, s[from..end]).Whole?
    ensures var rec := Parse(p, s[from..end]).rec;
            var h, k := HeadAlign(p), Align(p);
            && from + RecordSize(p, |rec.wvals|, |rec.raddrs|) <= end
            && from + 4 <= |s|
            && s[from + 2] == |rec.wvals| && s[from + 3] == |rec.raddrs|
            && (rec.wvals != [] ==> SectionIn(s, from + h, rec.wbase, rec.wvals, k))
            && (rec.raddrs != [] ==> SectionIn(s, from + ReadAt(p, |rec.wvals|), rec.rbase, rec.raddrs, k))
  {
    hide HasFlag, Decode;
    var t := s[from..end];
    assert t[2] == s[from + 2] && t[3] == s[from + 3];
    var rec := Parse(p, t).rec;
    if rec.wvals != [] {
      OneSection(p, s, from, end, HeadAlign(p), rec.wbase, rec.wvals);
    }
    if rec.raddrs != [] {
      OneSection(p, s, from, end, ReadAt(p, |rec.wvals|), rec.rbase, rec.raddrs);
    }
  }

  lemma OneSection(p: Port, s: seq<byte>, from: nat, end: nat, at: nat, base: nat, words: seq<nat>)
    requires from <= end <= |s| && from + WordAt(at, |words|, Align(p)) <= end
    requires base == Load(s[from..end], at, Align(p))
    requires words == LoadWords(s[from..end], at + Align(p), |words|, Align(p))
    ensures SectionIn(s, from + at, base, words, Align(p))
  {
    hide Load, LoadWords;
    var k := Align(p);
    var t := s[from..end];
    LoadSlice(s, from, end, at, k);
    forall i | 0 <= i < |words|
      ensures Load(s, WordAt(from + at, i, k), k) == words[i]
    {
      LoadWordsAt(t, at + k, |words|, k, i);
      var b := at + k + Scale(i, k);
      LoadSlice(s, from, end, b, k);
    }
  }

  /** The words of a section survive even if its base word has been overwritten. */
  lemma WordsKept(a: seq<byte>, b: seq<byte>, at: nat, base: nat, words: seq<nat>, k: Stride)
    requires |a| == |b| && at + k <= |a| && a[at + k..] == b[at + k..]
    requires SectionIn(a, at, base, words, k)
    ensures forall i :: 0 <= i < |words| ==> Load(b, WordAt(at, i, k), k) == words[i]
  {
    hide Load;
    forall i | 0 <= i < |words|
      ensures Load(b, WordAt(at, i, k), k) == words[i]
    {
      LoadKept(a, b, at + k, WordAt(at, i, k), k);
    }
  }

  lemma LoadKept(a: seq<byte>, b: seq<byte>, keep: nat, at: nat, k: Stride)
    requires |a| == |b| && keep <= at && at + k <= |a| && a[keep..] == b[keep..]
    ensures Load(a, at, k) == Load(b, at, k)
  {
    SliceDrop(a, keep, at, k);
    SliceDrop(b, keep, at, k);
  }

  lemma OutFlagsAre(flags: byte, rec: Record)
    requires rec.bca == HasFlag(flags, 0x80) && rec.rff == HasFlag(flags, 0x20) && rec.cyc == HasFlag(flags, 0x08)
    ensures OutFlags(flags) == Bit(rec.cyc, 0x08) + Bit(rec.bca, 0x04) + Bit(rec.rff, 0x02)
  {
  }

  lemma SectionFirst(s: seq<byte>, at: nat, first: nat, words: seq<nat>, k: Stride)
    requires SectionIn(s, at, first, words, k)
    ensures at + k <= WordAt(at, |words|, k) <= |s| && Load(s, at, k) == first
  {
  }

  lemma WordAtFirst(at: nat, n: nat, k: Stride)
    ensures WordAt(at, 0, k) == at + k <= WordAt(at, n, k)
  {
  }

  lemma WordAtStep(at: nat, i: nat, n: nat, k: Stride)
    requires i < n
    ensures WordAt(at, i + 1, k) == WordAt(at, i, k) + k <= WordAt(at, n, k)
  {
  }

  lemma WordAtShift(a: nat, b: nat, n: nat, k: Stride)
    requires a <= b
    ensures WordAt(a, n, k) <= WordAt(b, n, k) && b + k <= WordAt(b, n, k)
  {
  }

  /* ---------- the two halves of one record ---------- */

  /** Perform the writes of a record whose write section is at `at`. */
  method PerformWrites(p: Port, bus: Bus, buf: array<byte>, at: nat, wcount: nat, wca: bool, wff: bool,
                       lane: Option<Lane>,
                       x0: Exec, ghost rec: Record) returns (x: Exec, rptr: nat)
    requires 0 < wcount == |rec.wvals| && wca == rec.wca && wff == rec.wff && lane == DecodeLane(p, rec)
    requires SectionIn(buf[..], at, rec.wbase, rec.wvals, Align(p))
    ensures x == Writes(p, bus, rec, 0, x0)
    ensures rptr == WordAt(at, wcount, Align(p))
  {
    hide Filter, LaneB, ShiftDown, Wrap64, WriteAddress, DecodeLane, Load, ValidLane, ShiftIn;
    var k := Align(p);
    var base := LoadWord(buf, at, k);
    rptr := at + k;
    x := x0;
    var bwa: nat, bwaB: nat, bwaL: nat := Wrap64(base), 0, 0;
    if !wca && lane.Some? {
      var word := Filter(p, base);
      bwaB := Wrap64(word + LaneB(p, lane.value));
      bwaL := Wrap64(word + lane.value.shift);
      FirstAddress(p, rec, word + LaneB(p, lane.value));
      FirstAddress(p, rec, word + lane.value.shift);
    }
    FirstAddress(p, rec, base);
    var i := 0;
    while i < wcount
      invariant 0 <= i <= wcount && rptr == WordAt(at, i, k)
      invariant Writes(p, bus, rec, i, x) == Writes(p, bus, rec, 0, x0)
      invariant wca ==> bwa == WriteAddress(p, rec, rec.wbase, i)
      invariant !wca && lane.Some? ==> bwaB == WriteAddress(p, rec, Filter(p, rec.wbase) + LaneB(p, lane.value), i)
      invariant !wca && lane.Some? ==> bwaL == WriteAddress(p, rec, Filter(p, rec.wbase) + lane.value.shift, i)
    {
      var word := LoadWord(buf, rptr, k);
      assert word == rec.wvals[i];
      rptr := rptr + k;
      ghost var y := WriteOne(p, bus, rec, i, x);
      if lane.None? {
        if !wca {
          x := Refused(x);
        }
      } else {
        var v := ShiftDown(word, lane.value.shift, lane.value.size);
        if wca {
          x := Logged(x, ConfigWrite(lane.value.size, bwa, v));
        } else {
          x := OnBus(bus, x, BusWrite(lane.value.size, bwaB, bwaL, v));
        }
      }
      assert x == y;
      if !wff {
        NextAddress(p, rec, rec.wbase, i);
        if lane.Some? {
          NextAddress(p, rec, Filter(p, rec.wbase) + LaneB(p, lane.value), i);
          NextAddress(p, rec, Filter(p, rec.wbase) + lane.value.shift, i);
        }
        bwa := Wrap64(bwa + p.data);
        bwaL := Wrap64(bwaL + p.data);
        bwaB := Wrap64(bwaB + p.data);
      } else {
        SameAddress(p, rec, rec.wbase, i);
        if lane.Some? {
          SameAddress(p, rec, Filter(p, rec.wbase) + LaneB(p, lane.value), i);
          SameAddress(p, rec, Filter(p, rec.wbase) + lane.value.shift, i);
        }
      }
      i := i + 1;
    }
  }

  lemma FirstAddress(p: Port, rec: Record, base: nat)
    ensures WriteAddress(p, rec, base, 0) == Wrap64(base)
  {
  }

  lemma SameAddress(p: Port, rec: Record, base: nat, i: nat)
    requires rec.wff
    ensures WriteAddress(p, rec, base, i + 1) == WriteAddress(p, rec, base, i)
  {
  }

  lemma NextAddress(p: Port, rec: Record, base: nat, i: nat)
    requires !rec.wff
    ensures WriteAddress(p, rec, base, i + 1) == Wrap64(WriteAddress(p, rec, base, i) + p.data)
  {
    WrapStep(base + i * p.data, p.data);
    assert base + (i + 1) * p.data == base + i * p.data + p.data;
  }

  /** One read: perform it and form the reply word. */
  method PerformRead(p: Port, bus: Bus, ra: nat, rconfig: bool, lane: Option<Lane>, x0: Exec, ghost rec: Record,
                     ghost i: nat)
      returns (x: Exec, value: nat)
    requires i < |rec.raddrs| && ra == rec.raddrs[i] && rconfig == rec.rca && lane == DecodeLane(p, rec)
    ensures (x, value) == ReadOne(p, bus, rec, i, x0)
  {
    hide Filter, LaneB, ShiftUp, DecodeLane, ShiftIn, Pow256, ReadConfig;
    x, value := x0, 0;
    if lane.None? {
      if !rconfig {
        x := Refused(x);
      }
    } else {
      var word := Filter(p, ra);
      var b, l := word + LaneB(p, lane.value), word + lane.value.shift;
      if rconfig {
        value := ReadConfig(lane.value.size, b, x.error);
        x := Logged(x, ConfigRead(lane.value.size, b));
      } else {
        value := bus(x.count).value;
        x := OnBus(bus, x, BusRead(lane.value.size, b, l));
      }
      value := ShiftUp(value % Pow256(lane.value.size), lane.value.shift);
    }
  }

  lemma ReadsStep(p: Port, bus: Bus, rec: Record, i: nat, x: Exec)
    requires i < |rec.raddrs|
    ensures var (y, w) := ReadOne(p, bus, rec, i, x);
            var (z, ws) := Reads(p, bus, rec, i + 1, y);
            Reads(p, bus, rec, i, x) == (z, [w] + ws)
  {
  }

  lemma ReplyBytes(p: Port, prefix: seq<byte>, rec: Record, words: seq<nat>, flags: byte)
    requires Fits(p, Reply(rec, words)) && 0 < |words| <= MAX_COUNT
    requires flags == Bit(rec.cyc, 0x08) + Bit(rec.bca, 0x04) + Bit(rec.rff, 0x02)
    ensures prefix + Serialize(p, Reply(rec, words))
         == (prefix + ([flags, rec.sel, |words|, 0] + Zeros(HeadAlign(p) - 4))) + Words([rec.rbase] + words, Align(p))
  {
    hide Words, Zeros, Fits, WordsFit, Bit;
    var reply := Reply(rec, words);
    assert Payload(reply) == [rec.rbase] + words;
    assert Flags(reply) == flags by { ReplyFlags(rec, words); }
    hide Flags, Payload;
  }

  /** Flags of a reply record, from the flags of the request record. */
  function OutFlags(flags: byte): byte {
    Bit(HasFlag(flags, 0x08), 0x08) + Bit(HasFlag(flags, 0x80), 0x04) + Bit(HasFlag(flags, 0x20), 0x02)
  }

  lemma ReplyFlags(rec: Record, words: seq<nat>)
    ensures Flags(Reply(rec, words)) == Bit(rec.cyc, 0x08) + Bit(rec.bca, 0x04) + Bit(rec.rff, 0x02)
  {
  }

  lemma ReplyFits(p: Port, bus: Bus, rec: Record, x: Exec)
    requires Fits(p, rec) && rec.raddrs != []
    ensures Fits(p, Reply(rec, Reads(p, bus, rec, 0, x).1))
  {
    hide Reads;
    ReplyWordsFit(p, bus, rec, 0, x);
  }

  /** Perform the reads of a record whose read section is at `at`, writing the reply at `w0`.
      The reply stays behind the read position, so nothing from the end of the record on changes. */
  method PerformReads(p: Port, bus: Bus, buf: array<byte>, at: nat, w0: nat, flags: byte, select: byte, rcount: byte,
                      lane: Option<Lane>, x0: Exec, ghost rec: Record) returns (x: Exec, rptr: nat, wptr: nat)
    requires 0 < rcount as nat == |rec.raddrs| && lane == DecodeLane(p, rec) && Fits(p, rec)
    requires rec.rca == HasFlag(flags, 0x40) && rec.sel == select
    requires rec.bca == HasFlag(flags, 0x80) && rec.rff == HasFlag(flags, 0x20) && rec.cyc == HasFlag(flags, 0x08)
    requires SectionIn(buf[..], at, rec.rbase, rec.raddrs, Align(p)) && w0 + HeadAlign(p) <= at
    modifies buf
    ensures x == Reads(p, bus, rec, 0, x0).0
    ensures rptr == WordAt(at, rcount, Align(p)) <= buf.Length && w0 <= wptr <= rptr
    ensures var reply := Reply(rec, Reads(p, bus, rec, 0, x0).1);
            Fits(p, reply) && buf[..wptr] == old(buf[..w0]) + Serialize(p, reply)
    ensures buf[rptr..] == old(buf[rptr..])
  {
    hide Reply, SectionIn, WordsFit, Pow256, Scale, WordAt, ReadOne, Reads, Load, Words, Serialize, Fits, HasFlag, Bit;
    hide DecodeLane, Header, Zeros, OutFlags;
    var k, h := Align(p), HeadAlign(p);
    ghost var before := buf[..];
    ReplyFits(p, bus, rec, x0);
    ghost var words := Reads(p, bus, rec, 0, x0).1;
    var out := OutFlags(flags);
    OutFlagsAre(flags, rec);
    SectionFirst(before, at, rec.rbase, rec.raddrs, k);
    ReplyBytes(p, before[..w0], rec, words, out);
    WordAtShift(w0 + h, at, rcount as nat, k);
    ghost var head := before[..w0] + ([out, select, rcount, 0] + Zeros(h - 4));
    StartReply(p, buf, at, w0, out, select, rcount, rec.rbase);
    WordsKept(before, buf[..], at, rec.rbase, rec.raddrs, k);
    ghost var mid := buf[..];
    x, rptr, wptr := ReplyWords(p, bus, buf, at, w0 + h, rcount as nat, HasFlag(flags, 0x40), lane, x0, rec, head,
        words);
    SameTail(before, mid, at + k, rptr);
  }

  /** Reply header and echoed return base; the read addresses themselves stay intact. */
  method StartReply(p: Port, buf: array<byte>, at: nat, w0: nat, out: byte, select: byte, rcount: byte, ghost base: nat)
    requires w0 + HeadAlign(p) <= at && at + Align(p) <= buf.Length && Load(buf[..], at, Align(p)) == base
    modifies buf
    ensures buf[..w0 + HeadAlign(p) + Align(p)]
         == old(buf[..w0]) + ([out, select, rcount, 0] + Zeros(HeadAlign(p) - 4)) + Words([base], Align(p))
    ensures buf[at + Align(p)..] == old(buf[at + Align(p)..])
  {
    hide Words, Encode, Load;
    var k, h := Align(p), HeadAlign(p);
    ghost var before := buf[..];
    StoreHeader(p, buf, w0, out, select, rcount, 0);
    ghost var mid := buf[..];
    SameTail(before, mid, w0 + h, at);
    LoadKept(before, mid, at, at, k);
    var bra := LoadWord(buf, at, k);
    StoreWord(buf, w0 + h, bra, k);
    ghost var after := buf[..];
    WordsOne(bra, k);
    assert after[..w0 + h + k] == mid[..w0 + h] + Words([base], k);
    SameTail(mid, after, w0 + h + k, at + k);
    SameTail(before, mid, at, at + k);
  }

  /** Reads before `i` have been done: `x` is the state they left and `done` what they returned. */
  ghost predicate Replying(p: Port, bus: Bus, rec: Record, x0: Exec, x: Exec, i: nat, words: seq<nat>, done: seq<nat>) {
    && i <= |rec.raddrs| && |done| == i
    && Reads(p, bus, rec, 0, x0).0 == Reads(p, bus, rec, i, x).0
    && words == done + Reads(p, bus, rec, i, x).1
  }

  lemma ReplyingStart(p: Port, bus: Bus, rec: Record, x0: Exec)
    ensures Replying(p, bus, rec, x0, x0, 0, Reads(p, bus, rec, 0, x0).1, [])
  {
  }

  lemma ReplyingStep(p: Port, bus: Bus, rec: Record, x0: Exec, x: Exec, i: nat, words: seq<nat>, done: seq<nat>)
    requires Replying(p, bus, rec, x0, x, i, words, done) && i < |rec.raddrs|
    ensures var (y, w) := ReadOne(p, bus, rec, i, x);
            Replying(p, bus, rec, x0, y, i + 1, words, done + [w])
  {
    hide ReadOne, Reads;
    ReadsStep(p, bus, rec, i, x);
    var (y, w) := ReadOne(p, bus, rec, i, x);
    var rest := Reads(p, bus, rec, i + 1, y).1;
    assert done + ([w] + rest) == (done + [w]) + rest;
  }

  lemma ReplyingEnd(p: Port, bus: Bus, rec: Record, x0: Exec, x: Exec, words: seq<nat>, done: seq<nat>)
    requires Replying(p, bus, rec, x0, x, |rec.raddrs|, words, done)
    ensures x == Reads(p, bus, rec, 0, x0).0 && done == words
  {
    NoMoreReads(p, bus, rec, x);
  }

  lemma OneMoreWord(head: seq<byte>, base: seq<nat>, done: seq<nat>, value: nat, k: Stride)
    ensures head + Words(base + (done + [value]), k) == (head + Words(base + done, k)) + Encode(value, k)
  {
    hide Words, Encode;
    WordsSnoc(base + done, value, k);
    assert (base + done) + [value] == base + (done + [value]);
  }

  /** Read one address from the request and put the answer into the reply. */
  method ReplyWord(p: Port, bus: Bus, buf: array<byte>, rptr: nat, wptr: nat, k: Stride, rconfig: bool,
                   lane: Option<Lane>, x0: Exec, ghost rec: Record, ghost i: nat) returns (x: Exec, value: nat)
    requires wptr <= rptr && rptr + k <= buf.Length
    requires i < |rec.raddrs| && Load(buf[..], rptr, k) == rec.raddrs[i]
    requires rconfig == rec.rca && lane == DecodeLane(p, rec)
    modifies buf
    ensures (x, value) == ReadOne(p, bus, rec, i, x0)
    ensures buf[..wptr + k] == old(buf[..wptr]) + Encode(value, k)
    ensures buf[rptr + k..] == old(buf[rptr + k..])
  {
    hide ReadOne, Load, Encode, DecodeLane;
    ghost var before := buf[..];
    var ra := LoadWord(buf, rptr, k);
    x, value := PerformRead(p, bus, ra, rconfig, lane, x0, rec, i);
    StoreWord(buf, wptr, value, k);
    ghost var after := buf[..];
    assert after[wptr + k..] == before[wptr + k..] && after[..wptr + k] == before[..wptr] + Encode(value, k);
    SameTail(before, after, wptr + k, rptr + k);
    assert buf[rptr + k..] == after[rptr + k..];
  }

  method ReplyWords(p: Port, bus: Bus, buf: array<byte>, at: nat, w1: nat, rcount: nat, rconfig: bool,
                    lane: Option<Lane>,
                    x0: Exec, ghost rec: Record, ghost head: seq<byte>, ghost words: seq<nat>)
      returns (x: Exec, rptr: nat, wptr: nat)
    requires rcount == |rec.raddrs| && lane == DecodeLane(p, rec) && rec.rca == rconfig && |head| == w1 <= at
    requires WordAt(at, rcount, Align(p)) <= buf.Length
    requires forall i :: 0 <= i < rcount ==> Load(buf[..], WordAt(at, i, Align(p)), Align(p)) == rec.raddrs[i]
    requires buf[..w1 + Align(p)] == head + Words([rec.rbase], Align(p))
    requires words == Reads(p, bus, rec, 0, x0).1
    modifies buf
    ensures x == Reads(p, bus, rec, 0, x0).0
    ensures rptr == WordAt(at, rcount, Align(p)) && wptr == WordAt(w1, rcount, Align(p))
    ensures buf[..wptr] == head + Words([rec.rbase] + words, Align(p))
    ensures buf[rptr..] == old(buf[rptr..])
  {
    hide ReadOne, Reads, Load, Words, Encode, DecodeLane, WordAt, Scale, Replying;
    var k := Align(p);
    ghost var before := buf[..];
    x, rptr, wptr := x0, at + k, w1 + k;
    ReplyingStart(p, bus, rec, x0);
    WordAtFirst(at, rcount, k);
    WordAtFirst(w1, rcount, k);
    var i := 0;
    ghost var done: seq<nat> := [];
    assert [rec.rbase] + done == [rec.rbase];
    while i < rcount
      invariant 0 <= i <= rcount && rptr == WordAt(at, i, k) && wptr == WordAt(w1, i, k)
      invariant wptr <= rptr <= buf.Length
      invariant Replying(p, bus, rec, x0, x, i, words, done)
      invariant buf[..wptr] == head + Words([rec.rbase] + done, k)
      invariant buf[rptr..] == before[rptr..]
    {
      WordAtStep(at, i, rcount, k);
      WordAtStep(w1, i, rcount, k);
      LoadKept(before, buf[..], rptr, rptr, k);
      ghost var now, y := buf[..], x;
      var value;
      x, value := ReplyWord(p, bus, buf, rptr, wptr, k, rconfig, lane, x, rec, i);
      ReplyingStep(p, bus, rec, x0, y, i, words, done);
      SameTail(before, now, rptr, rptr + k);
      OneMoreWord(head, [rec.rbase], done, value, k);
      rptr := rptr + k;
      wptr := wptr + k;
      done := done + [value];
      i := i + 1;
    }
    ReplyingEnd(p, bus, rec, x0, x, words, done);
  }

  lemma NoMoreReads(p: Port, bus: Bus, rec: Record, x: Exec)
    ensures Reads(p, bus, rec, |rec.raddrs|, x) == (x, [])
  {
  }

  /* ---------- one record ---------- */

  /** The variables of the record loop that outlive a record. */
  datatype Vars = Vars(x: Exec, reply: bool, open: bool, end: bool)

  /** They describe a session that has sent or buffered these replies. */
  ghost predicate Tracks(v: Vars, s: Session) {
    v.x == s.x && v.open == s.open && v.end == s.end && (v.reply <==> s.replies != []) && (v.open ==> v.reply)
  }

  lemma AddedReplies(p: Port, bus: Bus, rec: Record, s: Session)
    requires Fits(p, rec) && AllFit(p, s.replies)
    ensures var t := StepRecord(p, bus, rec, s);
            var (x, words) := Reads(p, bus, rec, 0, Writes(p, bus, rec, 0, s.x));
            && AllFit(p, t.replies) && t.x == x && t.end == rec.cyc
            && t.open == (if rec.raddrs == [] then s.open else !rec.cyc)
            && SerializeAll(p, t.replies) == SerializeAll(p, s.replies)
                 + ReplyOf(p, rec, words, s.open)
            && (t.replies != [] <==> s.replies != [] || rec.raddrs != [] || (s.open && rec.cyc))
  {
    hide Reads, Writes;
    StepRepliesFit(p, bus, rec, s);
    var t := StepRecord(p, bus, rec, s);
    var added := t.replies[|s.replies|..];
    assert t.replies == s.replies + added;
    var words := Reads(p, bus, rec, 0, Writes(p, bus, rec, 0, s.x)).1;
    assert added == if rec.raddrs != [] then [Reply(rec, words)] else if s.open && rec.cyc then [TERMINATOR] else [];
    assert added != [] ==> Fits(p, added[0]);
    hide Fits, Serialize, SerializeAll;
    SerializeAllConcat(p, s.replies, added);
    if added == [] {
      SerializeNone(p);
    } else {
      SerializeOne(p, added[0]);
    }
  }

  /** Bytes a record adds to the reply: its read values, a terminator for an earlier reply, or nothing. */
  function ReplyOf(p: Port, rec: Record, words: seq<nat>, open: bool): seq<byte> {
    if rec.raddrs != [] then (if Fits(p, Reply(rec, words)) then Serialize(p, Reply(rec, words)) else [])
    else if open && rec.cyc then Serialize(p, TERMINATOR)
    else []
  }

  lemma TerminatorBytes(p: Port)
    ensures Fits(p, TERMINATOR)
    ensures Serialize(p, TERMINATOR) == [8, 0, 0, 0] + Zeros(HeadAlign(p) - 4)
  {
    assert Payload(TERMINATOR) == [];
  }

  lemma HeaderOf(p: Port, s: seq<byte>, from: nat, end: nat)
    requires from <= end <= |s| && Parse(p, s[from..end]).Whole?
    ensures from + HeadAlign(p) <= end
    ensures var rec := Parse(p, s[from..end]).rec;
            var size := RecordSize(p, |rec.wvals|, |rec.raddrs|);
            && rec.bca == HasFlag(s[from], 0x80) && rec.rca == HasFlag(s[from], 0x40)
            && rec.rff == HasFlag(s[from], 0x20)
            && rec.cyc == HasFlag(s[from], 0x08) && rec.wca == HasFlag(s[from], 0x04)
            && rec.wff == HasFlag(s[from], 0x02)
            && rec.sel == s[from + 1]
            && |rec.wvals| == s[from + 2] && |rec.raddrs| == s[from + 3]
            && from + size <= end && Parse(p, s[from..end]).rest == s[from + size..end]
  {
    hide HasFlag, Load, LoadWords;
    var t := s[from..end];
    assert t[0] == s[from] && t[1] == s[from + 1] && t[2] == s[from + 2] && t[3] == s[from + 3];
    var size := RecordSize(p, t[2], t[3]);
    assert t[size..] == s[from + size..end];
  }

  /** The record at `from`, as its header and payload lie in the buffer. */
  ghost predicate RecordIn(p: Port, s: seq<byte>, from: nat, flags: byte, select: byte, rec: Record) {
    && Fits(p, rec) && from + RecordSize(p, |rec.wvals|, |rec.raddrs|) <= |s|
    && rec.bca == HasFlag(flags, 0x80) && rec.rca == HasFlag(flags, 0x40) && rec.rff == HasFlag(flags, 0x20)
    && rec.cyc == HasFlag(flags, 0x08) && rec.wca == HasFlag(flags, 0x04) && rec.wff == HasFlag(flags, 0x02)
    && rec.sel == select
    && (rec.wvals != [] ==> SectionIn(s, from + HeadAlign(p), rec.wbase, rec.wvals, Align(p)))
    && (rec.raddrs != [] ==> SectionIn(s, from + ReadAt(p, |rec.wvals|), rec.rbase, rec.raddrs, Align(p)))
  }

  lemma ParsedRecordIn(p: Port, s: seq<byte>, from: nat, end: nat)
    requires from <= end <= |s| && Parse(p, s[from..end]).Whole?
    ensures from + 4 <= |s|
    ensures var rec := Parse(p, s[from..end]).rec;
            && RecordIn(p, s, from, s[from], s[from + 1], rec)
            && |rec.wvals| == s[from + 2] && |rec.raddrs| == s[from + 3]
            && from + RecordSize(p, |rec.wvals|, |rec.raddrs|) <= end
            && Parse(p, s[from..end]).rest == s[from + RecordSize(p, |rec.wvals|, |rec.raddrs|)..end]
  {
    hide Parse, Fits, HasFlag, SectionIn;
    ParsedFits(p, s[from..end]);
    SectionsOf(p, s, from, end);
    HeaderOf(p, s, from, end);
  }

  /** Second half of a record: its reads and reply, or the terminator an earlier reply is owed. */
  method FinishRecord(p: Port, bus: Bus, buf: array<byte>, at: nat, w0: nat, flags: byte, select: byte, rcount: byte,
                      lane: Option<Lane>, v0: Vars, ghost rec: Record)
      returns (v: Vars, rptr: nat, wptr: nat, ghost more: seq<byte>)
    requires rcount as nat == |rec.raddrs| && lane == DecodeLane(p, rec) && Fits(p, rec)
    requires rec.rca == HasFlag(flags, 0x40) && rec.sel == select
    requires rec.bca == HasFlag(flags, 0x80) && rec.rff == HasFlag(flags, 0x20) && rec.cyc == HasFlag(flags, 0x08)
    requires rec.raddrs != [] ==> SectionIn(buf[..], at, rec.rbase, rec.raddrs, Align(p))
    requires w0 + HeadAlign(p) <= at <= buf.Length && v0.end == rec.cyc
    modifies buf
    ensures var (x, words) := Reads(p, bus, rec, 0, v0.x);
            var open := if rec.raddrs == [] then v0.open else !rec.cyc;
            v == Vars(x, v0.reply || rec.raddrs != [], open, rec.cyc) && more == ReplyOf(p, rec, words, v0.open)
    ensures rptr == at + Scale(SectionSize(|rec.raddrs|), Align(p)) <= buf.Length && wptr <= rptr
    ensures buf[..wptr] == old(buf[..w0]) + more
    ensures buf[rptr..] == old(buf[rptr..])
  {
    ghost var before := buf[..];
    hide Fits, HasFlag, Load, Reads, Serialize, SelectedLane, Zeros, SectionIn, Reply;
    if rcount > 0 {
      var x;
      x, rptr, wptr := PerformReads(p, bus, buf, at, w0, flags, select, rcount, lane, v0.x, rec);
      v := Vars(x, true, !v0.end, v0.end);
      more := Serialize(p, Reply(rec, Reads(p, bus, rec, 0, v0.x).1));
    } else {
      NoMoreReads(p, bus, rec, v0.x);
      v, rptr := v0, at;
      more, wptr := Terminate(p, buf, w0, v0.open && v0.end);
      SameTail(before, buf[..], wptr, rptr);
    }
  }

  method Terminate(p: Port, buf: array<byte>, w0: nat, owed: bool) returns (ghost more: seq<byte>, wptr: nat)
    requires w0 + HeadAlign(p) <= buf.Length
    modifies buf
    ensures Fits(p, TERMINATOR) && more == if owed then Serialize(p, TERMINATOR) else []
    ensures wptr == (if owed then w0 + HeadAlign(p) else w0)
    ensures buf[..wptr] == old(buf[..w0]) + more && buf[wptr..] == old(buf[wptr..])
  {
    TerminatorBytes(p);
    more, wptr := [], w0;
    if owed {
      StoreHeader(p, buf, w0, 8, 0, 0, 0);
      wptr := w0 + HeadAlign(p);
      more := Serialize(p, TERMINATOR);
    }
  }

  lemma RecordInSections(p: Port, s: seq<byte>, from: nat, flags: byte, select: byte, rec: Record)
    requires RecordIn(p, s, from, flags, select, rec)
    ensures rec.wvals != [] ==> SectionIn(s, from + HeadAlign(p), rec.wbase, rec.wvals, Align(p))
    ensures rec.raddrs != [] ==> SectionIn(s, from + ReadAt(p, |rec.wvals|), rec.rbase, rec.raddrs, Align(p))
    ensures Fits(p, rec) && from + RecordSize(p, |rec.wvals|, |rec.raddrs|) <= |s|
    ensures RecordSize(p, |rec.wvals|, |rec.raddrs|)
            == ReadAt(p, |rec.wvals|) + Scale(SectionSize(|rec.raddrs|), Align(p))
    ensures HeadAlign(p) <= ReadAt(p, |rec.wvals|)
  {
    hide SectionIn, HasFlag, Fits;
  }

  lemma RecordInFlags(p: Port, s: seq<byte>, from: nat, flags: byte, select: byte, rec: Record)
    requires RecordIn(p, s, from, flags, select, rec)
    ensures rec.bca == HasFlag(flags, 0x80) && rec.rca == HasFlag(flags, 0x40) && rec.rff == HasFlag(flags, 0x20)
    ensures rec.cyc == HasFlag(flags, 0x08) && rec.wca == HasFlag(flags, 0x04) && rec.wff == HasFlag(flags, 0x02)
    ensures rec.sel == select
  {
    hide SectionIn, Fits, HasFlag;
  }

  /** Execute a record whose header has been located. */
  method RunRecord(p: Port, bus: Bus, buf: array<byte>, from: nat, w0: nat, v0: Vars, ghost rec: Record)
      returns (v: Vars, rptr: nat, wptr: nat, ghost more: seq<byte>)
    requires w0 <= from && from + 4 <= buf.Length && RecordIn(p, buf[..], from, buf[from], buf[from + 1], rec)
    requires buf[from + 2] as nat == |rec.wvals| && buf[from + 3] as nat == |rec.raddrs|
    modifies buf
    ensures var (x, words) := Reads(p, bus, rec, 0, Writes(p, bus, rec, 0, v0.x));
            var open := if rec.raddrs == [] then v0.open else !rec.cyc;
            v == Vars(x, v0.reply || rec.raddrs != [], open, rec.cyc) && more == ReplyOf(p, rec, words, v0.open)
    ensures rptr == from + RecordSize(p, |rec.wvals|, |rec.raddrs|) <= buf.Length && wptr <= rptr
    ensures buf[..wptr] == old(buf[..w0]) + more
    ensures buf[rptr..] == old(buf[rptr..])
  {
    hide Fits, HasFlag, Writes, Reads, SectionIn, SelectedLane, ReplyOf, RecordSize, Scale, RecordIn, WordAt, ReadAt;
    var flags, select, wcount, rcount := buf[from], buf[from + 1], buf[from + 2], buf[from + 3];
    RecordInFlags(p, buf[..], from, flags, select, rec);
    RecordInSections(p, buf[..], from, flags, select, rec);
    var lane := SelectedLane(p, select);
    var x := v0.x;
    if wcount > 0 {
      var end;
      x, end := PerformWrites(p, bus, buf, from + HeadAlign(p), wcount as nat, HasFlag(flags, 0x04),
          HasFlag(flags, 0x02), lane, x, rec);
    }
    NoWrites(p, bus, rec, v0.x);
    var at := from + ReadAt(p, wcount as nat);
    v, rptr, wptr, more := FinishRecord(p, bus, buf, at, w0, flags, select, rcount, lane,
        v0.(x := x, end := HasFlag(flags, 0x08)), rec);
  }

  /** Execute the record at `from`; its reply (`more`, possibly nothing) goes to `w0`. */
  method ProcessRecord(p: Port, bus: Bus, buf: array<byte>, from: nat, w0: nat, eos: nat, v0: Vars, ghost s: Session)
      returns (v: Vars, rptr: nat, wptr: nat, ghost more: seq<byte>)
    requires w0 <= from <= eos <= buf.Length && Parse(p, buf[from..eos]).Whole?
    requires Tracks(v0, s) && AllFit(p, s.replies)
    modifies buf
    ensures var t := StepRecord(p, bus, Parse(p, old(buf[from..eos])).rec, s);
            Tracks(v, t) && AllFit(p, t.replies) && SerializeAll(p, t.replies) == SerializeAll(p, s.replies) + more
    ensures from < rptr <= eos && wptr <= rptr && (rptr - from) % Align(p) == 0 && |more| % Align(p) == 0
    ensures v0.reply ==> v.reply
    ensures buf[..wptr] == old(buf[..w0]) + more
    ensures buf[rptr..eos] == Parse(p, old(buf[from..eos])).rest
  {
    ghost var before := buf[..];
    hide *;
    assert before[from..eos] == buf[from..eos];
    ghost var rec := RecordStep(p, bus, before, from, eos, v0, s);
    v, rptr, wptr, more := RunRecord(p, bus, buf, from, w0, v0, rec);
    KeptInput(before, buf[..], rptr, eos);
  }

  /** Everything the loop needs to know about the record at `from`. */
  lemma RecordStep(p: Port, bus: Bus, buf: seq<byte>, from: nat, eos: nat, v0: Vars, s: Session) returns (rec: Record)
    requires from <= eos <= |buf| && Parse(p, buf[from..eos]).Whole?
    requires Tracks(v0, s) && AllFit(p, s.replies)
    ensures from + 4 <= |buf| && RecordIn(p, buf, from, buf[from], buf[from + 1], rec)
    ensures buf[from + 2] == |rec.wvals| && buf[from + 3] == |rec.raddrs|
    ensures var size := RecordSize(p, |rec.wvals|, |rec.raddrs|);
            && 0 < size && size % Align(p) == 0 && from + size <= eos
            && Parse(p, buf[from..eos]) == Whole(rec, buf[from + size..eos])
    ensures var (x, words) := Reads(p, bus, rec, 0, Writes(p, bus, rec, 0, v0.x));
            var open := if rec.raddrs == [] then v0.open else !rec.cyc;
            var t := StepRecord(p, bus, rec, s);
            var more := ReplyOf(p, rec, words, v0.open);
            && Tracks(Vars(x, v0.reply || rec.raddrs != [], open, rec.cyc), t) && AllFit(p, t.replies)
            && SerializeAll(p, t.replies) == SerializeAll(p, s.replies) + more && |more| % Align(p) == 0
  {
    hide *;
    rec := Parse(p, buf[from..eos]).rec;
    ParsedRecordIn(p, buf, from, eos);
    RecordInSections(p, buf, from, buf[from], buf[from + 1], rec);
    RecordSizeBounds(p, |rec.wvals|, |rec.raddrs|);
    AddedReplies(p, bus, rec, s);
    TracksStep(p, bus, rec, s, v0);
    ReplyAligned(p, rec, Reads(p, bus, rec, 0, Writes(p, bus, rec, 0, v0.x)).1, v0.open);
  }

  lemma TracksStep(p: Port, bus: Bus, rec: Record, s: Session, v0: Vars)
    requires Tracks(v0, s)
    ensures var (x, words) := Reads(p, bus, rec, 0, Writes(p, bus, rec, 0, v0.x));
            var open := if rec.raddrs == [] then v0.open else !rec.cyc;
            Tracks(Vars(x, v0.reply || rec.raddrs != [], open, rec.cyc), StepRecord(p, bus, rec, s))
    ensures v0.x == s.x && v0.open == s.open
  {
    hide Reads, Writes;
  }

  lemma ReplyAligned(p: Port, rec: Record, words: seq<nat>, open: bool)
    ensures |ReplyOf(p, rec, words, open)| % Align(p) == 0
  {
    hide Fits, Serialize;
    TerminatorFits(p);
    SerializedSize(p, TERMINATOR);
    if Fits(p, Reply(rec, words)) {
      SerializedSize(p, Reply(rec, words));
    }
    assert 0 % Align(p) == 0;
  }

  lemma NoWrites(p: Port, bus: Bus, rec: Record, x: Exec)
    ensures rec.wvals == [] ==> Writes(p, bus, rec, 0, x) == x
  {
  }

  lemma KeptInput(a: seq<byte>, b: seq<byte>, from: nat, to: nat)
    requires |a| == |b| && from <= to <= |a| && a[from..] == b[from..]
    ensures a[from..to] == b[from..to]
  {
    assert a[from..to] == a[from..][..to - from] && b[from..to] == b[from..][..to - from];
  }

  /* ---------- the transport ---------- */

  /** Bytes a stream will still deliver, in the pieces `recv` happens to return; an empty piece
      or the end of the list stands for a closed connection. */
  function Stream(chunks: seq<seq<byte>>): seq<byte> {
    if chunks == [] || chunks[0] == [] then [] else chunks[0] + Stream(chunks[1..])
  }

  /** Move the unread bytes to the front and receive at least one more behind them. */
  method Refill(buf: array<byte>, rptr: nat, eos: nat, chunks0: seq<seq<byte>>)
      returns (ok: bool, len: nat, chunks: seq<seq<byte>>, ghost got: seq<byte>)
    requires rptr <= eos <= buf.Length && eos - rptr < buf.Length
    modifies buf
    ensures Stream(chunks0) == got + Stream(chunks)
    ensures ok <==> got != []
    ensures !ok ==> Stream(chunks0) == []
    ensures ok ==> len == eos - rptr + |got| <= buf.Length && buf[..len] == old(buf[rptr..eos]) + got
  {
    var keep := eos - rptr;
    ghost var unread := buf[rptr..eos];
    forall i | 0 <= i < keep {
      buf[i] := buf[rptr + i];
    }
    assert buf[..keep] == unread;
    chunks, got, len := chunks0, [], 0;
    ok := chunks != [] && chunks[0] != [];
    if ok {
      var room := buf.Length - keep;
      var n := if |chunks[0]| <= room then |chunks[0]| else room;
      var piece := chunks[0][..n];
      forall i | 0 <= i < n {
        buf[keep + i] := piece[i];
      }
      len := keep + n;
      got := piece;
      assert buf[..len] == unread + piece;
      if n == |chunks[0]| {
        chunks := chunks[1..];
        assert piece == chunks0[0];
      } else {
        chunks := [chunks[0][n..]] + chunks[1..];
        assert chunks[1..] == chunks0[1..];
        assert chunks0[0] == piece + chunks0[0][n..];
      }
    }
  }

  /* ---------- the whole loop ---------- */

  /** What holds between records. `consumed` is everything received after the packet header,
      `s` the session it has led to, `sent` what has been transmitted, `head` the packet header
      if it is (still) in front of the reply. */
  ghost predicate Between(p: Port, bus: Bus, buf: seq<byte>, rptr: nat, wptr: nat, eos: nat, v: Vars,
                          consumed: seq<byte>, s: Session, sent: seq<byte>, head: seq<byte>) {
    && wptr <= rptr <= eos <= |buf| == BUFFER_SIZE
    && rptr % Align(p) == 0 && wptr % Align(p) == 0
    && Tracks(v, s) && AllFit(p, s.replies)
    && Run(p, bus, IDLE, consumed) == Run(p, bus, s, buf[rptr..eos])
    && sent + buf[..wptr] == head + SerializeAll(p, s.replies)
    && (!v.reply ==> sent == [])
  }

  lemma AfterRecord(p: Port, bus: Bus, a: seq<byte>, b: seq<byte>, from: nat, w0: nat, eos: nat, v0: Vars,
                    consumed: seq<byte>, s: Session, sent: seq<byte>, head: seq<byte>,
                    v: Vars, rptr: nat, wptr: nat, more: seq<byte>)
    requires Between(p, bus, a, from, w0, eos, v0, consumed, s, sent, head) && Parse(p, a[from..eos]).Whole?
    requires |b| == |a| && from < rptr <= eos && wptr <= rptr
    requires (rptr - from) % Align(p) == 0 && |more| % Align(p) == 0
    requires var t := StepRecord(p, bus, Parse(p, a[from..eos]).rec, s);
             Tracks(v, t) && AllFit(p, t.replies) && SerializeAll(p, t.replies) == SerializeAll(p, s.replies) + more
    requires b[..wptr] == a[..w0] + more && b[rptr..eos] == Parse(p, a[from..eos]).rest
    requires v0.reply ==> v.reply
    ensures Between(p, bus, b, rptr, wptr, eos, v, consumed, StepRecord(p, bus, Parse(p, a[from..eos]).rec, s), sent,
            head)
  {
    hide Parse, StepRecord, SerializeAll, Fits;
    AlignedSum(p, from, rptr - from);
    AlignedSum(p, w0, |more|);
    assert sent + (a[..w0] + more) == (sent + a[..w0]) + more;
    assert head + (SerializeAll(p, s.replies) + more) == (head + SerializeAll(p, s.replies)) + more;
  }

  /** After the buffered reply (if any) has been sent and the buffer refilled. */
  lemma AfterRefill(p: Port, bus: Bus, a: seq<byte>, b: seq<byte>, rptr: nat, wptr: nat, eos: nat, v: Vars,
                    consumed: seq<byte>, s: Session, sent: seq<byte>, head: seq<byte>, got: seq<byte>)
    requires Between(p, bus, a, rptr, wptr, eos, v, consumed, s, sent, head)
    requires |b| == |a| && eos - rptr + |got| <= |b| && b[..eos - rptr + |got|] == a[rptr..eos] + got
    ensures var sent1 := if v.reply then sent + a[..wptr] else [];
            var head1 := if v.reply then head else [];
            Between(p, bus, b, 0, 0, eos - rptr + |got|, v, consumed + got, s, sent1, head1)
  {
    hide Parse, StepRecord, SerializeAll, Fits;
    var (t, rest) := Run(p, bus, IDLE, consumed);
    RunResumes(p, bus, IDLE, consumed, got);
    RunResumes(p, bus, s, a[rptr..eos], got);
    var len := eos - rptr + |got|;
    assert b[0..len] == b[..len];
    assert 0 % Align(p) == 0;
    var sent1 := if v.reply then sent + a[..wptr] else [];
    assert b[..0] == [];
    assert sent1 + b[..0] == sent1;
    if !v.reply {
      assert s.replies == [];
      SerializeNone(p);
    }
  }

  /** The result of one call of the slave: it equals `Run` on everything consumed, reply bytes
      included, whatever pieces the bytes came in. The call succeeds exactly if the records end
      where the bytes do, at the end of a cycle. */
  ghost predicate Served(p: Port, bus: Bus, streaming: bool, consumed: seq<byte>, x: Exec, out: seq<byte>, ok: bool,
                         head: seq<byte>) {
    var (t, rest) := Run(p, bus, IDLE, consumed);
    && x == t.x && AllFit(p, t.replies)
    && (ok <==> rest == [] && t.end)
    && out == if t.replies == []
        || (!streaming && Parse(p, rest) == Partial) then [] else head + SerializeAll(p, t.replies)
  }

  lemma Finished(p: Port, bus: Bus, streaming: bool, buf: seq<byte>, rptr: nat, wptr: nat, eos: nat, v: Vars,
                 consumed: seq<byte>, s: Session, sent: seq<byte>, head: seq<byte>, ok: bool)
    requires Between(p, bus, buf, rptr, wptr, eos, v, consumed, s, sent, head)
    requires !Parse(p, buf[rptr..eos]).Whole? && (Parse(p, buf[rptr..eos]).Partial? ==> streaming)
    requires ok <==> rptr == eos && v.end
    ensures Served(p, bus, streaming, consumed, v.x, if v.reply then sent + buf[..wptr] else sent, ok, head)
  {
    hide SerializeAll, Fits, RecordFrom;
    assert Run(p, bus, s, buf[rptr..eos]) == (s, buf[rptr..eos]);
    assert buf[rptr..eos] == [] <==> rptr == eos;
  }

  lemma Dropped(p: Port, bus: Bus, buf: seq<byte>, rptr: nat, wptr: nat, eos: nat, v: Vars,
                consumed: seq<byte>, s: Session, sent: seq<byte>, head: seq<byte>)
    requires Between(p, bus, buf, rptr, wptr, eos, v, consumed, s, sent, head)
    requires Parse(p, buf[rptr..eos]).Partial? && rptr < eos
    ensures Served(p, bus, false, consumed, v.x, [], false, head)
  {
    hide SerializeAll, Fits, RecordFrom;
    assert Run(p, bus, s, buf[rptr..eos]) == (s, buf[rptr..eos]);
    assert buf[rptr..eos] != [];
  }

  lemma HowItParses(p: Port, buf: seq<byte>, rptr: nat, eos: nat)
    requires rptr <= eos <= |buf|
    ensures eos - rptr < HeadAlign(p) ==> Parse(p, buf[rptr..eos]) == Short
    ensures eos - rptr >= HeadAlign(p) ==>
              var size := RecordSize(p, buf[rptr + 2], buf[rptr + 3]);
              && size <= BUFFER_SIZE
              && (Parse(p, buf[rptr..eos]).Whole? <==> size <= eos - rptr)
              && (Parse(p, buf[rptr..eos]).Partial? <==> size > eos - rptr)
  {
    hide RecordFrom;
    if eos - rptr >= HeadAlign(p) {
      var t := buf[rptr..eos];
      assert t[2] == buf[rptr + 2] && t[3] == buf[rptr + 3];
      RecordSizeBounds(p, t[2], t[3]);
    }
  }

  lemma Begin(p: Port, bus: Bus, buf: seq<byte>, start: nat, len: nat)
    requires |buf| == BUFFER_SIZE && start <= len <= |buf| && (start == 0 || start == HeadAlign(p))
    ensures Between(p, bus, buf, start, start, len, Vars(Exec(0, 0, []), false, false, true), buf[start..len], IDLE,
            [], buf[..start])
  {
    hide Run, Fits;
    SerializeNone(p);
    assert 0 % Align(p) == 0 && HeadAlign(p) % Align(p) == 0;
  }

  lemma BetweenBounds(p: Port, bus: Bus, buf: seq<byte>, rptr: nat, wptr: nat, eos: nat, v: Vars,
                      consumed: seq<byte>, s: Session, sent: seq<byte>, head: seq<byte>)
    requires Between(p, bus, buf, rptr, wptr, eos, v, consumed, s, sent, head)
    ensures wptr <= rptr <= eos <= |buf| == BUFFER_SIZE && (!v.reply ==> sent == [])
    ensures Tracks(v, s) && AllFit(p, s.replies)
  {
    hide Run, Fits;
  }

  /** Send the buffered reply, if there is one, and refill the buffer from the stream. */
  method SendAndRefill(p: Port, bus: Bus, buf: array<byte>, rptr: nat, wptr: nat, eos: nat, v: Vars, sent: seq<byte>,
                       chunks0: seq<seq<byte>>,
                       ghost consumed0: seq<byte>, ghost s: Session, ghost head0: seq<byte>)
      returns (more: bool, len: nat, out: seq<byte>, chunks: seq<seq<byte>>, ghost consumed: seq<byte>,
          ghost head: seq<byte>)
    requires Between(p, bus, buf[..], rptr, wptr, eos, v, consumed0, s, sent, head0) && rptr <= eos
         && eos - rptr < buf.Length
    modifies buf
    ensures consumed + Stream(chunks) == consumed0 + Stream(chunks0)
    ensures head == head0 || head == []
    ensures wptr <= buf.Length && (!more ==> out == if v.reply then sent + old(buf[..wptr]) else sent)
    ensures !more ==> Stream(chunks) == [] && consumed == consumed0 && head == head0
    ensures more ==> |Stream(chunks)| < |Stream(chunks0)|
    ensures more ==> eos - rptr <= len <= buf.Length && buf[..eos - rptr] == old(buf[rptr..eos])
    ensures more ==> Between(p, bus, buf[..], 0, 0, len, v, consumed, s, out, head)
  {
    hide *;
    BetweenBounds(p, bus, buf[..], rptr, wptr, eos, v, consumed0, s, sent, head0);
    ghost var before := buf[..];
    out := sent;
    if v.reply {
      out := out + buf[..wptr];
    }
    ghost var got;
    more, len, chunks, got := Refill(buf, rptr, eos, chunks0);
    consumed, head := consumed0 + got, if v.reply || got == [] then head0 else [];
    assert (consumed0 + got) + Stream(chunks) == consumed0 + (got + Stream(chunks));
    if more {
      AfterRefill(p, bus, before, buf[..], rptr, wptr, eos, v, consumed0, s, sent, head0, got);
      assert buf[..eos - rptr] == buf[..len][..eos - rptr];
    }
  }

  /** Receive until the record at `rptr` is complete; packets cannot, and streams may end first. */
  method AwaitRecord(p: Port, bus: Bus, buf: array<byte>, rptr0: nat, wptr0: nat, eos0: nat, v: Vars, streaming: bool,
                     sent: seq<byte>, chunks0: seq<seq<byte>>, ghost consumed0: seq<byte>, ghost s: Session,
                         ghost head0: seq<byte>)
      returns (whole: bool, rptr: nat, wptr: nat, eos: nat, out: seq<byte>, chunks: seq<seq<byte>>,
               ghost consumed: seq<byte>, ghost head: seq<byte>)
    requires Between(p, bus, buf[..], rptr0, wptr0, eos0, v, consumed0, s, sent, head0)
    requires wptr0 <= rptr0 && rptr0 + HeadAlign(p) <= eos0 <= buf.Length == BUFFER_SIZE
    modifies buf
    ensures consumed + Stream(chunks) == consumed0 + Stream(chunks0)
    ensures head == head0 || head == []
    ensures !streaming ==> consumed == consumed0 && head == head0
    ensures whole ==> Between(p, bus, buf[..], rptr, wptr, eos, v, consumed, s, out, head)
    ensures whole ==> wptr <= rptr <= eos <= buf.Length && Parse(p, buf[rptr..eos]).Whole?
    ensures whole ==> |Stream(chunks)| < |Stream(chunks0)| || (chunks == chunks0 && rptr == rptr0 && eos == eos0)
    ensures !whole ==> Served(p, bus, streaming, consumed, v.x, out, false, head)
    ensures !whole && streaming ==> Stream(chunks) == []
  {
    hide *;
    rptr, wptr, eos, out, chunks, consumed, head := rptr0, wptr0, eos0, sent, chunks0, consumed0, head0;
    HowItParses(p, buf[..], rptr, eos);
    HeadIsFour(p);
    var size := RecordSize(p, buf[rptr + 2], buf[rptr + 3]);
    while size > eos - rptr
      invariant Between(p, bus, buf[..], rptr, wptr, eos, v, consumed, s, out, head)
      invariant wptr <= rptr && rptr + HeadAlign(p) <= eos <= buf.Length
      invariant size == RecordSize(p, buf[rptr + 2], buf[rptr + 3]) <= BUFFER_SIZE
      invariant consumed + Stream(chunks) == consumed0 + Stream(chunks0) && (head == head0 || head == [])
      invariant !streaming ==> consumed == consumed0 && head == head0
      invariant |Stream(chunks)| < |Stream(chunks0)| || (chunks == chunks0 && rptr == rptr0 && eos == eos0)
      decreases |Stream(chunks)|
    {
      HowItParses(p, buf[..], rptr, eos);
      if !streaming {
        Dropped(p, bus, buf[..], rptr, wptr, eos, v, consumed, s, out, head);
        whole, out := false, [];
        return;
      }
      Finished(p, bus, true, buf[..], rptr, wptr, eos, v, consumed, s, out, head, false);
      ghost var before := buf[..];
      whole, eos, out, chunks, consumed,
          head := RefillAt(p, bus, buf, rptr, wptr, eos, v, out, chunks, consumed, s, head);
      if !whole {
        return;
      }
      rptr, wptr := 0, 0;
    }
    HowItParses(p, buf[..], rptr, eos);
    whole := true;
  }

  lemma HeadIsFour(p: Port)
    ensures HeadAlign(p) >= 4
  {
  }

  /** `SendAndRefill` for an unfinished record: its header moves to the front of the buffer. */
  method RefillAt(p: Port, bus: Bus, buf: array<byte>, rptr: nat, wptr: nat, eos: nat, v: Vars, sent: seq<byte>,
                  chunks0: seq<seq<byte>>,
                  ghost consumed0: seq<byte>, ghost s: Session, ghost head0: seq<byte>)
      returns (more: bool, len: nat, out: seq<byte>, chunks: seq<seq<byte>>, ghost consumed: seq<byte>,
          ghost head: seq<byte>)
    requires Between(p, bus, buf[..], rptr, wptr, eos, v, consumed0, s, sent, head0)
    requires wptr <= rptr && rptr + 4 <= eos <= buf.Length && eos - rptr < buf.Length
    modifies buf
    ensures consumed + Stream(chunks) == consumed0 + Stream(chunks0)
    ensures head == head0 || head == []
    ensures !more ==> out == if v.reply then sent + old(buf[..wptr]) else sent
    ensures !more ==> Stream(chunks) == [] && consumed == consumed0 && head == head0
    ensures more ==> |Stream(chunks)| < |Stream(chunks0)|
    ensures more ==> eos - rptr <= len <= buf.Length && buf[2] == old(buf[rptr + 2]) && buf[3] == old(buf[rptr + 3])
    ensures more ==> Between(p, bus, buf[..], 0, 0, len, v, consumed, s, out, head)
  {
    hide *;
    ghost var before := buf[..];
    more, len, out, chunks, consumed,
        head := SendAndRefill(p, bus, buf, rptr, wptr, eos, v, sent, chunks0, consumed0, s, head0);
    if more {
      HeaderMoved(before, buf[..], rptr, eos);
    }
  }

  /** Execute every record whose bytes have arrived or - on streams - can be received. */
  method DrainRecords(p: Port, bus: Bus, buf: array<byte>, rptr0: nat, wptr0: nat, eos0: nat, v0: Vars, streaming: bool,
                      sent: seq<byte>, chunks0: seq<seq<byte>>, ghost consumed0: seq<byte>, ghost s0: Session,
                          ghost head0: seq<byte>)
      returns (alive: bool, rptr: nat, wptr: nat, eos: nat, v: Vars, out: seq<byte>, chunks: seq<seq<byte>>,
               ghost consumed: seq<byte>, ghost s: Session, ghost head: seq<byte>)
    requires Between(p, bus, buf[..], rptr0, wptr0, eos0, v0, consumed0, s0, sent, head0) && buf.Length == BUFFER_SIZE
    modifies buf
    ensures consumed + Stream(chunks) == consumed0 + Stream(chunks0)
    ensures head == head0 || head == []
    ensures !streaming ==> consumed == consumed0 && head == head0
    ensures |Stream(chunks)| <= |Stream(chunks0)| || !alive
    ensures alive ==> Between(p, bus, buf[..], rptr, wptr, eos, v, consumed, s, out, head)
    ensures alive ==> wptr <= rptr <= eos <= buf.Length
    ensures alive ==> Parse(p, buf[rptr..eos]) == Short && eos - rptr < HeadAlign(p)
    ensures !alive ==> Served(p, bus, streaming, consumed, v.x, out, false, head)
    ensures !alive && streaming ==> Stream(chunks) == []
  {
    hide *;
    rptr, wptr, eos, v, out, chunks := rptr0, wptr0, eos0, v0, sent, chunks0;
    consumed, s, head := consumed0, s0, head0;
    BetweenBounds(p, bus, buf[..], rptr, wptr, eos, v, consumed, s, out, head);
    while rptr + HeadAlign(p) <= eos
      invariant Between(p, bus, buf[..], rptr, wptr, eos, v, consumed, s, out, head)
      invariant wptr <= rptr <= eos <= buf.Length
      invariant consumed + Stream(chunks) == consumed0 + Stream(chunks0) && (head == head0 || head == [])
      invariant !streaming ==> consumed == consumed0 && head == head0
      invariant |Stream(chunks)| <= |Stream(chunks0)|
      decreases |Stream(chunks)|, eos - rptr
    {
      var r, w;
      alive, r, w, eos, out, chunks, consumed,
          head := AwaitRecord(p, bus, buf, rptr, wptr, eos, v, streaming, out, chunks, consumed, s, head);
      if !alive {
        return;
      }
      BetweenBounds(p, bus, buf[..], r, w, eos, v, consumed, s, out, head);
      v, rptr, wptr, s := RecordBetween(p, bus, buf, r, w, eos, v, out, consumed, s, head);
    }
    HowItParses(p, buf[..], rptr, eos);
    alive := true;
  }

  /** `ProcessRecord`, keeping `Between`. */
  method RecordBetween(p: Port, bus: Bus, buf: array<byte>, from: nat, w0: nat, eos: nat, v0: Vars,
                       ghost sent: seq<byte>,
                       ghost consumed: seq<byte>, ghost s0: Session, ghost head: seq<byte>)
      returns (v: Vars, rptr: nat, wptr: nat, ghost s: Session)
    requires Between(p, bus, buf[..], from, w0, eos, v0, consumed, s0, sent, head)
    requires w0 <= from <= eos <= buf.Length && Parse(p, buf[from..eos]).Whole?
    modifies buf
    ensures Between(p, bus, buf[..], rptr, wptr, eos, v, consumed, s, sent, head) && from < rptr <= eos && wptr <= rptr
  {
    hide *;
    ghost var before := buf[..];
    assert before[from..eos] == buf[from..eos];
    BetweenBounds(p, bus, before, from, w0, eos, v0, consumed, s0, sent, head);
    ghost var reply;
    v, rptr, wptr, reply := ProcessRecord(p, bus, buf, from, w0, eos, v0, s0);
    AfterRecord(p, bus, before, buf[..], from, w0, eos, v0, consumed, s0, sent, head, v, rptr, wptr, reply);
    s := StepRecord(p, bus, Parse(p, before[from..eos]).rec, s0);
  }

  /** Process one poll's worth of input: `buf[start..len0]`, plus - on streams - whatever must be
      received to complete the records of an open cycle. */
  method Serve(p: Port, bus: Bus, buf: array<byte>, start: nat, len0: nat, streaming: bool, chunks0: seq<seq<byte>>)
      returns (x: Exec, out: seq<byte>, ok: bool, chunks: seq<seq<byte>>, ghost consumed: seq<byte>,
          ghost head: seq<byte>)
    requires buf.Length == BUFFER_SIZE && start <= len0 <= buf.Length && (start == 0 || start == HeadAlign(p))
    modifies buf
    ensures Served(p, bus, streaming, consumed, x, out, ok, head)
    ensures consumed + Stream(chunks) == old(buf[start..len0]) + Stream(chunks0)
    ensures !streaming ==> consumed == old(buf[start..len0]) && head == old(buf[..start])
    ensures head == old(buf[..start]) || head == []
    ensures streaming && !ok ==> Stream(chunks) == [] || Run(p, bus, IDLE, consumed).0.end
    ensures |Stream(chunks)| <= |Stream(chunks0)|
  {
    hide *;
    var rptr: nat, wptr: nat, eos: nat := start, start, len0;
    var v := Vars(Exec(0, 0, []), false, false, true);
    ghost var s := IDLE;
    ghost var head0, first := buf[..start], buf[start..len0];
    out, chunks, consumed, head := [], chunks0, first, head0;
    Begin(p, bus, buf[..], start, len0);
    while true
      invariant Between(p, bus, buf[..], rptr, wptr, eos, v, consumed, s, out, head)
      invariant consumed + Stream(chunks) == first + Stream(chunks0) && (head == head0 || head == [])
      invariant !streaming ==> consumed == first && head == head0
      invariant |Stream(chunks)| <= |Stream(chunks0)|
      decreases |Stream(chunks)|
    {
      ok, rptr, wptr, eos, v, out, chunks, consumed, s, head :=
        DrainRecords(p, bus, buf, rptr, wptr, eos, v, streaming, out, chunks, consumed, s, head);
      if !ok {
        return v.x, out, false, chunks, consumed, head;
      }
      if v.end || !streaming {
        ok := v.end && rptr == eos;
        Finished(p, bus, streaming, buf[..], rptr, wptr, eos, v, consumed, s, out, head, ok);
        EndOf(p, bus, buf[..], rptr, wptr, eos, v, consumed, s, out, head);
        if v.reply {
          out := out + buf[..wptr];
        }
        return v.x, out, ok, chunks, consumed, head;
      }
      Finished(p, bus, true, buf[..], rptr, wptr, eos, v, consumed, s, out, head, false);
      HeadIsSmall(p);
      ok, eos, out, chunks, consumed,
          head := SendAndRefill(p, bus, buf, rptr, wptr, eos, v, out, chunks, consumed, s, head);
      if !ok {
        return v.x, out, false, chunks, consumed, head;
      }
      rptr, wptr := 0, 0;
    }
  }

  lemma HeadIsSmall(p: Port)
    ensures HeadAlign(p) < BUFFER_SIZE
  {
  }

  lemma EndOf(p: Port, bus: Bus, buf: seq<byte>, rptr: nat, wptr: nat, eos: nat, v: Vars,
              consumed: seq<byte>, s: Session, sent: seq<byte>, head: seq<byte>)
    requires Between(p, bus, buf, rptr, wptr, eos, v, consumed, s, sent, head) && !Parse(p, buf[rptr..eos]).Whole?
    ensures Run(p, bus, IDLE, consumed).0.end == v.end
  {
    hide SerializeAll, Fits, RecordFrom;
    assert Run(p, bus, s, buf[rptr..eos]) == (s, buf[rptr..eos]);
  }

  lemma HeaderMoved(a: seq<byte>, b: seq<byte>, rptr: nat, eos: nat)
    requires rptr + 4 <= eos <= |a| && eos - rptr <= |b| && b[..eos - rptr] == a[rptr..eos]
    ensures b[2] == a[rptr + 2] && b[3] == a[rptr + 3]
  {
    assert b[2] == b[..eos - rptr][2] && b[3] == b[..eos - rptr][3];
  }

  /** One call of the slave on what has just been received. A message of less than two bytes, or with a
      header that ends before its padding does, is refused without doing anything. */
  method ServeMessage(p: Port, bus: Bus, buf: array<byte>, header: bool, len: nat, streaming: bool,
                      chunks0: seq<seq<byte>>)
      returns (x: Exec, out: seq<byte>, ok: bool, chunks: seq<seq<byte>>, ghost consumed: seq<byte>,
          ghost head: seq<byte>)
    requires buf.Length == BUFFER_SIZE && len <= buf.Length
    modifies buf
    ensures len < 2 || (header && len < HeadAlign(p)) ==> !ok && out == [] && x == IDLE.x && chunks == chunks0
    ensures var start := if header then HeadAlign(p) else 0;
            2 <= len && start <= len ==>
              && Served(p, bus, streaming, consumed, x, out, ok, head)
              && consumed + Stream(chunks) == old(buf[start..len]) + Stream(chunks0)
              && (!streaming ==> consumed == old(buf[start..len]) && head == old(buf[..start]))
              && (head == old(buf[..start]) || head == [])
    ensures |Stream(chunks)| <= |Stream(chunks0)|
  {
    hide Served, Stream, Run;
    var start := if header then HeadAlign(p) else 0;
    if len < 2 || len < start {
      return IDLE.x, [], false, chunks0, [], [];
    }
    x, out, ok, chunks, consumed, head := Serve(p, bus, buf, start, len, streaming, chunks0);
  }
}
