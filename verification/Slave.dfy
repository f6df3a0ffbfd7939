/** What a slave does with a stream of records: which accesses it performs, how the error shift
    register evolves, and which reply records it produces. Request and reply are kept apart
    here; `SlaveLoop` proves that the in-place, refilling loop computes the same thing. */
module Slave {
  import opened Bytes
  import opened Widths
  import opened Format

  /** One access performed for the remote master. Bus accesses carry the address twice: in the
      big-endian and in the little-endian byte lane; the addressed device uses one of them. */
  datatype Access =
    | BusWrite(size: nat, addrB: nat, addrL: nat, value: nat)
    | BusRead(size: nat, addrB: nat, addrL: nat)
    | BadSelect
    | ConfigWrite(size: nat, addr: nat, value: nat)
    | ConfigRead(size: nat, addr: nat)

  /** The device behind a bus access answers with a value (for reads) and success or failure.
      A bus is the list of answers in access order; any device behaviour is such a list. */
  datatype Outcome = Outcome(value: nat, fail: bool)
  type Bus = nat -> Outcome

  /** Error shift register, number of bus accesses answered so far, and everything done so far. */
  datatype Exec = Exec(error: nat, count: nat, trace: seq<Access>)

  function ShiftIn(error: nat, fail: bool): (r: nat)
    ensures r < TWO64
  {
    Wrap64(2 * error + if fail then 1 else 0)
  }

  function OnBus(bus: Bus, x: Exec, a: Access): Exec {
    Exec(ShiftIn(x.error, bus(x.count).fail), x.count + 1, x.trace + [a])
  }

  function Refused(x: Exec): Exec {
    Exec(ShiftIn(x.error, true), x.count, x.trace + [BadSelect])
  }

  function Logged(x: Exec, a: Access): Exec { x.(trace := x.trace + [a]) }

  /** Address bits a port decodes: its address width, above the lanes of one word. */
  function Filter(p: Port, a: nat): nat {
    var m := a % Pow256(p.addr);
    m - m % p.data
  }

  function LaneB(p: Port, lane: Lane): nat
    requires ValidLane(lane, p.data)
  {
    p.data - (lane.shift + lane.size)
  }

  /** Reading configuration space: the error register occupies bytes 0..7, zeros follow it,
      and reads starting beyond byte 7 yield nothing. */
  function ReadConfig(size: nat, addr: nat, error: nat): nat
    requires size <= 8
  {
    if addr >= 8 then 0 else Decode((Encode(error, 8) + Zeros(8))[addr..addr + size])
  }

  /** Address of the `i`-th write of a record. */
  function WriteAddress(p: Port, rec: Record, base: nat, i: nat): nat {
    Wrap64(base + if rec.wff then 0 else i * p.data)
  }

  function SelectedLane(p: Port, select: byte): (l: Option<Lane>)
    ensures l.Some? ==> ValidLane(l.value, p.data)
  {
    if DecodeSelect(select, p.data).Some? then
      SelectAcceptsOnlyLanes(select, p.data);
      DecodeSelect(select, p.data)
    else None
  }

  function DecodeLane(p: Port, rec: Record): (l: Option<Lane>)
    ensures l.Some? ==> ValidLane(l.value, p.data)
  {
    SelectedLane(p, rec.sel)
  }

  function WriteOne(p: Port, bus: Bus, rec: Record, i: nat, x: Exec): Exec
    requires i < |rec.wvals|
  {
    match DecodeLane(p, rec)
    case None => if rec.wca then x else Refused(x)
    case Some(lane) =>
      var v := ShiftDown(rec.wvals[i], lane.shift, lane.size);
      if rec.wca then Logged(x, ConfigWrite(lane.size, WriteAddress(p, rec, rec.wbase, i), v))
      else
        var base := Filter(p, rec.wbase);
        OnBus(bus, x, BusWrite(lane.size, WriteAddress(p, rec, base + LaneB(p, lane), i),
                               WriteAddress(p, rec, base + lane.shift, i), v))
  }

  function Writes(p: Port, bus: Bus, rec: Record, i: nat, x: Exec): Exec
    requires i <= |rec.wvals|
    decreases |rec.wvals| - i
  {
    if i == |rec.wvals| then x else Writes(p, bus, rec, i + 1, WriteOne(p, bus, rec, i, x))
  }

  /** One read: the new execution state and the reply word, with the value in its byte lane. */
  function ReadOne(p: Port, bus: Bus, rec: Record, i: nat, x: Exec): (Exec, nat)
    requires i < |rec.raddrs|
  {
    match DecodeLane(p, rec)
    case None => (if rec.rca then x else Refused(x), 0)
    case Some(lane) =>
      var base := Filter(p, rec.raddrs[i]);
      var b, l := base + LaneB(p, lane), base + lane.shift;
      if rec.rca then
        (Logged(x, ConfigRead(lane.size, b)),
         ShiftUp(ReadConfig(lane.size, b, x.error) % Pow256(lane.size), lane.shift))
      else
        (OnBus(bus, x, BusRead(lane.size, b, l)),
         ShiftUp(bus(x.count).value % Pow256(lane.size), lane.shift))
  }

  function Reads(p: Port, bus: Bus, rec: Record, i: nat, x: Exec): (r: (Exec, seq<nat>))
    requires i <= |rec.raddrs|
    ensures |r.1| == |rec.raddrs| - i
    decreases |rec.raddrs| - i
  {
    if i == |rec.raddrs| then (x, [])
    else
      var (x1, w) := ReadOne(p, bus, rec, i, x);
      var (x2, ws) := Reads(p, bus, rec, i + 1, x1);
      (x2, [w] + ws)
  }

  /** The whole conversation: execution state, reply records so far, whether an unterminated
      reply is on the wire, and whether the last request record ended its cycle. */
  datatype Session = Session(x: Exec, replies: seq<Record>, open: bool, end: bool)

  const IDLE: Session := Session(Exec(0, 0, []), [], false, true)

  function Reply(rec: Record, words: seq<nat>): Record {
    Record(false, false, false, rec.cyc, rec.bca, rec.rff, rec.sel, rec.rbase, words, 0, [])
  }

  const TERMINATOR: Record := Record(false, false, false, true, false, false, 0, 0, [], 0, [])

  function StepRecord(p: Port, bus: Bus, rec: Record, s: Session): Session {
    var x1 := Writes(p, bus, rec, 0, s.x);
    var (x2, words) := Reads(p, bus, rec, 0, x1);
    var open := if rec.raddrs == [] then s.open else !rec.cyc;
    Session(x2,
            s.replies + (if rec.raddrs == [] then [] else [Reply(rec, words)])
                      + (if open && rec.cyc then [TERMINATOR] else []),
            open, rec.cyc)
  }

  /** Execute every whole record; the bytes of an unfinished one are left over. */
  function Run(p: Port, bus: Bus, s: Session, input: seq<byte>): (Session, seq<byte>)
    decreases |input|
  {
    match Parse(p, input)
    case Whole(rec, rest) => Run(p, bus, StepRecord(p, bus, rec, s), rest)
    case _ => (s, input)
  }

  function RunRecords(p: Port, bus: Bus, s: Session, recs: seq<Record>): Session
    decreases |recs|
  {
    if recs == [] then s else RunRecords(p, bus, StepRecord(p, bus, recs[0], s), recs[1..])
  }

  lemma {:induction false} RunSerialized(p: Port, bus: Bus, s: Session, recs: seq<Record>, rest: seq<byte>)
    requires AllFit(p, recs)
    ensures Run(p, bus, s, SerializeAll(p, recs) + rest) == Run(p, bus, RunRecords(p, bus, s, recs), rest)
    decreases |recs|
  {
    hide Parse, StepRecord, Serialize, Fits;
    var bytes := SerializeAll(p, recs) + rest;
    if recs == [] {
      assert bytes == rest;
    } else {
      var tail := SerializeAll(p, recs[1..]) + rest;
      assert bytes == Serialize(p, recs[0]) + tail;
      ParseSerialize(p, recs[0], tail);
      RunSerialized(p, bus, StepRecord(p, bus, recs[0], s), recs[1..], rest);
    }
  }

  lemma {:induction false} RunRecordsConcat(p: Port, bus: Bus, s: Session, a: seq<Record>, b: seq<Record>)
    ensures RunRecords(p, bus, s, a + b) == RunRecords(p, bus, RunRecords(p, bus, s, a), b)
    decreases |a|
  {
    if a == [] {
      assert a + b == b;
    } else {
      assert (a + b)[1..] == a[1..] + b;
      RunRecordsConcat(p, bus, StepRecord(p, bus, a[0], s), a[1..], b);
    }
  }

  /* ---------- arrival order of the bytes does not matter ---------- */

  lemma {:induction false} LoadWordsPrefix(a: seq<byte>, b: seq<byte>, at: nat, count: nat, k: Stride)
    requires at + Scale(count, k) <= |a|
    ensures at + Scale(count, k) <= |a + b|
    ensures LoadWords(a + b, at, count, k) == LoadWords(a, at, count, k)
    decreases count
  {
    if count > 0 {
      assert Scale(count, k) == k + Scale(count - 1, k);
      assert (a + b)[at..at + k] == a[at..at + k];
      LoadWordsPrefix(a, b, at + k, count - 1, k);
    }
  }

  lemma RecordFromPrefix(p: Port, a: seq<byte>, b: seq<byte>)
    requires |a| >= HeadAlign(p) && |a| >= RecordSize(p, a[2], a[3])
    ensures |a + b| >= RecordSize(p, (a + b)[2], (a + b)[3])
    ensures RecordFrom(p, a + b) == RecordFrom(p, a)
  {
    hide HasFlag, Decode, LoadWords;
    var k, h, r := Align(p), HeadAlign(p), ReadAt(p, a[2]);
    var w, n := a[2] as nat, a[3] as nat;
    if w > 0 {
      assert Scale(w + 1, k) == k + Scale(w, k);
      assert (a + b)[h..h + k] == a[h..h + k];
      LoadWordsPrefix(a, b, h + k, w, k);
    }
    if n > 0 {
      assert Scale(n + 1, k) == k + Scale(n, k);
      assert (a + b)[r..r + k] == a[r..r + k];
      LoadWordsPrefix(a, b, r + k, n, k);
    }
  }

  lemma ParsePrefix(p: Port, a: seq<byte>, b: seq<byte>)
    requires Parse(p, a).Whole?
    ensures Parse(p, a + b) == Whole(Parse(p, a).rec, Parse(p, a).rest + b)
  {
    hide RecordFrom, HasFlag, Load, LoadWords;
    RecordFromPrefix(p, a, b);
    var n := RecordSize(p, a[2], a[3]);
    assert (a + b)[n..] == a[n..] + b;
  }

  /** Executing what has arrived, and later the left-over bytes followed by what arrives next,
      is executing everything at once. */
  lemma {:induction false} RunResumes(p: Port, bus: Bus, s: Session, a: seq<byte>, b: seq<byte>)
    ensures var (s1, rest) := Run(p, bus, s, a);
            Run(p, bus, s, a + b) == Run(p, bus, s1, rest + b)
    decreases |a|
  {
    match Parse(p, a)
    case Whole(rec, rest) =>
      ParsePrefix(p, a, b);
      RunResumes(p, bus, StepRecord(p, bus, rec, s), rest, b);
    case _ =>
  }

  /* ---------- the accesses depend on the bytes alone ---------- */

  lemma {:induction false} WritesTrace(p: Port, bus1: Bus, bus2: Bus, rec: Record, i: nat, x1: Exec, x2: Exec)
                           returns (more: seq<Access>)
    requires i <= |rec.wvals|
    ensures Writes(p, bus1, rec, i, x1).trace == x1.trace + more
    ensures Writes(p, bus2, rec, i, x2).trace == x2.trace + more
    decreases |rec.wvals| - i
  {
    if i == |rec.wvals| {
      more := [];
    } else {
      hide WriteOne;
      var y1, y2 := WriteOne(p, bus1, rec, i, x1), WriteOne(p, bus2, rec, i, x2);
      var first := WriteTrace(p, bus1, bus2, rec, i, x1, x2);
      var rest := WritesTrace(p, bus1, bus2, rec, i + 1, y1, y2);
      more := first + rest;
      assert (x1.trace + first) + rest == x1.trace + more && (x2.trace + first) + rest == x2.trace + more;
    }
  }

  /** One write leaves the same trace on any bus. */
  lemma WriteTrace(p: Port, bus1: Bus, bus2: Bus, rec: Record, i: nat, x1: Exec, x2: Exec) returns (first: seq<Access>)
    requires i < |rec.wvals|
    ensures WriteOne(p, bus1, rec, i, x1).trace == x1.trace + first
    ensures WriteOne(p, bus2, rec, i, x2).trace == x2.trace + first
  {
    hide ShiftIn, DecodeLane, WriteAddress, Filter, LaneB;
    var y := WriteOne(p, bus1, rec, i, x1);
    first := y.trace[|x1.trace|..];
  }

  lemma {:induction false} ReadsTrace(p: Port, bus1: Bus, bus2: Bus, rec: Record, i: nat, x1: Exec, x2: Exec)
                           returns (more: seq<Access>)
    requires i <= |rec.raddrs|
    ensures Reads(p, bus1, rec, i, x1).0.trace == x1.trace + more
    ensures Reads(p, bus2, rec, i, x2).0.trace == x2.trace + more
    decreases |rec.raddrs| - i
  {
    if i == |rec.raddrs| {
      more := [];
    } else {
      var y1, y2 := ReadOne(p, bus1, rec, i, x1).0, ReadOne(p, bus2, rec, i, x2).0;
      var first := y1.trace[|x1.trace|..];
      assert y1.trace == x1.trace + first && y2.trace == x2.trace + first;
      more := ReadsTrace(p, bus1, bus2, rec, i + 1, y1, y2);
      more := first + more;
    }
  }

  lemma StepTrace(p: Port, bus1: Bus, bus2: Bus, rec: Record, s1: Session, s2: Session) returns (more: seq<Access>)
    ensures StepRecord(p, bus1, rec, s1).x.trace == s1.x.trace + more
    ensures StepRecord(p, bus2, rec, s2).x.trace == s2.x.trace + more
  {
    hide Writes, Reads;
    var w := WritesTrace(p, bus1, bus2, rec, 0, s1.x, s2.x);
    var x1, x2 := Writes(p, bus1, rec, 0, s1.x), Writes(p, bus2, rec, 0, s2.x);
    var r := ReadsTrace(p, bus1, bus2, rec, 0, x1, x2);
    more := w + r;
  }

  /** Two slaves fed the same bytes perform the same accesses and leave the same bytes over,
      whatever their devices answer and whatever happened before. */
  lemma {:induction false} SameAccesses(p: Port, bus1: Bus, bus2: Bus, s1: Session, s2: Session, input: seq<byte>)
                           returns (more: seq<Access>)
    ensures Run(p, bus1, s1, input).0.x.trace == s1.x.trace + more
    ensures Run(p, bus2, s2, input).0.x.trace == s2.x.trace + more
    ensures Run(p, bus1, s1, input).1 == Run(p, bus2, s2, input).1
    decreases |input|
  {
    hide StepRecord, Parse;
    match Parse(p, input)
    case Whole(rec, rest) =>
      var first := StepTrace(p, bus1, bus2, rec, s1, s2);
      more := SameAccesses(p, bus1, bus2, StepRecord(p, bus1, rec, s1), StepRecord(p, bus2, rec, s2), rest);
      more := first + more;
    case _ => more := [];
  }

  /* ---------- replies are well formed ---------- */

  lemma ReplyWordFits(p: Port, bus: Bus, rec: Record, i: nat, x: Exec)
    requires i < |rec.raddrs|
    ensures ReadOne(p, bus, rec, i, x).1 < Pow256(Align(p))
  {
    match DecodeLane(p, rec)
    case None =>
    case Some(lane) =>
      var v := if rec.rca then ReadConfig(lane.size, Filter(p, rec.raddrs[i]) + LaneB(p, lane), x.error)
               else bus(x.count).value;
      LaneRoundTrip(v % Pow256(lane.size), lane.shift, lane.size, p.data);
      Pow256Mono(p.data, Align(p));
  }

  lemma {:induction false} ReplyWordsFit(p: Port, bus: Bus, rec: Record, i: nat, x: Exec)
    requires i <= |rec.raddrs|
    ensures WordsFit(Reads(p, bus, rec, i, x).1, Align(p))
    decreases |rec.raddrs| - i
  {
    if i < |rec.raddrs| {
      ReplyWordFits(p, bus, rec, i, x);
      ReplyWordsFit(p, bus, rec, i + 1, ReadOne(p, bus, rec, i, x).0);
    }
  }

  lemma TerminatorFits(p: Port)
    ensures Fits(p, TERMINATOR)
  {
  }

  lemma StepRepliesFit(p: Port, bus: Bus, rec: Record, s: Session)
    requires AllFit(p, s.replies) && Fits(p, rec)
    ensures AllFit(p, StepRecord(p, bus, rec, s).replies)
  {
    ReplyWordsFit(p, bus, rec, 0, Writes(p, bus, rec, 0, s.x));
    TerminatorFits(p);
  }

  lemma {:induction false} LoadWordsFit(s: seq<byte>, at: nat, count: nat, k: Stride)
    requires at + Scale(count, k) <= |s|
    ensures WordsFit(LoadWords(s, at, count, k), k)
    decreases count
  {
    if count > 0 {
      assert Scale(count, k) == k + Scale(count - 1, k);
      DecodeBound(s[at..at + k]);
      LoadWordsFit(s, at + k, count - 1, k);
    }
  }

  /** Every record read off the wire is one the wire can carry. */
  lemma ParsedFits(p: Port, s: seq<byte>)
    requires Parse(p, s).Whole?
    ensures Fits(p, Parse(p, s).rec)
  {
    hide HasFlag, Decode, Pow256, LoadWords, Load, WordsFit, Scale;
    var k, h, r := Align(p), HeadAlign(p), ReadAt(p, s[2]);
    var w, n := s[2] as nat, s[3] as nat;
    ScaleOf(w + 1, k);
    ScaleOf(n + 1, k);
    NoWordsFit(k);
    if w > 0 {
      LoadFits(s, h, k);
      LoadWordsFit(s, h + k, w, k);
    }
    if n > 0 {
      LoadFits(s, r, k);
      LoadWordsFit(s, r + k, n, k);
    }
  }

  lemma LoadFits(s: seq<byte>, at: nat, k: Stride)
    requires at + k <= |s|
    ensures Load(s, at, k) < Pow256(k)
  {
    DecodeBound(s[at..at + k]);
  }

  lemma NoWordsFit(k: Stride)
    ensures WordsFit([], k) && Pow256(k) > 0
  {
  }

  lemma {:induction false} RunRepliesFit(p: Port, bus: Bus, s: Session, input: seq<byte>)
    requires AllFit(p, s.replies)
    ensures AllFit(p, Run(p, bus, s, input).0.replies)
    decreases |input|
  {
    match Parse(p, input)
    case Whole(rec, rest) =>
      ParsedFits(p, input);
      StepRepliesFit(p, bus, rec, s);
      RunRepliesFit(p, bus, StepRecord(p, bus, rec, s), rest);
    case _ =>
  }

  /** Replies on the wire end their cycle whenever no reply is owed a terminator. */
  predicate Closed(s: Session) {
    s.replies == [] || s.replies[|s.replies| - 1].cyc || (s.open && !s.end)
  }

  /** If the last request record ends its cycle, so does the last reply record, if there is any. */
  lemma {:induction false} LastReplyEndsCycle(p: Port, bus: Bus, s: Session, input: seq<byte>)
    requires Closed(s)
    ensures Closed(Run(p, bus, s, input).0)
    ensures var t := Run(p, bus, s, input).0;
            t.end && t.replies != [] ==> t.replies[|t.replies| - 1].cyc
    decreases |input|
  {
    match Parse(p, input)
    case Whole(rec, rest) => LastReplyEndsCycle(p, bus, StepRecord(p, bus, rec, s), rest);
    case _ =>
  }

  /** A record's reply and terminator never need more room than the record itself, so the reply
      position cannot overtake the request position. */
  lemma ReplyNoLonger(p: Port, bus: Bus, rec: Record, s: Session)
    requires Fits(p, rec) && AllFit(p, s.replies)
    ensures var t := StepRecord(p, bus, rec, s);
            && AllFit(p, t.replies) && s.replies <= t.replies
            && |SerializeAll(p, t.replies)| <= |SerializeAll(p, s.replies)| + |Serialize(p, rec)|
  {
    StepRepliesFit(p, bus, rec, s);
    var t := StepRecord(p, bus, rec, s);
    var added := t.replies[|s.replies|..];
    assert t.replies == s.replies + added;
    assert added == [] || (|added| == 1 && added[0].raddrs == [] && |added[0].wvals| <= |rec.raddrs|
                           && added == [added[0]] && Fits(p, added[0]));
    hide *;
    SerializeAllConcat(p, s.replies, added);
    SizeOfMore(p, rec, added);
  }

  lemma SizeOfMore(p: Port, rec: Record, added: seq<Record>)
    requires Fits(p, rec) && AllFit(p, added)
    requires added == [] || (|added| == 1 && added[0].raddrs == [] && |added[0].wvals| <= |rec.raddrs|
                             && added == [added[0]] && Fits(p, added[0]))
    ensures |SerializeAll(p, added)| <= |Serialize(p, rec)|
  {
    hide Fits, Serialize, SerializeAll;
    SerializedSize(p, rec);
    RecordSizeBounds(p, |rec.wvals|, |rec.raddrs|);
    if added == [] {
      SerializeNone(p);
    } else {
      SerializeOne(p, added[0]);
      SerializedSize(p, added[0]);
      RecordSizeBounds(p, |added[0].wvals|, 0);
    }
  }

  /** Any run of records occupies a whole number of bus words. */
  lemma {:induction false} SerializeAllAligned(p: Port, recs: seq<Record>)
    requires AllFit(p, recs)
    ensures |SerializeAll(p, recs)| % Align(p) == 0
  {
    if recs != [] {
      SerializedSize(p, recs[0]);
      SerializeAllAligned(p, recs[1..]);
      hide Serialize, Fits;
      AlignedSum(p, |Serialize(p, recs[0])|, |SerializeAll(p, recs[1..])|);
    }
  }

  lemma AlignedSum(p: Port, a: nat, b: nat)
    requires a % Align(p) == 0 && b % Align(p) == 0
    ensures (a + b) % Align(p) == 0
  {
    var k := Align(p);
    hide Align;
    if k == 2 {
      EvenSum(a, b);
    } else if k == 4 {
      QuadSum(a, b);
    } else {
      OctSum(a, b);
    }
  }

  lemma EvenSum(a: nat, b: nat)
    requires a % 2 == 0 && b % 2 == 0
    ensures (a + b) % 2 == 0
  {
  }

  lemma QuadSum(a: nat, b: nat)
    requires a % 4 == 0 && b % 4 == 0
    ensures (a + b) % 4 == 0
  {
  }

  lemma OctSum(a: nat, b: nat)
    requires a % 8 == 0 && b % 8 == 0
    ensures (a + b) % 8 == 0
  {
  }
}
