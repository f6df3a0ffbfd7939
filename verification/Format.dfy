/** The EtherBone version 1 record layout: a flag/select/count header followed by
    [write base, write values...] and [return base, read addresses...], in bus words. */
module Format {
  import opened Bytes
  import opened Widths

  datatype Ports = Ports(data: nat, addr: nat)

  /** A negotiated port: one data width and one address width, in bytes. */
  type Port = p: Ports | IsWidth(p.data) && IsWidth(p.addr) witness Ports(4, 4)

  type Stride = k: nat | k == 2 || k == 4 || k == 8 witness 4

  /** `n * k`, kept linear for the prover. */
  function Scale(n: nat, k: Stride): nat {
    if k == 2 then 2 * n else if k == 4 then 4 * n else 8 * n
  }

  /** Bytes per payload word. */
  function Align(p: Port): (a: Stride)
    ensures p.data <= a && p.addr <= a
  {
    if p.data == 8 || p.addr == 8 then 8 else if p.data == 4 || p.addr == 4 then 4 else 2
  }

  /** Bytes per record header (and per packet header). */
  function HeadAlign(p: Port): (a: nat)
    ensures a == 4 || a == 8
  {
    if p.data == 8 || p.addr == 8 then 8 else 4
  }

  const MAX_COUNT: nat := 255

  /** Largest record: an 8-byte header and 2 * (1 + 255) words of 8 bytes. */
  const BUFFER_SIZE: nat := 8 * (255 + 255 + 1 + 1) + 8

  datatype Record = Record(
    bca: bool,            // replies go to configuration space
    rca: bool,            // reads are from configuration space
    rff: bool,            // replies form a FIFO write
    cyc: bool,            // the cycle ends after this record
    wca: bool,            // writes are to configuration space
    wff: bool,            // all writes go to one address
    sel: byte,            // byte lanes
    wbase: nat, wvals: seq<nat>,
    rbase: nat, raddrs: seq<nat>)

  predicate WordsFit(words: seq<nat>, k: Stride) {
    forall i :: 0 <= i < |words| ==> words[i] < Pow256(k)
  }

  /** A record the wire can carry; absent bases read as zero. */
  predicate Fits(p: Port, rec: Record) {
    && |rec.wvals| <= MAX_COUNT && |rec.raddrs| <= MAX_COUNT
    && WordsFit(rec.wvals, Align(p)) && WordsFit(rec.raddrs, Align(p))
    && rec.wbase < Pow256(Align(p)) && rec.rbase < Pow256(Align(p))
    && (rec.wvals == [] ==> rec.wbase == 0) && (rec.raddrs == [] ==> rec.rbase == 0)
  }

  function Bit(on: bool, value: byte): byte { if on then value else 0 }

  function Flags(rec: Record): byte {
    Bit(rec.bca, 0x80) + Bit(rec.rca, 0x40) + Bit(rec.rff, 0x20)
    + Bit(rec.cyc, 0x08) + Bit(rec.wca, 0x04) + Bit(rec.wff, 0x02)
  }

  predicate HasFlag(flags: byte, value: byte)
    requires value > 0
  {
    (flags / value) % 2 == 1
  }

  function Section(base: nat, words: seq<nat>): seq<nat> {
    if words == [] then [] else [base] + words
  }

  /** Payload words in wire order. */
  function Payload(rec: Record): seq<nat> {
    Section(rec.wbase, rec.wvals) + Section(rec.rbase, rec.raddrs)
  }

  function Words(words: seq<nat>, k: Stride): (s: seq<byte>)
    ensures |s| == Scale(|words|, k)
  {
    if words == [] then [] else Encode(words[0], k) + Words(words[1..], k)
  }

  function Zeros(n: nat): (s: seq<byte>)
    ensures |s| == n
  {
    seq(n, _ => 0)
  }

  function Header(p: Port, rec: Record): (s: seq<byte>)
    requires |rec.wvals| <= MAX_COUNT && |rec.raddrs| <= MAX_COUNT
    ensures |s| == HeadAlign(p)
  {
    [Flags(rec), rec.sel, |rec.wvals|, |rec.raddrs|] + Zeros(HeadAlign(p) - 4)
  }

  function Serialize(p: Port, rec: Record): (s: seq<byte>)
    requires Fits(p, rec)
  {
    Header(p, rec) + Words(Payload(rec), Align(p))
  }

  /** Bytes a record occupies, from the two counts in its header. */
  function RecordSize(p: Port, wcount: nat, rcount: nat): nat {
    HeadAlign(p) + Scale(SectionSize(wcount), Align(p)) + Scale(SectionSize(rcount), Align(p))
  }

  function SectionSize(count: nat): nat { if count == 0 then 0 else count + 1 }

  lemma SerializedSize(p: Port, rec: Record)
    requires Fits(p, rec)
    ensures |Serialize(p, rec)| == RecordSize(p, |rec.wvals|, |rec.raddrs|)
    ensures HeadAlign(p) <= |Serialize(p, rec)| <= BUFFER_SIZE
    ensures |Serialize(p, rec)| % Align(p) == 0
  {
    assert |Payload(rec)| == SectionSize(|rec.wvals|) + SectionSize(|rec.raddrs|);
    RecordSizeBounds(p, |rec.wvals|, |rec.raddrs|);
  }

  lemma RecordSizeBounds(p: Port, wcount: nat, rcount: nat)
    ensures RecordSize(p, wcount, rcount) ==
            HeadAlign(p) + Scale(SectionSize(wcount) + SectionSize(rcount), Align(p))
    ensures wcount <= MAX_COUNT && rcount <= MAX_COUNT ==> RecordSize(p, wcount, rcount) <= BUFFER_SIZE
    ensures RecordSize(p, wcount, rcount) % Align(p) == 0
  {
  }

  /* ---------- parsing ---------- */

  /** What the bytes at the read position hold: too few bytes for a header, a header whose
      payload has not arrived, or a whole record and the bytes after it. */
  datatype Parsed = Short | Partial | Whole(rec: Record, rest: seq<byte>)

  function Load(s: seq<byte>, at: nat, k: Stride): (w: nat)
    requires at + k <= |s|
  {
    Decode(s[at..at + k])
  }

  function LoadWords(s: seq<byte>, at: nat, count: nat, k: Stride): (ws: seq<nat>)
    requires at + Scale(count, k) <= |s|
    ensures |ws| == count
    decreases count
  {
    if count == 0 then []
    else [Load(s, at, k)] + LoadWords(s, at + k, count - 1, k)
  }

  function ReadAt(p: Port, wcount: nat): nat { HeadAlign(p) + Scale(SectionSize(wcount), Align(p)) }

  function RecordFrom(p: Port, s: seq<byte>): Record
    requires |s| >= HeadAlign(p) && |s| >= RecordSize(p, s[2], s[3])
  {
    var k := Align(p);
    var h := HeadAlign(p);
    var r := ReadAt(p, s[2]);
    Record(HasFlag(s[0], 0x80), HasFlag(s[0], 0x40), HasFlag(s[0], 0x20),
           HasFlag(s[0], 0x08), HasFlag(s[0], 0x04), HasFlag(s[0], 0x02), s[1],
           if s[2] == 0 then 0 else Load(s, h, k),
           if s[2] == 0 then [] else LoadWords(s, h + k, s[2], k),
           if s[3] == 0 then 0 else Load(s, r, k),
           if s[3] == 0 then [] else LoadWords(s, r + k, s[3], k))
  }

  function Parse(p: Port, s: seq<byte>): (r: Parsed)
    ensures r.Whole? ==> |r.rest| < |s|
  {
    if |s| < HeadAlign(p) then Short
    else if |s| < RecordSize(p, s[2], s[3]) then Partial
    else Whole(RecordFrom(p, s), s[RecordSize(p, s[2], s[3])..])
  }

  lemma FlagsRoundTrip(rec: Record)
    ensures var f := Flags(rec);
            && HasFlag(f, 0x80) == rec.bca && HasFlag(f, 0x40) == rec.rca && HasFlag(f, 0x20) == rec.rff
            && HasFlag(f, 0x08) == rec.cyc && HasFlag(f, 0x04) == rec.wca && HasFlag(f, 0x02) == rec.wff
  {
  }

  lemma {:induction false} LoadWordsOf(pre: seq<byte>, words: seq<nat>, post: seq<byte>, k: Stride)
    requires WordsFit(words, k)
    ensures |pre| + Scale(|words|, k) <= |pre + Words(words, k) + post|
    ensures LoadWords(pre + Words(words, k) + post, |pre|, |words|, k) == words
    decreases words
  {
    hide Encode, Decode, Pow256, Words, Scale, LoadWords;
    ScaleOf(|words|, k);
    if words == [] {
      NoneLoaded(pre + Words(words, k) + post, |pre|, k);
    } else {
      var w, rest := Encode(words[0], k), words[1..];
      var s := pre + Words(words, k) + post;
      WordsFirst(words[0], rest, k);
      assert words == [words[0]] + rest;
      Regrouped(pre, w, Words(rest, k), post);
      assert WordsFit(rest, k);
      LoadWordsOf(pre + w, rest, post, k);
      DecodeEncode(words[0], k);
      LoadFirst(s, |pre|, |words|, k);
    }
  }

  lemma ScaleOf(n: nat, k: Stride)
    ensures Scale(0, k) == 0 && (n > 0 ==> Scale(n, k) == k + Scale(n - 1, k))
  {
  }

  lemma NoneLoaded(s: seq<byte>, at: nat, k: Stride)
    requires at <= |s|
    ensures at + Scale(0, k) <= |s| && LoadWords(s, at, 0, k) == []
  {
  }

  lemma LoadFirst(s: seq<byte>, at: nat, n: nat, k: Stride)
    requires n > 0 && at + Scale(n, k) <= |s|
    ensures at + k + Scale(n - 1, k) <= |s|
    ensures LoadWords(s, at, n, k) == [Decode(s[at..at + k])] + LoadWords(s, at + k, n - 1, k)
  {
    hide Decode;
  }

  lemma Regrouped(pre: seq<byte>, w: seq<byte>, rest: seq<byte>, post: seq<byte>)
    ensures pre + (w + rest) + post == (pre + w) + rest + post
    ensures (pre + (w + rest) + post)[|pre|..|pre| + |w|] == w
  {
  }

  lemma SectionLoads(pre: seq<byte>, base: nat, words: seq<nat>, post: seq<byte>, k: Stride)
    requires words != [] && base < Pow256(k) && WordsFit(words, k)
    ensures var s := pre + Words(Section(base, words), k) + post;
            && |s| == |pre| + Scale(|words| + 1, k) + |post|
            && Load(s, |pre|, k) == base
            && LoadWords(s, |pre| + k, |words|, k) == words
  {
    var all := [base] + words;
    assert all[1..] == words;
    var b := Encode(base, k);
    assert Words(all, k) == b + Words(words, k);
    var s := pre + Words(all, k) + post;
    assert s == (pre + b) + Words(words, k) + post;
    LoadWordsOf(pre + b, words, post, k);
    assert s[|pre|..|pre| + k] == b;
    DecodeEncode(base, k);
  }

  lemma {:induction false} WordsConcat(a: seq<nat>, b: seq<nat>, k: Stride)
    ensures Words(a + b, k) == Words(a, k) + Words(b, k)
  {
    hide Encode, Scale, Words;
    if a == [] {
      assert a + b == b;
      NoWordsAt(k);
      assert [] + Words(b, k) == Words(b, k);
    } else {
      WordsConcat(a[1..], b, k);
      WordsFirst(a[0], a[1..], k);
      WordsFirst(a[0], a[1..] + b, k);
      assert a == [a[0]] + a[1..] && a + b == [a[0]] + (a[1..] + b);
      var x, y, z := Encode(a[0], k), Words(a[1..], k), Words(b, k);
      assert (x + y) + z == x + (y + z);
    }
  }

  lemma NoWordsAt(k: Stride)
    ensures Words([], k) == []
  {
  }

  lemma WordsFirst(w: nat, rest: seq<nat>, k: Stride)
    ensures Words([w] + rest, k) == Encode(w, k) + Words(rest, k)
    ensures |Words([w] + rest, k)| == k + Scale(|rest|, k)
  {
    hide Encode;
    assert ([w] + rest)[1..] == rest;
  }

  /** Serialized bytes split around either payload section. */
  lemma SerializeSplit(p: Port, rec: Record, rest: seq<byte>)
    requires Fits(p, rec)
    ensures var w := Words(Section(rec.wbase, rec.wvals), Align(p));
            var r := Words(Section(rec.rbase, rec.raddrs), Align(p));
            && Serialize(p, rec) + rest == Header(p, rec) + w + (r + rest)
            && Serialize(p, rec) + rest == (Header(p, rec) + w) + r + rest
            && |Header(p, rec) + w| == ReadAt(p, |rec.wvals|)
  {
    WordsConcat(Section(rec.wbase, rec.wvals), Section(rec.rbase, rec.raddrs), Align(p));
    hide Words;
  }

  lemma HeaderFields(p: Port, rec: Record, rest: seq<byte>)
    requires Fits(p, rec)
    ensures var s := Serialize(p, rec) + rest;
            && |s| == RecordSize(p, |rec.wvals|, |rec.raddrs|) + |rest|
            && s[0] == Flags(rec) && s[1] == rec.sel && s[2] == |rec.wvals| && s[3] == |rec.raddrs|
            && s[RecordSize(p, s[2], s[3])..] == rest
  {
    SerializedSize(p, rec);
    var s := Serialize(p, rec) + rest;
    assert s[..4] == Header(p, rec)[..4];
    assert s[0] == s[..4][0] && s[1] == s[..4][1] && s[2] == s[..4][2] && s[3] == s[..4][3];
  }

  lemma WriteSectionLoads(p: Port, rec: Record, rest: seq<byte>)
    requires Fits(p, rec) && rec.wvals != []
    ensures var s := Serialize(p, rec) + rest;
            && HeadAlign(p) + Align(p) + Scale(|rec.wvals|, Align(p)) <= |s|
            && Load(s, HeadAlign(p), Align(p)) == rec.wbase
            && LoadWords(s, HeadAlign(p) + Align(p), |rec.wvals|, Align(p)) == rec.wvals
  {
    SerializeSplit(p, rec, rest);
    var r := Words(Section(rec.rbase, rec.raddrs), Align(p));
    SectionLoads(Header(p, rec), rec.wbase, rec.wvals, r + rest, Align(p));
  }

  lemma ReadSectionLoads(p: Port, rec: Record, rest: seq<byte>)
    requires Fits(p, rec) && rec.raddrs != []
    ensures var s := Serialize(p, rec) + rest;
            var at := ReadAt(p, |rec.wvals|);
            && at + Align(p) + Scale(|rec.raddrs|, Align(p)) <= |s|
            && Load(s, at, Align(p)) == rec.rbase
            && LoadWords(s, at + Align(p), |rec.raddrs|, Align(p)) == rec.raddrs
  {
    SerializeSplit(p, rec, rest);
    var w := Words(Section(rec.wbase, rec.wvals), Align(p));
    SectionLoads(Header(p, rec) + w, rec.rbase, rec.raddrs, rest, Align(p));
  }

  /** Whatever follows a record on the wire, parsing returns exactly that record and those bytes. */
  lemma ParseSerialize(p: Port, rec: Record, rest: seq<byte>)
    requires Fits(p, rec)
    ensures Parse(p, Serialize(p, rec) + rest) == Whole(rec, rest)
  {
    hide RecordFrom, Serialize, Flags, Load, LoadWords, HasFlag, ReadAt;
    HeaderFields(p, rec, rest);
    if rec.wvals != [] {
      WriteSectionLoads(p, rec, rest);
    }
    if rec.raddrs != [] {
      ReadSectionLoads(p, rec, rest);
    }
    SameRecord(p, rec, Serialize(p, rec) + rest);
  }

  lemma SameRecord(p: Port, rec: Record, s: seq<byte>)
    requires Fits(p, rec)
    requires |s| >= HeadAlign(p) && s[0] == Flags(rec) && s[1] == rec.sel
    requires s[2] == |rec.wvals| && s[3] == |rec.raddrs|
    requires |s| >= RecordSize(p, s[2], s[3])
    requires rec.wvals != [] ==>
               && HeadAlign(p) + Align(p) + Scale(s[2], Align(p)) <= |s|
               && Load(s, HeadAlign(p), Align(p)) == rec.wbase
               && LoadWords(s, HeadAlign(p) + Align(p), s[2], Align(p)) == rec.wvals
    requires rec.raddrs != [] ==>
               && ReadAt(p, s[2]) + Align(p) + Scale(s[3], Align(p)) <= |s|
               && Load(s, ReadAt(p, s[2]), Align(p)) == rec.rbase
               && LoadWords(s, ReadAt(p, s[2]) + Align(p), s[3], Align(p)) == rec.raddrs
    ensures RecordFrom(p, s) == rec
  {
    hide Flags, HasFlag, Load, LoadWords, WordsFit, Pow256;
    FlagsRoundTrip(rec);
  }

  predicate AllFit(p: Port, recs: seq<Record>) {
    forall rec :: rec in recs ==> Fits(p, rec)
  }

  function SerializeAll(p: Port, recs: seq<Record>): seq<byte>
    requires AllFit(p, recs)
  {
    if recs == [] then [] else Serialize(p, recs[0]) + SerializeAll(p, recs[1..])
  }

  lemma SerializeOne(p: Port, rec: Record)
    requires Fits(p, rec)
    ensures AllFit(p, [rec]) && SerializeAll(p, [rec]) == Serialize(p, rec)
  {
    assert SerializeAll(p, [rec]) == Serialize(p, rec) + SerializeAll(p, [rec][1..]);
  }

  lemma SerializeNone(p: Port)
    ensures SerializeAll(p, []) == []
  {
  }

  lemma {:induction false} SerializeAllConcat(p: Port, a: seq<Record>, b: seq<Record>)
    requires AllFit(p, a) && AllFit(p, b)
    ensures SerializeAll(p, a + b) == SerializeAll(p, a) + SerializeAll(p, b)
  {
    if a == [] {
      assert a + b == b;
    } else {
      assert (a + b)[1..] == a[1..] + b;
      SerializeAllConcat(p, a[1..], b);
    }
  }
}
