/** The self-description table: served word by word from the attached devices, and read back by a
    bus scan. Records are 64 bytes, big-endian. */
module Sdb {
  import opened Bytes
  import opened Widths
  import opened Buffer

  const RECORD: nat := 64
  const TABLE: nat := 0x4000
  const MAGIC: nat := 0x5344_422D
  const DEVICE: byte := 0x01
  const BRIDGE: byte := 0x02

  /** `name` is 19 bytes. */
  datatype Product = Product(vendor: nat, device: nat, version: nat, date: nat, name: seq<byte>)

  datatype Component = Component(first: nat, last: nat, product: Product)

  datatype Description = Description(abi: nat, major: byte, minor: byte, specific: nat, component: Component)

  predicate ValidProduct(d: Product) {
    d.vendor < Pow256(8) && d.device < Pow256(4) && d.version < Pow256(4) && d.date < Pow256(4) && |d.name| == 19
  }

  predicate ValidComponent(c: Component) {
    c.first < Pow256(8) && c.last < Pow256(8) && ValidProduct(c.product)
  }

  predicate ValidDescription(d: Description) {
    d.abi < Pow256(2) && d.specific < Pow256(4) && ValidComponent(d.component)
  }

  predicate AllValid(devices: seq<Description>) {
    forall i :: 0 <= i < |devices| ==> ValidDescription(devices[i])
  }

  /* ---------- serving ---------- */

  function ProductBytes(d: Product, kind: byte): (s: seq<byte>)
    ensures |s| == 21 + |d.name|
  {
    Encode(d.vendor, 8) + Encode(d.device, 4) + Encode(d.version, 4) + Encode(d.date, 4) + d.name + [kind]
  }

  function ComponentBytes(c: Component, kind: byte): (s: seq<byte>)
    ensures |s| == 37 + |c.product.name|
  {
    Encode(c.first, 8) + Encode(c.last, 8) + ProductBytes(c.product, kind)
  }

  function DeviceBytes(d: Description): (s: seq<byte>)
    ensures |s| == 45 + |d.component.product.name|
  {
    Encode(d.abi, 2) + [d.major, d.minor] + Encode(d.specific, 4) + ComponentBytes(d.component, DEVICE)
  }

  /** The bus itself: version 1, Wishbone, all addresses. `bus` is its product description. */
  function HeaderBytes(devices: nat, bus: Product): (s: seq<byte>)
    ensures |s| == 45 + |bus.name|
  {
    Encode(MAGIC, 4) + Encode(devices + 1, 2) + [1, 0] + ComponentBytes(Component(0, Pow256(8) - 1, bus), 0)
  }

  /** All devices' records, one after another. */
  function DevicesBytes(devices: seq<Description>): (s: seq<byte>)
    requires AllValid(devices)
    ensures |s| == RECORD * |devices|
  {
    if devices == [] then [] else DeviceBytes(devices[0]) + DevicesBytes(devices[1..])
  }

  function TableBytes(devices: seq<Description>, bus: Product): (s: seq<byte>)
    requires AllValid(devices) && ValidProduct(bus)
    ensures |s| == RECORD * (|devices| + 1)
  {
    HeaderBytes(|devices|, bus) + DevicesBytes(devices)
  }

  lemma {:induction false} DeviceAt(devices: seq<Description>, k: nat)
    requires AllValid(devices) && k < |devices|
    ensures DevicesBytes(devices)[RECORD * k..RECORD * (k + 1)] == DeviceBytes(devices[k])
  {
    if k > 0 {
      var rest := DevicesBytes(devices[1..]);
      DeviceAt(devices[1..], k - 1);
      assert DevicesBytes(devices)[RECORD * k..RECORD * (k + 1)] == rest[RECORD * (k - 1)..RECORD * k];
    }
  }

  lemma RecordAt(devices: seq<Description>, bus: Product, k: nat)
    requires AllValid(devices) && ValidProduct(bus) && k <= |devices|
    ensures TableBytes(devices, bus)[RECORD * k..RECORD * (k + 1)] ==
              if k == 0 then HeaderBytes(|devices|, bus) else DeviceBytes(devices[k - 1])
  {
    hide HeaderBytes, DeviceBytes;
    if k > 0 {
      DeviceAt(devices, k - 1);
      hide DevicesBytes;
      assert TableBytes(devices, bus)[RECORD * k..RECORD * (k + 1)]
          == DevicesBytes(devices)[RECORD * (k - 1)..RECORD * k];
    }
  }

  /** Gather `width` bytes, most significant first. */
  method Extract(bytes: seq<byte>, width: nat, addr: nat) returns (out: nat)
    requires IsWidth(width) && addr + width <= |bytes|
    ensures out == Decode(bytes[addr..addr + width]) && out < Pow256(width)
  {
    hide Pow256;
    out := 0;
    var i := 0;
    assert bytes[addr..addr] == [];
    while i < width
      invariant 0 <= i <= width && out == Decode(bytes[addr..addr + i])
    {
      NextByte(bytes, addr, addr + i);
      out := Wrap64(out * 256 + bytes[addr + i]);
      i := i + 1;
    }
    DecodeBound(bytes[addr..addr + width]);
  }

  /** What the table holds at an address, nothing beyond its end. */
  function WordAt(table: seq<byte>, width: nat, addr: nat): nat {
    if addr + width <= |table| then Decode(table[addr..addr + width]) else 0
  }

  /** An aligned word lies within one record. */
  lemma WordIsIn(devices: seq<Description>, bus: Product, width: nat, addr: nat)
    requires AllValid(devices) && ValidProduct(bus) && IsWidth(width) && addr % width == 0
    ensures addr % RECORD + width <= RECORD
    ensures var k, at := addr / RECORD, addr % RECORD;
            WordAt(TableBytes(devices, bus), width, addr) ==
              if k == 0 then Decode(HeaderBytes(|devices|, bus)[at..at + width])
              else if k <= |devices| then Decode(DeviceBytes(devices[k - 1])[at..at + width])
              else 0
  {
    hide TableBytes, DeviceBytes, HeaderBytes, Decode;
    WithinRecord(width, addr);
    var k, at, table := addr / RECORD, addr % RECORD, TableBytes(devices, bus);
    assert addr == RECORD * k + at;
    if k <= |devices| {
      RecordAt(devices, bus, k);
      SliceSlice(table, RECORD * k, RECORD * (k + 1), at, width);
      assert table[RECORD * k + at..RECORD * k + at + width] == table[addr..addr + width];
    } else {
      assert addr >= RECORD * (|devices| + 1);
    }
  }

  /** Serve one aligned word of the table: the header counts the devices, other records walk the
      list of them. */
  method Serve(devices: seq<Description>, bus: Product, width: nat, addr: nat) returns (out: nat)
    requires AllValid(devices) && ValidProduct(bus) && IsWidth(width) && addr % width == 0
    ensures out == WordAt(TableBytes(devices, bus), width, addr) && out < Pow256(width)
  {
    hide WordAt, TableBytes, HeaderBytes, DeviceBytes, Pow256;
    WordIsIn(devices, bus, width, addr);
    var i := 0;
    if addr < RECORD {
      while i < |devices|
        invariant 0 <= i <= |devices|
      {
        i := i + 1;
      }
      out := Extract(HeaderBytes(i, bus), width, addr);
      return;
    }
    var dev := addr / RECORD;
    while i < |devices| && dev != 1
      invariant 0 <= i <= |devices| && dev == addr / RECORD - i && dev >= 1
    {
      dev, i := dev - 1, i + 1;
    }
    if i == |devices| {
      return 0;
    }
    assert ValidDescription(devices[i]);
    out := Extract(DeviceBytes(devices[i]), width, addr % RECORD);
  }

  /** Aligned words do not straddle records. */
  lemma WithinRecord(width: nat, addr: nat)
    requires IsWidth(width) && addr % width == 0
    ensures addr % RECORD + width <= RECORD
  {
  }

  /* ---------- scanning ---------- */

  /** A finished read operation. */
  datatype Answer = Answer(value: nat, size: nat, error: bool)

  /** 0 when all answers fit in the room, 1 when more data follows, -1 on an error. */
  function FillCode(ops: seq<Answer>, room: nat): int {
    if ops == [] then 0
    else if ops[0].error then -1
    else if room < ops[0].size then 1
    else FillCode(ops[1..], room - ops[0].size)
  }

  /** The bytes of the answers that fit. */
  function FillBytes(ops: seq<Answer>, room: nat): (s: seq<byte>)
    ensures |s| <= room
  {
    if ops == [] || ops[0].error || room < ops[0].size then []
    else Encode(ops[0].value, ops[0].size) + FillBytes(ops[1..], room - ops[0].size)
  }

  /** Lay answers out in a buffer. */
  method FillBlock(buf: array<byte>, ops: seq<Answer>) returns (code: int)
    modifies buf
    ensures code == FillCode(ops, buf.Length)
    ensures var s := FillBytes(ops, buf.Length); buf[..] == s + old(buf[|s|..])
  {
    hide FillCode, FillBytes, Encode;
    var ptr, k := 0, 0;
    ghost var was, filled: seq<byte> := buf[..], [];
    assert ops[0..] == ops && filled + FillBytes(ops, buf.Length) == FillBytes(ops, buf.Length);
    while k < |ops|
      invariant 0 <= k <= |ops| && ptr == |filled| <= buf.Length && buf[..] == filled + was[ptr..]
      invariant FillCode(ops, buf.Length) == FillCode(ops[k..], buf.Length - ptr)
      invariant FillBytes(ops, buf.Length) == filled + FillBytes(ops[k..], buf.Length - ptr)
    {
      FillFirst(ops[k..], buf.Length - ptr);
      assert ops[k..][0] == ops[k] && ops[k..][1..] == ops[k + 1..];
      assert filled + [] == filled;
      if ops[k].error {
        return -1;
      }
      var data, stride := ops[k].value, ops[k].size;
      if buf.Length - ptr < stride {
        return 1;
      }
      LayOut(buf, ptr, data, stride, filled, was);
      Laid(filled, Encode(data, stride), FillBytes(ops[k + 1..], buf.Length - ptr - stride));
      filled := filled + Encode(data, stride);
      ptr, k := ptr + stride, k + 1;
    }
    FillFirst(ops[k..], buf.Length - ptr);
    assert filled + [] == filled;
    code := 0;
  }

  lemma FillFirst(ops: seq<Answer>, room: nat)
    ensures ops == [] ==> FillCode(ops, room) == 0 && FillBytes(ops, room) == []
    ensures ops != [] && ops[0].error ==> FillCode(ops, room) == -1 && FillBytes(ops, room) == []
    ensures ops != [] && !ops[0].error && room < ops[0].size ==> FillCode(ops, room) == 1 && FillBytes(ops, room) == []
    ensures ops != [] && !ops[0].error && room >= ops[0].size ==>
              && FillCode(ops, room) == FillCode(ops[1..], room - ops[0].size)
              && FillBytes(ops, room) == Encode(ops[0].value, ops[0].size) + FillBytes(ops[1..], room - ops[0].size)
  {
  }

  /** Store one answer behind those laid out before it. */
  method LayOut(buf: array<byte>, ptr: nat, data: nat, stride: nat, ghost filled: seq<byte>, ghost was: seq<byte>)
    requires ptr == |filled| && ptr + stride <= buf.Length == |was| && buf[..] == filled + was[ptr..]
    modifies buf
    ensures buf[..] == (filled + Encode(data, stride)) + was[ptr + stride..]
  {
    hide Encode;
    ghost var before := buf[..];
    assert before[..ptr] == filled && before[ptr + stride..] == was[ptr + stride..];
    StoreWord(buf, ptr, data, stride);
    assert buf[..] == buf[..ptr + stride] + buf[ptr + stride..];
  }

  lemma Laid(filled: seq<byte>, more: seq<byte>, rest: seq<byte>)
    ensures filled + (more + rest) == (filled + more) + rest
  {
  }

  /** Reads of consecutive aligned words of a table. */
  function Words(table: seq<byte>, width: nat, from: nat, to: nat): seq<Answer>
    requires IsWidth(width)
    decreases if from < to then to - from else 0
  {
    if from >= to then [] else [Answer(WordAt(table, width, from), width, false)] + Words(table, width, from + width,
        to)
  }

  predicate Aligned(x: nat, width: nat)
    requires IsWidth(width)
  {
    if width == 1 then true else if width == 2 then x % 2 == 0 else if width == 4 then x % 4 == 0 else x % 8 == 0
  }

  lemma NextWord(width: nat, from: nat, to: nat)
    requires IsWidth(width) && Aligned(from, width) && Aligned(to, width)
    ensures from < to ==> from + width <= to
    ensures Aligned(from + width, width) && Aligned(0, width) && (to >= width ==> Aligned(to - width, width))
  {
    if width == 2 {
      By2(from, to);
    } else if width == 4 {
      By4(from, to);
    } else if width == 8 {
      By8(from, to);
    }
  }

  lemma By2(from: nat, to: nat)
    requires from % 2 == 0 && to % 2 == 0
    ensures (from < to ==> from + 2 <= to) && (from + 2) % 2 == 0 && (to >= 2 ==> (to - 2) % 2 == 0)
  {
  }

  lemma By4(from: nat, to: nat)
    requires from % 4 == 0 && to % 4 == 0
    ensures (from < to ==> from + 4 <= to) && (from + 4) % 4 == 0 && (to >= 4 ==> (to - 4) % 4 == 0)
  {
  }

  lemma By8(from: nat, to: nat)
    requires from % 8 == 0 && to % 8 == 0
    ensures (from < to ==> from + 8 <= to) && (from + 8) % 8 == 0 && (to >= 8 ==> (to - 8) % 8 == 0)
  {
  }

  lemma FillStep(a: Answer, ops: seq<Answer>, room: nat)
    requires !a.error
    ensures FillCode([a] + ops, room) == if room < a.size then 1 else FillCode(ops, room - a.size)
    ensures FillBytes([a] + ops, room) == if room < a.size then []
            else Encode(a.value, a.size) + FillBytes(ops, room - a.size)
  {
    assert ([a] + ops)[1..] == ops;
  }

  /** Laying them out gives the table back, as far as there is room. */
  lemma {:induction false} FillWords(table: seq<byte>, width: nat, from: nat, to: nat, room: nat, more: seq<Answer>)
    requires IsWidth(width) && from <= to <= |table| && Aligned(from, width) && Aligned(to, width)
         && Aligned(room, width)
    ensures var ops := Words(table, width, from, to) + more;
            if to - from <= room then
              && FillCode(ops, room) == FillCode(more, room - (to - from))
              && FillBytes(ops, room) == table[from..to] + FillBytes(more, room - (to - from))
            else FillCode(ops, room) == 1 && FillBytes(ops, room) == table[from..from + room]
    decreases |table| - from
  {
    hide Aligned, FillCode, FillBytes, IsWidth, Words, WordAt, Encode, Decode;
    var ops := Words(table, width, from, to) + more;
    WidthPositive(width);
    NextWords(table, width, from, to, more);
    if from == to {
      assert table[from..to] + FillBytes(more, room) == FillBytes(more, room);
    } else {
      NextWord(width, from, to);
      NextWord(width, 0, room);
      var word, rest := table[from..from + width], Words(table, width, from + width, to);
      FillStep(Answer(Decode(word), width, false), rest + more, room);
      EncodeDecode(word);
      if room >= width {
        FillWords(table, width, from + width, to, room - width, more);
        if to - from <= room {
          SliceJoin(table, from, from + width, to, FillBytes(more, room - (to - from)));
        } else {
          SliceJoin(table, from, from + width, from + room, []);
        }
      } else {
        assert table[from..from + room] == [];
      }
    }
  }

  lemma NextWords(table: seq<byte>, width: nat, from: nat, to: nat, more: seq<Answer>)
    requires IsWidth(width)
    ensures from >= to ==> Words(table, width, from, to) + more == more
    ensures from < to && from + width <= |table| ==>
              Words(table, width, from, to) + more
              == [Answer(Decode(table[from..from + width]), width, false)] + (Words(table, width, from + width,
                  to) + more)
  {
  }

  lemma WidthPositive(width: nat)
    requires IsWidth(width)
    ensures width > 0
  {
  }

  lemma SliceJoin(s: seq<byte>, a: nat, b: nat, c: nat, more: seq<byte>)
    requires a <= b <= c <= |s|
    ensures s[a..b] + s[b..c] == s[a..c] && s[a..b] + (s[b..c] + more) == s[a..c] + more
  {
  }

  /* ---------- decoding ---------- */

  datatype Entry =
    | DeviceEntry(description: Description)
    | BridgeEntry(child: nat, component: Component)
    | IntegrationEntry(product: Product)
    | OtherEntry(bytes: seq<byte>)

  datatype Scan = ScanFails(busy: bool) | ScanTable(records: nat, bus: Component, entries: seq<Entry>)

  function Field(s: seq<byte>, at: nat, size: nat): nat
    requires at + size <= |s|
  {
    Decode(s[at..at + size])
  }

  function DecodeProduct(s: seq<byte>): Product
    requires |s| == RECORD
  {
    Product(Field(s, 24, 8), Field(s, 32, 4), Field(s, 36, 4), Field(s, 40, 4), s[44..63])
  }

  /** Addresses are shifted by the base of the bus. */
  function DecodeComponent(s: seq<byte>, base: nat): Component
    requires |s| == RECORD
  {
    Component(Wrap64(Field(s, 8, 8) + base), Wrap64(Field(s, 16, 8) + base), DecodeProduct(s))
  }

  function DecodeEntry(s: seq<byte>, base: nat): Entry
    requires |s| == RECORD
  {
    if s[63] == DEVICE then
      DeviceEntry(Description(Field(s, 0, 2), s[2], s[3], Field(s, 4, 4), DecodeComponent(s, base)))
    else if s[63] == BRIDGE then BridgeEntry(Wrap64(Field(s, 0, 8) + base), DecodeComponent(s, base))
    else if s[63] == 0x80 then IntegrationEntry(DecodeProduct(s))
    else OtherEntry(s)
  }

  function DecodeEntries(buf: seq<byte>, from: nat, count: nat, base: nat): (es: seq<Entry>)
    requires RECORD * (from + count) <= |buf|
    ensures |es| == count
    ensures forall i :: 0 <= i < count ==> es[i] == DecodeEntry(buf[RECORD * (from + i)..RECORD * (from + i + 1)], base)
  {
    seq(count, i requires 0 <= i < count => DecodeEntry(buf[RECORD * (from + i)..RECORD * (from + i + 1)], base))
  }

  /** Decode a filled table buffer. */
  function DecodeTable(buf: seq<byte>, base: nat): Scan
    requires RECORD <= |buf|
  {
    var records := Field(buf, 4, 2);
    if RECORD * records > |buf| then ScanFails(false)
    else ScanTable(records, DecodeComponent(buf[..RECORD], base),
                   if records == 0 then [] else DecodeEntries(buf, 1, records - 1, base))
  }

  datatype Header = HeaderFails | ReadBytes(n: nat)

  /** The first 32 bytes of the header have been read: check it and decide how much to read. */
  function GotHeader(ops: seq<Answer>): Header {
    if FillCode(ops, RECORD) != 0 then HeaderFails
    else
      var buf := FillBytes(ops, RECORD);
      if |buf| < 32 || Field(buf, 0, 4) != MAGIC then HeaderFails else ReadBytes(RECORD * Field(buf, 4, 2))
  }

  /** Room for so many devices, by doubling. */
  function Capacity(devices: nat): nat
    requires devices < 256
    ensures Capacity(devices) > devices
  {
    if devices < 4 then 4 else if devices < 8 then 8 else if devices < 16 then 16 else if devices < 32 then 32
    else if devices < 64 then 64 else if devices < 128 then 128 else 256
  }

  /** A buffer after the answers have been laid out in it; the source leaves what they do not reach
      uninitialised, here it is zero. */
  function Padded(ops: seq<Answer>, room: nat): (s: seq<byte>)
    ensures |s| == room
  {
    var s := FillBytes(ops, room);
    s + seq(room - |s|, _ => 0 as byte)
  }

  /** The whole table has been read. The record count is taken modulo 2^16 when one is subtracted. */
  function GotAll(ops: seq<Answer>, base: nat): Scan {
    if FillCode(ops, RECORD) != 1 then ScanFails(false)
    else
      var devices := (Field(Padded(ops, RECORD), 4, 2) + 0xFFFF) % 0x1_0000;
      if devices >= 256 then ScanFails(true)
      else
        var room := RECORD * (Capacity(devices) + 1);
        if FillCode(ops, room) != 0 then ScanFails(false) else DecodeTable(Padded(ops, room), base)
  }

  method FreshBlock(ops: seq<Answer>, room: nat) returns (code: int, buf: array<byte>)
    ensures buf.Length == room && code == FillCode(ops, room) && buf[..] == Padded(ops, room)
  {
    buf := new byte[room](_ => 0);
    ghost var was := buf[..];
    code := FillBlock(buf, ops);
    ghost var s := FillBytes(ops, room);
    assert was[|s|..] == seq(room - |s|, _ => 0 as byte);
  }

  /** Decode the records behind the header one by one. */
  method DecodeBlock(buf: seq<byte>, base: nat) returns (scan: Scan)
    requires RECORD <= |buf|
    ensures scan == DecodeTable(buf, base)
  {
    var records := Field(buf, 4, 2);
    if RECORD * records > |buf| {
      return ScanFails(false);
    }
    var entries: seq<Entry>, i := [], 0;
    while i + 1 < records
      invariant 0 <= i && |entries| == i && (records > 0 ==> i <= records - 1) && (records == 0 ==> i == 0)
      invariant forall k :: 0 <= k < i ==> entries[k] == DecodeEntry(buf[RECORD * (1 + k)..RECORD * (1 + k + 1)], base)
    {
      entries := entries + [DecodeEntry(buf[RECORD * (1 + i)..RECORD * (1 + i + 1)], base)];
      i := i + 1;
    }
    assert records > 0 ==> entries == DecodeEntries(buf, 1, records - 1, base);
    scan := ScanTable(records, DecodeComponent(buf[..RECORD], base), entries);
  }

  /** The callback for the whole table: read the header off its first block, then decode all of it
      in a buffer big enough. */
  method ScanBlocks(ops: seq<Answer>, base: nat) returns (scan: Scan)
    ensures scan == GotAll(ops, base)
  {
    hide FillCode, FillBytes, Padded, DecodeTable, Field;
    var code, head := FreshBlock(ops, RECORD);
    if code != 1 {
      return ScanFails(false);
    }
    var devices := (Field(head[..], 4, 2) + 0xFFFF) % 0x1_0000;
    if devices >= 256 {
      return ScanFails(true);
    }
    var buf;
    code, buf := FreshBlock(ops, RECORD * (Capacity(devices) + 1));
    if code != 0 {
      return ScanFails(false);
    }
    scan := DecodeBlock(buf[..], base);
  }

  /* ---------- round trip ---------- */

  /** A description as seen through a bridge at `base`. */
  function Shifted(c: Component, base: nat): Component {
    c.(first := Wrap64(c.first + base), last := Wrap64(c.last + base))
  }

  /** What a scan reports of a list of devices. */
  function AllShifted(devices: seq<Description>, base: nat): (es: seq<Entry>)
    ensures |es| == |devices|
    ensures forall i :: 0 <= i < |devices| ==>
              es[i] == DeviceEntry(devices[i].(component := Shifted(devices[i].component, base)))
  {
    if devices == [] then []
    else
      [DeviceEntry(devices[0].(component := Shifted(devices[0].component, base)))] + AllShifted(devices[1..], base)
  }

  lemma DecodesProduct(d: Product, kind: byte, s: seq<byte>)
    requires ValidProduct(d) && |s| == RECORD && s[24..] == ProductBytes(d, kind)
    ensures DecodeProduct(s) == d && s[63] == kind
  {
    hide Encode, Decode, Pow256;
    DecodeEncode(d.vendor, 8);
    DecodeEncode(d.device, 4);
    DecodeEncode(d.version, 4);
    DecodeEncode(d.date, 4);
    ProductParts(d, kind);
    var p := ProductBytes(d, kind);
    Behind(s, 24, p, 0, 8);
    Behind(s, 24, p, 8, 12);
    Behind(s, 24, p, 12, 16);
    Behind(s, 24, p, 16, 20);
    Behind(s, 24, p, 20, 39);
    hide ProductBytes;
    assert s[63] == p[39];
  }

  lemma ProductParts(d: Product, kind: byte)
    requires |d.name| == 19
    ensures var p := ProductBytes(d, kind);
            && p[0..8] == Encode(d.vendor, 8) && p[8..12] == Encode(d.device, 4) && p[12..16] == Encode(d.version, 4)
            && p[16..20] == Encode(d.date, 4) && p[20..39] == d.name && p[39] == kind
  {
    hide Encode;
  }

  /** A slice of a tail. */
  lemma Behind(s: seq<byte>, at: nat, p: seq<byte>, from: nat, to: nat)
    requires at <= |s| && s[at..] == p && from <= to <= |p|
    ensures s[at + from..at + to] == p[from..to]
  {
    SliceDrop(s, at, at + from, to - from);
  }

  lemma DecodesComponent(c: Component, kind: byte, s: seq<byte>, base: nat)
    requires ValidComponent(c) && |s| == RECORD && s[8..] == ComponentBytes(c, kind)
    ensures DecodeComponent(s, base) == Shifted(c, base) && s[63] == kind
  {
    hide Encode, Decode, Pow256, DecodeProduct, ProductBytes;
    DecodeEncode(c.first, 8);
    DecodeEncode(c.last, 8);
    ComponentParts(c, kind);
    var p := ComponentBytes(c, kind);
    Behind(s, 8, p, 0, 8);
    Behind(s, 8, p, 8, 16);
    Behind(s, 8, p, 16, 56);
    hide ComponentBytes;
    assert s[24..] == s[24..64];
    DecodesProduct(c.product, kind, s);
  }

  lemma ComponentParts(c: Component, kind: byte)
    requires |c.product.name| == 19
    ensures var p := ComponentBytes(c, kind);
            p[0..8] == Encode(c.first, 8) && p[8..16] == Encode(c.last, 8) && p[16..56] == ProductBytes(c.product, kind)
  {
    hide Encode, ProductBytes;
  }

  lemma DecodesDevice(d: Description, base: nat)
    requires ValidDescription(d)
    ensures DecodeEntry(DeviceBytes(d), base) == DeviceEntry(d.(component := Shifted(d.component, base)))
  {
    var s := DeviceBytes(d);
    DecodeEncode(d.abi, 2);
    DecodeEncode(d.specific, 4);
    hide Encode, Decode, Pow256, ComponentBytes, DecodeComponent;
    assert s[0..2] == Encode(d.abi, 2) && s[2] == d.major && s[3] == d.minor;
    assert s[4..8] == Encode(d.specific, 4) && s[8..] == ComponentBytes(d.component, DEVICE);
    DecodesComponent(d.component, DEVICE, s, base);
  }

  /** The header says how many records there are, modulo 2^16, and describes the bus. */
  lemma DecodesHeader(n: nat, bus: Product, base: nat)
    requires ValidProduct(bus)
    ensures var s := HeaderBytes(n, bus);
            && |s| == RECORD && Field(s, 0, 4) == MAGIC && Field(s, 4, 2) == (n + 1) % 0x1_0000
            && DecodeComponent(s, base) == Shifted(Component(0, Pow256(8) - 1, bus), base)
  {
    hide Encode, Decode, DecodeComponent, ComponentBytes, Shifted;
    Pow256Table();
    DecodeEncode(MAGIC, 4);
    DecodeEncode(n + 1, 2);
    HeaderParts(n, bus);
    hide HeaderBytes, Pow256;
    DecodesComponent(Component(0, Pow256(8) - 1, bus), 0, HeaderBytes(n, bus), base);
  }

  lemma HeaderParts(n: nat, bus: Product)
    requires |bus.name| == 19
    ensures var s := HeaderBytes(n, bus);
            && |s| == RECORD && s[0..4] == Encode(MAGIC, 4) && s[4..6] == Encode(n + 1, 2)
            && s[8..] == ComponentBytes(Component(0, Pow256(8) - 1, bus), 0)
  {
    hide Encode, ComponentBytes, Pow256;
  }

  /** Finding a slice of a buffer that starts with the table. */
  lemma SliceOfPrefix(table: seq<byte>, pad: seq<byte>, from: nat, to: nat)
    requires from <= to <= |table|
    ensures (table + pad)[from..to] == table[from..to]
  {
  }

  /** Decoding a buffer that starts with the table gives every device back, in order. */
  lemma DecodesTable(devices: seq<Description>, bus: Product, base: nat, pad: seq<byte>)
    requires AllValid(devices) && ValidProduct(bus) && |devices| < 0xFFFF
    ensures DecodeTable(TableBytes(devices, bus) + pad, base) ==
              ScanTable(|devices| + 1, Shifted(Component(0, Pow256(8) - 1, bus), base),
                        AllShifted(devices, base))
  {
    hide Field, HeaderBytes, DecodeComponent, DecodeEntry, DeviceBytes, Shifted, TableBytes, Pow256;
    var n, table := |devices|, TableBytes(devices, bus);
    var buf := table + pad;
    DecodesHeader(n, bus, base);
    RecordAt(devices, bus, 0);
    SliceOfPrefix(table, pad, 0, RECORD);
    assert buf[..RECORD] == buf[0..RECORD];
    HeaderField(buf);
    var want := AllShifted(devices, base);
    var have := DecodeEntries(buf, 1, n, base);
    forall i | 0 <= i < n
      ensures have[i] == want[i]
    {
      RecordAt(devices, bus, i + 1);
      SliceOfPrefix(table, pad, RECORD * (1 + i), RECORD * (1 + i + 1));
      assert ValidDescription(devices[i]);
      DecodesDevice(devices[i], base);
    }
    assert have == want;
  }

  lemma HeaderField(buf: seq<byte>)
    requires |buf| >= RECORD
    ensures Field(buf[..RECORD], 4, 2) == Field(buf, 4, 2) && Field(buf[..RECORD], 0, 4) == Field(buf, 0, 4)
  {
    assert buf[..RECORD][4..6] == buf[4..6] && buf[..RECORD][0..4] == buf[0..4];
  }

  /* ---------- the scan ---------- */

  lemma WholeTable(width: nat, n: nat)
    requires IsWidth(width)
    ensures Aligned(0, width) && Aligned(32, width) && Aligned(RECORD, width) && Aligned(RECORD * n, width)
    ensures RECORD * (n + 1) <= TABLE <==> n <= 255
  {
  }

  /** What the first record says. */
  lemma TableHead(devices: seq<Description>, bus: Product)
    requires AllValid(devices) && ValidProduct(bus) && |devices| < 0xFFFF
    ensures var table := TableBytes(devices, bus);
            && |table| == RECORD * (|devices| + 1) && |table[0..32]| == 32 && |table[0..RECORD]| == RECORD
            && Field(table[0..RECORD], 4, 2) == |devices| + 1
            && Field(table[0..32], 0, 4) == MAGIC && Field(table[0..32], 4, 2) == |devices| + 1
  {
    hide TableBytes, HeaderBytes, Decode, DecodeComponent, Pow256, ValidProduct, AllValid;
    var table := TableBytes(devices, bus);
    DecodesHeader(|devices|, bus, 0);
    RecordAt(devices, bus, 0);
    assert table[0..32][0..4] == table[0..RECORD][0..4] && table[0..32][4..6] == table[0..RECORD][4..6];
  }

  lemma NoAnswers(room: nat)
    ensures FillCode([], room) == 0 && FillBytes([], room) == []
  {
  }

  lemma HeaderFrom(ops: seq<Answer>, s: seq<byte>)
    requires FillCode(ops, RECORD) == 0 && FillBytes(ops, RECORD) == s && |s| == 32 && Field(s, 0, 4) == MAGIC
    ensures GotHeader(ops) == ReadBytes(RECORD * Field(s, 4, 2))
  {
    hide Field, FillCode, FillBytes;
  }

  /** The header read finds the magic and asks for exactly the whole table. */
  lemma HeaderScanned(devices: seq<Description>, bus: Product, width: nat)
    requires AllValid(devices) && ValidProduct(bus) && |devices| < 0xFFFF && IsWidth(width)
    ensures GotHeader(Words(TableBytes(devices, bus), width, 0, 32)) == ReadBytes(RECORD * (|devices| + 1))
  {
    hide TableBytes, Words, Aligned, DecodeTable, Field, Shifted, Pow256, Capacity, AllValid, FillCode, FillBytes,
        GotAll, GotHeader, ValidProduct, IsWidth;
    var table := TableBytes(devices, bus);
    var ops := Words(table, width, 0, 32);
    WholeTable(width, |devices|);
    TableHead(devices, bus);
    assert ops + [] == ops && table[0..32] + [] == table[0..32];
    FillWords(table, width, 0, 32, RECORD, []);
    NoAnswers(32);
    HeaderFrom(ops, table[0..32]);
  }

  /** The first record of what is read of the table, whatever follows it. */
  lemma HeadRead(devices: seq<Description>, bus: Product, width: nat, to: nat, more: seq<Answer>)
    requires AllValid(devices) && ValidProduct(bus) && |devices| < 0xFFFF && IsWidth(width)
    requires RECORD <= to <= RECORD * (|devices| + 1) && Aligned(to, width)
    ensures var ops := Words(TableBytes(devices, bus), width, 0, to) + more;
            && (if to > RECORD then FillCode(ops, RECORD) == 1 else FillCode(ops, RECORD) == FillCode(more, 0))
            && |FillBytes(ops, RECORD)| == RECORD && Field(FillBytes(ops, RECORD), 4, 2) == |devices| + 1
  {
    hide TableBytes, Words, Aligned, DecodeTable, Field, Shifted, Pow256, Capacity, AllValid, FillCode, FillBytes,
        GotAll, GotHeader, ValidProduct, IsWidth;
    var table := TableBytes(devices, bus);
    WholeTable(width, |devices|);
    TableHead(devices, bus);
    FillWords(table, width, 0, to, RECORD, more);
    NothingFits(more);
    assert table[0..RECORD] + [] == table[0..RECORD];
  }

  lemma NothingFits(ops: seq<Answer>)
    ensures FillBytes(ops, 0) == []
  {
  }

  lemma FullBlock(ops: seq<Answer>)
    requires |FillBytes(ops, RECORD)| == RECORD
    ensures Padded(ops, RECORD) == FillBytes(ops, RECORD)
  {
    hide FillBytes;
  }

  lemma AllFrom(ops: seq<Answer>, base: nat, n: nat, s: seq<byte>)
    requires FillCode(ops, RECORD) == 1 && |FillBytes(ops, RECORD)| == RECORD
         && Field(FillBytes(ops, RECORD), 4, 2) == n + 1
    requires n < 256 && FillCode(ops, RECORD * (Capacity(n) + 1)) == 0
         && FillBytes(ops, RECORD * (Capacity(n) + 1)) == s
    requires RECORD <= |s| <= RECORD * (Capacity(n) + 1)
    ensures GotAll(ops, base) == DecodeTable(s + seq(RECORD * (Capacity(n) + 1) - |s|, _ => 0 as byte), base)
  {
    hide Field, FillCode, FillBytes, Capacity, DecodeTable;
    FullBlock(ops);
    assert (n + 1 + 0xFFFF) % 0x1_0000 == n;
  }

  lemma NotAllFrom(ops: seq<Answer>, base: nat, n: nat)
    requires n + 1 < 0x1_0000 && |FillBytes(ops, RECORD)| == RECORD && Field(FillBytes(ops, RECORD), 4, 2) == n + 1
    requires FillCode(ops, RECORD) != 1 || n >= 256
    ensures GotAll(ops, base).ScanFails?
  {
    hide Field, FillCode, FillBytes, Capacity, DecodeTable;
    FullBlock(ops);
    assert (n + 1 + 0xFFFF) % 0x1_0000 == n;
  }

  /** ROUND TRIP. Reading the table of 1 to 255 devices word by word, at any port width, and
      decoding it yields the same devices in the same order, shifted by the base of the bus. */
  lemma ScanRoundTrip(devices: seq<Description>, bus: Product, width: nat, base: nat)
    requires AllValid(devices) && ValidProduct(bus) && IsWidth(width) && 1 <= |devices| <= 255
    ensures RECORD * (|devices| + 1) <= TABLE
    ensures GotAll(Words(TableBytes(devices, bus), width, 0, RECORD * (|devices| + 1)), base) ==
              ScanTable(|devices| + 1, Shifted(Component(0, Pow256(8) - 1, bus), base),
                        AllShifted(devices, base))
  {
    hide TableBytes, Words, Aligned, DecodeTable, Field, Shifted, Pow256, Capacity, AllValid, FillCode, FillBytes,
        GotAll, GotHeader, ValidProduct, IsWidth;
    var n, table := |devices|, TableBytes(devices, bus);
    var size, room := RECORD * (n + 1), RECORD * (Capacity(n) + 1);
    WholeTable(width, n + 1);
    WholeTable(width, n);
    WholeTable(width, Capacity(n) + 1);
    TableHead(devices, bus);
    HeadRead(devices, bus, width, size, []);
    FillWords(table, width, 0, size, room, []);
    NoAnswers(room - size);
    NoAnswers(0);
    var ops := Words(table, width, 0, size);
    assert ops + [] == ops && table[0..size] + [] == table;
    AllFrom(ops, base, n, table);
    DecodesTable(devices, bus, base, seq(room - size, _ => 0 as byte));
  }

  /** A scan succeeds exactly when there are 1 to 255 devices: an empty bus looks like a failed
      read, and a longer table does not fit the addresses reserved for it. `beyond` stands for
      what else is found at the addresses after those. */
  lemma ScanSucceedsIff(devices: seq<Description>, bus: Product, width: nat, base: nat, beyond: seq<Answer>)
    requires AllValid(devices) && ValidProduct(bus) && IsWidth(width) && |devices| < 0xFFFF
    requires |devices| <= 255 ==> beyond == []
    ensures var size := RECORD * (|devices| + 1);
            GotAll(Words(TableBytes(devices, bus), width, 0, if size <= TABLE then size else TABLE) + beyond,
                base).ScanTable?
            <==> 1 <= |devices| <= 255
  {
    hide TableBytes, Words, Aligned, DecodeTable, Field, Shifted, Pow256, Capacity, AllValid, FillCode, FillBytes,
        GotAll, GotHeader, ValidProduct, IsWidth;
    var n, size := |devices|, RECORD * (|devices| + 1);
    var to := if size <= TABLE then size else TABLE;
    WholeTable(width, n);
    WholeTable(width, n + 1);
    WholeTable(width, 256);
    HeadRead(devices, bus, width, to, beyond);
    NoAnswers(0);
    var ops := Words(TableBytes(devices, bus), width, 0, to);
    if n <= 255 {
      assert ops + [] == ops;
    }
    if 1 <= n <= 255 {
      ScanRoundTrip(devices, bus, width, base);
    } else {
      NotAllFrom(ops + beyond, base, n);
    }
  }
}
