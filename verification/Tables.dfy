/** The self-description table byte by byte, what a scan makes of other records, and of bad reads. */
module Tables {
  import opened Bytes
  import opened Widths
  import opened Sdb
  import opened SdbSearch

  /* ---------- what the table holds ---------- */

  /** Product fields from byte 24 on, the kind of record in the last byte. */
  ghost predicate ProductAt(s: seq<byte>, d: Product, kind: byte) {
    && |s| == 64
    && Field(s, 24, 8) == d.vendor && Field(s, 32, 4) == d.device && Field(s, 36, 4) == d.version
    && Field(s, 40, 4) == d.date && s[44..63] == d.name && s[63] == kind
  }

  lemma ProductIs(s: seq<byte>, d: Product, kind: byte)
    requires |s| == 64 && DecodeProduct(s) == d && s[63] == kind
    ensures ProductAt(s, d, kind)
  {
    hide Field;
  }

  /** A device's record. */
  lemma DeviceLayout(d: Description)
    requires ValidDescription(d)
    ensures var s, c := DeviceBytes(d), d.component;
            && ProductAt(s, c.product, 0x01)
            && Field(s, 0, 2) == d.abi && s[2] == d.major && s[3] == d.minor && Field(s, 4, 4) == d.specific
            && Field(s, 8, 8) == c.first && Field(s, 16, 8) == c.last
  {
    var s, c := DeviceBytes(d), d.component;
    DecodeEncode(d.abi, 2);
    DecodeEncode(d.specific, 4);
    Pow256Table();
    hide Encode, Decode, Pow256, ComponentBytes, DecodeComponent;
    assert s[0..2] == Encode(d.abi, 2) && s[4..8] == Encode(d.specific, 4) && s[8..] == ComponentBytes(c, DEVICE);
    hide DeviceBytes;
    ComponentLayout(s, c, DEVICE);
  }

  lemma ComponentLayout(s: seq<byte>, c: Component, kind: byte)
    requires ValidComponent(c) && |s| == 64 && s[8..] == ComponentBytes(c, kind)
    ensures ProductAt(s, c.product, kind) && Field(s, 8, 8) == c.first && Field(s, 16, 8) == c.last
  {
    DecodesComponent(c, kind, s, 0);
    DecodeEncode(c.first, 8);
    DecodeEncode(c.last, 8);
    ComponentParts(c, kind);
    hide Encode, Decode, Pow256, DecodeProduct, ComponentBytes;
    Behind(s, 8, ComponentBytes(c, kind), 0, 8);
    Behind(s, 8, ComponentBytes(c, kind), 8, 16);
    ProductIs(s, c.product, kind);
  }

  /** The first record: the magic, how many records there are, version 1 of the format, a Wishbone bus of
      all addresses, and what kind of bus it is. */
  lemma HeaderLayout(n: nat, bus: Product)
    requires ValidProduct(bus)
    ensures var s := HeaderBytes(n, bus);
            && ProductAt(s, bus, 0x00)
            && Field(s, 0, 4) == 0x5344422D && Field(s, 4, 2) == (n + 1) % 0x1_0000 && s[6] == 1 && s[7] == 0
            && Field(s, 8, 8) == 0 && Field(s, 16, 8) == 0xFFFF_FFFF_FFFF_FFFF
  {
    DecodesHeader(n, bus, 0);
    HeaderParts(n, bus);
    Pow256Table();
    hide Encode, Decode, ComponentBytes, Field, DecodeComponent;
    HeaderMiddle(n, bus);
    hide HeaderBytes, Pow256;
    ComponentLayout(HeaderBytes(n, bus), Component(0, Pow256(8) - 1, bus), 0);
  }

  lemma HeaderMiddle(n: nat, bus: Product)
    ensures HeaderBytes(n, bus)[6] == 1 && HeaderBytes(n, bus)[7] == 0
  {
    hide Encode, ComponentBytes, Pow256;
  }

  /* ---------- records of other kinds ---------- */

  /** A bridge's record: where the table behind it is, and its addresses. */
  function BridgeBytes(child: nat, c: Component): seq<byte> { Encode(child, 8) + ComponentBytes(c, 0x02) }

  /** A record that only identifies the design. */
  function IntegrationBytes(d: Product): seq<byte> { seq(24, _ => 0 as byte) + ProductBytes(d, 0x80) }

  /** Through a bridge at `base` the table behind another bridge, too, is found by adding the base. */
  lemma DecodesBridge(child: nat, c: Component, base: nat)
    requires child < TWO64 && ValidComponent(c)
    ensures |BridgeBytes(child, c)| == RECORD
    ensures DecodeEntry(BridgeBytes(child, c), base) ==
              BridgeEntry((child + base) % 0x1_0000_0000_0000_0000, Shifted(c, base))
  {
    var s := BridgeBytes(child, c);
    DecodeEncode(child, 8);
    Pow256Table();
    hide Encode, Decode, Pow256, ComponentBytes, DecodeComponent, Shifted;
    assert s[0..8] == Encode(child, 8) && s[8..] == ComponentBytes(c, BRIDGE);
    hide BridgeBytes;
    DecodesComponent(c, BRIDGE, s, base);
  }

  lemma DecodesIntegration(d: Product, base: nat)
    requires ValidProduct(d)
    ensures |IntegrationBytes(d)| == RECORD && DecodeEntry(IntegrationBytes(d), base) == IntegrationEntry(d)
  {
    var s := IntegrationBytes(d);
    hide Encode, Decode, Pow256, ProductBytes, DecodeComponent, DecodeProduct;
    assert s[24..] == ProductBytes(d, 0x80);
    hide IntegrationBytes;
    DecodesProduct(d, 0x80, s);
  }

  /* ---------- bad reads ---------- */

  function Sizes(ops: seq<Answer>, k: nat): nat
    requires k <= |ops|
  {
    if k == 0 then 0 else Sizes(ops, k - 1) + ops[k - 1].size
  }

  /** The first `k` answers are good and fit. */
  ghost predicate Fits(ops: seq<Answer>, room: nat, k: nat) {
    k <= |ops| && (forall j :: 0 <= j < k ==> !ops[j].error) && Sizes(ops, k) <= room
  }

  lemma {:induction false} SizesFirst(ops: seq<Answer>, k: nat)
    requires 0 < k <= |ops|
    ensures Sizes(ops, k) == ops[0].size + Sizes(ops[1..], k - 1)
  {
    if k > 1 {
      SizesFirst(ops, k - 1);
    }
  }

  lemma {:induction false} SizesGrow(ops: seq<Answer>, j: nat, k: nat)
    requires j <= k <= |ops|
    ensures Sizes(ops, j) <= Sizes(ops, k)
  {
    if j < k {
      SizesGrow(ops, j, k - 1);
    }
  }

  /** Where laying out stops. */
  lemma {:induction false} FillStops(ops: seq<Answer>, room: nat) returns (k: nat)
    ensures Fits(ops, room, k)
    ensures FillCode(ops, room) == if k == |ops| then 0 else if ops[k].error then -1 else 1
    ensures k < |ops| && !ops[k].error ==> Sizes(ops, k + 1) > room
    decreases |ops|
  {
    if ops == [] || ops[0].error || room < ops[0].size {
      k := 0;
    } else {
      var j := FillStops(ops[1..], room - ops[0].size);
      k := j + 1;
      SizesFirst(ops, k);
      if j < |ops[1..]| {
        SizesFirst(ops, k + 1);
        assert ops[1..][j] == ops[k];
      }
      forall i | 0 <= i < k ensures !ops[i].error {
        if i > 0 { assert ops[i] == ops[1..][i - 1]; }
      }
    }
  }

  /** LAYING OUT succeeds exactly when all answers are good and fit; it reports a failed read exactly when
      one is met before the room is used up, and too much data exactly when a good one does not fit. */
  lemma FillCodeIs(ops: seq<Answer>, room: nat)
    ensures FillCode(ops, room) == 0 <==> Fits(ops, room, |ops|)
    ensures FillCode(ops, room) == -1 <==> exists k :: 0 <= k < |ops| && Fits(ops, room, k) && ops[k].error
    ensures FillCode(ops, room) == 1 <==>
              exists k :: 0 <= k < |ops| && Fits(ops, room, k) && !ops[k].error && Sizes(ops, k + 1) > room
  {
    var k := FillStops(ops, room);
    hide FillCode;
    forall j | 0 <= j < |ops| && Fits(ops, room, j)
      ensures j <= k && (j < k ==> !ops[j].error && Sizes(ops, j + 1) <= room)
    {
      if j < k {
        SizesGrow(ops, j + 1, k);
      } else if k < j {
        SizesGrow(ops, k + 1, j);
      }
    }
  }

  /** A failed read makes a scan fail, wherever it is. */
  lemma FailedReadFailsScan(ops: seq<Answer>, k: nat, base: nat)
    requires k < |ops| && ops[k].error
    ensures GotHeader(ops) == HeaderFails && GotAll(ops, base).ScanFails?
  {
    hide FillCode, FillBytes, Padded, DecodeTable, Field, Capacity;
    forall room: nat ensures FillCode(ops, room) != 0 { NotAllFit(ops, k, room); }
  }

  lemma NotAllFit(ops: seq<Answer>, k: nat, room: nat)
    requires k < |ops| && ops[k].error
    ensures FillCode(ops, room) != 0
  {
    FillCodeIs(ops, room);
  }

  /** Whatever is found where a table should be: the scan goes on exactly if it begins with the magic, and
      then reads as many records as the next field says. */
  lemma HeaderGoesOn(table: seq<byte>, width: nat)
    requires |table| >= 32 && IsWidth(width)
    ensures GotHeader(Words(table, width, 0, 32)) ==
              if Field(table, 0, 4) == 0x5344422D then ReadBytes(64 * Field(table, 4, 2)) else HeaderFails
  {
    hide Words, Aligned, FillCode, FillBytes, Decode, IsWidth;
    var ops := Words(table, width, 0, 32);
    WholeTable(width, 0);
    FillWords(table, width, 0, 32, RECORD, []);
    NoAnswers(32);
    assert ops + [] == ops && table[0..32] + [] == table[0..32];
    assert table[0..32][0..4] == table[0..4] && table[0..32][4..6] == table[4..6];
  }

  /** How the scans fail that do: an empty bus like a failed read, one that is too long for lack of room. */
  lemma ScanFailsAs(devices: seq<Description>, bus: Product, width: nat, base: nat, beyond: seq<Answer>)
    requires AllValid(devices) && ValidProduct(bus) && IsWidth(width) && |devices| < 0xFFFF
    requires |devices| == 0 ==> beyond == []
    requires |devices| == 0 || |devices| > 255
    ensures var size := RECORD * (|devices| + 1);
            GotAll(Words(TableBytes(devices, bus), width, 0, if size <= TABLE then size else TABLE) + beyond, base)
              == ScanFails(|devices| > 255)
  {
    hide TableBytes, Words, Aligned, DecodeTable, Field, Shifted, Pow256, Capacity, AllValid, FillCode, FillBytes,
        GotHeader, ValidProduct, IsWidth, Padded;
    var n, size := |devices|, RECORD * (|devices| + 1);
    var to := if size <= TABLE then size else TABLE;
    WholeTable(width, n);
    WholeTable(width, n + 1);
    WholeTable(width, 256);
    HeadRead(devices, bus, width, to, beyond);
    NoAnswers(0);
    FullBlock(Words(TableBytes(devices, bus), width, 0, to) + beyond);
    assert (n + 1 + 0xFFFF) % 0x1_0000 == n;
  }

  /* ---------- the search ---------- */

  /** All devices in a tree of buses, from the `i`-th record of the first bus on. */
  function Devices(t: Tree, i: nat): multiset<Description>
    requires i <= |t.nodes|
    decreases t, |t.nodes| - i
  {
    if i == |t.nodes| then multiset{}
    else
      (match t.nodes[i]
       case Device(d) => multiset{d}
       case Bridge(child) => Devices(child, 0)
       case Other => multiset{})
      + Devices(t, i + 1)
  }

  /** What is searched for: the devices with this vendor and this device number, as often as they are
      there, and no others. */
  lemma {:induction false} HitsAre(id: Identity, t: Tree, i: nat, d: Description)
    requires i <= |t.nodes|
    ensures var product := d.component.product;
            Hits(id, t, i)[d] ==
              if product.vendor == id.vendor && product.device == id.device then Devices(t, i)[d] else 0
    decreases t, |t.nodes| - i
  {
    if i < |t.nodes| {
      HitsAre(id, t, i + 1, d);
      match t.nodes[i]
      case Bridge(child) => HitsAre(id, child, 0, d);
      case _ =>
    }
  }
}
