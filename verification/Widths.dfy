/** Bus widths and byte lanes: the bit tricks on 8-bit masks.
    A width byte holds the address widths in its high nibble and the data widths in its low
    nibble; each of the bits 1, 2, 4, 8 stands for a width of that many bytes. */
module Widths {
  import opened Bytes

  datatype Option<T> = None | Some(value: T)

  function Data(width: bv8): bv8 { width & 0x0F }

  function Addr(width: bv8): bv8 { width >> 4 }

  predicate Possible(width: bv8) {
    Data(width) != 0 && Addr(width) != 0
  }

  predicate Refined(width: bv8) {
    && Data(width) != 0 && Addr(width) != 0
    && Data(width) & (Data(width) - 1) == 0
    && Addr(width) & (Addr(width) - 1) == 0
  }

  /** Smear the highest bit downwards, then keep only that bit. */
  function TopBit(nibble: bv8): bv8 {
    var a := nibble | (nibble >> 1);
    var b := a | (a >> 2);
    (b + 1) >> 1
  }

  function Refine(width: bv8): bv8 {
    (TopBit(Addr(width)) << 4) | TopBit(Data(width))
  }

  /** Refining picks, for data and address separately, the largest width on offer. */
  lemma RefinePicksLargest(width: bv8)
    ensures Refined(Refine(width)) <==> Possible(width)
    ensures Refine(width) & width == Refine(width)
    ensures Data(width) < 2 * Data(Refine(width)) || Data(width) == 0
    ensures Addr(width) < 2 * Addr(Refine(width)) || Addr(width) == 0
    ensures Refined(width) ==> Refine(width) == width
  {
  }

  /** One width negotiation: the opener probes with the widths it proposes, the passive side
      refines what it shares and answers with everything it supports, and the opener refines
      the answer against its proposal. */
  function PassiveWidths(probe: bv8, socket: bv8): bv8 { Refine(probe & socket) }

  function OpenerWidths(answer: bv8, proposed: bv8): bv8 { Refine(answer & proposed) }

  /** Both ends settle on the same widths, agree on whether any exist, and every data packet
      headed by the result is later read with exactly these widths. */
  lemma NegotiationAgrees(proposed: bv8, opener: bv8, passive: bv8)
    ensures var offer := proposed & opener;
            var agreed := PassiveWidths(offer, passive);
            && agreed == OpenerWidths(passive, offer)
            && (Possible(agreed) <==> Possible(passive & offer))
            && (Possible(agreed) ==> Refined(agreed))
            && PassiveWidths(agreed, passive) == agreed
            && PassiveWidths(agreed, opener) == agreed
  {
    hide Refine, Refined, Possible;
    AndFacts(proposed & opener, passive);
    AndFacts(proposed, opener);
    var shared := (proposed & opener) & passive;
    SubsetTransitive(shared, proposed & opener, opener);
    SharedWidths(proposed & opener, opener, passive);
  }

  lemma AndFacts(a: bv8, b: bv8)
    ensures a & b == b & a
    ensures (a & b) & a == a & b && (a & b) & b == a & b
  {
  }

  lemma SharedWidths(offer: bv8, opener: bv8, passive: bv8)
    requires offer & opener == offer
    ensures Possible(Refine(offer & passive)) <==> Possible(passive & offer)
    ensures Possible(Refine(offer & passive)) ==> Refined(Refine(offer & passive))
    ensures PassiveWidths(Refine(offer & passive), passive) == Refine(offer & passive)
    ensures PassiveWidths(Refine(offer & passive), opener) == Refine(offer & passive)
  {
    var shared := offer & passive;
    AndFacts(offer, passive);
    SubsetTransitive(shared, offer, opener);
    RefinePicksLargest(shared);
    AgreedIsStable(shared, passive);
    AgreedIsStable(shared, opener);
  }

  lemma AgreedIsStable(shared: bv8, socket: bv8)
    requires shared & socket == shared
    ensures PassiveWidths(Refine(shared), socket) == Refine(shared)
  {
    var w := Refine(shared);
    RefinePicksLargest(shared);
    SubsetTransitive(w, shared, socket);
    RefineOfRefined(shared);
  }

  lemma SubsetTransitive(a: bv8, b: bv8, c: bv8)
    requires a & b == a && b & c == b
    ensures a & c == a
  {
  }

  lemma RefineOfRefined(width: bv8)
    ensures Refine(Refine(width)) == Refine(width)
  {
  }

  /** The byte lanes of one operation inside a bus word. */
  datatype Lane = Lane(shift: nat, size: nat)

  predicate IsWidth(n: nat) { n == 1 || n == 2 || n == 4 || n == 8 }

  predicate ValidLane(lane: Lane, data: nat) {
    && IsWidth(lane.size) && lane.size <= data
    && lane.shift % lane.size == 0 && lane.shift + lane.size <= data
  }

  /** Position of the single set bit of `x`, by multiplicative hashing. */
  function Log2(x: bv8): bv8 {
    var slot := (x * 0x17) >> 5;
    if slot == 0 then 0 else if slot == 1 then 1 else if slot == 2 then 2 else if slot == 3 then 4
    else if slot == 4 then 7 else if slot == 5 then 3 else if slot == 6 then 6 else 5
  }

  /** Select lines the master raises for an operation of `lane.size` bytes at `lane.shift`. */
  function SelectBits(lane: Lane): bv8
    requires lane.size <= 8 && lane.shift <= 8
  {
    ((0xFF as bv8) >> (8 - lane.size)) << lane.shift
  }

  function EncodeSelect(lane: Lane): byte
    requires lane.size <= 8 && lane.shift <= 8
  {
    SelectBits(lane) as byte
  }

  /** The slave's reading of select lines: shift from the lowest set bit, width from the run
      of ones above it, and the mask is refused unless it is one aligned power-of-two run that
      fits the port. */
  function SelectLane(select: bv8, data: bv8): Option<Lane> {
    var shift := Log2(select & (0 - select));
    var bits := select >> (shift as bv4);
    var widths := Log2((bits >> 1) + 1);
    var width := widths + 1;
    if && select != 0 && bits & (bits + 1) == 0 && width & widths == 0
       && shift & widths == 0 && width <= data && shift < data
    then Some(Lane(shift as nat, width as nat))
    else None
  }

  function DecodeSelect(select: byte, data: nat): Option<Lane>
    requires IsWidth(data)
  {
    SelectLane(select as bv8, data as bv8)
  }

  /** Decoding inverts encoding, and accepts nothing but encodings of lanes that fit the port. */
  lemma SelectRoundTrip(lane: Lane, data: nat)
    requires IsWidth(data) && ValidLane(lane, data)
    ensures DecodeSelect(EncodeSelect(lane), data) == Some(lane)
  {
    hide SelectLane, SelectBits;
    SelectBitsDecode(lane, data as bv8);
    ByteBits(data);
    assert (SelectBits(lane) as byte) as bv8 == SelectBits(lane);
  }

  lemma SelectBitsDecode(lane: Lane, data: bv8)
    requires data == 1 || data == 2 || data == 4 || data == 8
    requires ValidLane(lane, data as nat)
    ensures SelectLane(SelectBits(lane), data) == Some(lane)
  {
    if lane.size == 8 {
      assert lane.shift == 0;
    } else if lane.size == 4 {
      assert lane.shift == 0 || lane.shift == 4;
    } else if lane.size == 2 {
      assert lane.shift == 0 || lane.shift == 2 || lane.shift == 4 || lane.shift == 6;
    } else {
      assert lane.shift == 0 || lane.shift == 1 || lane.shift == 2 || lane.shift == 3
          || lane.shift == 4 || lane.shift == 5 || lane.shift == 6 || lane.shift == 7;
    }
  }

  lemma SelectAcceptsOnlyLanes(select: byte, data: nat)
    requires IsWidth(data)
    requires DecodeSelect(select, data).Some?
    ensures ValidLane(DecodeSelect(select, data).value, data)
    ensures EncodeSelect(DecodeSelect(select, data).value) == select
  {
    hide SelectLane, SelectBits;
    SelectLaneSound(select as bv8, data as bv8);
    ByteBits(select);
    ByteBits(data);
  }

  lemma ByteBits(b: byte)
    ensures (b as bv8) as byte == b
  {
    NibbleBits(b as nat, b as nat / 16);
  }

  /** The same, sixteen values at a time. */
  lemma NibbleBits(n: nat, h: nat)
    requires h < 16 && 16 * h <= n < 16 * h + 16
    ensures (n as bv8) as nat == n
  {
  }

  lemma SelectLaneSound(select: bv8, data: bv8)
    requires data == 1 || data == 2 || data == 4 || data == 8
    requires SelectLane(select, data).Some?
    ensures ValidLane(SelectLane(select, data).value, data as nat)
    ensures SelectBits(SelectLane(select, data).value) == select
  {
    var shift := Log2(select & (0 - select));
    var width := Log2(((select >> (shift as bv4)) >> 1) + 1) + 1;
    assert width == 1 || width == 2 || width == 4 || width == 8;
    assert shift + width <= data && shift & (width - 1) == 0;
    assert shift == 0 || shift == 1 || shift == 2 || shift == 3
        || shift == 4 || shift == 5 || shift == 6 || shift == 7;
  }
}
