/** Bytes, big-endian machine words and the 64-bit wrap-around arithmetic the library relies on.
    A machine word is a `nat`; every place where the C code can overflow says so with `Wrap64`. */
module Bytes {

  type byte = x: int | 0 <= x < 256

  const TWO64: nat := 0x1_0000_0000_0000_0000

  function Wrap64(x: nat): (r: nat)
    ensures r < TWO64
    ensures x < TWO64 ==> r == x
  {
    x % TWO64
  }

  /** Stepping a wrapped address is the same as wrapping the stepped address. */
  lemma WrapStep(base: nat, step: nat)
    ensures Wrap64(Wrap64(base) + step) == Wrap64(base + step)
  {
    var q := base / TWO64;
    assert base == q * TWO64 + base % TWO64;
    ModShift(base % TWO64 + step, q);
  }

  lemma ModShift(x: nat, q: nat)
    ensures (x + q * TWO64) % TWO64 == x % TWO64
  {
    DivModUnique(x + q * TWO64, TWO64, x / TWO64 + q, x % TWO64);
  }

  lemma DivModUnique(v: nat, d: nat, q: nat, r: nat)
    requires d > 0 && v == q * d + r && r < d
    ensures v / d == q && v % d == r
  {
    var q0, r0 := v / d, v % d;
    assert v == q0 * d + r0;
    if q0 < q {
      MulStep(q0, q, d);
    } else if q < q0 {
      MulStep(q, q0, d);
    }
  }

  lemma MulStep(a: nat, b: nat, d: nat)
    requires a < b
    ensures a * d + d <= b * d
  {
    MulMono(a + 1, b, d);
  }

  lemma {:induction false} MulMono(a: nat, b: nat, d: nat)
    requires a <= b
    ensures a * d <= b * d
  {
    if a < b {
      MulMono(a, b - 1, d);
      assert b * d == (b - 1) * d + d;
    }
  }

  function Pow256(n: nat): (r: nat)
    ensures r > 0
  {
    if n == 0 then 1 else 256 * Pow256(n - 1)
  }

  lemma {:induction false} Pow256Add(a: nat, b: nat)
    ensures Pow256(a + b) == Pow256(a) * Pow256(b)
  {
    if a > 0 {
      Pow256Add(a - 1, b);
    }
  }

  lemma {:induction false} Pow256Mono(a: nat, b: nat)
    requires a <= b
    ensures Pow256(a) <= Pow256(b)
  {
    if a < b {
      Pow256Mono(a, b - 1);
    }
  }

  lemma Pow256Table()
    ensures Pow256(0) == 1 && Pow256(1) == 0x100 && Pow256(2) == 0x1_0000
    ensures Pow256(4) == 0x1_0000_0000 && Pow256(8) == TWO64
  {
    assert Pow256(2) == 256 * Pow256(1);
    assert Pow256(3) == 256 * Pow256(2);
    assert Pow256(4) == 256 * Pow256(3);
    assert Pow256(5) == 256 * Pow256(4);
    assert Pow256(6) == 256 * Pow256(5);
    assert Pow256(7) == 256 * Pow256(6);
  }

  /** The `k` big-endian bytes of `v`; a value wider than `k` bytes is truncated. */
  function Encode(v: nat, k: nat): (s: seq<byte>)
    ensures |s| == k
  {
    if k == 0 then [] else Encode(v / 256, k - 1) + [v % 256]
  }

  function Decode(s: seq<byte>): nat {
    if s == [] then 0 else Decode(s[..|s| - 1]) * 256 + s[|s| - 1]
  }

  lemma {:induction false} DecodeBound(s: seq<byte>)
    ensures Decode(s) < Pow256(|s|)
  {
    if s != [] {
      DecodeBound(s[..|s| - 1]);
    }
  }

  /** Reading one byte more: a word of at most eight bytes never overflows. */
  lemma NextByte(s: seq<byte>, from: nat, at: nat)
    requires from <= at < |s| && at - from < 8
    ensures Decode(s[from..at + 1]) == Decode(s[from..at]) * 256 + s[at] < TWO64
  {
    assert s[from..at + 1][..at - from] == s[from..at] && s[from..at + 1][at - from] == s[at];
    DecodeBound(s[from..at + 1]);
    Pow256Mono(at + 1 - from, 8);
    Pow256Table();
    hide Pow256;
  }

  lemma SplitMod(v: nat, p: nat)
    requires p > 0
    ensures v % (256 * p) == ((v / 256) % p) * 256 + v % 256
  {
    var q := v / 256;
    var h, r := q / p, q % p;
    assert q == h * p + r;
    assert v == 256 * (h * p + r) + v % 256;
    assert 256 * (h * p + r) == h * (256 * p) + 256 * r;
    DivModUnique(v, 256 * p, h, r * 256 + v % 256);
  }

  /** Loading what was stored gives the value back, reduced to the stored width. */
  lemma {:induction false} DecodeEncode(v: nat, k: nat)
    ensures Decode(Encode(v, k)) == v % Pow256(k)
    ensures v < Pow256(k) ==> Decode(Encode(v, k)) == v
  {
    if k > 0 {
      DecodeEncode(v / 256, k - 1);
      var s := Encode(v, k);
      assert s[..|s| - 1] == Encode(v / 256, k - 1);
      SplitMod(v, Pow256(k - 1));
    }
  }

  lemma {:induction false} EncodeDecode(s: seq<byte>)
    ensures Encode(Decode(s), |s|) == s
  {
    if s != [] {
      EncodeDecode(s[..|s| - 1]);
      assert Decode(s) / 256 == Decode(s[..|s| - 1]);
      assert s == s[..|s| - 1] + [s[|s| - 1]];
    }
  }

  /** The low-order `j` bytes of a `k`-byte word are its last `j` bytes. */
  lemma {:induction false} EncodeSuffix(v: nat, k: nat, j: nat)
    requires j <= k
    ensures Encode(v, k)[k - j..] == Encode(v, j)
  {
    if j > 0 {
      EncodeSuffix(v / 256, k - 1, j - 1);
      var s := Encode(v / 256, k - 1);
      assert (s + [v % 256])[k - j..] == s[k - j..] + [v % 256];
    }
  }

  /** `v << 8*shift` in a 64-bit register. */
  function ShiftUp(v: nat, shift: nat): nat {
    Wrap64(v * Pow256(shift))
  }

  /** `(w >> 8*shift) & mask`, where the mask keeps `size` bytes. */
  function ShiftDown(w: nat, shift: nat, size: nat): (r: nat)
    ensures r < Pow256(size)
  {
    (w / Pow256(shift)) % Pow256(size)
  }

  /** A value of `size` bytes survives being moved to a byte lane and back, and never leaves
      the first `width` bytes when its lane lies inside them. */
  lemma LaneRoundTrip(v: nat, shift: nat, size: nat, width: nat)
    requires v < Pow256(size) && shift + size <= width <= 8
    ensures ShiftUp(v, shift) < Pow256(width)
    ensures ShiftDown(ShiftUp(v, shift), shift, size) == v
  {
    hide Pow256;
    LaneFits(v, shift, size, width);
    var p, q := Pow256(shift), Pow256(size);
    DivModUnique(v * p, p, v, 0);
    DivModUnique(v, q, 0, v);
  }

  lemma LaneFits(v: nat, shift: nat, size: nat, width: nat)
    requires v < Pow256(size) && shift + size <= width <= 8
    ensures v * Pow256(shift) < Pow256(width) <= TWO64
  {
    hide Pow256;
    Pow256Add(size, shift);
    MulStep(v, Pow256(size), Pow256(shift));
    Pow256Mono(size + shift, width);
    Pow256Mono(width, 8);
    Pow256Table();
  }

  /** A slice of a slice, and a slice past a dropped prefix. */
  lemma SliceSlice<T>(s: seq<T>, from: nat, end: nat, at: nat, n: nat)
    requires from <= end <= |s| && from + at + n <= end
    ensures s[from..end][at..at + n] == s[from + at..from + at + n]
  {
    var x, y := s[from..end][at..at + n], s[from + at..from + at + n];
    forall i | 0 <= i < n
      ensures x[i] == y[i]
    {
      assert x[i] == s[from..end][at + i];
    }
  }

  lemma SliceDrop<T>(s: seq<T>, keep: nat, at: nat, n: nat)
    requires keep <= at && at + n <= |s|
    ensures s[keep..][at - keep..at - keep + n] == s[at..at + n]
  {
  }
}
