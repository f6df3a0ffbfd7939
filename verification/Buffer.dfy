/** Words and record headers in a byte buffer. */
module Buffer {
  import opened Bytes
  import opened Format

  method StoreWord(buf: array<byte>, at: nat, value: nat, k: nat)
    requires at + k <= buf.Length
    modifies buf
    ensures buf[..at + k] == old(buf[..at]) + Encode(value, k)
    ensures buf[at + k..] == old(buf[at + k..])
  {
    ghost var before := buf[..];
    var v, j := value, k;
    while j > 0
      invariant 0 <= j <= k
      invariant buf[..at + j] == before[..at + j] && buf[at + k..] == before[at + k..]
      invariant Encode(value, k) == Encode(v, j) + buf[at + j..at + k]
    {
      j := j - 1;
      ghost var tail := buf[at + j + 1..at + k];
      buf[at + j] := v % 256;
      assert buf[at + j..at + k] == [v % 256] + tail;
      assert Encode(v, j + 1) == Encode(v / 256, j) + [v % 256];
      v := v / 256;
    }
    assert buf[..at + k] == buf[..at] + buf[at..at + k];
  }

  method LoadWord(buf: array<byte>, at: nat, k: Stride) returns (w: nat)
    requires at + k <= buf.Length
    ensures w == Load(buf[..], at, k)
  {
    w := 0;
    var j := 0;
    while j < k
      invariant 0 <= j <= k
      invariant w == Decode(buf[at..at + j])
    {
      assert buf[at..at + j + 1][..j] == buf[at..at + j];
      w := w * 256 + buf[at + j];
      j := j + 1;
    }
    assert buf[..][at..at + k] == buf[at..at + k];
  }

  /** Zero the header, then write its four bytes. */
  method StoreHeader(p: Port, buf: array<byte>, at: nat, flags: byte, select: byte, wcount: byte, rcount: byte)
    requires at + HeadAlign(p) <= buf.Length
    modifies buf
    ensures buf[..at + HeadAlign(p)] == old(buf[..at]) + ([flags, select, wcount, rcount] + Zeros(HeadAlign(p) - 4))
    ensures buf[at + HeadAlign(p)..] == old(buf[at + HeadAlign(p)..])
  {
    var h := HeadAlign(p);
    ghost var before := buf[..];
    forall i | at <= i < at + h {
      buf[i] := 0;
    }
    buf[at], buf[at + 1], buf[at + 2], buf[at + 3] := flags, select, wcount, rcount;
    ghost var after, want := buf[at..at + h], [flags, select, wcount, rcount] + Zeros(h - 4);
    assert |after| == |want| && forall i :: 0 <= i < h ==> after[i] == want[i];
    assert after == want;
    assert buf[..at] == before[..at];
    SplitAt(buf[..], at, h);
    assert buf[..][..at + h] == buf[..at + h] && buf[..][..at] == buf[..at] && buf[..][at..at + h] == after;
    assert buf[at + h..] == before[at + h..];
  }

  lemma SplitAt(s: seq<byte>, at: nat, n: nat)
    requires at + n <= |s|
    ensures s[..at + n] == s[..at] + s[at..at + n]
  {
  }

  lemma WordsOne(w: nat, k: Stride)
    ensures Words([w], k) == Encode(w, k)
  {
    assert [w][1..] == [];
  }

  lemma WordsSnoc(ws: seq<nat>, w: nat, k: Stride)
    ensures Words(ws + [w], k) == Words(ws, k) + Encode(w, k)
  {
    WordsConcat(ws, [w], k);
    WordsOne(w, k);
  }

  lemma SameTail(a: seq<byte>, b: seq<byte>, from: nat, to: nat)
    requires |a| == |b| && from <= to <= |a| && a[from..] == b[from..]
    ensures a[to..] == b[to..]
  {
    assert a[to..] == a[from..][to - from..] && b[to..] == b[from..][to - from..];
  }
}
