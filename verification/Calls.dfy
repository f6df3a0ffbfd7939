/** The slave called again and again as a stream comes in: the accesses it makes do not depend on how
    the stream is divided into calls. */
module Calls {
  import opened Bytes
  import opened Format
  import opened Slave
  import opened SlaveLoop
  import opened Device

  /** Bus and configuration accesses of one call of the slave on one input. */
  function Accesses(p: Port, bus: Bus, input: seq<byte>): seq<Access> {
    Run(p, bus, IDLE, input).0.x.trace
  }

  /** Those of several calls, the `k`-th of which finds the devices of `buses(k)`. */
  function AccessesOf(p: Port, buses: nat -> Bus, calls: seq<seq<byte>>): seq<Access>
    decreases |calls|
  {
    if calls == [] then []
    else
      var n := |calls| - 1;
      AccessesOf(p, buses, calls[..n]) + Accesses(p, buses(n), calls[n])
  }

  /** A call that has consumed its input leaves nothing behind for the next. */
  ghost predicate Consumed(p: Port, buses: nat -> Bus, calls: seq<seq<byte>>) {
    forall k :: 0 <= k < |calls| ==> Run(p, buses(k), IDLE, calls[k]).1 == []
  }

  lemma SnocCall(p: Port, buses: nat -> Bus, calls: seq<seq<byte>>, last: seq<byte>)
    ensures AccessesOf(p, buses, calls + [last]) == AccessesOf(p, buses, calls) + Accesses(p, buses(|calls|), last)
    ensures Concat(calls + [last]) == Concat(calls) + last
    ensures Consumed(p, buses, calls) && Run(p, buses(|calls|), IDLE, last).1 == [] ==>
              Consumed(p, buses, calls + [last])
  {
    hide Run, Accesses;
    assert (calls + [last])[..|calls|] == calls;
    ConcatSnoc(calls, last);
  }

  /** What comes after bytes that are used up is executed as if it came alone. */
  lemma AccessesAppend(p: Port, bus: Bus, other: Bus, a: seq<byte>, b: seq<byte>)
    requires Run(p, bus, IDLE, a).1 == []
    ensures Accesses(p, bus, a + b) == Accesses(p, bus, a) + Accesses(p, other, b)
    ensures Run(p, bus, IDLE, a + b).1 == Run(p, other, IDLE, b).1
  {
    RunResumes(p, bus, IDLE, a, b);
    hide Run;
    assert [] + b == b;
    var more := SameAccesses(p, bus, other, Run(p, bus, IDLE, a).0, IDLE, b);
    assert IDLE.x.trace + more == more;
  }

  /** However a stream is divided into calls of which all but the last consume their input, and
      whatever devices answer in each, the accesses made are those of a single call on all of it. */
  lemma {:induction false} CallsConcat(p: Port, bus: Bus, buses: nat -> Bus, calls: seq<seq<byte>>)
    requires calls != [] ==> Consumed(p, buses, calls[..|calls| - 1])
    ensures Accesses(p, bus, Concat(calls)) == AccessesOf(p, buses, calls)
    ensures Consumed(p, buses, calls) ==> Run(p, bus, IDLE, Concat(calls)).1 == []
    decreases |calls|
  {
    hide Run, Accesses, Concat, AccessesOf, Consumed;
    if calls == [] {
      NoCalls(p, bus, buses);
    } else {
      var n := |calls| - 1;
      var before, last := calls[..n], calls[n];
      assert calls == before + [last];
      SnocCall(p, buses, before, last);
      ConsumedParts(p, buses, before);
      ConsumedParts(p, buses, calls);
      CallsConcat(p, bus, buses, before);
      AccessesAppend(p, bus, buses(n), Concat(before), last);
    }
  }

  lemma ConsumedParts(p: Port, buses: nat -> Bus, calls: seq<seq<byte>>)
    ensures Consumed(p, buses, calls) && calls != [] ==>
              Consumed(p, buses, calls[..|calls| - 1]) && Run(p, buses(|calls| - 1), IDLE, calls[|calls| - 1]).1 == []
  {
    hide Run;
  }

  lemma NoCalls(p: Port, bus: Bus, buses: nat -> Bus)
    ensures Concat([]) == [] && Run(p, bus, IDLE, []) == (IDLE, []) && Accesses(p, bus, []) == []
    ensures AccessesOf(p, buses, []) == [] && RepliesOf(p, buses, []) == [] && Consumed(p, buses, [])
  {
    assert Parse(p, []) == Short;
  }

  /** Less than two bytes are no record. */
  lemma TooShort(p: Port, bus: Bus, input: seq<byte>)
    requires |input| < 2
    ensures Run(p, bus, IDLE, input) == (IDLE, input)
  {
    assert Parse(p, input) == Short;
  }

  /** Receive one piece at the front of the buffer; nothing is received exactly at the end. */
  method Poll(buf: array<byte>, chunks0: seq<seq<byte>>) returns (len: nat, chunks: seq<seq<byte>>)
    requires buf.Length == BUFFER_SIZE
    modifies buf
    ensures len <= buf.Length && Stream(chunks0) == buf[..len] + Stream(chunks)
    ensures len == 0 ==> Stream(chunks0) == [] && Stream(chunks) == []
  {
    hide Stream;
    var ok;
    ghost var got;
    ok, len, chunks, got := Refill(buf, 0, 0, chunks0);
    if !ok {
      len := 0;
    }
    assert buf[..0] == [] && forall s: seq<byte> :: [] + s == s;
  }

  /** The reply bytes of one call. */
  ghost function ReplyBytes(p: Port, bus: Bus, input: seq<byte>): seq<byte> {
    var replies := Run(p, bus, IDLE, input).0.replies;
    if AllFit(p, replies) then SerializeAll(p, replies) else []
  }

  ghost function RepliesOf(p: Port, buses: nat -> Bus, calls: seq<seq<byte>>): seq<byte>
    decreases |calls|
  {
    if calls == [] then []
    else
      var n := |calls| - 1;
      RepliesOf(p, buses, calls[..n]) + ReplyBytes(p, buses(n), calls[n])
  }

  lemma SnocReply(p: Port, buses: nat -> Bus, calls: seq<seq<byte>>, last: seq<byte>)
    ensures RepliesOf(p, buses, calls + [last]) == RepliesOf(p, buses, calls) + ReplyBytes(p, buses(|calls|), last)
  {
    hide ReplyBytes;
    assert (calls + [last])[..|calls|] == calls;
  }

  /** What one call has executed and sent, and what it has received. */
  lemma OneCall(p: Port, bus: Bus, piece: seq<byte>, rest: seq<seq<byte>>, x: Exec, out: seq<byte>, ok: bool,
                chunks: seq<seq<byte>>, consumed: seq<byte>, head: seq<byte>)
    requires |piece| < 2 ==> !ok && out == [] && x == IDLE.x && chunks == rest
    requires 2 <= |piece| ==>
               && Served(p, bus, true, consumed, x, out, ok, head) && head == []
               && consumed + Stream(chunks) == piece + Stream(rest)
    ensures var input := if |piece| < 2 then piece else consumed;
            && x.trace == Accesses(p, bus, input) && out == ReplyBytes(p, bus, input)
            && input + Stream(chunks) == piece + Stream(rest) && (ok ==> Run(p, bus, IDLE, input).1 == [])
  {
    hide Run, Stream;
    if |piece| < 2 {
      TooShort(p, bus, piece);
    } else {
      assert [] + out == out;
    }
  }

  /** The slave is called as long as there is input and calls succeed. However the stream is cut into
      pieces and calls, and whatever devices answer, the accesses made are exactly those of one call
      on all the bytes received; what is sent is the replies of the calls, in order; and without a
      failure all bytes of the stream are received. */
  method ServeAll(p: Port, bus: Bus, buses: nat -> Bus, buf: array<byte>, chunks0: seq<seq<byte>>)
      returns (trace: seq<Access>, sent: seq<byte>, ok: bool, chunks: seq<seq<byte>>, ghost calls: seq<seq<byte>>)
    requires buf.Length == BUFFER_SIZE
    modifies buf
    ensures Concat(calls) + Stream(chunks) == Stream(chunks0)
    ensures trace == Accesses(p, bus, Concat(calls)) && sent == RepliesOf(p, buses, calls)
    ensures ok ==> Concat(calls) == Stream(chunks0) && Consumed(p, buses, calls)
    ensures ok ==> Run(p, bus, IDLE, Stream(chunks0)).1 == []
  {
    hide Stream, Run, Accesses, Concat, AccessesOf, RepliesOf, ReplyBytes, Consumed, Served;
    var len: nat;
    calls, sent := [], [];
    trace, ok := [], true;
    NoCalls(p, bus, buses);
    len, chunks := Poll(buf, chunks0);
    var n: nat := 0;
    while len > 0 && ok
      invariant buf.Length == BUFFER_SIZE && len <= buf.Length && n == |calls|
      invariant Concat(calls) + Rest(ok, buf[..len], Stream(chunks)) == Stream(chunks0)
      invariant trace == AccessesOf(p, buses, calls) && sent == RepliesOf(p, buses, calls)
      invariant if ok then Consumed(p, buses, calls)
                else calls != [] && Consumed(p, buses, calls[..|calls| - 1])
      invariant ok && len == 0 ==> Stream(chunks) == []
      decreases |Stream(chunks)| + (if ok then len else 0)
    {
      var x, out;
      ghost var piece, rest, consumed, head := buf[..len], chunks, [], [];
      assert buf[0..len] == piece && buf[..0] == [];
      x, out, ok, chunks, consumed, head := ServeMessage(p, buses(n), buf, false, len, true, chunks);
      ghost var input := if len < 2 then piece else consumed;
      OneCall(p, buses(n), piece, rest, x, out, ok, chunks, consumed, head);
      CallAdded(p, buses, calls, input, piece + Stream(rest), Stream(chunks), ok);
      calls := calls + [input];
      trace, sent, n := trace + x.trace, sent + out, n + 1;
      if ok {
        len, chunks := Poll(buf, chunks);
      }
    }
    ConsumedParts(p, buses, calls);
    CallsConcat(p, bus, buses, calls);
  }

  /** What is still to come; after a failure the buffer is not looked at again. */
  function Rest(ok: bool, piece: seq<byte>, stream: seq<byte>): seq<byte> { if ok then piece + stream else stream }

  lemma CallAdded(p: Port, buses: nat -> Bus, calls: seq<seq<byte>>, input: seq<byte>, before: seq<byte>,
                  after: seq<byte>, ok: bool)
    requires Consumed(p, buses, calls) && input + after == before
    requires ok ==> Run(p, buses(|calls|), IDLE, input).1 == []
    ensures var more := calls + [input];
            && Concat(calls) + before == Concat(more) + after && more[..|more| - 1] == calls
            && AccessesOf(p, buses, more) == AccessesOf(p, buses, calls) + Accesses(p, buses(|calls|), input)
            && RepliesOf(p, buses, more) == RepliesOf(p, buses, calls) + ReplyBytes(p, buses(|calls|), input)
            && (ok ==> Consumed(p, buses, more))
  {
    hide *;
    SnocCall(p, buses, calls, input);
    SnocReply(p, buses, calls, input);
    assert Concat(calls) + (input + after) == (Concat(calls) + input) + after;
  }
}
