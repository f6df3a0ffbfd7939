/** The master's side of a reply: a response walks two cursors over its cycle's operations, one
    for read values and one for error bits, and completes when both have reached the end. */
module ReadWrite {
  import opened Widths
  import opened Master

  /** An operation of a cycle in flight: its kind, its value and its error flag. */
  datatype Cell = Cell(write: bool, cfg: bool, value: nat, error: bool)

  /** A response: the cycle's operations, the next read awaiting a value and the next bus
      operation awaiting an error bit. A cursor at `|cells|` has nothing left to wait for. */
  datatype Response = Response(cells: seq<Cell>, wcur: nat, scur: nat)

  function FindBus(cells: seq<Cell>, i: nat): (r: nat)
    requires i <= |cells|
    ensures i <= r <= |cells|
    ensures r < |cells| ==> !cells[r].cfg
    ensures forall m :: i <= m < r ==> cells[m].cfg
    decreases |cells| - i
  {
    if i == |cells| || !cells[i].cfg then i else FindBus(cells, i + 1)
  }

  function FindRead(cells: seq<Cell>, i: nat): (r: nat)
    requires i <= |cells|
    ensures i <= r <= |cells|
    ensures r < |cells| ==> !cells[r].write
    ensures forall m :: i <= m < r ==> cells[m].write
    decreases |cells| - i
  {
    if i == |cells| || !cells[i].write then i else FindRead(cells, i + 1)
  }

  /** Bus operations from `i` on, counted up to `most`. */
  function Group(cells: seq<Cell>, i: nat, most: nat): (n: nat)
    requires i <= |cells|
    ensures n <= most
    decreases |cells| - i
  {
    if i == |cells| || most == 0 then 0
    else if cells[i].cfg then Group(cells, i + 1, most)
    else 1 + Group(cells, i + 1, most - 1)
  }

  function Shifted(value: nat, i: nat): nat
    decreases i
  {
    if i == 0 then value else Shifted(value / 2, i - 1)
  }

  /** Bit `i` of a word. */
  predicate TestBit(value: nat, i: nat) { Shifted(value, i) % 2 == 1 }

  /** Give the next `n` bus operations from `i` their error bits, the oldest one the highest bit;
      also returns where the marking stopped. */
  function Mark(cells: seq<Cell>, i: nat, n: nat, value: nat): (r: (seq<Cell>, nat))
    requires i <= |cells| && Group(cells, i, n) == n
    ensures |r.0| == |cells| && i <= r.1 <= |cells|
    decreases |cells| - i
  {
    if n == 0 then (cells, i)
    else if cells[i].cfg then Mark(cells, i + 1, n, value)
    else
      var marked := cells[i := cells[i].(error := cells[i].error || TestBit(value, n - 1))];
      GroupOfSame(cells, marked, i + 1, n - 1);
      Mark(marked, i + 1, n - 1, value)
  }

  /** Same operations, possibly different values and error flags. */
  predicate SameOps(a: seq<Cell>, b: seq<Cell>) {
    |a| == |b| && forall m :: 0 <= m < |a| ==> a[m].write == b[m].write && a[m].cfg == b[m].cfg
  }

  lemma {:induction false} GroupOfSame(a: seq<Cell>, b: seq<Cell>, i: nat, most: nat)
    requires SameOps(a, b) && i <= |a|
    ensures Group(a, i, most) == Group(b, i, most)
    decreases |a| - i
  {
    if i < |a| && most > 0 {
      GroupOfSame(a, b, i + 1, if a[i].cfg then most else most - 1);
    }
  }

  lemma {:induction false} GroupSaturates(cells: seq<Cell>, i: nat, most: nat)
    requires i <= |cells|
    ensures Group(cells, i, Group(cells, i, most)) == Group(cells, i, most)
    decreases |cells| - i
  {
    if i < |cells| && most > 0 {
      GroupSaturates(cells, i + 1, if cells[i].cfg then most else most - 1);
    }
  }

  function HasError(cells: seq<Cell>): bool {
    exists m :: 0 <= m < |cells| && cells[m].error
  }

  /** What a write-back does to the response: either it goes on waiting, or the cycle's callback
      is due with this status. */
  datatype Step = Step(r: Response, done: Option<Status>)

  function Complete(r: Response, fail: bool): Step {
    Step(r,
         if fail then Some(Fail)
         else if r.wcur == |r.cells| && r.scur == |r.cells| then Some(if HasError(r.cells) then Segfault else Ok)
         else None)
  }

  predicate Cursors(r: Response) { r.wcur <= |r.cells| && r.scur <= |r.cells| }

  /** A read value arrives. */
  function ApplyValue(r: Response, value: nat): Step
    requires Cursors(r)
  {
    if r.wcur == |r.cells| then Complete(r, true)
    else
      var cells := r.cells[r.wcur := r.cells[r.wcur].(value := value)];
      Complete(Response(cells, FindRead(cells, r.wcur + 1), r.scur), false)
  }

  /** A word of error bits arrives from a port `data` bytes wide. */
  function ApplyStatus(r: Response, data: nat, value: nat): Step
    requires Cursors(r)
  {
    var n := Group(r.cells, r.scur, 8 * data);
    GroupSaturates(r.cells, r.scur, 8 * data);
    var (cells, stop) := Mark(r.cells, r.scur, n, value);
    Complete(Response(cells, r.wcur, FindBus(cells, stop)), n == 0)
  }

  /** A write-back to an even address is a value, to an odd one a status word. */
  function Apply(r: Response, size: nat, addr: nat, value: nat): Step
    requires Cursors(r)
  {
    if addr % 2 == 0 then ApplyValue(r, value) else ApplyStatus(r, size, value)
  }

  lemma ApplyKeepsOps(r: Response, size: nat, addr: nat, value: nat)
    requires Cursors(r)
    ensures SameOps(Apply(r, size, addr, value).r.cells, r.cells)
    ensures Cursors(Apply(r, size, addr, value).r)
  {
    if addr % 2 == 1 {
      var n := Group(r.cells, r.scur, 8 * size);
      GroupSaturates(r.cells, r.scur, 8 * size);
      MarkKeepsOps(r.cells, r.scur, n, value);
    }
  }

  lemma {:induction false} MarkKeepsOps(cells: seq<Cell>, i: nat, n: nat, value: nat)
    requires i <= |cells| && Group(cells, i, n) == n
    ensures SameOps(Mark(cells, i, n, value).0, cells)
    decreases |cells| - i
  {
    if n > 0 {
      if cells[i].cfg {
        MarkKeepsOps(cells, i + 1, n, value);
      } else {
        var marked := cells[i := cells[i].(error := cells[i].error || TestBit(value, n - 1))];
        GroupOfSame(cells, marked, i + 1, n - 1);
        MarkKeepsOps(marked, i + 1, n - 1, value);
      }
    }
  }

  /* ---------- counting bus operations ---------- */

  /** Bus operations in `cells[a..b]`. */
  function Count(cells: seq<Cell>, a: nat, b: nat): (n: nat)
    requires a <= b <= |cells|
    ensures n <= b - a
    decreases b - a
  {
    if a == b then 0 else Count(cells, a, b - 1) + if cells[b - 1].cfg then 0 else 1
  }

  lemma {:induction false} CountSplit(cells: seq<Cell>, a: nat, m: nat, b: nat)
    requires a <= m <= b <= |cells|
    ensures Count(cells, a, b) == Count(cells, a, m) + Count(cells, m, b)
    decreases b - m
  {
    if m < b {
      CountSplit(cells, a, m, b - 1);
    }
  }

  lemma CountFirst(cells: seq<Cell>, a: nat, b: nat)
    requires a < b <= |cells|
    ensures Count(cells, a, b) == (if cells[a].cfg then 0 else 1) + Count(cells, a + 1, b)
  {
    CountSplit(cells, a, a + 1, b);
    assert Count(cells, a, a) == 0;
  }

  lemma {:induction false} CountOfSame(x: seq<Cell>, y: seq<Cell>, a: nat, b: nat)
    requires SameOps(x, y) && a <= b <= |x|
    ensures Count(x, a, b) == Count(y, a, b)
    decreases b - a
  {
    if a < b {
      CountOfSame(x, y, a, b - 1);
    }
  }

  /** A group read from `a` is the bus operations of `[a, b)`, if they fill it or end the list. */
  lemma {:induction false} GroupIsCount(cells: seq<Cell>, a: nat, b: nat, most: nat)
    requires a <= b <= |cells|
    requires Count(cells, a, b) == most || (b == |cells| && Count(cells, a, b) <= most)
    ensures Group(cells, a, most) == Count(cells, a, b)
    decreases b - a
  {
    if a < b {
      CountFirst(cells, a, b);
      if most > 0 {
        GroupIsCount(cells, a + 1, b, if cells[a].cfg then most else most - 1);
      }
    }
  }

  /** Exactly the bus operations of `[a, b)` are marked, each with the bit that counts the bus
      operations after it, and what is left between the last of them and `b` is configuration. */
  lemma {:induction false} MarkSpec(cells: seq<Cell>, a: nat, b: nat, n: nat, value: nat)
    requires a <= b <= |cells| && Count(cells, a, b) == n && Group(cells, a, n) == n
    ensures var (marked, stop) := Mark(cells, a, n, value);
            && a <= stop <= b && Count(cells, stop, b) == 0
            && |marked| == |cells|
            && (forall m :: 0 <= m < |cells| ==>
                  marked[m] == cells[m].(error := cells[m].error
                    || (a <= m < b && !cells[m].cfg && TestBit(value, Count(cells, m + 1, b)))))
    decreases b - a
  {
    if n == 0 {
      NoBusInEmptyCount(cells, a, b);
    } else {
      CountFirst(cells, a, b);
      if cells[a].cfg {
        MarkSpec(cells, a + 1, b, n, value);
      } else {
        var next := cells[a := cells[a].(error := cells[a].error || TestBit(value, n - 1))];
        GroupOfSame(cells, next, a + 1, n - 1);
        CountOfSame(cells, next, a + 1, b);
        MarkSpec(next, a + 1, b, n - 1, value);
        var (marked, stop) := Mark(next, a + 1, n - 1, value);
        CountOfSame(cells, next, stop, b);
        MarkedHere(cells, next, marked, a, b, n, value);
      }
    }
  }

  /** One marked operation more. */
  lemma MarkedHere(cells: seq<Cell>, next: seq<Cell>, marked: seq<Cell>, a: nat, b: nat, n: nat, value: nat)
    requires a < b <= |cells| == |marked| && !cells[a].cfg && 0 < n && Count(cells, a + 1, b) == n - 1
    requires next == cells[a := cells[a].(error := cells[a].error || TestBit(value, n - 1))] && SameOps(cells, next)
    requires forall m :: 0 <= m < |cells| ==>
               marked[m] == next[m].(error := next[m].error
                 || (a + 1 <= m < b && !next[m].cfg && TestBit(value, Count(next, m + 1, b))))
    ensures forall m :: 0 <= m < |cells| ==>
              marked[m] == cells[m].(error := cells[m].error
                || (a <= m < b && !cells[m].cfg && TestBit(value, Count(cells, m + 1, b))))
  {
    hide TestBit, Count;
    forall m | 0 <= m < |cells|
      ensures marked[m] == cells[m].(error := cells[m].error
                || (a <= m < b && !cells[m].cfg && TestBit(value, Count(cells, m + 1, b))))
    {
      if m + 1 <= b {
        CountOfSame(cells, next, m + 1, b);
      }
    }
  }

  lemma {:induction false} NoBusInEmptyCount(cells: seq<Cell>, a: nat, b: nat)
    requires a <= b <= |cells| && Count(cells, a, b) == 0
    ensures forall m :: a <= m < b ==> cells[m].cfg
    decreases b - a
  {
    if a < b {
      NoBusInEmptyCount(cells, a, b - 1);
    }
  }

  /** Finding the next bus operation skips over configuration operations. */
  lemma {:induction false} FindBusSkips(cells: seq<Cell>, a: nat, b: nat)
    requires a <= b <= |cells| && forall m :: a <= m < b ==> cells[m].cfg
    ensures FindBus(cells, a) == FindBus(cells, b)
    decreases b - a
  {
    if a < b {
      FindBusSkips(cells, a + 1, b);
    }
  }
}
