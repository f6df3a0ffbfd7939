/** Responses in pool memory, chained into lists by index. */
module Links {
  import opened Lists
  import opened Flush
  import opened Replies

  /** A response in pool memory: the link to the next one and what is in flight. */
  datatype Slot = Slot(next: nat, entry: InFlight)

  /** The list that starts at index `head` has exactly these indices, in this order. */
  predicate IsList(mem: seq<Slot>, head: nat, s: seq<nat>) {
    && |mem| <= NULL && head == At(s, 0)
    && forall i :: 0 <= i < |s| ==> s[i] < |mem| && mem[s[i]].next == At(s, i + 1)
  }

  /** Only links of the given indices differ. */
  predicate OnlyLinks(a: seq<Slot>, b: seq<Slot>, s: seq<nat>) {
    |a| == |b| && forall i :: 0 <= i < |a| ==> b[i] == a[i].(next := b[i].next) && (i !in s ==> b[i] == a[i])
  }

  lemma ListTail(mem: seq<Slot>, s: seq<nat>)
    requires s != [] && IsList(mem, s[0], s)
    ensures IsList(mem, mem[s[0]].next, s[1..])
  {
    forall i | 0 <= i < |s[1..]|
      ensures s[1..][i] < |mem| && mem[s[1..][i]].next == At(s[1..], i + 1)
    {
      assert s[1..][i] == s[i + 1];
    }
  }

  /** Writing links outside a list leaves it alone. */
  lemma ListFrame(a: seq<Slot>, b: seq<Slot>, head: nat, s: seq<nat>)
    requires IsList(a, head, s) && |a| == |b|
    requires forall i :: 0 <= i < |s| ==> b[s[i]].next == a[s[i]].next
    ensures IsList(b, head, s)
  {
  }

  lemma ListPush(a: seq<Slot>, b: seq<Slot>, x: nat, s: seq<nat>)
    requires IsList(a, At(s, 0), s) && x < |a| && x !in s
    requires b == a[x := a[x].(next := At(s, 0))]
    ensures IsList(b, x, [x] + s)
  {
    var t := [x] + s;
    forall i | 0 <= i < |t|
      ensures t[i] < |b| && b[t[i]].next == At(t, i + 1)
    {
      if i > 0 {
        assert t[i] == s[i - 1] && s[i - 1] != x;
      }
    }
  }

  /** Linking the end of one list to the start of another. */
  lemma ListJoin(a: seq<Slot>, b: seq<Slot>, s: seq<nat>, t: seq<nat>)
    requires s != [] && Distinct(s + t) && IsList(a, At(s, 0), s) && IsList(a, At(t, 0), t)
    requires b == a[s[|s| - 1] := a[s[|s| - 1]].(next := At(t, 0))]
    ensures IsList(b, s[0], s + t)
  {
    var u, e := s + t, s[|s| - 1];
    DistinctConcat(s, t);
    forall i | 0 <= i < |u|
      ensures u[i] < |b| && b[u[i]].next == At(u, i + 1)
    {
      if i < |s| - 1 {
        assert u[i] == s[i] != e;
      } else if i >= |s| {
        assert u[i] == t[i - |s|] && e in s;
      }
    }
  }

  /** Unlinking the element at position `k > 0`. */
  lemma ListUnlink(a: seq<Slot>, b: seq<Slot>, s: seq<nat>, k: nat)
    requires 0 < k < |s| && Distinct(s) && IsList(a, s[0], s)
    requires b == a[s[k - 1] := a[s[k - 1]].(next := a[s[k]].next)]
    ensures IsList(b, s[0], s[..k] + s[k + 1..])
  {
    var u := s[..k] + s[k + 1..];
    forall i | 0 <= i < |u|
      ensures u[i] < |b| && b[u[i]].next == At(u, i + 1)
    {
      if i >= k {
        assert u[i] == s[i + 1] != s[k - 1];
      }
    }
  }

  lemma DistinctConcat(a: seq<nat>, b: seq<nat>)
    ensures Distinct(a + b) <==> Distinct(a) && Distinct(b) && (forall x :: x in a ==> x !in b)
  {
    var c := a + b;
    if Distinct(c) {
      forall i, j | 0 <= i < j < |a| ensures a[i] != a[j] { assert c[i] != c[j]; }
      forall i, j | 0 <= i < j < |b| ensures b[i] != b[j] { assert c[|a| + i] != c[|a| + j]; }
      forall i, j | 0 <= i < |a| && 0 <= j < |b| ensures a[i] != b[j] { assert c[i] != c[|a| + j]; }
    }
    if Distinct(a) && Distinct(b) && (forall x :: x in a ==> x !in b) {
      forall i, j | 0 <= i < j < |c| ensures c[i] != c[j] {
        if i < |a| <= j {
          assert c[i] in a && c[j] in b;
        }
      }
    }
  }

  lemma {:induction false} DistinctReverse(s: seq<nat>)
    ensures Distinct(Reverse(s)) <==> Distinct(s)
  {
    if s != [] {
      DistinctReverse(s[1..]);
      DistinctConcat(Reverse(s[1..]), [s[0]]);
      DistinctConcat([s[0]], s[1..]);
      ReverseMembers(s[1..]);
      assert s == [s[0]] + s[1..];
    }
  }

  /* ---------- taking a list apart ---------- */

  ghost predicate NoDup(s: seq<nat>) {
    forall x :: multiset(s)[x] <= 1
  }

  lemma {:induction false} NoDupIsDistinct(s: seq<nat>)
    ensures NoDup(s) <==> Distinct(s)
  {
    if s != [] {
      var tail := s[1..];
      assert s == [s[0]] + tail;
      assert multiset(s) == multiset([s[0]]) + multiset(tail);
      NoDupIsDistinct(tail);
      DistinctConcat([s[0]], tail);
      if NoDup(s) {
        forall x ensures multiset(tail)[x] <= 1 { assert multiset(s)[x] <= 1; }
        assert multiset(s)[s[0]] <= 1;
      }
      if Distinct(s) {
        forall x ensures multiset(s)[x] <= 1 {
          assert multiset(tail)[x] <= 1;
          assert s[0] !in tail;
        }
      }
    }
  }

  /** Three lists that share no slot. */
  ghost predicate Disjoint(mem: seq<Slot>, head: nat, rest: seq<nat>, xHead: nat, x: seq<nat>, yHead: nat,
                           y: seq<nat>) {
    IsList(mem, head, rest) && IsList(mem, xHead, x) && IsList(mem, yHead, y) && NoDup(rest + x + y)
  }

  lemma DisjointSwap(mem: seq<Slot>, head: nat, rest: seq<nat>, xHead: nat, x: seq<nat>, yHead: nat, y: seq<nat>)
    requires Disjoint(mem, head, rest, xHead, x, yHead, y)
    ensures Disjoint(mem, head, rest, yHead, y, xHead, x)
  {
    hide IsList;
    assert multiset(rest + y + x) == multiset(rest + x + y);
  }

  lemma DisjointMembers(x: nat, rest: seq<nat>, g: seq<nat>, b: seq<nat>)
    requires NoDup([x] + rest + g + b)
    ensures x !in rest && x !in g && x !in b && NoDup(rest + ([x] + g) + b)
  {
    var one: seq<nat> := [x];
    var all: seq<nat>, moved: seq<nat> := one + rest + g + b, rest + (one + g) + b;
    assert multiset(all) == multiset(one) + multiset(rest) + multiset(g) + multiset(b);
    assert multiset(moved) == multiset(all);
    var m: multiset<nat> := multiset(all);
    assert m[x] <= 1;
  }

  /** Moving the first slot of one list to the front of another. */
  lemma DisjointStep(a: seq<Slot>, b: seq<Slot>, head: nat, rest: seq<nat>, xHead: nat, x: seq<nat>, yHead: nat,
                     y: seq<nat>)
    requires Disjoint(a, head, rest, xHead, x, yHead, y) && rest != []
    requires head < |a| && b == a[head := a[head].(next := xHead)]
    ensures head == rest[0]
    ensures Disjoint(b, a[head].next, rest[1..], head, [head] + x, yHead, y)
  {
    assert head == rest[0] && xHead == At(x, 0);
    assert rest == [head] + rest[1..];
    DisjointMembers(head, rest[1..], x, y);
    ListTail(a, rest);
    ListPush(a, b, head, x);
    ListFrame(a, b, a[head].next, rest[1..]);
    ListFrame(a, b, yHead, y);
  }

  lemma DisjointStart(mem: seq<Slot>, head: nat, s: seq<nat>)
    requires IsList(mem, head, s) && Distinct(s)
    ensures Disjoint(mem, head, s, NULL, [], NULL, [])
  {
    NoDupIsDistinct(s);
    assert s + [] + [] == s;
  }

  lemma DisjointEnd(mem: seq<Slot>, rest: seq<nat>, xHead: nat, x: seq<nat>, yHead: nat, y: seq<nat>)
    requires Disjoint(mem, NULL, rest, xHead, x, yHead, y)
    ensures rest == [] && IsList(mem, xHead, x) && IsList(mem, yHead, y) && Distinct(x + y)
  {
    hide IsList, NoDup, Distinct;
    EmptyHead(mem, rest);
    assert rest + x + y == x + y;
    NoDupIsDistinct(x + y);
  }

  lemma DisjointHead(mem: seq<Slot>, head: nat, rest: seq<nat>, xHead: nat, x: seq<nat>, yHead: nat, y: seq<nat>)
    requires Disjoint(mem, head, rest, xHead, x, yHead, y) && head != NULL
    ensures rest != [] && head == rest[0] && head < |mem|
  {
  }

  lemma LinkWritten(a: seq<Slot>, b: seq<Slot>, c: seq<Slot>, s: seq<nat>, x: nat, next: nat)
    requires OnlyLinks(a, b, s) && x in s && x < |b| && c == b[x := b[x].(next := next)]
    ensures OnlyLinks(a, c, s)
  {
  }

  /** Reverse a list in place. */
  method Flip(mem: array<Slot>, head: nat, ghost s: seq<nat>) returns (flipped: nat)
    requires IsList(mem[..], head, s) && Distinct(s)
    modifies mem
    ensures IsList(mem[..], flipped, Reverse(s))
    ensures OnlyLinks(old(mem[..]), mem[..], s)
  {
    hide IsList, Distinct, NoDup, OnlyLinks, Disjoint;
    ghost var before := mem[..];
    var responsep := head;
    flipped := NULL;
    ghost var done: seq<nat>, rest := [], s;
    assert Reverse(rest) + done == Reverse(s);
    DisjointStart(before, head, s);
    LinksRefl(before, s);
    while responsep != NULL
      invariant Reverse(rest) + done == Reverse(s) && (forall x :: x in rest ==> x in s)
      invariant Disjoint(mem[..], responsep, rest, flipped, done, NULL, [])
      invariant OnlyLinks(before, mem[..], s)
      decreases |rest|
    {
      ghost var a := mem[..];
      DisjointHead(a, responsep, rest, flipped, done, NULL, []);
      var next := mem[responsep].next;
      mem[responsep] := mem[responsep].(next := flipped);
      DisjointStep(a, mem[..], responsep, rest, flipped, done, NULL, []);
      LinkWritten(before, a, mem[..], s, responsep, flipped);
      assert Reverse(rest) + done == Reverse(rest[1..]) + ([rest[0]] + done);
      flipped, responsep := responsep, next;
      done, rest := [rest[0]] + done, rest[1..];
    }
    DisjointEnd(mem[..], rest, flipped, done, NULL, []);
    assert Reverse(rest) + done == done;
  }

  /** No response among the first `k` is at `target`. */
  predicate NoneBefore(mem: seq<Slot>, s: seq<nat>, k: nat, target: nat) {
    k <= |s| && forall j :: 0 <= j < k ==> s[j] < |mem| && mem[s[j]].entry.rba != target
  }

  lemma NoneBeforeKept(a: seq<Slot>, b: seq<Slot>, links: seq<nat>, s: seq<nat>, k: nat, target: nat)
    requires OnlyLinks(a, b, links) && k <= |s| && NoneBefore(a, s[..k], k, target)
    ensures NoneBefore(b, s, k, target)
  {
    forall j | 0 <= j < k
      ensures s[j] < |b| && b[s[j]].entry.rba != target
    {
      assert s[..k][j] == s[j];
      assert b[s[j]] == a[s[j]].(next := b[s[j]].next);
    }
  }

  lemma ListHead(mem: seq<Slot>, head: nat, s: seq<nat>)
    requires IsList(mem, head, s)
    ensures head == At(s, 0)
  {
  }

  lemma ListNth(mem: seq<Slot>, head: nat, s: seq<nat>, k: nat)
    requires IsList(mem, head, s) && k < |s|
    ensures s[k] < |mem| <= NULL && mem[s[k]].next == At(s, k + 1)
  {
  }

  lemma WalkEnd(mem: seq<Slot>, head: nat, s: seq<nat>, k: nat)
    requires IsList(mem, head, s) && k <= |s| && At(s, k) == NULL
    ensures k == |s| && s[..k] == s
  {
    if k < |s| {
      ListNth(mem, head, s, k);
    }
  }

  lemma EmptyHead(mem: seq<Slot>, s: seq<nat>)
    requires IsList(mem, NULL, s)
    ensures s == []
  {
    if s != [] {
      ListNth(mem, NULL, s, 0);
    }
  }

  lemma NonEmptyHead(mem: seq<Slot>, head: nat, s: seq<nat>)
    requires IsList(mem, head, s) && head != NULL
    ensures s != []
  {
  }

  lemma NoReverse(s: seq<nat>)
    ensures s + Reverse([]) == s
  {
  }

  lemma LinksRefl(a: seq<Slot>, s: seq<nat>)
    ensures OnlyLinks(a, a, s)
  {
  }

  lemma LinksTrans(a: seq<Slot>, b: seq<Slot>, c: seq<Slot>, s: seq<nat>)
    requires OnlyLinks(a, b, s) && OnlyLinks(b, c, s)
    ensures OnlyLinks(a, c, s)
  {
  }

  lemma UnlinkFirst(mem: seq<Slot>, s: seq<nat>)
    requires s != [] && IsList(mem, s[0], s)
    ensures IsList(mem, mem[s[0]].next, s[..0] + s[1..])
  {
    ListTail(mem, s);
    assert s[..0] + s[1..] == s[1..];
  }

  lemma UnlinkLater(a: seq<Slot>, b: seq<Slot>, s: seq<nat>, t: seq<nat>, tHead: nat, k: nat)
    requires 0 < k < |s| && Distinct(s + t) && IsList(a, s[0], s) && IsList(a, tHead, t)
    requires b == a[s[k - 1] := a[s[k - 1]].(next := a[s[k]].next)]
    ensures IsList(b, s[0], s[..k] + s[k + 1..]) && IsList(b, tHead, t)
    ensures OnlyLinks(a, b, s + Reverse(t))
  {
    DistinctConcat(s, t);
    ListUnlink(a, b, s, k);
    assert s[k - 1] in s;
    ListFrame(a, b, tHead, t);
    assert s[k - 1] in s + Reverse(t);
  }

  lemma Removed(a: seq<nat>, b: seq<nat>, k: nat)
    requires k < |a| && Distinct(a + b)
    ensures Distinct(a[..k] + a[k + 1..] + b)
    ensures a[..k] + a[k + 1..] + Reverse(b) == (a + Reverse(b))[..k] + (a + Reverse(b))[k + 1..]
  {
    var c, d := a + b, a[..k] + a[k + 1..] + b;
    forall i, j | 0 <= i < j < |d|
      ensures d[i] != d[j]
    {
      var i1, j1 := if i < k then i else i + 1, if j < k then j else j + 1;
      assert d[i] == c[i1] && d[j] == c[j1];
    }
  }

  /* ---------- the contents of a list ---------- */

  predicate InMem(mem: seq<Slot>, s: seq<nat>) { forall x :: x in s ==> x < |mem| }

  /** What a list of slots holds. */
  function Entries(mem: seq<Slot>, s: seq<nat>): (q: seq<InFlight>)
    requires InMem(mem, s)
    ensures |q| == |s| && forall j :: 0 <= j < |s| ==> s[j] < |mem| && q[j] == mem[s[j]].entry
  {
    assert forall j :: 0 <= j < |s| ==> s[j] in s;
    seq(|s|, j requires 0 <= j < |s| => mem[s[j]].entry)
  }

  lemma ListInMem(mem: seq<Slot>, head: nat, s: seq<nat>)
    requires IsList(mem, head, s)
    ensures InMem(mem, s)
  {
  }

  lemma FifoInMem(mem: seq<Slot>, a: seq<nat>, b: seq<nat>)
    ensures InMem(mem, a + Reverse(b)) <==> InMem(mem, a) && InMem(mem, b)
  {
    ReverseMembers(b);
    assert forall x :: x in a + Reverse(b) <==> x in a || x in b;
  }

  lemma LinksKeepEntries(a: seq<Slot>, b: seq<Slot>, links: seq<nat>, s: seq<nat>)
    requires OnlyLinks(a, b, links) && InMem(a, s)
    ensures InMem(b, s) && Entries(b, s) == Entries(a, s)
  {
    forall j | 0 <= j < |s|
      ensures s[j] < |a| && b[s[j]].entry == a[s[j]].entry
    {
      assert s[j] in s;
      assert b[s[j]] == a[s[j]].(next := b[s[j]].next);
    }
  }

  lemma EntriesRemoved(mem: seq<Slot>, s: seq<nat>, k: nat)
    requires k < |s| && InMem(mem, s)
    ensures InMem(mem, s[..k] + s[k + 1..])
    ensures Entries(mem, s[..k] + s[k + 1..]) == Entries(mem, s)[..k] + Entries(mem, s)[k + 1..]
  {
    var t := s[..k] + s[k + 1..];
    assert InMem(mem, t) by { assert forall x :: x in t ==> x in s; }
  }

  lemma EntriesUpdated(a: seq<Slot>, b: seq<Slot>, s: seq<nat>, k: nat)
    requires k < |s| && InMem(a, s) && Distinct(s) && |b| == |a|
    requires s[k] < |a| && b == a[s[k] := b[s[k]]]
    ensures InMem(b, s) && Entries(b, s) == Entries(a, s)[k := b[s[k]].entry]
  {
  }

  lemma EntriesSplit(mem: seq<Slot>, s: seq<nat>, n: nat)
    requires InMem(mem, s) && n <= |s|
    ensures InMem(mem, s[..n]) && InMem(mem, s[n..])
    ensures Entries(mem, s[..n]) == Entries(mem, s)[..n] && Entries(mem, s[n..]) == Entries(mem, s)[n..]
  {
    assert forall x :: x in s[..n] ==> x in s;
    assert forall x :: x in s[n..] ==> x in s;
  }

  /** Slots that are not in the list are as they were. */
  predicate Outside(a: seq<Slot>, b: seq<Slot>, s: seq<nat>) {
    |a| == |b| && forall i :: 0 <= i < |a| && i !in s ==> b[i] == a[i]
  }

  lemma LinksOutside(a: seq<Slot>, b: seq<Slot>, s: seq<nat>)
    requires OnlyLinks(a, b, s)
    ensures Outside(a, b, s)
  {
  }

  lemma FoundAt(mem: seq<Slot>, firsts: seq<nat>, s: seq<nat>, k: nat, target: nat)
    requires firsts <= s && InMem(mem, s) && NoneBefore(mem, firsts, k, target)
    requires k < |firsts| && firsts[k] < |mem| && mem[firsts[k]].entry.rba == target
    ensures Find(Entries(mem, s), target) == k
  {
    FindIs(Entries(mem, s), target, k);
  }

  lemma NotFound(mem: seq<Slot>, s: seq<nat>, target: nat)
    requires InMem(mem, s) && NoneBefore(mem, s, |s|, target)
    ensures Find(Entries(mem, s), target) == |s|
  {
    FindIs(Entries(mem, s), target, |s|);
  }

  lemma AllFirst(a: seq<nat>, b: seq<nat>)
    ensures b == [] ==> a + Reverse(b) == a
  {
  }

  lemma EntryAt(mem: seq<Slot>, s: seq<nat>, k: nat)
    requires InMem(mem, s) && k < |s|
    ensures s[k] < |mem| && Entries(mem, s)[k] == mem[s[k]].entry && mem[s[k]].entry in Entries(mem, s)
  {
    var q := Entries(mem, s);
    assert s[k] in s && q[k] == mem[s[k]].entry && q[k] in q;
  }

  lemma OutsideTrans(a: seq<Slot>, b: seq<Slot>, c: seq<Slot>, s: seq<nat>)
    requires Outside(a, b, s) && Outside(b, c, s)
    ensures Outside(a, c, s)
  {
  }

  lemma Issued(a: seq<Slot>, b: seq<Slot>, r: nat, head: nat, tHead: nat, s: seq<nat>, t: seq<nat>)
    requires IsList(a, head, s) && IsList(a, tHead, t) && Distinct(s + t) && r !in s + Reverse(t)
    requires r < |a| && |b| == |a| && b == a[r := b[r]] && b[r].next == tHead
    ensures IsList(b, head, s) && IsList(b, r, [r] + t) && Distinct(s + ([r] + t))
    ensures s + Reverse([r] + t) == (s + Reverse(t)) + [r]
  {
    ReverseMembers(t);
    DistinctConcat(s, t);
    ListFrame(a, b, head, s);
    ListFrame(a, b, tHead, t);
    ListPush(b, b, r, t);
    DistinctConcat([r], t);
    DistinctConcat(s, [r] + t);
    assert ([r] + t)[1..] == t;
  }

  lemma EntriesAdded(a: seq<Slot>, b: seq<Slot>, s: seq<nat>, r: nat)
    requires InMem(a, s) && r !in s && r < |a| && |b| == |a| && b == a[r := b[r]]
    ensures InMem(b, s + [r]) && Entries(b, s + [r]) == Entries(a, s) + [b[r].entry]
  {
    var t := s + [r];
    forall j | 0 <= j < |t|
      ensures t[j] < |b|
    {
      if j < |s| {
        assert t[j] == s[j] && s[j] in s;
      }
    }
    forall j | 0 <= j < |s|
      ensures b[t[j]] == a[s[j]]
    {
      assert t[j] == s[j] && s[j] in s;
    }
  }

  lemma HeadOf(mem: seq<Slot>, head: nat, s: seq<nat>)
    requires IsList(mem, head, s)
    ensures if s == [] then head == NULL else head == s[0] < |mem| < 0x1_0000 && head != NULL
  {
  }

  lemma OutsideRefl(a: seq<Slot>, s: seq<nat>)
    ensures Outside(a, a, s)
  {
  }

  lemma OutsideWithin(a: seq<Slot>, b: seq<Slot>, c: seq<Slot>, s: seq<nat>, n: nat)
    requires n <= |s| && Outside(a, b, s) && Outside(b, c, s[n..])
    ensures Outside(a, c, s)
  {
    assert forall x :: x in s[n..] ==> x in s;
  }

  /* ---------- splitting by device ---------- */

  /** The cycle of each slot's response. */
  function Ids(mem: seq<Slot>): (ids: seq<nat>)
    ensures |ids| == |mem| && forall i :: 0 <= i < |mem| ==> ids[i] == mem[i].entry.id
  {
    seq(|mem|, i requires 0 <= i < |mem| => mem[i].entry.id)
  }

  /** Is the response in this slot one of the device's? `owner` is the device of each cycle. */
  function OwnedSlot(ids: seq<nat>, owner: nat -> nat, device: nat, which: bool): nat -> bool {
    (i: nat) => (i < |ids| && owner(ids[i]) == device) == which
  }

  function Owned(owner: nat -> nat, device: nat, which: bool): InFlight -> bool {
    (e: InFlight) => (owner(e.id) == device) == which
  }

  lemma LinksKeepIds(a: seq<Slot>, b: seq<Slot>, s: seq<nat>)
    requires OnlyLinks(a, b, s)
    ensures Ids(b) == Ids(a)
  {
    forall i | 0 <= i < |a|
      ensures b[i].entry.id == a[i].entry.id
    {
      assert b[i] == a[i].(next := b[i].next);
    }
  }

  /** `q` is what the slots `s` hold. */
  predicate Holds(mem: seq<Slot>, s: seq<nat>, q: seq<InFlight>) {
    |s| == |q| && forall j :: 0 <= j < |s| ==> s[j] < |mem| && q[j] == mem[s[j]].entry
  }

  lemma {:induction false} HoldsSelected(mem: seq<Slot>, s: seq<nat>, q: seq<InFlight>, f: nat -> bool,
                                         h: InFlight -> bool)
    requires Holds(mem, s, q) && forall i: nat :: i < |mem| ==> f(i) == h(mem[i].entry)
    ensures Holds(mem, Select(s, f), Select(q, h))
  {
    if s != [] {
      HoldsSelected(mem, s[1..], q[1..], f, h);
      var a, b := Select(s[1..], f), Select(q[1..], h);
      HoldsNext(mem, s[0], a, b);
    }
  }

  lemma HoldsNext(mem: seq<Slot>, r: nat, s: seq<nat>, q: seq<InFlight>)
    requires Holds(mem, s, q) && r < |mem|
    ensures Holds(mem, [r] + s, [mem[r].entry] + q)
    ensures [] + s == s && [] + q == q
  {
  }

  lemma EntriesSelected(mem: seq<Slot>, s: seq<nat>, owner: nat -> nat, device: nat, which: bool)
    requires InMem(mem, s)
    ensures var t := Select(s, OwnedSlot(Ids(mem), owner, device, which));
            InMem(mem, t) && Entries(mem, t) == Select(Entries(mem, s), Owned(owner, device, which))
  {
    HoldsSelected(mem, s, Entries(mem, s), OwnedSlot(Ids(mem), owner, device, which), Owned(owner, device, which));
  }

  /** How far a partition has got: `g` and `b` are the lists built from `s` without `rest`. */
  ghost predicate Parting(s: seq<nat>, rest: seq<nat>, f: nat -> bool, from: seq<nat>, to: seq<nat>) {
    Reverse(Select(rest, f)) + to == Reverse(Select(s, f)) + from
  }

  lemma PartingStep(s: seq<nat>, rest: seq<nat>, f: nat -> bool, from: seq<nat>, to: seq<nat>)
    requires rest != [] && Parting(s, rest, f, from, to)
    ensures Parting(s, rest[1..], f, from, if f(rest[0]) then [rest[0]] + to else to)
  {
    hide Select, Reverse;
    var x, r := rest[0], rest[1..];
    assert rest == [x] + r;
    SelectedReversed(x, r, f);
    assert (Reverse(Select(r, f)) + [x]) + to == Reverse(Select(r, f)) + ([x] + to);
  }

  lemma SelectedReversed(x: nat, r: seq<nat>, f: nat -> bool)
    ensures Reverse(Select([x] + r, f)) == if f(x) then Reverse(Select(r, f)) + [x] else Reverse(Select(r, f))
  {
    hide Select, Reverse;
    SelectAround([], x, r, f);
    NoneSelected(f);
    ReverseConcat([x], Select(r, f));
    ReverseOne(x);
    assert [] + ([x] + r) == [x] + r && [] + ([x] + Select(r, f)) == [x] + Select(r, f);
    assert [] + Select(r, f) == Select(r, f);
  }

  lemma NoneSelected(f: nat -> bool)
    ensures Select<nat>([], f) == []
  {
  }

  lemma PartingStart(s: seq<nat>, f: nat -> bool, from: seq<nat>)
    ensures Parting(s, s, f, from, from)
  {
  }

  lemma PartingEnd(s: seq<nat>, f: nat -> bool, from: seq<nat>, to: seq<nat>)
    requires Parting(s, [], f, from, to)
    ensures to == Reverse(Select(s, f)) + from
  {
  }

  lemma WhichSlot(mem: seq<Slot>, ids: seq<nat>, owner: nat -> nat, device: nat, i: nat)
    requires i < |mem| && Ids(mem) == ids
    ensures OwnedSlot(ids, owner, device, true)(i) == (owner(mem[i].entry.id) == device)
    ensures OwnedSlot(ids, owner, device, false)(i) == (owner(mem[i].entry.id) != device)
  {
  }

  /** Move every response of a list to the front of one of two others: `bad` if it belongs to
      the device, `good` if not. */
  method Partition(mem: array<Slot>, good0: nat, bad0: nat, owner: nat -> nat, device: nat, head: nat,
                   ghost s: seq<nat>, ghost g0: seq<nat>, ghost b0: seq<nat>)
      returns (good: nat, bad: nat, ghost g: seq<nat>, ghost b: seq<nat>)
    requires Disjoint(mem[..], head, s, good0, g0, bad0, b0)
    modifies mem
    ensures Disjoint(mem[..], NULL, [], good, g, bad, b) && OnlyLinks(old(mem[..]), mem[..], s)
    ensures g == Reverse(Select(s, OwnedSlot(Ids(old(mem[..])), owner, device, false))) + g0
    ensures b == Reverse(Select(s, OwnedSlot(Ids(old(mem[..])), owner, device, true))) + b0
  {
    hide *;
    ghost var before, ids, rest := mem[..], Ids(mem[..]), s;
    ghost var no, yes := OwnedSlot(ids, owner, device, false), OwnedSlot(ids, owner, device, true);
    good, bad, g, b := good0, bad0, g0, b0;
    PartingStart(s, no, g0);
    PartingStart(s, yes, b0);
    LinksRefl(before, s);
    var responsep := head;
    while responsep != NULL
      invariant Disjoint(mem[..], responsep, rest, good, g, bad, b) && OnlyLinks(before, mem[..], s)
      invariant Parting(s, rest, no, g0, g) && Parting(s, rest, yes, b0, b)
      invariant forall x :: x in rest ==> x in s
      decreases |rest|
    {
      ghost var a := mem[..];
      DisjointHead(a, responsep, rest, good, g, bad, b);
      PartingStep(s, rest, no, g0, g);
      PartingStep(s, rest, yes, b0, b);
      LinksKeepIds(before, a, s);
      WhichSlot(a, ids, owner, device, responsep);
      var next := mem[responsep].next;
      if owner(mem[responsep].entry.id) == device {
        mem[responsep] := mem[responsep].(next := bad);
        DisjointSwap(a, responsep, rest, good, g, bad, b);
        DisjointStep(a, mem[..], responsep, rest, bad, b, good, g);
        DisjointSwap(mem[..], next, rest[1..], responsep, [responsep] + b, good, g);
        LinkWritten(before, a, mem[..], s, responsep, bad);
        bad, b := responsep, [responsep] + b;
      } else {
        mem[responsep] := mem[responsep].(next := good);
        DisjointStep(a, mem[..], responsep, rest, good, g, bad, b);
        LinkWritten(before, a, mem[..], s, responsep, good);
        good, g := responsep, [responsep] + g;
      }
      responsep, rest := next, rest[1..];
    }
    DisjointEnd(mem[..], rest, good, g, bad, b);
    PartingEnd(s, no, g0, g);
    PartingEnd(s, yes, b0, b);
  }

  lemma DisjointLast(mem: seq<Slot>, head: nat, firsts: seq<nat>, last: nat, lasts: seq<nat>)
    requires IsList(mem, head, firsts) && IsList(mem, last, lasts) && Distinct(firsts + lasts)
    ensures Disjoint(mem, last, lasts, NULL, [], NULL, [])
  {
    DistinctConcat(firsts, lasts);
    DisjointStart(mem, last, lasts);
  }

  /** The first list is untouched by what happens to the second. */
  lemma FirstUntouched(a: seq<Slot>, b: seq<Slot>, head: nat, s: seq<nat>, t: seq<nat>)
    requires IsList(a, head, s) && Distinct(s + t) && OnlyLinks(a, b, t)
    ensures IsList(b, head, s) && Distinct(s)
  {
    DistinctConcat(s, t);
    forall i | 0 <= i < |s|
      ensures b[s[i]].next == a[s[i]].next
    {
      assert s[i] in s;
    }
    ListFrame(a, b, head, s);
  }

  /** After the second list has been split and the first one flipped. */
  lemma DisjointFlipped(a: seq<Slot>, b: seq<Slot>, flipped: nat, s: seq<nat>, t: seq<nat>, f: nat -> bool,
                        h: nat -> bool,
                     good: nat, g: seq<nat>, bad: nat, y: seq<nat>)
    requires Distinct(s + t) && OnlyLinks(a, b, s) && IsList(b, flipped, Reverse(s))
    requires (forall x :: x in t ==> f(x) == !h(x)) && g == Reverse(Select(t, f)) && y == Reverse(Select(t, h))
    requires IsList(a, good, g) && IsList(a, bad, y)
    ensures Disjoint(b, flipped, Reverse(s), good, g, bad, y)
  {
    hide Reverse, Select, IsList, NoDup, Distinct, OnlyLinks;
    DistinctConcat(s, t);
    SameElements(s, t, f, h);
    ChosenOutside(s, t, f);
    ChosenOutside(s, t, h);
    ListOutside(a, b, s, good, g);
    ListOutside(a, b, s, bad, y);
  }

  /** A selection of one list has no slot of another it is disjoint from. */
  lemma ChosenOutside(s: seq<nat>, t: seq<nat>, f: nat -> bool)
    requires forall x :: x in s ==> x !in t
    ensures forall x :: x in Reverse(Select(t, f)) ==> x !in s
  {
    ReverseMembers(Select(t, f));
    SelectMembers(t, f);
  }

  lemma ListOutside(a: seq<Slot>, b: seq<Slot>, s: seq<nat>, head: nat, g: seq<nat>)
    requires OnlyLinks(a, b, s) && IsList(a, head, g) && forall x :: x in g ==> x !in s
    ensures IsList(b, head, g)
  {
    forall i | 0 <= i < |g| ensures b[g[i]] == a[g[i]] { assert g[i] in g; }
    ListFrame(a, b, head, g);
  }

  /** Splitting and reversing lists neither loses nor repeats a slot. */
  lemma SameElements(s: seq<nat>, t: seq<nat>, f: nat -> bool, h: nat -> bool)
    requires Distinct(s + t) && forall x :: x in t ==> f(x) == !h(x)
    ensures NoDup(Reverse(s) + Reverse(Select(t, f)) + Reverse(Select(t, h)))
  {
    hide Reverse, Select, Distinct;
    SelectParts(t, f, h);
    ReverseParts(Select(t, f));
    ReverseParts(Select(t, h));
    ReverseParts(s);
    var all: seq<nat>, was: seq<nat> := Reverse(s) + Reverse(Select(t, f)) + Reverse(Select(t, h)), s + t;
    assert multiset(all) == multiset(was);
    NoDupIsDistinct(was);
  }

  lemma SlotsOppose(ids: seq<nat>, owner: nat -> nat, device: nat)
    ensures forall x: nat :: OwnedSlot(ids, owner, device, false)(x) == !OwnedSlot(ids, owner, device, true)(x)
  {
  }

  /** What is selected from the first list, reversed twice, and from the second, in queue order. */
  lemma Survivors(firsts: seq<nat>, lasts: seq<nat>, f: nat -> bool)
    ensures Reverse(Select(Reverse(firsts), f)) + Reverse(Select(lasts, f)) == Select(firsts + Reverse(lasts), f)
    ensures Reverse(Select(lasts, f)) + [] == Reverse(Select(lasts, f))
  {
    SelectReverse(firsts, f);
    ReverseTwice(Select(firsts, f));
    SelectReverse(lasts, f);
    SelectConcat(firsts, Reverse(lasts), f);
  }

  lemma LinksWithin(a: seq<Slot>, b: seq<Slot>, s: seq<nat>, t: seq<nat>)
    requires OnlyLinks(a, b, s) && forall x :: x in s ==> x in t
    ensures OnlyLinks(a, b, t)
  {
  }

  lemma FifoMembers(a: seq<nat>, b: seq<nat>)
    ensures forall x :: x in a + Reverse(b) <==> x in a || x in b
    ensures forall x :: x in Reverse(a) <==> x in a
  {
    ReverseMembers(a);
    ReverseMembers(b);
  }

  lemma ListInMemory(mem: seq<Slot>, xHead: nat, x: seq<nat>, yHead: nat, y: seq<nat>)
    requires IsList(mem, xHead, x) && IsList(mem, yHead, y) && Distinct(x + y)
    ensures IsList(mem, NULL, []) && x + [] == x && Distinct(x) && Distinct(y) && InMem(mem, y)
  {
    DistinctConcat(x, y);
    ListInMem(mem, yHead, y);
  }

  lemma PopFirst(mem: seq<Slot>, s: seq<nat>, tHead: nat, t: seq<nat>)
    requires s != [] && IsList(mem, s[0], s) && IsList(mem, tHead, t) && Distinct(s + t)
    ensures s[0] < |mem| && IsList(mem, mem[s[0]].next, s[1..]) && Distinct(s[1..] + t)
    ensures s[1..] + Reverse(t) == (s + Reverse(t))[1..]
  {
    ListTail(mem, s);
    assert s[1..] + t == (s + t)[1..];
    forall i, j | 0 <= i < j < |s[1..] + t| ensures (s[1..] + t)[i] != (s[1..] + t)[j] {
      assert (s + t)[i + 1] != (s + t)[j + 1];
    }
  }

  /* ---------- splicing ---------- */

  /** The first list and the flipped second one, side by side. */
  lemma FlippedApart(a: seq<Slot>, b: seq<Slot>, head: nat, s: seq<nat>, t: seq<nat>)
    requires IsList(a, head, s) && Distinct(s + t) && OnlyLinks(a, b, t)
    ensures IsList(b, head, s) && Distinct(s + Reverse(t)) && OnlyLinks(a, b, s + Reverse(t))
  {
    FirstUntouched(a, b, head, s, t);
    DistinctConcat(s, t);
    ReverseMembers(t);
    DistinctReverse(t);
    DistinctConcat(s, Reverse(t));
    hide Distinct, IsList, Reverse;
    assert forall x :: x in t ==> x in s + Reverse(t);
  }

  lemma PrevIsNull(mem: seq<Slot>, head: nat, s: seq<nat>)
    requires IsList(mem, head, s)
    ensures s == [] || s[|s| - 1] != NULL
  {
  }

  lemma LastOf(mem: seq<Slot>, head: nat, s: seq<nat>)
    requires IsList(mem, head, s) && s != []
    ensures s[|s| - 1] < |mem| && forall t :: s[|s| - 1] in s + t
  {
  }

  lemma EndOfFifo(mem: seq<Slot>, head: nat, s: seq<nat>)
    requires IsList(mem, head, s)
    ensures s + Reverse([]) == s && s + [] == s && IsList(mem, NULL, [])
  {
  }
}
