/** Lists linked by index, as sequences: their ends, reversal and selection. */
module Lists {
  /** The null index. */
  const NULL: nat := 0xFFFF

  /** The index found after `i` links. */
  function At(s: seq<nat>, i: nat): nat { if i < |s| then s[i] else NULL }

  /** `n` consecutive numbers. */
  function Numbers(from: nat, n: nat): (s: seq<nat>)
    ensures |s| == n && forall k :: 0 <= k < n ==> s[k] == from + k
  {
    seq(n, k requires 0 <= k < n => from + k)
  }

  predicate Distinct(s: seq<nat>) {
    forall i, j :: 0 <= i < j < |s| ==> s[i] != s[j]
  }

  /** The list without its `k`-th member. */
  function LeftOut<T>(s: seq<T>, k: nat): (r: seq<T>)
    requires k < |s|
    ensures |r| == |s| - 1
    ensures forall i :: 0 <= i < |r| ==> r[i] == s[if i < k then i else i + 1]
  {
    s[..k] + s[k + 1..]
  }

  lemma Around<T>(s: seq<T>, k: nat)
    requires k < |s|
    ensures s == s[..k] + ([s[k]] + s[k + 1..]) && LeftOut(s, k) == s[..k] + s[k + 1..]
  {
  }

  function Reverse<T>(s: seq<T>): (r: seq<T>)
    ensures |r| == |s|
  {
    if s == [] then [] else Reverse(s[1..]) + [s[0]]
  }

  lemma {:induction false} ReverseConcat<T>(a: seq<T>, b: seq<T>)
    ensures Reverse(a + b) == Reverse(b) + Reverse(a)
  {
    if a == [] {
      assert a + b == b;
    } else {
      assert (a + b)[1..] == a[1..] + b;
      ReverseConcat(a[1..], b);
    }
  }

  lemma ReverseOne<T>(x: T)
    ensures Reverse([x]) == [x]
  {
    assert [x][1..] == [];
  }

  lemma {:induction false} ReverseTwice<T>(s: seq<T>)
    ensures Reverse(Reverse(s)) == s
  {
    if s != [] {
      ReverseTwice(s[1..]);
      ReverseConcat(Reverse(s[1..]), [s[0]]);
      ReverseOne(s[0]);
      assert s == [s[0]] + s[1..];
    }
  }

  lemma {:induction false} ReverseAt<T>(s: seq<T>, k: nat)
    requires k < |s|
    ensures Reverse(s)[k] == s[|s| - 1 - k]
  {
    if |s| > 1 && k < |s| - 1 {
      ReverseAt(s[1..], k);
    }
  }

  lemma ReverseMembers<T>(s: seq<T>)
    ensures forall x :: x in Reverse(s) <==> x in s
  {
    forall x
      ensures x in Reverse(s) <==> x in s
    {
      if x in s {
        var k :| 0 <= k < |s| && s[k] == x;
        ReverseAt(s, |s| - 1 - k);
      }
      if x in Reverse(s) {
        var k :| 0 <= k < |s| && Reverse(s)[k] == x;
        ReverseAt(s, k);
      }
    }
  }

  lemma Untaken<T>(s: seq<T>)
    ensures s[..0] == [] && s[0..] == s
  {
  }

  /** The members that satisfy `f`, in order. */
  function Select<T(!new)>(s: seq<T>, f: T -> bool): (r: seq<T>)
    ensures |r| <= |s|
  {
    if s == [] then [] else (if f(s[0]) then [s[0]] else []) + Select(s[1..], f)
  }

  lemma {:induction false} SelectConcat<T(!new)>(a: seq<T>, b: seq<T>, f: T -> bool)
    ensures Select(a + b, f) == Select(a, f) + Select(b, f)
  {
    if a == [] {
      assert a + b == b;
    } else {
      assert (a + b)[0] == a[0] && (a + b)[1..] == a[1..] + b;
      SelectConcat(a[1..], b, f);
      var one, x, y := if f(a[0]) then [a[0]] else [], Select(a[1..], f), Select(b, f);
      assert one + (x + y) == (one + x) + y;
    }
  }

  lemma {:induction false} SelectMembers<T(!new)>(s: seq<T>, f: T -> bool)
    ensures forall x :: x in Select(s, f) <==> x in s && f(x)
  {
    if s != [] {
      SelectMembers(s[1..], f);
      assert forall x :: x in s <==> x == s[0] || x in s[1..];
    }
  }

  lemma SelectAround<T(!new)>(a: seq<T>, x: T, b: seq<T>, f: T -> bool)
    ensures Select(a + ([x] + b), f) == Select(a, f) + (if f(x) then [x] + Select(b, f) else Select(b, f))
    ensures Select(a + b, f) == Select(a, f) + Select(b, f)
  {
    SelectConcat(a, [x] + b, f);
    SelectConcat(a, b, f);
    assert ([x] + b)[1..] == b;
  }

  lemma {:induction false} SelectReverse<T(!new)>(s: seq<T>, f: T -> bool)
    ensures Select(Reverse(s), f) == Reverse(Select(s, f))
  {
    if s != [] {
      var one := if f(s[0]) then [s[0]] else [];
      assert [s[0]][1..] == [];
      assert Select([s[0]], f) == one;
      SelectConcat(Reverse(s[1..]), [s[0]], f);
      SelectReverse(s[1..], f);
      ReverseConcat(one, Select(s[1..], f));
      if one != [] {
        ReverseOne(s[0]);
      }
    }
  }

  /** Selecting by a condition and by its opposite loses nothing and duplicates nothing. */
  lemma {:induction false} SelectParts<T(!new)>(s: seq<T>, f: T -> bool, g: T -> bool)
    requires forall x :: x in s ==> f(x) == !g(x)
    ensures multiset(Select(s, f)) + multiset(Select(s, g)) == multiset(s)
  {
    if s != [] {
      assert s == [s[0]] + s[1..];
      assert s[0] in s;
      SelectParts(s[1..], f, g);
    }
  }

  lemma {:induction false} ReverseParts<T>(s: seq<T>)
    ensures multiset(Reverse(s)) == multiset(s)
  {
    if s != [] {
      ReverseParts(s[1..]);
      assert s == [s[0]] + s[1..];
    }
  }

  lemma {:induction false} SelectAll<T(!new)>(s: seq<T>, f: T -> bool)
    requires forall x :: x in s ==> f(x)
    ensures Select(s, f) == s
  {
    if s != [] {
      assert s[0] in s;
      SelectAll(s[1..], f);
    }
  }

  lemma {:induction false} SelectNone<T(!new)>(s: seq<T>, f: T -> bool)
    requires forall x :: x in s ==> !f(x)
    ensures Select(s, f) == []
  {
    if s != [] {
      assert s[0] in s;
      SelectNone(s[1..], f);
    }
  }

  lemma NothingReversed<T>(s: seq<T>)
    ensures Reverse([]) + s == s
  {
  }

  lemma ReverseStep<T>(rest: seq<T>, turned: seq<T>)
    requires rest != []
    ensures Reverse(rest) + turned == Reverse(rest[1..]) + ([rest[0]] + turned)
  {
  }

  /** Turn a list round, one member at a time. */
  method Turned<T>(list: seq<T>) returns (turned: seq<T>)
    ensures turned == Reverse(list)
  {
    turned := [];
    var rest := list;
    assert Reverse(rest) + [] == Reverse(list);
    while rest != []
      invariant Reverse(rest) + turned == Reverse(list)
      decreases |rest|
    {
      ReverseStep(rest, turned);
      turned, rest := [rest[0]] + turned, rest[1..];
    }
    NothingReversed(turned);
  }
}
