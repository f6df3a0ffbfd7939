/** Return addresses: which response a write-back finds, given how many addresses have been
    claimed since it was issued. */
module Claims {
  import opened Format
  import opened Master
  import opened EndToEnd
  import opened Flush
  import opened Replies

  /** There are this many return addresses. */
  const CYCLE: nat := 0x4000

  /** The `k`-th return address claimed by a socket. */
  function Claim(k: nat): (rba: nat)
    ensures ReturnAddress(rba)
  {
    if k == 0 then 0x8000
    else
      NextAddressReturns(Claim(k - 1));
      NextAddress(Claim(k - 1))
  }

  lemma {:induction false} ClaimIs(k: nat)
    ensures Claim(k) == 0x8000 + 2 * (k % CYCLE)
  {
    if k > 0 {
      ClaimIs(k - 1);
      ModNext(k - 1);
      NextOf((k - 1) % CYCLE);
      hide NextAddress;
    }
  }

  lemma NextOf(r: nat)
    requires r < CYCLE
    ensures NextAddress(0x8000 + 2 * r) == if r == CYCLE - 1 then 0x8000 else 0x8000 + 2 * (r + 1)
  {
  }

  /** The second of two claims is a multiple of 2^14 claims after the first. */
  predicate Wrapped(j: nat, k: nat)
  {
    (k - j) % CYCLE == 0
  }

  lemma ModNext(k: nat)
    ensures (k + 1) % CYCLE == if k % CYCLE == CYCLE - 1 then 0 else k % CYCLE + 1
  {
  }

  lemma SameMod(j: nat, k: nat)
    requires j <= k
    ensures j % CYCLE == k % CYCLE <==> (k - j) % CYCLE == 0
  {
    var a, b := j / CYCLE, k / CYCLE;
    assert k - j == CYCLE * (b - a) + (k % CYCLE - j % CYCLE);
  }

  /** Two claims share an address exactly when they are a multiple of 2^14 claims apart. */
  lemma ClaimsMeet(j: nat, k: nat)
    requires j <= k
    ensures Claim(j) == Claim(k) <==> Wrapped(j, k)
  {
    ClaimIs(j);
    ClaimIs(k);
    SameMod(j, k);
    hide Claim, CYCLE;
  }

  /** `b` continues `a` with responses at the claims from the `k`-th on. */
  ghost predicate Continues(a: seq<InFlight>, b: seq<InFlight>, k: nat) {
    a <= b && forall j :: |a| <= j < |b| ==> b[j].rba == Claim(k + j - |a|)
  }

  lemma ContinuesRefl(a: seq<InFlight>, k: nat)
    ensures Continues(a, a, k)
  {
  }

  lemma ContinuesTrans(a: seq<InFlight>, b: seq<InFlight>, c: seq<InFlight>, k: nat)
    requires Continues(a, b, k) && Continues(b, c, k + |b| - |a|)
    ensures Continues(a, c, k)
  {
    hide Claim;
    forall j | |a| <= j < |c|
      ensures c[j].rba == Claim(k + j - |a|)
    {
      if j < |b| {
        assert c[j] == b[j];
      }
    }
  }

  /** Settling a cycle claims an address exactly if it issues a response. */
  lemma SettleClaims(p: Port, mtu: nat, time: nat, alloc: bool, c: Queued, t: Tally, k: nat)
    requires t.rba == Claim(k)
    ensures var u := Settle(p, mtu, time, alloc, c, t);
            Continues(t.issued, u.issued, k) && |t.issued| <= |u.issued| && u.rba == Claim(k + |u.issued| - |t.issued|)
  {
    hide FateOf;
    assert Claim(k + 1) == NextAddress(Claim(k));
  }

  /** A flush claims one address after another, one for each response it issues. */
  lemma {:induction false} AccountClaims(p: Port, mtu: nat, time: nat, alloc: nat -> bool, queue: seq<Queued>,
                                         t: Tally, k: nat)
    requires t.rba == Claim(k)
    ensures var u := Account(p, mtu, time, alloc, queue, t);
            Continues(t.issued, u.issued, k) && |t.issued| <= |u.issued| && u.rba == Claim(k + |u.issued| - |t.issued|)
    decreases |queue|
  {
    hide *;
    AccountStep(p, mtu, time, alloc, queue, t);
    if queue == [] {
      ContinuesRefl(t.issued, k);
    } else {
      var s := Settle(p, mtu, time, alloc(queue[0].id), queue[0], t);
      SettleClaims(p, mtu, time, alloc(queue[0].id), queue[0], t, k);
      AccountClaims(p, mtu, time, alloc, queue[1..], s, k + |s.issued| - |t.issued|);
      ContinuesTrans(t.issued, s.issued, Account(p, mtu, time, alloc, queue[1..], s).issued, k);
    }
  }

  /** Responses in flight, in the order they were issued, each at the address it claimed. */
  ghost predicate Claimed(q: seq<InFlight>, claims: seq<nat>) {
    && |q| == |claims|
    && (forall i, j :: 0 <= i < j < |q| ==> claims[i] < claims[j])
    && forall i :: 0 <= i < |q| ==> q[i].rba == Claim(claims[i])
  }

  lemma TargetOfClaim(k: nat, status: bool)
    ensures TargetOf(Claim(k) + if status then 1 else 0) == Claim(k)
  {
    TargetOfStatus(Claim(k));
  }

  /** A value or status word written to its address reaches a response exactly when no older one
      still in flight was issued a multiple of 2^14 claims before it. */
  lemma RoutesExactly(q: seq<InFlight>, claims: seq<nat>, j: nat, status: bool)
    requires Claimed(q, claims) && j < |q|
    ensures Find(q, TargetOf(q[j].rba + if status then 1 else 0)) == j
       <==> forall i :: 0 <= i < j ==> !Wrapped(claims[i], claims[j])
  {
    hide Claim, TargetOf, Wrapped, Find;
    TargetOfClaim(claims[j], status);
    forall i | 0 <= i < j
      ensures q[i].rba == q[j].rba <==> Wrapped(claims[i], claims[j])
    {
      ClaimsMeet(claims[i], claims[j]);
    }
    FindIff(q, j);
  }

  lemma FindIff(q: seq<InFlight>, j: nat)
    requires j < |q|
    ensures Find(q, q[j].rba) == j <==> forall i :: 0 <= i < j ==> q[i].rba != q[j].rba
  {
    if forall i :: 0 <= i < j ==> q[i].rba != q[j].rba {
      FindIs(q, q[j].rba, j);
    }
  }

  /** So with all responses in flight issued within 2^14 claims of each other, every reply reaches
      the response that asked for it. */
  lemma RoutesToIssuer(q: seq<InFlight>, claims: seq<nat>, j: nat, status: bool)
    requires Claimed(q, claims) && j < |q| && claims[|q| - 1] - claims[0] < CYCLE
    ensures Find(q, TargetOf(q[j].rba + if status then 1 else 0)) == j
  {
    hide Claim, TargetOf, Find;
    forall i | 0 <= i < j
      ensures !Wrapped(claims[i], claims[j])
    {
      assert claims[0] <= claims[i] < claims[j] <= claims[|q| - 1];
    }
    RoutesExactly(q, claims, j, status);
  }
}
