/** Searching a tree of buses for devices of one identity. Each bus is scanned asynchronously;
    answers come back in any order, and scans may fail to start or fail to complete. */
module SdbSearch {
  import opened Sdb
  import opened Master

  /** A bus and what its table lists; a bridge leads to another bus. */
  datatype Tree = Bus(nodes: seq<Node>)
  datatype Node = Device(description: Description) | Bridge(child: Tree) | Other

  datatype Identity = Identity(vendor: nat, device: nat)

  predicate Matches(id: Identity, d: Description) {
    d.component.product.vendor == id.vendor && d.component.product.device == id.device
  }

  /** All devices searched for on a bus, from its `i`-th record on, and behind its bridges. */
  function Hits(id: Identity, t: Tree, i: nat): multiset<Description>
    requires i <= |t.nodes|
    decreases t, |t.nodes| - i
  {
    if i == |t.nodes| then multiset{}
    else
      (match t.nodes[i]
       case Device(d) => if Matches(id, d) then multiset{d} else multiset{}
       case Bridge(child) => Hits(id, child, 0)
       case Other => multiset{})
      + Hits(id, t, i + 1)
  }

  /** Work left: every bus counts once. */
  function Weight(t: Tree, i: nat): (n: nat)
    requires i <= |t.nodes|
    ensures n > 0
    decreases t, |t.nodes| - i
  {
    if i == |t.nodes| then 1
    else (if t.nodes[i].Bridge? then Weight(t.nodes[i].child, 0) else 0) + Weight(t, i + 1)
  }

  /** What one record adds. */
  lemma NextNode(id: Identity, t: Tree, i: nat)
    requires i < |t.nodes|
    ensures match t.nodes[i]
            case Device(d) => Hits(id, t, i)
                == (if Matches(id, d) then multiset{d} else multiset{}) + Hits(id, t, i + 1)
            case Bridge(child) => Hits(id, t, i) == Hits(id, child, 0) + Hits(id, t, i + 1)
            case Other => Hits(id, t, i) == Hits(id, t, i + 1)
    ensures Weight(t, i) == (if t.nodes[i].Bridge? then Weight(t.nodes[i].child, 0) else 0) + Weight(t, i + 1)
  {
  }

  function HitsAll(id: Identity, scans: seq<Tree>): multiset<Description> {
    if scans == [] then multiset{} else Hits(id, scans[0], 0) + HitsAll(id, scans[1..])
  }

  function WeightAll(scans: seq<Tree>): nat {
    if scans == [] then 0 else Weight(scans[0], 0) + WeightAll(scans[1..])
  }

  lemma {:induction false} AllConcat(id: Identity, a: seq<Tree>, b: seq<Tree>)
    ensures HitsAll(id, a + b) == HitsAll(id, a) + HitsAll(id, b)
    ensures WeightAll(a + b) == WeightAll(a) + WeightAll(b)
  {
    if a == [] {
      assert a + b == b;
    } else {
      assert (a + b)[1..] == a[1..] + b;
      AllConcat(id, a[1..], b);
    }
  }

  lemma AllSnoc(id: Identity, scans: seq<Tree>, t: Tree)
    ensures HitsAll(id, scans + [t]) == HitsAll(id, scans) + Hits(id, t, 0)
    ensures WeightAll(scans + [t]) == WeightAll(scans) + Weight(t, 0)
  {
    AllConcat(id, scans, [t]);
    assert [t][1..] == [];
  }

  lemma AllWithout(id: Identity, scans: seq<Tree>, k: nat)
    requires k < |scans|
    ensures var rest := scans[..k] + scans[k + 1..];
            && HitsAll(id, scans) == HitsAll(id, rest) + Hits(id, scans[k], 0)
            && WeightAll(scans) == WeightAll(rest) + Weight(scans[k], 0)
  {
    assert scans == (scans[..k] + [scans[k]]) + scans[k + 1..];
    AllConcat(id, scans[..k] + [scans[k]], scans[k + 1..]);
    AllSnoc(id, scans[..k], scans[k]);
    AllConcat(id, scans[..k], scans[k + 1..]);
  }

  ghost predicate AllOk(f: nat -> Status) {
    forall i: nat :: f(i) == Ok
  }

  function Least(a: nat, b: nat): nat { if a < b then a else b }

  class Search {
    const id: Identity
    const output: array<Description>
    var fill: nat
    var pending: int
    var status: Status
    var scans: seq<Tree>                        // outstanding, somewhere in the network
    ghost var found: seq<Description>           // matches, in the order they were seen
    ghost var lost: multiset<Description>       // matches behind scans that failed

    /** The pending count is the number of outstanding scans; what has been found fills the output
        as far as it reaches; only a reported failure can lose anything. */
    ghost predicate Valid()
      reads this, output
    {
      && pending == |scans| && fill == |found|
      && output[..Least(fill, output.Length)] == found[..Least(fill, output.Length)]
      && (status == Ok ==> lost == multiset{})
    }

    /** Found, lost and still to be found. */
    ghost function Total(): multiset<Description>
      reads this
    {
      multiset(found) + lost + HitsAll(id, scans)
    }

    constructor (id: Identity, output: array<Description>, root: Tree)
      ensures Valid() && Total() == Hits(id, root, 0) && WeightAll(scans) == Weight(root, 0) && pending == 1
      ensures this.id == id && this.output == output && found == [] && status == Ok
    {
      this.id, this.output := id, output;
      fill, pending, status, scans, found, lost := 0, 1, Ok, [root], [], multiset{};
      new;
      AllSnoc(id, [], root);
      assert [] + [root] == [root];
      assert scans == [root];
    }

    /** Store a match if there is room, and count it either way. */
    method Hit(d: Description)
      requires Valid()
      modifies this`fill, this`found, output
      ensures Valid() && found == old(found) + [d] && Total() == old(Total()) + multiset{d}
    {
      if fill < output.Length {
        output[fill] := d;
      }
      fill := fill + 1;
      found := found + [d];
    }

    /** The answer to the `k`-th outstanding scan: its table, or a failure. `starts` says which of
        the scans of its bridges can be started. */
    method Answer(k: nat, t: Tree, answer: Status, starts: nat -> Status)
      requires Valid() && k < |scans| && scans[k] == t
      modifies this`fill, this`pending, this`status, this`scans, this`found, this`lost, output
      ensures Valid() && Total() == old(Total()) && WeightAll(scans) < old(WeightAll(scans))
      ensures old(found) <= found
      ensures old(status) != Ok || answer != Ok ==> status != Ok
      ensures old(status) == Ok && answer == Ok && AllOk(starts) ==> status == Ok
    {
      hide Hits, Weight, HitsAll, WeightAll, Valid, Total;
      DoneWith(t);
      ghost var total, weight, before := Total(), WeightAll(scans), found;
      Over(k, t);
      if answer != Ok {
        Lose(t, answer);
        return;
      }
      var i := 0;
      while i < |t.nodes|
        invariant 0 <= i <= |t.nodes| && Valid() && before <= found
        invariant Total() + Hits(id, t, i) == total
        invariant WeightAll(scans) + Weight(t, i) <= weight
        invariant old(status) != Ok ==> status != Ok
        invariant old(status) == Ok && AllOk(starts) ==> status == Ok
      {
        Visit(t, i, starts(i));
        i := i + 1;
      }
    }

    lemma DoneWith(t: Tree)
      ensures Hits(id, t, |t.nodes|) == multiset{} && Weight(t, |t.nodes|) == 1 && Weight(t, 0) > 0
    {
    }

    /** Take note of one record of a table. */
    method Visit(t: Tree, i: nat, start: Status)
      requires Valid() && i < |t.nodes|
      modifies this`fill, this`pending, this`status, this`scans, this`found, this`lost, output
      ensures Valid() && old(found) <= found
      ensures Total() + Hits(id, t, i + 1) == old(Total()) + Hits(id, t, i)
      ensures WeightAll(scans) + Weight(t, i + 1) <= old(WeightAll(scans)) + Weight(t, i)
      ensures old(status) != Ok ==> status != Ok
      ensures old(status) == Ok && start == Ok ==> status == Ok
    {
      hide Hits, Weight, HitsAll, WeightAll, Valid, Total;
      NextNode(id, t, i);
      match t.nodes[i] {
        case Bridge(child) => Follow(child, start);
        case Device(d) =>
          if Matches(id, d) {
            Hit(d);
          }
        case Other =>
      }
    }

    /** Scan the bus behind a bridge, if that can be started. */
    method Follow(child: Tree, start: Status)
      requires Valid()
      modifies this`pending, this`status, this`scans, this`lost
      ensures Valid() && Total() == old(Total()) + Hits(id, child, 0)
      ensures WeightAll(scans) <= old(WeightAll(scans)) + Weight(child, 0)
      ensures old(status) != Ok ==> status != Ok
      ensures old(status) == Ok && start == Ok ==> status == Ok
    {
      hide Hits, Weight, HitsAll, WeightAll;
      AllSnoc(id, scans, child);
      if start == Ok {
        pending := pending + 1;
        scans := scans + [child];
      } else {
        status := start;
        lost := lost + Hits(id, child, 0);
      }
    }

    /** The `k`-th outstanding scan is over. */
    method Over(k: nat, t: Tree)
      requires Valid() && k < |scans| && scans[k] == t
      modifies this`pending, this`scans
      ensures Valid() && Total() + Hits(id, t, 0) == old(Total())
      ensures WeightAll(scans) + Weight(t, 0) == old(WeightAll(scans))
    {
      hide Hits, Weight, HitsAll, WeightAll;
      AllWithout(id, scans, k);
      scans := scans[..k] + scans[k + 1..];
      pending := pending - 1;
    }

    /** What a failed scan would have found is lost. */
    method Lose(t: Tree, answer: Status)
      requires Valid() && answer != Ok
      modifies this`status, this`lost
      ensures Valid() && Total() == old(Total()) + Hits(id, t, 0) && status != Ok
    {
      hide Hits, HitsAll;
      status := answer;
      lost := lost + Hits(id, t, 0);
    }

    /** Wait until nothing is pending. `pick` chooses which answer arrives next and `answers` how
        each turns out. The search always ends. */
    method Wait(pick: nat -> nat, answers: nat -> Status, starts: nat -> nat -> Status)
      requires Valid()
      modifies this`fill, this`pending, this`status, this`scans, this`found, this`lost, output
      ensures Valid() && pending == 0 && Total() == old(Total())
      ensures multiset(found) + lost == old(Total())
      ensures old(status) == Ok && AllOk(answers) && (forall m: nat :: AllOk(starts(m))) ==> status == Ok
    {
      var n := 0;
      while pending > 0
        invariant Valid() && Total() == old(Total()) && n >= 0
        invariant old(status) == Ok && AllOk(answers) && (forall m: nat :: AllOk(starts(m))) ==> status == Ok
        decreases WeightAll(scans)
      {
        var k := pick(n) % |scans|;
        Answer(k, scans[k], answers(n), starts(n));
        n := n + 1;
      }
    }
  }

  /** The output is a choice of the matches: all of them, or as many as fit. */
  ghost predicate Chosen(output: seq<Description>, devices: nat, hits: multiset<Description>) {
    exists found: seq<Description> ::
      |found| == devices && multiset(found) == hits
          && output[..Least(devices, |output|)] == found[..Least(devices, |output|)]
  }

  /** THE SEARCH IS A FOLD OF THE TREE. A successful search reports how many devices match on all
      buses together and stores as many of them as there is room for, each once; without scan
      errors it succeeds. */
  method FindByIdentity(id: Identity, output: array<Description>, root: Tree, started: Status,
                        pick: nat -> nat, answers: nat -> Status, starts: nat -> nat -> Status)
      returns (status: Status, devices: nat)
    modifies output
    ensures status == Ok ==> devices == |Hits(id, root, 0)| && Chosen(output[..], devices, Hits(id, root, 0))
    ensures started == Ok && AllOk(answers) && (forall m: nat :: AllOk(starts(m))) ==> status == Ok
  {
    var search := new Search(id, output, root);
    assert search.Total() == Hits(id, root, 0);
    if started != Ok {
      return started, search.fill;
    }
    search.Wait(pick, answers, starts);
    status, devices := search.status, search.fill;
    ghost var found := search.found;
    if status == Ok {
      assert multiset(found) == Hits(id, root, 0);
      assert output[..][..Least(devices, output.Length)] == found[..Least(devices, output.Length)];
    }
  }
}
