/** Stable sorting by an integer key, as the standard library's `sort_by_key` does it. */
module Sorting {
  import opened Common

  function Insert<T>(x: T, s: seq<T>, key: T -> int): seq<T> {
    if s == [] || key(x) <= key(s[0]) then [x] + s else [s[0]] + Insert(x, s[1..], key)
  }

  function SortBy<T>(s: seq<T>, key: T -> int): seq<T> {
    if s == [] then [] else Insert(s[0], SortBy(s[1..], key), key)
  }

  ghost predicate Sorted<T>(s: seq<T>, key: T -> int) {
    forall i, j :: 0 <= i < j < |s| ==> key(s[i]) <= key(s[j])
  }

  ghost predicate Increasing<T>(s: seq<T>, key: T -> int) {
    forall i, j :: 0 <= i < j < |s| ==> key(s[i]) < key(s[j])
  }

  lemma {:induction false} InsertPermutes<T>(x: T, s: seq<T>, key: T -> int)
    ensures multiset(Insert(x, s, key)) == multiset{x} + multiset(s)
  {
    if s != [] && key(x) > key(s[0]) {
      InsertPermutes(x, s[1..], key);
      assert s == [s[0]] + s[1..];
    }
  }

  lemma {:induction false} InsertSorts<T>(x: T, s: seq<T>, key: T -> int)
    requires Sorted(s, key)
    ensures Sorted(Insert(x, s, key), key)
  {
    if s != [] && key(x) > key(s[0]) {
      InsertSorts(x, s[1..], key);
      InsertPermutes(x, s[1..], key);
      var rest := Insert(x, s[1..], key);
      forall i | 0 <= i < |rest| ensures key(s[0]) <= key(rest[i]) {
        assert rest[i] in multiset(rest);
        assert rest[i] == x || rest[i] in s[1..];
      }
    }
  }

  lemma {:induction false} SortBySorts<T>(s: seq<T>, key: T -> int)
    ensures Sorted(SortBy(s, key), key)
    ensures multiset(SortBy(s, key)) == multiset(s)
  {
    if s != [] {
      SortBySorts(s[1..], key);
      InsertSorts(s[0], SortBy(s[1..], key), key);
      InsertPermutes(s[0], SortBy(s[1..], key), key);
      assert s == [s[0]] + s[1..];
    }
  }

  /** Strictly increasing keys leave one way to sort. */
  lemma {:induction false} SortedIsUnique<T>(s: seq<T>, t: seq<T>, key: T -> int)
    requires multiset(s) == multiset(t) && Sorted(s, key) && Increasing(t, key)
    ensures s == t
  {
    hide Sorted, Increasing;
    SameLength(s, t);
    if t != [] {
      FirstIsUnique(s, t, key);
      TailOf(s, key);
      TailOf(t, key);
      SortedIsUnique(s[1..], t[1..], key);
      SameCons(s, t);
    }
  }

  lemma SameLength<T>(s: seq<T>, t: seq<T>)
    requires multiset(s) == multiset(t)
    ensures |s| == |t|
  {
    assert |s| == |multiset(s)|;
  }

  lemma SameCons<T>(s: seq<T>, t: seq<T>)
    requires s != [] && t != [] && s[0] == t[0] && s[1..] == t[1..]
    ensures s == t
  {
    assert s == [s[0]] + s[1..] && t == [t[0]] + t[1..];
  }

  lemma FirstIsUnique<T>(s: seq<T>, t: seq<T>, key: T -> int)
    requires s != [] && t != [] && multiset(s) == multiset(t) && Sorted(s, key) && Increasing(t, key)
    ensures s[0] == t[0]
  {
    assert t[0] in multiset(s) && s[0] in multiset(t);
    var i :| 0 <= i < |s| && s[i] == t[0];
    var j :| 0 <= j < |t| && t[j] == s[0];
    assert key(s[0]) <= key(s[i]);
  }

  lemma TailOf<T>(s: seq<T>, key: T -> int)
    requires s != []
    ensures multiset(s[1..]) == multiset(s) - multiset{s[0]}
    ensures Sorted(s, key) ==> Sorted(s[1..], key)
    ensures Increasing(s, key) ==> Increasing(s[1..], key)
  {
    assert s == [s[0]] + s[1..];
  }
}

/** Greedy placement of a request over the free space of the cluster. */
module Placement {
  import opened Common
  import opened Sums
  import opened Sorting

  datatype Target = Target(node: Uuid, size: nat)

  datatype ReservationMode = PreferSelfThenMostFree | PreferMostFree

  function Descending(t: Target): int {
    -(t.size as int)
  }

  predicate HasNode(ts: seq<Target>, node: Uuid) {
    exists i :: 0 <= i < |ts| && ts[i].node == node
  }

  function SizesOf(ts: seq<Target>): seq<nat> {
    if ts == [] then [] else [ts[0].size] + SizesOf(ts[1..])
  }

  ghost predicate DistinctNodes(ts: seq<Target>) {
    forall i, j :: 0 <= i < j < |ts| ==> ts[i].node != ts[j].node
  }

  /** The peers still eligible: those not already in the target list. */
  function Eligible(peers: seq<Target>, targets: seq<Target>): seq<Target> {
    if peers == [] then []
    else if HasNode(targets, peers[0].node) then Eligible(peers[1..], targets)
    else [peers[0]] + Eligible(peers[1..], targets)
  }

  /** Fill peers in the given order until nothing is left to place. */
  function Greedy(peers: seq<Target>, size: nat): (seq<Target>, nat) {
    if peers == [] || size == 0 then ([], size)
    else if size >= peers[0].size then
      var rest := Greedy(peers[1..], size - peers[0].size);
      ([peers[0]] + rest.0, rest.1)
    else ([Target(peers[0].node, size)], 0)
  }

  /** The loop of the node: peers by free space, largest first, skipping nodes already targeted. */
  method PushMostUsed(nodes: seq<Target>, targetList: seq<Target>, size: nat) returns (targets: seq<Target>, rem: nat)
    requires DistinctNodes(nodes)
    ensures var placed := Greedy(Eligible(SortBy(nodes, Descending), targetList), size);
            targets == targetList + placed.0 && rem == placed.1
  {
    var sorted := SortBy(nodes, Descending);
    SortKeepsDistinct(nodes);
    ghost var whole := Greedy(Eligible(sorted, targetList), size);
    targets, rem := targetList, size;
    var i := 0;
    while i < |sorted|
      invariant 0 <= i <= |sorted|
      invariant forall k, t :: i <= k < |sorted| && 0 <= t < |targets| ==>
                  targets[t].node == sorted[k].node ==> HasNode(targetList, sorted[k].node)
      invariant targetList <= targets
      invariant var rest := Greedy(Eligible(sorted[i..], targetList), rem);
                targets + rest.0 == targetList + whole.0 && rest.1 == whole.1
    {
      assert sorted[i..][1..] == sorted[i + 1..];
      if rem == 0 { break; }
      var node := sorted[i];
      if HasNode(targets, node.node) {
        assert HasNode(targetList, node.node);
      } else {
        HasNodeExtends(targetList, targets, node.node);
        if rem >= node.size {
          rem := rem - node.size;
          targets := targets + [node];
        } else {
          targets := targets + [Target(node.node, rem)];
          rem := 0;
        }
      }
      i := i + 1;
    }
  }

  lemma HasNodeExtends(s: seq<Target>, t: seq<Target>, node: Uuid)
    requires s <= t && !HasNode(t, node)
    ensures !HasNode(s, node)
  {
    assert forall i :: 0 <= i < |s| ==> s[i] == t[i];
  }

  lemma SortKeepsDistinct(nodes: seq<Target>)
    requires DistinctNodes(nodes)
    ensures DistinctNodes(SortBy(nodes, Descending))
  {
    var sorted := SortBy(nodes, Descending);
    SortBySorts(nodes, Descending);
    forall i, j | 0 <= i < j < |sorted| ensures sorted[i].node != sorted[j].node {
      if sorted[i].node == sorted[j].node {
        assert sorted[i] in multiset(nodes) && sorted[j] in multiset(nodes);
        if sorted[i] == sorted[j] {
          TwiceInMultiset(sorted, i, j);
          OnceInMultiset(nodes, sorted[i]);
        }
      }
    }
  }

  lemma TwiceInMultiset(s: seq<Target>, i: nat, j: nat)
    requires i < j < |s| && s[i] == s[j]
    ensures multiset(s)[s[i]] >= 2
  {
    assert s == s[..i] + [s[i]] + s[i + 1..j] + [s[j]] + s[j + 1..];
  }

  lemma {:induction false} OnceInMultiset(s: seq<Target>, t: Target)
    requires DistinctNodes(s)
    ensures multiset(s)[t] <= 1
  {
    if s != [] {
      assert s == [s[0]] + s[1..];
      OnceInMultiset(s[1..], t);
      if s[0] == t { assert t !in s[1..]; }
    }
  }

  // ---- resolving a request

  function Peers(nodes: seq<Target>, targets: seq<Target>): seq<Target> {
    Eligible(SortBy(nodes, Descending), targets)
  }

  /** What goes to this node first: everything if it fits, all its free space if not. */
  function OwnShare(self: Uuid, selfFree: nat, size: nat, mode: ReservationMode): seq<Target> {
    match mode
    case PreferSelfThenMostFree => [Target(self, Min(selfFree, size))]
    case PreferMostFree => []
  }

  /** What is left for the peers. */
  function Asked(selfFree: nat, size: nat, mode: ReservationMode): nat {
    match mode
    case PreferSelfThenMostFree => size - Min(selfFree, size)
    case PreferMostFree => size
  }

  /** The target list of a request, and what could not be placed. */
  function Resolved(self: Uuid, selfFree: nat, nodes: seq<Target>, size: nat, mode: ReservationMode)
    : (seq<Target>, nat)
  {
    var own := OwnShare(self, selfFree, size, mode);
    var (placed, rem) := Greedy(Peers(nodes, own), Asked(selfFree, size, mode));
    (own + placed, rem)
  }

  lemma GreedyNothing(peers: seq<Target>)
    ensures Greedy(peers, 0) == ([], 0)
  {
  }

  method ResolveTargets(self: Uuid, selfFree: nat, nodes: seq<Target>, size: nat, mode: ReservationMode)
    returns (targets: seq<Target>, rem: nat)
    requires DistinctNodes(nodes)
    ensures (targets, rem) == Resolved(self, selfFree, nodes, size, mode)
  {
    hide Greedy, Eligible, SortBy;
    targets := [];
    match mode {
      case PreferSelfThenMostFree =>
        if selfFree >= size {
          targets, rem := [Target(self, size)], 0;
          GreedyNothing(Peers(nodes, targets));
          assert targets + [] == targets;
        } else {
          targets := [Target(self, selfFree)];
          assert targets[1..] == [];
          targets, rem := PushMostUsed(nodes, targets, size - selfFree);
        }
      case PreferMostFree =>
        targets, rem := PushMostUsed(nodes, targets, size);
    }
  }

  lemma {:induction false} GreedyConserves(peers: seq<Target>, size: nat)
    ensures var (placed, rem) := Greedy(peers, size);
            && Total(SizesOf(placed)) + rem == size
            && rem == Max(0, size - Total(SizesOf(peers)))
            && |placed| <= |peers|
            && forall i :: 0 <= i < |placed| ==> placed[i].node == peers[i].node && placed[i].size <= peers[i].size
  {
    if peers == [] || size == 0 {
    } else if size >= peers[0].size {
      GreedyConserves(peers[1..], size - peers[0].size);
      var rest := Greedy(peers[1..], size - peers[0].size).0;
      assert SizesOf([peers[0]] + rest) == [peers[0].size] + SizesOf(rest) by {
        assert ([peers[0]] + rest)[1..] == rest;
      }
    } else {
      assert SizesOf([Target(peers[0].node, size)]) == [size] by { assert [Target(peers[0].node, size)][1..] == []; }
      assert Total([size]) == size;
    }
  }

  /** The peers used before the last one were not enough. */
  lemma {:induction false} GreedyNeedsTheLast(peers: seq<Target>, size: nat)
    requires Greedy(peers, size).0 != []
    ensures |SizesOf(peers)| == |peers| && |Greedy(peers, size).0| <= |peers|
    ensures Total(SizesOf(peers)[..|Greedy(peers, size).0| - 1]) < size
  {
    SizesOfAt(peers, 0);
    GreedyConserves(peers, size);
    if size >= peers[0].size {
      var rest := Greedy(peers[1..], size - peers[0].size).0;
      if rest != [] {
        GreedyNeedsTheLast(peers[1..], size - peers[0].size);
        assert SizesOf(peers)[..|rest|] == [peers[0].size] + SizesOf(peers[1..])[..|rest| - 1];
        TotalConcat([peers[0].size], SizesOf(peers[1..])[..|rest| - 1]);
      }
    }
  }

  lemma {:induction false} SizesOfAt(ts: seq<Target>, i: nat)
    ensures |SizesOf(ts)| == |ts|
    ensures i < |ts| ==> SizesOf(ts)[i] == ts[i].size
  {
    if ts != [] { SizesOfAt(ts[1..], if i == 0 then 0 else i - 1); }
  }

  // ---- any choice of peers, and what it can hold

  ghost predicate ChosenFrom(chosen: seq<Target>, peers: seq<Target>) {
    NoDuplicates(chosen) && forall t :: t in chosen ==> t in peers
  }

  /** No choice of `k` peers holds more than the `k` with most free space. */
  lemma {:induction false} TopPeersHoldMost(peers: seq<Target>, chosen: seq<Target>)
    requires ChosenFrom(chosen, peers) && Sorted(peers, Descending)
    ensures |chosen| <= |SizesOf(peers)| == |peers|
    ensures Total(SizesOf(chosen)) <= Total(SizesOf(peers)[..|chosen|])
    decreases |peers|
  {
    SizesOfAt(peers, 0);
    if chosen != [] {
      hide Sorted, SizesOf, ChosenFrom;
      ChosenIn(chosen, peers);
      var n := |peers| - 1;
      var front := peers[..n];
      SizesOfPrefix(peers, n);
      SortedFront(peers);
      if peers[n] in chosen {
        var j :| 0 <= j < |chosen| && chosen[j] == peers[n];
        var fewer := chosen[..j] + chosen[j + 1..];
        DropOne(peers, chosen, j);
        TopPeersHoldMost(front, fewer);
        OneMore(SizesOf(peers), n, |fewer|);
        SizesOfAt(peers, |fewer|);
      } else {
        InFront(peers, chosen);
        TopPeersHoldMost(front, chosen);
        OneMore(SizesOf(peers), n, |chosen|);
      }
    }
  }

  lemma ChosenIn(chosen: seq<Target>, peers: seq<Target>)
    requires ChosenFrom(chosen, peers) && chosen != []
    ensures peers != [] && forall t :: t in chosen ==> t in peers
    ensures peers[|peers| - 1] !in chosen ==> ChosenFrom(chosen, peers[..|peers| - 1])
  {
    assert chosen[0] in peers;
    if peers[|peers| - 1] !in chosen { InFront(peers, chosen); }
  }

  lemma OneMore(sizes: seq<nat>, n: nat, c: nat)
    requires c <= n < |sizes|
    ensures sizes[..n][..c] == sizes[..c] && Total(sizes[..c + 1]) == Total(sizes[..c]) + sizes[c]
  {
    TotalStep(sizes, c);
  }

  lemma SortedFront(peers: seq<Target>)
    requires peers != [] && Sorted(peers, Descending)
    ensures Sorted(peers[..|peers| - 1], Descending)
    ensures forall i :: 0 <= i < |peers| ==> peers[|peers| - 1].size <= peers[i].size
  {
    forall i | 0 <= i < |peers| ensures peers[|peers| - 1].size <= peers[i].size {
      assert i < |peers| - 1 ==> Descending(peers[i]) <= Descending(peers[|peers| - 1]);
    }
  }

  lemma InFront(peers: seq<Target>, chosen: seq<Target>)
    requires peers != [] && peers[|peers| - 1] !in chosen && forall t :: t in chosen ==> t in peers
    ensures forall t :: t in chosen ==> t in peers[..|peers| - 1]
  {
    forall t | t in chosen ensures t in peers[..|peers| - 1] {
      var k :| 0 <= k < |peers| && peers[k] == t;
      assert peers[..|peers| - 1][k] == t;
    }
  }

  lemma DropOne(peers: seq<Target>, chosen: seq<Target>, j: nat)
    requires ChosenFrom(chosen, peers) && peers != [] && j < |chosen| && chosen[j] == peers[|peers| - 1]
    ensures var fewer := chosen[..j] + chosen[j + 1..];
            && ChosenFrom(fewer, peers[..|peers| - 1])
            && Total(SizesOf(chosen)) == Total(SizesOf(fewer)) + chosen[j].size
  {
    var fewer := chosen[..j] + chosen[j + 1..];
    assert forall k :: 0 <= k < |fewer| ==> fewer[k] == chosen[if k < j then k else k + 1];
    assert NoDuplicates(fewer);
    assert forall t :: t in fewer ==> t in chosen && t != chosen[j];
    InFront(peers, fewer);
    assert chosen == chosen[..j] + ([chosen[j]] + chosen[j + 1..]);
    SizesOfConcat(chosen[..j], [chosen[j]] + chosen[j + 1..]);
    SizesOfConcat([chosen[j]], chosen[j + 1..]);
    SizesOfConcat(chosen[..j], chosen[j + 1..]);
    TotalConcat(SizesOf(chosen[..j]), SizesOf([chosen[j]] + chosen[j + 1..]));
    TotalConcat(SizesOf([chosen[j]]), SizesOf(chosen[j + 1..]));
    TotalConcat(SizesOf(chosen[..j]), SizesOf(chosen[j + 1..]));
    SizeOfOne(chosen[j]);
  }

  lemma SizeOfOne(t: Target)
    ensures Total(SizesOf([t])) == t.size
  {
    assert [t][1..] == [] && [t.size][1..] == [];
  }

  lemma {:induction false} SizesOfPrefix(ts: seq<Target>, n: nat)
    requires n <= |ts|
    ensures |SizesOf(ts)| == |ts| && SizesOf(ts[..n]) == SizesOf(ts)[..n]
  {
    SizesOfAt(ts, 0);
    if n > 0 {
      SizesOfPrefix(ts[1..], n - 1);
      assert ts[..n][1..] == ts[1..][..n - 1];
    }
  }

  lemma {:induction false} EligibleKeepsOrder(peers: seq<Target>, targets: seq<Target>)
    requires DistinctNodes(peers) && Sorted(peers, Descending)
    ensures var e := Eligible(peers, targets);
            DistinctNodes(e) && Sorted(e, Descending)
  {
    if peers != [] {
      hide HasNode, Sorted, DistinctNodes;
      FirstIsLargest(peers);
      EligibleKeepsOrder(peers[1..], targets);
      EligibleAre(peers[1..], targets);
      PutInFront(peers[0], Eligible(peers[1..], targets));
    } else {
      assert Eligible(peers, targets) == peers;
    }
  }

  lemma FirstIsLargest(peers: seq<Target>)
    requires peers != [] && DistinctNodes(peers) && Sorted(peers, Descending)
    ensures DistinctNodes(peers[1..]) && Sorted(peers[1..], Descending)
    ensures forall t :: t in peers[1..] ==> t.node != peers[0].node && Descending(peers[0]) <= Descending(t)
  {
    forall t | t in peers[1..] ensures t.node != peers[0].node && Descending(peers[0]) <= Descending(t) {
      var k :| 0 <= k < |peers[1..]| && peers[1..][k] == t;
      assert peers[k + 1] == t;
    }
  }

  lemma PutInFront(x: Target, rest: seq<Target>)
    requires DistinctNodes(rest) && Sorted(rest, Descending)
    requires forall t :: t in rest ==> t.node != x.node && Descending(x) <= Descending(t)
    ensures DistinctNodes([x] + rest) && Sorted([x] + rest, Descending)
  {
    assert forall i :: 0 <= i < |rest| ==> rest[i] in rest;
  }

  lemma {:induction false} EligibleAre(peers: seq<Target>, targets: seq<Target>)
    ensures forall t :: t in Eligible(peers, targets) <==> t in peers && !HasNode(targets, t.node)
  {
    if peers != [] {
      hide HasNode;
      EligibleAre(peers[1..], targets);
      assert forall t :: t in peers <==> t == peers[0] || t in peers[1..];
    }
  }

  /** Free space of the peers, in whatever order they are listed. */
  lemma {:induction false} SortKeepsCapacity(nodes: seq<Target>, targets: seq<Target>)
    ensures Total(SizesOf(Peers(nodes, targets))) == Total(SizesOf(Eligible(nodes, targets)))
  {
    if nodes != [] {
      SortKeepsCapacity(nodes[1..], targets);
      InsertKeepsCapacity(nodes[0], SortBy(nodes[1..], Descending), targets);
      ConsCapacity(nodes[0], nodes[1..], targets);
      assert [nodes[0]] + nodes[1..] == nodes;
    }
  }

  lemma ConsCapacity(x: Target, s: seq<Target>, targets: seq<Target>)
    ensures Total(SizesOf(Eligible([x] + s, targets)))
            == (if HasNode(targets, x.node) then 0 else x.size) + Total(SizesOf(Eligible(s, targets)))
  {
    assert ([x] + s)[1..] == s;
    var e := Eligible(s, targets);
    assert ([x] + e)[1..] == e;
    assert ([x.size] + SizesOf(e))[1..] == SizesOf(e);
  }

  lemma {:induction false} InsertKeepsCapacity(x: Target, s: seq<Target>, targets: seq<Target>)
    ensures Total(SizesOf(Eligible(Insert(x, s, Descending), targets)))
            == (if HasNode(targets, x.node) then 0 else x.size) + Total(SizesOf(Eligible(s, targets)))
  {
    if s == [] || Descending(x) <= Descending(s[0]) {
      ConsCapacity(x, s, targets);
    } else {
      InsertKeepsCapacity(x, s[1..], targets);
      ConsCapacity(s[0], Insert(x, s[1..], Descending), targets);
      ConsCapacity(s[0], s[1..], targets);
      assert [s[0]] + s[1..] == s;
    }
  }

  // ---- the main results

  /** Free space of the nodes other than `self`. */
  function FreeElsewhere(nodes: seq<Target>, self: Uuid): nat {
    if nodes == [] then 0
    else (if nodes[0].node == self then 0 else nodes[0].size) + FreeElsewhere(nodes[1..], self)
  }

  /** What the cluster can take. */
  function Capacity(self: Uuid, selfFree: nat, nodes: seq<Target>, mode: ReservationMode): nat {
    match mode
    case PreferSelfThenMostFree => selfFree + FreeElsewhere(nodes, self)
    case PreferMostFree => Total(SizesOf(nodes))
  }

  lemma {:induction false} EligibleCapacity(nodes: seq<Target>, self: Uuid, share: nat)
    ensures Total(SizesOf(Eligible(nodes, [Target(self, share)]))) == FreeElsewhere(nodes, self)
    ensures Total(SizesOf(Eligible(nodes, []))) == Total(SizesOf(nodes))
  {
    if nodes != [] {
      EligibleCapacity(nodes[1..], self, share);
      ConsCapacity(nodes[0], nodes[1..], [Target(self, share)]);
      ConsCapacity(nodes[0], nodes[1..], []);
      assert [nodes[0]] + nodes[1..] == nodes;
      assert HasNode([Target(self, share)], nodes[0].node) <==> nodes[0].node == self by {
        assert [Target(self, share)][0].node == self;
      }
    }
  }

  /** Conservation and exact shortfall: the targets plus the remainder are the request, and the
      remainder is what the request exceeds the free space of the cluster by. */
  lemma PlacementConserves(self: Uuid, selfFree: nat, nodes: seq<Target>, size: nat, mode: ReservationMode)
    ensures var (targets, rem) := Resolved(self, selfFree, nodes, size, mode);
            && Total(SizesOf(targets)) + rem == size
            && rem == Max(0, size - Capacity(self, selfFree, nodes, mode))
  {
    hide Greedy, Eligible, SortBy;
    var own := OwnShare(self, selfFree, size, mode);
    assert own != [] ==> own[1..] == [];
    var peers := Peers(nodes, own);
    GreedyConserves(peers, Asked(selfFree, size, mode));
    SortKeepsCapacity(nodes, own);
    EligibleCapacity(nodes, self, Min(selfFree, size));
    var placed := Greedy(peers, Asked(selfFree, size, mode)).0;
    SizesOfConcat(own, placed);
    TotalConcat(SizesOf(own), SizesOf(placed));
    if mode.PreferSelfThenMostFree? { SizeOfOne(own[0]); }
  }

  /** The node is offered what it has: the first target is this node, if it is preferred, with its free
      space; any other is a listed peer. */
  ghost predicate Offered(self: Uuid, selfFree: nat, nodes: seq<Target>, mode: ReservationMode, i: nat, t: Target) {
    if i == 0 && mode.PreferSelfThenMostFree? then t.node == self && t.size <= selfFree
    else exists n :: n in nodes && n.node == t.node && t.size <= n.size
  }

  /** No node is asked twice, none beyond its free space, and none that is not in the cluster. */
  lemma PlacementFits(self: Uuid, selfFree: nat, nodes: seq<Target>, size: nat, mode: ReservationMode)
    requires DistinctNodes(nodes)
    ensures var targets := Resolved(self, selfFree, nodes, size, mode).0;
            && DistinctNodes(targets)
            && (mode.PreferSelfThenMostFree? ==> targets != [])
            && forall i :: 0 <= i < |targets| ==> Offered(self, selfFree, nodes, mode, i, targets[i])
  {
    hide Greedy, Eligible, SortBy;
    var own := OwnShare(self, selfFree, size, mode);
    var peers := Peers(nodes, own);
    var placed := Greedy(peers, Asked(selfFree, size, mode)).0;
    PeersAreOthers(nodes, own);
    GreedyConserves(peers, Asked(selfFree, size, mode));
    forall i | 0 <= i < |placed|
      ensures exists n :: n in nodes && n.node == placed[i].node && placed[i].size <= n.size
    {
      assert peers[i] in peers;
    }
    forall i, j | 0 <= i < |own| && 0 <= j < |placed| ensures own[i].node != placed[j].node {
      assert peers[j] in peers;
    }
  }

  /** The peers are the listed nodes not yet targeted, largest first. */
  lemma PeersAreOthers(nodes: seq<Target>, own: seq<Target>)
    requires DistinctNodes(nodes)
    ensures DistinctNodes(Peers(nodes, own)) && Sorted(Peers(nodes, own), Descending)
    ensures forall t :: t in Peers(nodes, own) <==> t in nodes && !HasNode(own, t.node)
  {
    hide Eligible, SortBy, Sorted, DistinctNodes, HasNode;
    SortKeepsDistinct(nodes);
    SortBySorts(nodes, Descending);
    EligibleKeepsOrder(SortBy(nodes, Descending), own);
    EligibleAre(SortBy(nodes, Descending), own);
    forall t ensures t in SortBy(nodes, Descending) <==> t in nodes {
      assert t in multiset(SortBy(nodes, Descending)) <==> t in multiset(nodes);
    }
  }

  lemma {:induction false} SizesOfConcat(s: seq<Target>, t: seq<Target>)
    ensures SizesOf(s + t) == SizesOf(s) + SizesOf(t)
  {
    if s == [] {
      assert s + t == t;
    } else {
      assert (s + t)[1..] == s[1..] + t;
      SizesOfConcat(s[1..], t);
    }
  }

  /** When everything is placed, no choice of fewer peers could hold what this node does not. */
  lemma PlacementIsMinimal(self: Uuid, selfFree: nat, nodes: seq<Target>, size: nat, mode: ReservationMode,
                           chosen: seq<Target>)
    requires DistinctNodes(nodes) && Resolved(self, selfFree, nodes, size, mode).1 == 0
    requires ChosenFrom(chosen, nodes)
    requires mode.PreferSelfThenMostFree? ==> forall t :: t in chosen ==> t.node != self
    ensures var targets := Resolved(self, selfFree, nodes, size, mode).0;
            match mode
            case PreferSelfThenMostFree => 1 + |chosen| < |targets| ==> selfFree + Total(SizesOf(chosen)) < size
            case PreferMostFree => |chosen| < |targets| ==> Total(SizesOf(chosen)) < size
  {
    hide SortBy, Greedy, SizesOf, Total, Eligible, Sorted;
    var own, asked := OwnShare(self, selfFree, size, mode), Asked(selfFree, size, mode);
    var peers := Peers(nodes, own);
    var placed := Greedy(peers, asked).0;
    PeersAreOthers(nodes, own);
    if |chosen| < |placed| {
      assert ChosenFrom(chosen, peers);
      TopPeersHoldMost(peers, chosen);
      GreedyNeedsTheLast(peers, asked);
      var k, c := |placed| - 1, |chosen|;
      assert SizesOf(peers)[..k] == SizesOf(peers)[..c] + SizesOf(peers)[c..k];
      TotalConcat(SizesOf(peers)[..c], SizesOf(peers)[c..k]);
    }
  }

  /** In a complete placement only this node's own share can be empty, and it is exactly when the node is
      full or the request is empty. */
  lemma EmptyTargetIsOwn(self: Uuid, selfFree: nat, nodes: seq<Target>, size: nat, mode: ReservationMode)
    requires DistinctNodes(nodes) && Resolved(self, selfFree, nodes, size, mode).1 == 0
    ensures var targets := Resolved(self, selfFree, nodes, size, mode).0;
            forall i :: 0 <= i < |targets| ==>
              (targets[i].size == 0 <==>
               i == 0 && mode.PreferSelfThenMostFree? && (selfFree == 0 || size == 0))
  {
    hide SortBy, Greedy, Eligible, Sorted;
    var own := OwnShare(self, selfFree, size, mode);
    PeersAreOthers(nodes, own);
    PlacedArePositive(Peers(nodes, own), Asked(selfFree, size, mode));
  }

  lemma {:induction false} PlacedArePositive(peers: seq<Target>, size: nat)
    requires Sorted(peers, Descending) && Greedy(peers, size).1 == 0
    ensures forall i :: 0 <= i < |Greedy(peers, size).0| ==> Greedy(peers, size).0[i].size > 0
  {
    if peers != [] && size > 0 {
      if peers[0].size == 0 {
        GreedyConserves(peers, size);
        AllZero(peers);
      } else if size >= peers[0].size {
        PlacedArePositive(peers[1..], size - peers[0].size);
      }
    }
  }

  lemma {:induction false} AllZero(peers: seq<Target>)
    requires Sorted(peers, Descending) && (peers != [] ==> peers[0].size == 0)
    ensures Total(SizesOf(peers)) == 0
  {
    if peers != [] {
      assert |peers| > 1 ==> Descending(peers[0]) <= Descending(peers[1]);
      AllZero(peers[1..]);
    }
  }
}
