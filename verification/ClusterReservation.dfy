/** Reserving one file over several nodes: all the reservations are made, or those already made are
    cancelled; then the fragments become an unordered set of chunks that remembers the order. */
module ClusterReservation {
  import opened Common
  import opened Sums
  import opened LedgerModel
  import opened Placement
  import opened Sorting

  datatype Fragment = Fragment(node: Uuid, chunkId: Uuid, size: nat)

  /** What a request to one node does to its ledger. With `autoStart` a remote node also opens the file. */
  function ReserveAt(s: Ledger, size: nat, ext: ExtMeta, durable: bool, id: Uuid, now: nat, metaOk: bool, opens: bool)
    : (Ledger, IoResult<Uuid>)
  {
    var (t, r) := TryReserve(s, size, ext, durable, id, now, metaOk);
    if r.Ok? && opens then (WriteFragment(t, id, false, 0, 0), r) else (t, r)
  }

  /** Cancelling a reservation that was just made gives back the very same ledger. */
  lemma CancelUndoesReserve(s: Ledger, size: nat, ext: ExtMeta, durable: bool, id: Uuid, now: nat, metaOk: bool,
      opens: bool)
    requires Fresh(s, id)
    ensures var (t, r) := ReserveAt(s, size, ext, durable, id, now, metaOk, opens);
            if r.Ok? then CancelReservation(t, id, true).0 == s else t == s
  {
  }

  /** It is reported as a success exactly when the file had been opened, which is when the request asked for it. */
  lemma CancelSucceedsIffOpened(s: Ledger, size: nat, ext: ExtMeta, durable: bool, id: Uuid, now: nat, metaOk: bool,
      opens: bool)
    requires Fresh(s, id)
    ensures var (t, r) := ReserveAt(s, size, ext, durable, id, now, metaOk, opens);
            r.Ok? ==>
              && (CancelReservation(t, id, true).1.Ok? <==> opens)
              && (Uncommitted(id) in t.disk <==> opens)
  {
    hide FetchSub;
  }

  /** The node grants the space: it answers, is not paused, and has room. */
  predicate Grants(s: Ledger, size: nat, answers: bool) {
    answers && !s.paused && (size == 0 || s.physical + s.reserved + size <= s.maxPhysical)
  }

  class Cluster {
    const self: Uuid
    var ledgers: map<Uuid, Ledger>

    constructor (self: Uuid, ledgers: map<Uuid, Ledger>)
      ensures this.self == self && this.ledgers == ledgers
    {
      this.self, this.ledgers := self, ledgers;
    }

    /** `answering` are the nodes that can be reached and whose metadata store works; `delivered` the
        remote nodes a cancellation gets through to. */
    method ReserveChunks(targets: seq<Target>, ids: seq<Uuid>, ext: ExtMeta, durable: bool, autoStart: bool, now: nat,
                         answering: set<Uuid>, delivered: set<Uuid>)
      returns (r: Option<seq<Fragment>>)
      requires |ids| == |targets| && DistinctNodes(targets)
      requires forall i :: 0 <= i < |targets| ==> targets[i].node in ledgers && Fresh(ledgers[targets[i].node], ids[i])
      modifies this
      ensures ledgers.Keys == old(ledgers).Keys
      // all or nothing: the request succeeds exactly when every target grants its share
      ensures r.Some? <==> forall i :: 0 <= i < |targets| ==>
                Grants(old(ledgers)[targets[i].node], targets[i].size, targets[i].node in answering)
      // a failed request leaves this node, and every node its cancellation reached, exactly as it was
      ensures r == None ==> forall n :: n in ledgers && (n == self || n in delivered) ==> ledgers[n] == old(ledgers)[n]
      // and any other node at most with the reservation that could not be cancelled
      ensures r == None ==> forall n :: n in ledgers ==>
                ledgers[n] == old(ledgers)[n] || LeftOver(old(ledgers)[n], ledgers[n], n, targets, ids, durable, now)
      // nodes outside the target list are never touched
      ensures forall n :: n in ledgers && n !in Nodes(targets) ==> ledgers[n] == old(ledgers)[n]
      // success: every target holds its new reservation
      ensures r.Some? ==> |r.value| == |targets|
      ensures r.Some? ==> forall i :: 0 <= i < |targets| ==> r.value[i] == Fragment(targets[i].node, ids[i],
          targets[i].size)
      ensures r.Some? ==> forall i :: 0 <= i < |targets| ==>
                Reserves(old(ledgers)[targets[i].node], ledgers[targets[i].node], targets[i], ids[i], durable, now)
    {
      hide ReserveAt, Reserves, Fresh, Acquired, Nodes, Grants, LeftOver;
      ghost var before := ledgers;
      var fragments: seq<Fragment> := [];
      var i := 0;
      AcquiredNone(before, targets, ids, durable, now);
      while i < |targets|
        invariant 0 <= i <= |targets| == |ids| && |fragments| == i
        invariant forall k :: 0 <= k < i ==> fragments[k] == Fragment(targets[k].node, ids[k], targets[k].size)
        invariant Acquired(before, ledgers, targets, ids, i, durable, now)
        invariant forall k :: 0 <= k < i ==>
                    Grants(before[targets[k].node], targets[k].size, targets[k].node in answering)
      {
        var t := targets[i];
        AcquiredNext(before, ledgers, targets, ids, i, durable, now);
        var opens := autoStart && t.node != self;
        ReserveAtReserves(ledgers[t.node], t, ext, durable, ids[i], now, t.node in answering, opens);
        var (ledger, res) := ReserveAt(ledgers[t.node], t.size, ext, durable, ids[i], now, t.node in answering, opens);
        if res.Err? {
          Rollback(before, targets, ids, fragments, durable, now, delivered);
          return None;
        }
        AcquiredStep(before, ledgers, targets, ids, i, durable, now, ledger);
        ledgers := ledgers[t.node := ledger];
        fragments := fragments + [Fragment(t.node, ids[i], t.size)];
        i := i + 1;
      }
      AcquiredAll(before, ledgers, targets, ids, i, durable, now);
      return Some(fragments);
    }

    /** A whole request: place it, a second time with a refreshed list of peers if it does not fit the first,
        reserve it on the targets, and record the chunks. `draw` gives the identifiers the nodes draw. */
    method ReserveFile(size: nat, mode: ReservationMode, nodes: seq<Target>, refreshed: Option<seq<Target>>,
                       draw: nat -> Uuid, ext: ExtMeta, durable: bool, autoStart: bool, now: nat,
                       answering: set<Uuid>, delivered: set<Uuid>)
      returns (r: Option<seq<FileChunk>>)
      requires self in ledgers && Peered(ledgers, nodes) && (refreshed.Some? ==> Peered(ledgers, refreshed.value))
      requires forall n, i: nat :: n in ledgers ==> Fresh(ledgers[n], draw(i))
      modifies this
      ensures ledgers.Keys == old(ledgers).Keys
      // it succeeds exactly when the request fits one of the two lists and every target grants its share
      ensures var targets := TargetList(self, Available(old(ledgers)[self]), nodes, refreshed, size, mode);
              r.Some? <==> targets.Some? && forall t :: t in targets.value ==>
                t.node in old(ledgers) && Grants(old(ledgers)[t.node], t.size, t.node in answering)
      // success: however the recorded set is listed, sorting it gives reserved chunks that make up the request
      ensures r.Some? && |r.value| <= 128 ==> forall listed :: multiset(listed) == multiset(r.value) ==>
                MakeUp(ledgers, SortBy(listed, OrderOf), size, durable, now)
      // failure: this node, and every node a cancellation reached, is exactly as it was
      ensures r == None ==> forall n :: n in ledgers && (n == self || n in delivered) ==> ledgers[n] == old(ledgers)[n]
    {
      hide Resolved, Fresh, Peered, Grants, DistinctNodes, MakeUp;
      var free := Available(ledgers[self]);
      assert DistinctNodes(nodes) by { PeeredAre(ledgers, nodes); }
      var targets, rem := ResolveTargets(self, free, nodes, size, mode);
      if rem > 0 {
        if refreshed == None { return None; }
        assert DistinctNodes(refreshed.value) by { PeeredAre(ledgers, refreshed.value); }
        targets, rem := ResolveTargets(self, free, refreshed.value, size, mode);
        if rem > 0 { return None; }
        TargetsAreKnown(self, free, refreshed.value, size, mode, ledgers);
      } else {
        TargetsAreKnown(self, free, nodes, size, mode, ledgers);
      }
      var ids := seq(|targets|, i requires 0 <= i < |targets| => draw(i));
      assert TargetList(self, free, nodes, refreshed, size, mode) == Some(targets);
      assert forall i :: 0 <= i < |targets| ==> targets[i] in targets;
      var fragments := ReserveChunks(targets, ids, ext, durable, autoStart, now, answering, delivered);
      if fragments == None { return None; }
      ChunksMakeUp(targets, ids, fragments.value, ledgers, durable, now);
      return Some(ToFileChunks(fragments.value));
    }

    /** Cancels the fragments acquired so far, in order. */
    method Rollback(ghost before: map<Uuid, Ledger>, ghost targets: seq<Target>, ghost ids: seq<Uuid>,
                    fragments: seq<Fragment>, ghost durable: bool, ghost now: nat, delivered: set<Uuid>)
      requires |fragments| <= |targets| == |ids| && DistinctNodes(targets)
      requires forall k :: 0 <= k < |targets| ==> targets[k].node in before
      requires forall k :: 0 <= k < |fragments| ==> fragments[k] == Fragment(targets[k].node, ids[k], targets[k].size)
      requires Acquired(before, ledgers, targets, ids, |fragments|, durable, now)
      modifies this
      ensures ledgers.Keys == before.Keys
      ensures forall n :: n in ledgers && (n == self || n in delivered) ==> ledgers[n] == before[n]
      ensures forall n :: n in ledgers && n !in Nodes(targets) ==> ledgers[n] == before[n]
      ensures forall n :: n in ledgers ==>
                ledgers[n] == before[n] || LeftOver(before[n], ledgers[n], n, targets, ids, durable, now)
    {
      hide Restoring, Acquired, DistinctNodes, Nodes, LeftOver, LedgerModel.CancelReservation;
      var j := 0;
      RestoringStarts(before, ledgers, targets, ids, |fragments|, durable, now, Reached(delivered));
      while j < |fragments|
        invariant 0 <= j <= |fragments|
        invariant Restoring(before, ledgers, targets, ids, j, |fragments|, durable, now, Reached(delivered))
      {
        var f := fragments[j];
        RestoringNext(before, ledgers, targets, ids, j, |fragments|, durable, now, Reached(delivered));
        RestoringStep(before, ledgers, targets, ids, j, |fragments|, durable, now, Reached(delivered));
        if f.node == self || f.node in delivered {
          ledgers := ledgers[f.node := CancelReservation(ledgers[f.node], f.chunkId, true).0];
        }
        j := j + 1;
      }
      RestoringEnds(before, ledgers, targets, ids, j, durable, now, Reached(delivered));
    }

    ghost function Reached(delivered: set<Uuid>): set<Uuid> {
      delivered + {self}
    }
  }

  /** Each peer is listed once, and is a node of the cluster. */
  ghost predicate Peered(ledgers: map<Uuid, Ledger>, nodes: seq<Target>) {
    DistinctNodes(nodes) && forall t :: t in nodes ==> t.node in ledgers
  }

  lemma PeeredAre(ledgers: map<Uuid, Ledger>, nodes: seq<Target>)
    requires Peered(ledgers, nodes)
    ensures DistinctNodes(nodes)
  {
  }

  /** The targets of the first of the two lists of peers that the request fits. */
  function TargetList(self: Uuid, free: nat, nodes: seq<Target>, refreshed: Option<seq<Target>>, size: nat,
                      mode: ReservationMode): Option<seq<Target>>
  {
    var (first, rem) := Resolved(self, free, nodes, size, mode);
    if rem == 0 then Some(first)
    else if refreshed == None then None
    else var (second, left) := Resolved(self, free, refreshed.value, size, mode);
         if left == 0 then Some(second) else None
  }

  /** A complete placement asks nodes of the cluster, each once, for the request in total. */
  lemma TargetsAreKnown(self: Uuid, free: nat, nodes: seq<Target>, size: nat, mode: ReservationMode,
                        ledgers: map<Uuid, Ledger>)
    requires self in ledgers && Peered(ledgers, nodes) && Resolved(self, free, nodes, size, mode).1 == 0
    ensures var targets := Resolved(self, free, nodes, size, mode).0;
            && DistinctNodes(targets) && Total(SizesOf(targets)) == size
            && forall t :: t in targets ==> t.node in ledgers
  {
    hide Resolved;
    PlacementConserves(self, free, nodes, size, mode);
    PlacementFits(self, free, nodes, size, mode);
  }

  function ChunkSizes(chunks: seq<FileChunk>): seq<nat> {
    if chunks == [] then [] else [chunks[0].chunkSize] + ChunkSizes(chunks[1..])
  }

  /** The chunks are on different nodes, each of which holds a reservation of the chunk's size under its
      identifier, and their sizes add up to the request. */
  ghost predicate MakeUp(ledgers: map<Uuid, Ledger>, chunks: seq<FileChunk>, size: nat, durable: bool, now: nat) {
    && Total(ChunkSizes(chunks)) == size
    && (forall i, j :: 0 <= i < j < |chunks| ==> chunks[i].serverId != chunks[j].serverId)
    && forall c :: c in chunks ==>
         && c.serverId in ledgers && c.chunkId in ledgers[c.serverId].reservations
         && ledgers[c.serverId].reservations[c.chunkId] == Reservation(c.chunkSize, 0, durable, now)
  }

  lemma ChunksMakeUp(targets: seq<Target>, ids: seq<Uuid>, fragments: seq<Fragment>, ledgers: map<Uuid, Ledger>,
                     durable: bool, now: nat)
    requires |fragments| == |targets| == |ids| && DistinctNodes(targets)
    requires forall i :: 0 <= i < |targets| ==> fragments[i] == Fragment(targets[i].node, ids[i], targets[i].size)
    requires forall i :: 0 <= i < |targets| ==>
               && targets[i].node in ledgers && ids[i] in ledgers[targets[i].node].reservations
               && ledgers[targets[i].node].reservations[ids[i]] == Reservation(targets[i].size, 0, durable, now)
    ensures |fragments| <= 128 ==> forall listed :: multiset(listed) == multiset(ToFileChunks(fragments)) ==>
              MakeUp(ledgers, SortBy(listed, OrderOf), Total(SizesOf(targets)), durable, now)
  {
    forall listed | |fragments| <= 128 && multiset(listed) == multiset(ToFileChunks(fragments))
      ensures MakeUp(ledgers, SortBy(listed, OrderOf), Total(SizesOf(targets)), durable, now)
    {
      hide SortBy;
      SortRestoresFragmentsIffFew(fragments, listed);
      var chunks := SortBy(listed, OrderOf);
      ChunkSizesAre(targets, chunks);
    }
  }

  lemma {:induction false} ChunkSizesAre(targets: seq<Target>, chunks: seq<FileChunk>)
    requires |chunks| == |targets| && forall i :: 0 <= i < |targets| ==> chunks[i].chunkSize == targets[i].size
    ensures ChunkSizes(chunks) == SizesOf(targets)
  {
    if targets != [] { ChunkSizesAre(targets[1..], chunks[1..]); }
  }

  /** The first `i` targets hold their reservation, every other node is as it was. */
  ghost predicate Acquired(before: map<Uuid, Ledger>, ledgers: map<Uuid, Ledger>, targets: seq<Target>,
      ids: seq<Uuid>, i: nat, durable: bool, now: nat)
    requires i <= |targets| == |ids| && forall k :: 0 <= k < |targets| ==> targets[k].node in before
  {
    && ledgers.Keys == before.Keys
    && (forall k :: 0 <= k < i ==>
          Reserves(before[targets[k].node], ledgers[targets[k].node], targets[k], ids[k], durable, now))
    && (forall n :: n in ledgers && n !in Nodes(targets[..i]) ==> ledgers[n] == before[n])
  }

  lemma AcquiredNone(before: map<Uuid, Ledger>, targets: seq<Target>, ids: seq<Uuid>, durable: bool, now: nat)
    requires |targets| == |ids| && forall k :: 0 <= k < |targets| ==> targets[k].node in before
    ensures Acquired(before, before, targets, ids, 0, durable, now)
  {
  }

  lemma AcquiredNext(before: map<Uuid, Ledger>, ledgers: map<Uuid, Ledger>, targets: seq<Target>, ids: seq<Uuid>,
      i: nat, durable: bool, now: nat)
    requires i < |targets| == |ids| && forall k :: 0 <= k < |targets| ==> targets[k].node in before
    requires DistinctNodes(targets) && Acquired(before, ledgers, targets, ids, i, durable, now)
    ensures targets[i].node in ledgers && ledgers[targets[i].node] == before[targets[i].node]
  {
    hide Reserves;
  }

  lemma AcquiredStep(before: map<Uuid, Ledger>, ledgers: map<Uuid, Ledger>, targets: seq<Target>, ids: seq<Uuid>,
      i: nat, durable: bool, now: nat, ledger: Ledger)
    requires i < |targets| == |ids| && forall k :: 0 <= k < |targets| ==> targets[k].node in before
    requires DistinctNodes(targets) && Acquired(before, ledgers, targets, ids, i, durable, now)
    requires Reserves(before[targets[i].node], ledger, targets[i], ids[i], durable, now)
    ensures Acquired(before, ledgers[targets[i].node := ledger], targets, ids, i + 1, durable, now)
  {
    hide Reserves;
    var t := targets[i];
    assert targets[..i + 1] == targets[..i] + [t];
    assert forall x :: x in targets[..i] ==> x in targets[..i + 1];
    assert t in targets[..i + 1];
  }

  lemma AcquiredAll(before: map<Uuid, Ledger>, ledgers: map<Uuid, Ledger>, targets: seq<Target>, ids: seq<Uuid>,
      i: nat, durable: bool, now: nat)
    requires i == |targets| == |ids| && forall k :: 0 <= k < |targets| ==> targets[k].node in before
    requires Acquired(before, ledgers, targets, ids, i, durable, now)
    ensures ledgers.Keys == before.Keys
    ensures forall n :: n in ledgers && n !in Nodes(targets) ==> ledgers[n] == before[n]
    ensures forall k :: 0 <= k < i ==>
              Reserves(before[targets[k].node], ledgers[targets[k].node], targets[k], ids[k], durable, now)
  {
    hide Reserves;
    assert targets[..i] == targets;
  }

  /** One of the targets is this node, which still holds its reservation. */
  ghost predicate LeftOver(before: Ledger, after: Ledger, n: Uuid, targets: seq<Target>, ids: seq<Uuid>, durable: bool,
      now: nat)
    requires |ids| == |targets|
  {
    exists i :: 0 <= i < |targets| && targets[i].node == n && Reserves(before, after, targets[i], ids[i], durable, now)
  }

  /** Of the first `n` targets those from `j` on still hold their reservation, those before `j` are as
      they were if the cancellation reached them; every other node is as it was. */
  ghost predicate Restoring(before: map<Uuid, Ledger>, ledgers: map<Uuid, Ledger>, targets: seq<Target>, ids: seq<Uuid>,
                            j: nat, n: nat, durable: bool, now: nat, reached: set<Uuid>)
    requires j <= n <= |targets| == |ids| && forall k :: 0 <= k < |targets| ==> targets[k].node in before
  {
    && ledgers.Keys == before.Keys
    && (forall k :: j <= k < n ==>
          Reserves(before[targets[k].node], ledgers[targets[k].node], targets[k], ids[k], durable, now))
    && (forall k :: 0 <= k < j ==>
          if targets[k].node in reached then ledgers[targets[k].node] == before[targets[k].node]
          else Reserves(before[targets[k].node], ledgers[targets[k].node], targets[k], ids[k], durable, now))
    && (forall x :: x in ledgers && x !in Nodes(targets[..n]) ==> ledgers[x] == before[x])
  }

  lemma RestoringStarts(before: map<Uuid, Ledger>, ledgers: map<Uuid, Ledger>, targets: seq<Target>, ids: seq<Uuid>,
                        n: nat, durable: bool, now: nat, reached: set<Uuid>)
    requires n <= |targets| == |ids| && forall k :: 0 <= k < |targets| ==> targets[k].node in before
    requires Acquired(before, ledgers, targets, ids, n, durable, now)
    ensures Restoring(before, ledgers, targets, ids, 0, n, durable, now, reached)
  {
    hide Reserves, Nodes;
  }

  lemma RestoringStep(before: map<Uuid, Ledger>, ledgers: map<Uuid, Ledger>, targets: seq<Target>, ids: seq<Uuid>,
                      j: nat, n: nat, durable: bool, now: nat, reached: set<Uuid>)
    requires j < n <= |targets| == |ids| && forall k :: 0 <= k < |targets| ==> targets[k].node in before
    requires DistinctNodes(targets) && Restoring(before, ledgers, targets, ids, j, n, durable, now, reached)
    ensures var node := targets[j].node;
            Restoring(before, if node in reached then ledgers[node := before[node]] else ledgers, targets, ids,
                j + 1, n, durable, now, reached)
  {
    hide Reserves, Nodes;
    PrefixNodes(targets, n);
  }

  lemma RestoringNext(before: map<Uuid, Ledger>, ledgers: map<Uuid, Ledger>, targets: seq<Target>, ids: seq<Uuid>,
                      j: nat, n: nat, durable: bool, now: nat, reached: set<Uuid>)
    requires j < n <= |targets| == |ids| && forall k :: 0 <= k < |targets| ==> targets[k].node in before
    requires Restoring(before, ledgers, targets, ids, j, n, durable, now, reached)
    ensures targets[j].node in ledgers && CancelReservation(ledgers[targets[j].node], ids[j],
        true).0 == before[targets[j].node]
  {
    hide LedgerModel.CancelReservation, Nodes;
  }

  lemma RestoringEnds(before: map<Uuid, Ledger>, ledgers: map<Uuid, Ledger>, targets: seq<Target>, ids: seq<Uuid>,
                      n: nat, durable: bool, now: nat, reached: set<Uuid>)
    requires n <= |targets| == |ids| && forall k :: 0 <= k < |targets| ==> targets[k].node in before
    requires Restoring(before, ledgers, targets, ids, n, n, durable, now, reached)
    ensures ledgers.Keys == before.Keys
    ensures forall x :: x in ledgers && x in reached ==> ledgers[x] == before[x]
    ensures forall x :: x in ledgers && x !in Nodes(targets) ==> ledgers[x] == before[x]
    ensures forall x :: x in ledgers ==>
              ledgers[x] == before[x] || LeftOver(before[x], ledgers[x], x, targets, ids, durable, now)
  {
    hide Reserves, Nodes;
    PrefixNodes(targets, n);
    forall x | x in ledgers
      ensures ledgers[x] == before[x] || LeftOver(before[x], ledgers[x], x, targets, ids, durable, now)
    {
      if x in Nodes(targets[..n]) {
        var k :| 0 <= k < n && targets[k].node == x;
      }
    }
  }

  ghost function Nodes(targets: seq<Target>): set<Uuid> {
    set t | t in targets :: t.node
  }

  lemma PrefixNodes(targets: seq<Target>, n: nat)
    requires n <= |targets|
    ensures Nodes(targets[..n]) <= Nodes(targets)
    ensures forall k :: 0 <= k < n ==> targets[k].node in Nodes(targets[..n])
    ensures forall x :: x in Nodes(targets[..n]) ==> exists k :: 0 <= k < n && targets[k].node == x
  {
    assert forall k :: 0 <= k < n ==> targets[k] in targets[..n];
  }

  /** `after` is `before` with exactly one new reservation, and cancelling it restores `before`. */
  ghost predicate Reserves(before: Ledger, after: Ledger, t: Target, id: Uuid, durable: bool, now: nat) {
    && after.reservations == before.reservations[id := Reservation(t.size, 0, durable, now)]
    && after.reserved == before.reserved + t.size
    && CancelReservation(after, id, true).0 == before
  }

  lemma ReserveAtReserves(s: Ledger, t: Target, ext: ExtMeta, durable: bool, id: Uuid, now: nat, metaOk: bool,
      opens: bool)
    requires Fresh(s, id)
    ensures var (after, r) := ReserveAt(s, t.size, ext, durable, id, now, metaOk, opens);
            && (r.Ok? <==> Grants(s, t.size, metaOk))
            && if r.Ok? then Reserves(s, after, t, id, durable, now) else after == s
  {
    CancelUndoesReserve(s, t.size, ext, durable, id, now, metaOk, opens);
  }

  // ---- chunk order

  datatype FileChunk = FileChunk(serverId: Uuid, chunkId: Uuid, chunkSize: nat, chunkOrder: int)

  /** The `i`-th value of a counter over 8-bit signed integers. */
  function Order(i: nat): int {
    if i % 256 < 128 then i % 256 else i % 256 - 256
  }

  function ToFileChunks(fragments: seq<Fragment>): seq<FileChunk> {
    seq(|fragments|, i requires 0 <= i < |fragments| =>
      FileChunk(fragments[i].node, fragments[i].chunkId, fragments[i].size, Order(i)))
  }

  function OrderOf(c: FileChunk): int {
    c.chunkOrder
  }

  /** The stored chunk names the node, the chunk and the size of the fragment. */
  predicate Records(c: FileChunk, f: Fragment) {
    c.serverId == f.node && c.chunkId == f.chunkId && c.chunkSize == f.size
  }

  ghost predicate RecordsAll(chunks: seq<FileChunk>, fragments: seq<Fragment>) {
    |chunks| == |fragments| && forall i :: 0 <= i < |chunks| ==> Records(chunks[i], fragments[i])
  }

  /** The chunks are stored as a set. However it is listed, sorting by chunk order gives the fragments back,
      each at its place with its node, chunk and size, exactly when there are at most 128 of them. */
  lemma SortRestoresFragmentsIffFew(fragments: seq<Fragment>, listed: seq<FileChunk>)
    requires multiset(listed) == multiset(ToFileChunks(fragments))
    ensures |fragments| <= 128 ==> RecordsAll(SortBy(listed, OrderOf), fragments)
    ensures NoDuplicates(fragments) && RecordsAll(SortBy(listed, OrderOf), fragments) ==> |fragments| <= 128
  {
    hide SortBy;
    var chunks, sorted := ToFileChunks(fragments), SortBy(listed, OrderOf);
    SortBySorts(listed, OrderOf);
    if |fragments| <= 128 {
      OrdersIncrease(fragments);
      SortedIsUnique(sorted, chunks, OrderOf);
    } else if NoDuplicates(fragments) && RecordsAll(sorted, fragments) {
      assert OrderOf(chunks[0]) == 0 && OrderOf(chunks[128]) == -128;
      RecordedIsStored(fragments, sorted, 0);
      RecordedIsStored(fragments, sorted, 128);
    }
  }

  /** A stored chunk that records the `i`-th of distinct fragments is the one made for it. */
  lemma RecordedIsStored(fragments: seq<Fragment>, sorted: seq<FileChunk>, i: nat)
    requires multiset(sorted) == multiset(ToFileChunks(fragments)) && NoDuplicates(fragments)
    requires RecordsAll(sorted, fragments) && i < |fragments|
    ensures sorted[i] == ToFileChunks(fragments)[i]
  {
    var chunks := ToFileChunks(fragments);
    assert sorted[i] in multiset(chunks);
    var j :| 0 <= j < |chunks| && chunks[j] == sorted[i];
    assert fragments[j] == fragments[i];
  }

  lemma OrdersIncrease(fragments: seq<Fragment>)
    requires |fragments| <= 128
    ensures Increasing(ToFileChunks(fragments), OrderOf)
  {
    var chunks := ToFileChunks(fragments);
    assert forall i :: 0 <= i < |chunks| ==> OrderOf(chunks[i]) == i;
  }
}
