/** A durable upload is made of ledger operations: the chunks of DurableUploads are what the ledgers of the
    nodes hold, and every transfer, on this node or over a channel, takes the ledger steps that the chunk
    model says it takes. */
module UploadOnLedger {
  import opened Common
  import opened Sums
  import opened LedgerModel
  import opened LedgerTraces
  import LedgerDisk
  import opened DurableUploads

  /** The ledger holds chunk `c` under `id`: still reserved, with the recorded progress, or completed. */
  ghost predicate Represents(s: Ledger, id: Uuid, c: Chunk) {
    && id in s.uncommitted
    && (c.done <==> id in s.chunks) && (c.done <==> id !in s.reservations)
    && (c.done ==> s.chunks[id].contentSize == c.size)
    && (!c.done ==> s.reservations[id].durable && s.reservations[id].fileSpace == c.size)
    && (!c.done ==> s.reservations[id].completed == c.completed)
    && (c.file.Some? <==> Uncommitted(id) in s.disk)
    && (c.file.Some? ==> s.disk[Uncommitted(id)].len == |c.file.value|)
  }

  /** What a query answers: a reservation's progress before a chunk's size. */
  function QueryChunk(s: Ledger, id: Uuid): Option<nat> {
    if id in s.reservations then Some(s.reservations[id].completed)
    else if id in s.chunks then Some(s.chunks[id].contentSize)
    else None
  }

  lemma QueryIsReported(s: Ledger, id: Uuid, c: Chunk)
    requires Represents(s, id, c)
    ensures QueryChunk(s, id) == Some(Reported(c))
  {
  }

  /** A chunk is found exactly when it is reserved or stored. */
  lemma QueryFindsIff(s: Ledger, id: Uuid)
    ensures QueryChunk(s, id).None? <==> TraceOf(s, id).reservation.None? && TraceOf(s, id).chunk.None?
  {
  }

  /** The clock, and how many bytes of blocks the file occupies afterwards. */
  datatype Site = Site(now: nat, physical: nat)

  function Copied(need: nat, env: Env): nat {
    if env.Arrives(need) then need else Min(env.Through(), need)
  }

  /** On this node: write or append, then release with the chunk size, or with the size on disk if cut. */
  function InboundLocal(s: Ledger, id: Uuid, size: nat, skip: nat, append: bool, env: Env, site: Site)
    : (r: (Ledger, bool, nat))
    requires skip <= size
    ensures r.1 ==> r.2 <= env.Through()
  {
    var t := WriteFragment(s, id, append, Copied(size - skip, env), site.physical);
    if env.Arrives(size - skip) then
      var (u, r) := ReleaseReservation(t, id, size, site.now, true);
      (u, r.Ok?, size - skip)
    else
      (ReleaseReservation(t, id, t.disk[Uncommitted(id)].len, site.now, true).0, false, 0)
  }

  /** On a peer: the put is refused unless the announced length is what the reservation lacks; then the
      reservation is released with its size, or with what this channel carried if the transfer ended early.
      If it was the peer's side that ended it, the sender is told that it went well. */
  function InboundRemote(s: Ledger, id: Uuid, size: nat, skip: nat, append: bool, env: Env, site: Site)
    : (r: (Ledger, bool, nat))
    requires skip <= size
    ensures r.1 ==> r.2 <= env.Through()
  {
    var (t, r) := RefreshReservation(s, id, site.now);
    if r.Err? || size - skip != r.value.fileSpace - r.value.completed then (t, false, 0)
    else if env.CutsShort(size - skip) then
      var cut := env.cuts[0];
      var u := WriteFragment(t, id, append, cut.stored, site.physical);
      (ReleaseReservation(u, id, cut.stored, site.now, true).0, true, cut.consumed)
    else
      var k := Copied(size - skip, env);
      var u := WriteFragment(t, id, append, k, site.physical);
      if env.Arrives(size - skip) then
        var (v, released) := ReleaseReservation(u, id, r.value.fileSpace, site.now, true);
        (v, released.Ok?, size - skip)
      else
        (ReleaseReservation(u, id, k, site.now, true).0, false, 0)
  }

  /** What the two ledgers hold under `x` is the same. */
  ghost predicate SameAt(s: Ledger, t: Ledger, x: Uuid) {
    TraceOf(t, x) == TraceOf(s, x)
  }

  lemma OthersKeptTwice(s: Ledger, t: Ledger, u: Ledger, id: Uuid)
    requires OthersKept(s, t, id) && OthersKept(t, u, id)
    ensures OthersKept(s, u, id)
  {
    hide TraceOf;
  }

  lemma WriteKeeps(s: Ledger, id: Uuid, c: Chunk, append: bool, k: nat, physical: nat, stored: seq<byte>)
    requires Represents(s, id, c) && |stored| == (if append then |Bytes(c)| else 0) + k
    ensures var t := WriteFragment(s, id, append, k, physical);
            && Represents(t, id, c.(file := Some(stored))) && OthersKept(s, t, id)
            && t.disk[Uncommitted(id)].len == |stored|
  {
  }

  lemma RefreshKeeps(s: Ledger, id: Uuid, c: Chunk, now: nat)
    requires Represents(s, id, c)
    ensures var (t, r) := RefreshReservation(s, id, now);
            Represents(t, id, c) && OthersKept(s, t, id) && (r.Ok? <==> !c.done)
            && (r.Ok? ==> r.value.fileSpace == c.size && r.value.completed == c.completed)
  {
  }

  lemma ReleaseKeeps(s: Ledger, id: Uuid, c: Chunk, sizeActual: nat, now: nat)
    requires Represents(s, id, c) && c.file.Some?
    ensures var (t, r) := ReleaseReservation(s, id, sizeActual, now, true);
            var c' := if c.done then c
                      else if sizeActual == c.size then c.(done := true)
                      else c.(completed := sizeActual);
            Represents(t, id, c') && OthersKept(s, t, id) && (r.Ok? <==> !c.done)
  {
  }

  /** What the chunk's file holds after `k` more bytes. */
  ghost function Stored(c: Chunk, append: bool, env: Env, k: nat): (stored: seq<byte>)
    requires k <= |env.input|
    ensures |stored| == (if append then |Bytes(c)| else 0) + k
  {
    (if append then Bytes(c) else []) + env.input[..k]
  }

  lemma LocalRefines(s: Ledger, id: Uuid, c: Chunk, skip: nat, append: bool, env: Env, site: Site)
    requires Represents(s, id, c) && !c.remote && skip <= c.size
    ensures var (t, ok, used) := InboundLocal(s, id, c.size, skip, append, env, site);
            var (c', ok', used') := Inbound(c, skip, append, env);
            ok == ok' && (ok ==> used == used') && Represents(t, id, c') && OthersKept(s, t, id)
  {
    hide Represents, OthersKept, LedgerModel.WriteFragment, LedgerModel.ReleaseReservation;
    var k := Copied(c.size - skip, env);
    var stored := Stored(c, append, env, k);
    WriteKeeps(s, id, c, append, k, site.physical, stored);
    var t, written := WriteFragment(s, id, append, k, site.physical), c.(file := Some(stored));
    var released := if env.Arrives(c.size - skip) then c.size else |stored|;
    ReleaseKeeps(t, id, written, released, site.now);
    OthersKeptTwice(s, t, ReleaseReservation(t, id, released, site.now, true).0, id);
  }

  lemma RemoteRefines(s: Ledger, id: Uuid, c: Chunk, skip: nat, append: bool, env: Env, site: Site)
    requires Represents(s, id, c) && c.remote && skip <= c.size
    ensures var (t, ok, used) := InboundRemote(s, id, c.size, skip, append, env, site);
            var (c', ok', used') := Inbound(c, skip, append, env);
            ok == ok' && (ok ==> used == used') && Represents(t, id, c') && OthersKept(s, t, id)
  {
    hide Represents, OthersKept, LedgerModel.WriteFragment, LedgerModel.ReleaseReservation,
      LedgerModel.RefreshReservation;
    RefreshKeeps(s, id, c, site.now);
    var t := RefreshReservation(s, id, site.now).0;
    if !Refuses(c, skip) {
      var need := c.size - skip;
      var cut := env.CutsShort(need);
      var k := if cut then env.cuts[0].stored else Copied(need, env);
      var stored := Stored(c, append, env, k);
      WriteKeeps(t, id, c, append, k, site.physical, stored);
      var u, written := WriteFragment(t, id, append, k, site.physical), c.(file := Some(stored));
      var released := if !cut && env.Arrives(need) then c.size else k;
      ReleaseKeeps(u, id, written, released, site.now);
      OthersKeptTwice(s, t, u, id);
      OthersKeptTwice(s, u, ReleaseReservation(u, id, released, site.now, true).0, id);
    }
  }

  // ---- a session's chunks on the nodes of a cluster

  /** A chunk's node and its identifier there. */
  type Place = (Uuid, Uuid)

  ghost predicate Known(nodes: map<Uuid, Ledger>, places: seq<Place>) {
    forall i :: 0 <= i < |places| ==> places[i].0 in nodes
  }

  ghost predicate Holds(nodes: map<Uuid, Ledger>, self: Uuid, p: Place, c: Chunk) {
    p.0 in nodes && Represents(nodes[p.0], p.1, c) && (c.remote <==> p.0 != self)
  }

  ghost predicate HoldAll(nodes: map<Uuid, Ledger>, self: Uuid, places: seq<Place>, cs: seq<Chunk>) {
    |places| == |cs| && NoDuplicates(places) && forall i :: 0 <= i < |cs| ==> Holds(nodes, self, places[i], cs[i])
  }

  function InboundOn(s: Ledger, p: Place, self: Uuid, size: nat, skip: nat, append: bool, env: Env, site: Site)
    : (r: (Ledger, bool, nat))
    requires skip <= size
    ensures r.1 ==> r.2 <= env.Through()
  {
    if p.0 == self then InboundLocal(s, p.1, size, skip, append, env, site)
    else InboundRemote(s, p.1, size, skip, append, env, site)
  }

  ghost predicate Renewed(t: Ledger, id: Uuid, size: nat, site: Site) {
    && (id in t.reservations ==> t.reservations[id].lastUpdate == site.now)
    && (id in t.chunks ==> t.chunks[id] == FragmentMeta(size, site.physical))
  }

  lemma WriteThenRelease(s: Ledger, id: Uuid, c: Chunk, append: bool, k: nat, released: nat, site: Site)
    requires Represents(s, id, c) && !c.done
    ensures var t := WriteFragment(s, id, append, k, site.physical);
            Renewed(ReleaseReservation(t, id, released, site.now, true).0, id, c.size, site)
  {
    hide FetchSub;
  }

  lemma RefreshRenews(s: Ledger, id: Uuid, c: Chunk, site: Site)
    requires Represents(s, id, c) && !c.done
    ensures Renewed(RefreshReservation(s, id, site.now).0, id, c.size, site)
  {
  }

  /** A transfer restarts the clock of the reservation, even if the peer refuses it; if it completes, the chunk is
      recorded with its size and the blocks its file takes. */
  lemma TransferRenewsClock(s: Ledger, p: Place, self: Uuid, c: Chunk, skip: nat, append: bool, env: Env, site: Site)
    requires Represents(s, p.1, c) && !c.done && skip <= c.size
    ensures Renewed(InboundOn(s, p, self, c.size, skip, append, env, site).0, p.1, c.size, site)
  {
    hide Represents, Renewed, LedgerModel.WriteFragment, LedgerModel.ReleaseReservation,
      LedgerModel.RefreshReservation;
    var need := c.size - skip;
    if p.0 == self {
      var k := Copied(need, env);
      var stored := Stored(c, append, env, k);
      WriteKeeps(s, p.1, c, append, k, site.physical, stored);
      WriteThenRelease(s, p.1, c, append, k, if env.Arrives(need) then c.size else |stored|, site);
    } else {
      RefreshKeeps(s, p.1, c, site.now);
      RefreshRenews(s, p.1, c, site);
      var t := RefreshReservation(s, p.1, site.now).0;
      var cut := env.CutsShort(need);
      var k := if cut then env.cuts[0].stored else Copied(need, env);
      WriteThenRelease(t, p.1, c, append, k, if !cut && env.Arrives(need) then c.size else k, site);
    }
  }

  /** The transfer loop over the remaining chunks, on the ledgers. */
  ghost function TransferOn(nodes: map<Uuid, Ledger>, self: Uuid, places: seq<Place>, sizes: seq<nat>,
                            skip: nat, append: bool, env: Env, site: Site): (r: (map<Uuid, Ledger>, bool))
    requires |places| == |sizes| && (sizes != [] ==> skip <= sizes[0]) && Known(nodes, places)
    ensures r.0.Keys == nodes.Keys
    decreases |places|
  {
    if places == [] then (nodes, true)
    else
      var (ledger, ok, used) := InboundOn(nodes[places[0].0], places[0], self, sizes[0], skip, append, env, site);
      var nodes' := nodes[places[0].0 := ledger];
      if !ok then (nodes', false)
      else TransferOn(nodes', self, places[1..], sizes[1..], 0, false, env.After(used), site)
  }

  lemma InboundRefines(nodes: map<Uuid, Ledger>, self: Uuid, p: Place, c: Chunk, skip: nat, append: bool, env: Env,
      site: Site)
    requires Holds(nodes, self, p, c) && skip <= c.size
    ensures var (ledger, ok, used) := InboundOn(nodes[p.0], p, self, c.size, skip, append, env, site);
            var (c', ok', used') := Inbound(c, skip, append, env);
            && ok == ok' && (ok ==> used == used')
            && Holds(nodes[p.0 := ledger], self, p, c') && Elsewhere(nodes, nodes[p.0 := ledger], [p])
  {
    hide Represents, InboundLocal, InboundRemote, SameAt, Inbound;
    if p.0 == self {
      LocalRefines(nodes[p.0], p.1, c, skip, append, env, site);
    } else {
      RemoteRefines(nodes[p.0], p.1, c, skip, append, env, site);
    }
    var after := nodes[p.0 := InboundOn(nodes[p.0], p, self, c.size, skip, append, env, site).0];
    forall q: Place | q !in [p] && q.0 in nodes ensures SameAt(nodes[q.0], after[q.0], q.1) {
      SameAtOther(nodes[q.0], after[q.0], q, p);
    }
  }

  lemma SameAtOther(s: Ledger, t: Ledger, q: Place, p: Place)
    requires q != p && (if q.0 == p.0 then OthersKept(s, t, p.1) else t == s)
    ensures SameAt(s, t, q.1)
  {
  }

  /** Only the given places changed. */
  ghost predicate Elsewhere(before: map<Uuid, Ledger>, after: map<Uuid, Ledger>, places: seq<Place>) {
    && after.Keys == before.Keys
    && forall q: Place :: q !in places && q.0 in before ==> SameAt(before[q.0], after[q.0], q.1)
  }

  lemma ElsewhereTwice(a: map<Uuid, Ledger>, b: map<Uuid, Ledger>, c: map<Uuid, Ledger>, p: Place, ps: seq<Place>)
    requires Elsewhere(a, b, [p]) && Elsewhere(b, c, ps)
    ensures Elsewhere(a, c, [p] + ps)
  {
  }

  lemma HoldsStill(before: map<Uuid, Ledger>, after: map<Uuid, Ledger>, self: Uuid, p: Place, c: Chunk,
      changed: seq<Place>)
    requires Holds(before, self, p, c) && Elsewhere(before, after, changed) && p !in changed
    ensures Holds(after, self, p, c)
  {
    assert SameAt(before[p.0], after[p.0], p.1);
  }

  lemma HoldAllStill(before: map<Uuid, Ledger>, after: map<Uuid, Ledger>, self: Uuid, places: seq<Place>,
      cs: seq<Chunk>, p: Place)
    requires HoldAll(before, self, places, cs) && Elsewhere(before, after, [p]) && p !in places
    ensures HoldAll(after, self, places, cs)
  {
    hide Represents, SameAt, Elsewhere;
    forall i | 0 <= i < |cs| ensures Holds(after, self, places[i], cs[i]) {
      HoldsStill(before, after, self, places[i], cs[i], [p]);
    }
  }

  lemma HoldAllCons(nodes: map<Uuid, Ledger>, self: Uuid, places: seq<Place>, c: Chunk, rest: seq<Chunk>)
    requires places != [] && NoDuplicates(places)
    requires Holds(nodes, self, places[0], c) && HoldAll(nodes, self, places[1..], rest)
    ensures HoldAll(nodes, self, places, [c] + rest)
  {
    hide Holds;
  }

  lemma HoldAllUncons(nodes: map<Uuid, Ledger>, self: Uuid, places: seq<Place>, cs: seq<Chunk>)
    requires HoldAll(nodes, self, places, cs) && cs != []
    ensures places != [] && Holds(nodes, self, places[0], cs[0]) && HoldAll(nodes, self, places[1..], cs[1..])
    ensures NoDuplicates(places) && places[0] !in places[1..] && |places| == |cs|
  {
  }

  /** The chunk model's transfer is the one on the ledgers. */
  lemma {:induction false} TransferRefines(nodes: map<Uuid, Ledger>, self: Uuid, places: seq<Place>, cs: seq<Chunk>,
                                           skip: nat, append: bool, env: Env, site: Site)
    requires HoldAll(nodes, self, places, cs) && (cs != [] ==> skip <= cs[0].size) && Known(nodes, places)
    ensures var (nodes', ok) := TransferOn(nodes, self, places, Sizes(cs), skip, append, env, site);
            var (cs', ok') := Transfer(cs, skip, append, env);
            ok == ok' && HoldAll(nodes', self, places, cs') && Elsewhere(nodes, nodes', places)
    decreases |cs|
  {
    hide Represents, SameAt, Elsewhere, InboundOn, Inbound, CutHere, Transfer, PeerCuts, TransferOn, Holds, HoldAll,
        NoDuplicates;
    if cs == [] {
      TransferOnNone(nodes, self, places, cs, skip, append, env, site);
    } else {
      HoldAllUncons(nodes, self, places, cs);
      var p, c := places[0], cs[0];
      var (ledger, ok, used) := InboundOn(nodes[p.0], p, self, c.size, skip, append, env, site);
      var c' := Inbound(c, skip, append, env).0;
      var nodes1 := nodes[p.0 := ledger];
      InboundRefines(nodes, self, p, c, skip, append, env, site);
      HoldAllStill(nodes, nodes1, self, places[1..], cs[1..], p);
      TransferStep(cs, skip, append, env);
      TransferOnStep(nodes, self, places, cs, skip, append, env, site);
      assert places == [p] + places[1..];
      if ok {
        TransferRefines(nodes1, self, places[1..], cs[1..], 0, false, env.After(used), site);
        var nodes2 := TransferOn(nodes1, self, places[1..], Sizes(cs[1..]), 0, false, env.After(used), site).0;
        HoldsStill(nodes1, nodes2, self, p, c', places[1..]);
        HoldAllCons(nodes2, self, places, c', Transfer(cs[1..], 0, false, env.After(used)).0);
        ElsewhereTwice(nodes, nodes1, nodes2, p, places[1..]);
      } else {
        HoldAllCons(nodes1, self, places, c', cs[1..]);
        SameEverywhere(nodes1, places[1..]);
        ElsewhereTwice(nodes, nodes1, nodes1, p, places[1..]);
      }
    }
  }

  lemma TransferOnNone(nodes: map<Uuid, Ledger>, self: Uuid, places: seq<Place>, cs: seq<Chunk>,
                       skip: nat, append: bool, env: Env, site: Site)
    requires HoldAll(nodes, self, places, cs) && cs == [] && Known(nodes, places)
    ensures |places| == |cs| && TransferOn(nodes, self, places, Sizes(cs), skip, append, env, site) == (nodes, true)
    ensures Transfer(cs, skip, append, env) == (cs, true) && Elsewhere(nodes, nodes, places)
  {
    SameEverywhere(nodes, places);
  }

  lemma TransferOnStep(nodes: map<Uuid, Ledger>, self: Uuid, places: seq<Place>, cs: seq<Chunk>,
                       skip: nat, append: bool, env: Env, site: Site)
    requires |places| == |cs| && cs != [] && skip <= cs[0].size && Known(nodes, places)
    ensures var (ledger, ok, used) := InboundOn(nodes[places[0].0], places[0], self, cs[0].size, skip, append, env,
        site);
            var nodes1 := nodes[places[0].0 := ledger];
            Known(nodes1, places[1..]) &&
            TransferOn(nodes, self, places, Sizes(cs), skip, append, env, site) ==
            if !ok then (nodes1, false)
            else TransferOn(nodes1, self, places[1..], Sizes(cs[1..]), 0, false, env.After(used), site)
  {
    hide InboundOn;
    assert Sizes(cs)[1..] == Sizes(cs[1..]);
  }

  lemma SameEverywhere(nodes: map<Uuid, Ledger>, places: seq<Place>)
    ensures Elsewhere(nodes, nodes, places)
  {
  }

  // ---- rounds and uploads

  function QueryAll(nodes: map<Uuid, Ledger>, places: seq<Place>): seq<nat>
    requires forall i :: 0 <= i < |places| ==> places[i].0 in nodes
  {
    seq(|places|, i requires 0 <= i < |places| => QueryChunk(nodes[places[i].0], places[i].1).GetOr(0))
  }

  lemma QueriesAreReports(nodes: map<Uuid, Ledger>, self: Uuid, places: seq<Place>, cs: seq<Chunk>)
    requires HoldAll(nodes, self, places, cs)
    ensures Known(nodes, places) && QueryAll(nodes, places) == AllReported(cs)
  {
    hide QueryChunk;
    forall i | 0 <= i < |cs| ensures QueryAll(nodes, places)[i] == AllReported(cs)[i] {
      assert Holds(nodes, self, places[i], cs[i]);
      QueryIsReported(nodes[places[i].0], places[i].1, cs[i]);
    }
  }

  /** One upload request on the ledgers: ask every chunk, find the resume point, transfer from there. */
  ghost function RoundOn(nodes: map<Uuid, Ledger>, self: Uuid, places: seq<Place>, sizes: seq<nat>, size: nat,
      env: Env, site: Site)
    : (r: (map<Uuid, Ledger>, Outcome))
    requires |places| == |sizes| && Known(nodes, places)
    ensures r.0.Keys == nodes.Keys
  {
    var uploaded := Total(QueryAll(nodes, places));
    if uploaded == size then (nodes, Finished)
    else
      match Locate(sizes, uploaded)
      case None => (nodes, Fatal)
      case Some((i, skip)) =>
        LocateIsFirstMissing(sizes, uploaded);
        var rest := TransferOn(nodes, self, places[i..], sizes[i..], skip, uploaded > 0, env, site);
        (rest.0, if rest.1 then Finished else Interrupted)
  }

  lemma HoldAllSplit(nodes: map<Uuid, Ledger>, self: Uuid, places: seq<Place>, cs: seq<Chunk>, i: nat)
    requires HoldAll(nodes, self, places, cs) && i <= |cs|
    ensures |places| == |cs| && HoldAll(nodes, self, places[i..], cs[i..]) && Known(nodes, places[i..])
  {
    hide Represents;
  }

  lemma HoldAllJoin(before: map<Uuid, Ledger>, after: map<Uuid, Ledger>, self: Uuid, places: seq<Place>,
      cs: seq<Chunk>, i: nat, rest: seq<Chunk>)
    requires HoldAll(before, self, places, cs) && i <= |cs|
    requires Elsewhere(before, after, places[i..]) && HoldAll(after, self, places[i..], rest)
    ensures HoldAll(after, self, places, cs[..i] + rest)
  {
    hide Represents, SameAt, Elsewhere, Holds;
    var all := cs[..i] + rest;
    forall j | 0 <= j < |all| ensures Holds(after, self, places[j], all[j]) {
      if j < i {
        HoldsStill(before, after, self, places[j], cs[j], places[i..]);
      } else {
        assert Holds(after, self, places[i..][j - i], rest[j - i]);
      }
    }
  }

  lemma RoundRefines(nodes: map<Uuid, Ledger>, self: Uuid, places: seq<Place>, cs: seq<Chunk>, size: nat, env: Env,
      site: Site)
    requires HoldAll(nodes, self, places, cs) && Known(nodes, places)
    ensures var (nodes', outcome) := RoundOn(nodes, self, places, Sizes(cs), size, env, site);
            var (cs', outcome') := Round(cs, size, env);
            outcome == outcome' && HoldAll(nodes', self, places, cs')
  {
    QueriesAreReports(nodes, self, places, cs);
    hide QueryAll, HoldAll, Elsewhere, Transfer, TransferOn, Locate, Total, Known;
    var uploaded := Total(AllReported(cs));
    LocateIsFirstMissing(Sizes(cs), uploaded);
    if uploaded != size && Locate(Sizes(cs), uploaded).Some? {
      var (i, skip) := Locate(Sizes(cs), uploaded).value;
      HoldAllSplit(nodes, self, places, cs, i);
      assert Sizes(cs)[i..] == Sizes(cs[i..]);
      TransferRefines(nodes, self, places[i..], cs[i..], skip, uploaded > 0, env, site);
      var nodes' := TransferOn(nodes, self, places[i..], Sizes(cs[i..]), skip, uploaded > 0, env, site).0;
      HoldAllJoin(nodes, nodes', self, places, cs, i, Transfer(cs[i..], skip, uploaded > 0, env).0);
    }
  }

  datatype Try = Try(attempt: Attempt, site: Site)

  function Attempts(tries: seq<Try>): seq<Attempt> {
    seq(|tries|, i requires 0 <= i < |tries| => tries[i].attempt)
  }

  ghost function Arriving(nodes: map<Uuid, Ledger>, places: seq<Place>, data: seq<byte>, a: Attempt): Env
    requires Known(nodes, places)
  {
    var u := Total(QueryAll(nodes, places));
    Env(if u <= |data| then data[u..Min(u + a.sent, |data|)] else [], a.budget, a.hard, a.cuts)
  }

  /** A whole upload on the ledgers. */
  ghost function UploadOn(nodes: map<Uuid, Ledger>, self: Uuid, places: seq<Place>, sizes: seq<nat>,
                          data: seq<byte>, tries: seq<Try>): (map<Uuid, Ledger>, Outcome)
    requires |places| == |sizes| && Known(nodes, places)
    decreases |tries|
  {
    if tries == [] then (nodes, Interrupted)
    else
      var env := Arriving(nodes, places, data, tries[0].attempt);
      var r := RoundOn(nodes, self, places, sizes, |data|, env, tries[0].site);
      if r.1 == Interrupted then UploadOn(r.0, self, places, sizes, data, tries[1..]) else r
  }

  /** Over any number of interrupted attempts the ledgers hold exactly the chunks of the chunk model. */
  lemma {:induction false} UploadRefines(nodes: map<Uuid, Ledger>, self: Uuid, places: seq<Place>, cs: seq<Chunk>,
                                         data: seq<byte>, tries: seq<Try>)
    requires HoldAll(nodes, self, places, cs) && Known(nodes, places)
    ensures var (nodes', outcome) := UploadOn(nodes, self, places, Sizes(cs), data, tries);
            var (cs', outcome') := Upload(cs, data, Attempts(tries));
            outcome == outcome' && HoldAll(nodes', self, places, cs')
    decreases |tries|
  {
    if tries != [] {
      hide HoldAll, RoundOn, Round, Total;
      QueriesAreReports(nodes, self, places, cs);
      var a, site := tries[0].attempt, tries[0].site;
      var env := Arriving(nodes, places, data, a);
      RoundRefines(nodes, self, places, cs, |data|, env, site);
      assert env == EnvOf(cs, data, a);
      assert Attempts(tries)[1..] == Attempts(tries[1..]);
      var (cs', outcome) := Next(cs, data, a);
      if outcome == Interrupted {
        assert Sizes(cs') == Sizes(cs);
        UploadRefines(RoundOn(nodes, self, places, Sizes(cs), |data|, env, site).0, self, places, cs', data,
            tries[1..]);
      }
    }
  }

  /** A reservation that was just made is an untouched chunk. */
  lemma ReservedIsUntouched(s: Ledger, size: nat, ext: ExtMeta, id: Uuid, now: nat, remote: bool)
    requires Fresh(s, id) && TryReserve(s, size, ext, true, id, now, true).1.Ok?
    ensures Represents(TryReserve(s, size, ext, true, id, now, true).0, id, Chunk(size, remote, None, 0, false))
  {
  }

  /** An upload into fresh reservations on any nodes, cut and resumed any number of times so that its
      interrupted rounds keep the layout: it never fails fatally, and when it is reported as finished the
      chunks hold the file exactly when no transfer of the last round was cut by a peer; then the ledgers list
      every chunk of positive size as complete, with a file of exactly that size. */
  lemma LedgerUploadIsCorrect(nodes: map<Uuid, Ledger>, self: Uuid, places: seq<Place>, cs: seq<Chunk>,
                              data: seq<byte>, tries: seq<Try>) returns (cs': seq<Chunk>)
    requires HoldAll(nodes, self, places, cs) && Known(nodes, places)
    requires AllUntouched(cs) && Total(Sizes(cs)) == |data| && SafeRun(cs, data, Attempts(tries))
    ensures var (nodes', outcome) := UploadOn(nodes, self, places, Sizes(cs), data, tries);
            var cut := LastRoundIsCut(cs, data, Attempts(tries));
            && outcome != Fatal && HoldAll(nodes', self, places, cs')
            && (outcome == Interrupted ==> Contents(cs') <= data)
            && (outcome == Finished ==> (Contents(cs') == data <==> !cut))
            && (outcome == Finished && !cut ==>
                  forall j :: 0 <= j < |cs| && cs[j].size > 0 ==> StoredAt(nodes', places[j], cs[j].size))
  {
    assert |places| == |cs|;
    hide HoldAll, Upload, UploadOn, Laid, Total, SafeRun, LastRoundIsCut;
    var attempts := Attempts(tries);
    UploadRefines(nodes, self, places, cs, data, tries);
    UntouchedLaid(cs, data);
    var v := UploadIsCorrect(cs, data, 0, attempts);
    cs' := Upload(cs, data, attempts).0;
    var (nodes', outcome) := UploadOn(nodes, self, places, Sizes(cs), data, tries);
    if outcome == Interrupted {
      LaidContents(cs', data, v);
    } else if !LastRoundIsCut(cs, data, attempts) {
      forall j | 0 <= j < |cs| && cs[j].size > 0 ensures StoredAt(nodes', places[j], cs[j].size) {
        FinishedIsStored(nodes', self, places, cs', data, j);
      }
    }
  }

  ghost predicate StoredAt(nodes: map<Uuid, Ledger>, p: Place, size: nat) {
    && p.0 in nodes && p.1 in nodes[p.0].chunks && p.1 !in nodes[p.0].reservations
    && nodes[p.0].chunks[p.1].contentSize == size
    && Uncommitted(p.1) in nodes[p.0].disk && nodes[p.0].disk[Uncommitted(p.1)].len == size
  }

  lemma FinishedIsStored(nodes: map<Uuid, Ledger>, self: Uuid, places: seq<Place>, cs: seq<Chunk>, data: seq<byte>,
      j: nat)
    requires HoldAll(nodes, self, places, cs) && Laid(cs, data, |data|) && j < |cs| && cs[j].size > 0
    ensures StoredAt(nodes, places[j], cs[j].size)
  {
    PositiveChunksAreStored(cs, data, j);
    LaidChunkIsFull(cs, data, j);
    assert Holds(nodes, self, places[j], cs[j]);
  }

  lemma {:induction false} LaidChunkIsFull(cs: seq<Chunk>, data: seq<byte>, j: nat)
    requires Laid(cs, data, |data|) && j < |cs|
    ensures |Bytes(cs[j])| == cs[j].size
    decreases |cs|
  {
    if j > 0 {
      LaidChunkIsFull(cs[1..], data[cs[0].size..], j - 1);
    }
  }

  /** A transfer on this node writes only to its reservation, and releases it with the size on disk exactly
      when it was cut or continued where the file ended: what the ledger's disk guarantees ask of callers. */
  lemma LocalTransferIsCarefulIff(s: Ledger, id: Uuid, c: Chunk, skip: nat, append: bool, env: Env, site: Site)
    requires Represents(s, id, c) && !c.done && skip <= c.size
    ensures var k := Copied(c.size - skip, env);
            var t := WriteFragment(s, id, append, k, site.physical);
            var arrived := env.Arrives(c.size - skip);
            var released := if arrived then c.size else t.disk[Uncommitted(id)].len;
            && LedgerDisk.Careful(s, Write(id, append, k, site.physical))
            && (LedgerDisk.Careful(t, Release(id, released, site.now, true)) <==>
                !arrived || (if append then |Bytes(c)| == skip else skip == 0))
  {
  }

  /** A transfer that a peer has accepted releases the reservation there with the size on disk exactly when
      all arrived behind what the file held, or the file held nothing that it kept. */
  lemma RemoteTransferIsCarefulIff(s: Ledger, id: Uuid, c: Chunk, skip: nat, append: bool, env: Env, site: Site)
    requires skip <= c.size && Represents(s, id, c) && c.remote && !Refuses(c, skip)
    ensures var cut := env.CutsShort(c.size - skip);
            var arrived := !cut && env.Arrives(c.size - skip);
            var k := if cut then env.cuts[0].stored else Copied(c.size - skip, env);
            var kept := if append then |Bytes(c)| else 0;
            var t := WriteFragment(RefreshReservation(s, id, site.now).0, id, append, k, site.physical);
            LedgerDisk.Careful(t, Release(id, if arrived then c.size else k, site.now, true)) <==>
            (if arrived then kept == skip else kept == 0)
  {
  }
}
