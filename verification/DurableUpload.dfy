/** Durable uploads: a file laid over ordered chunks, transferred in any number of interrupted rounds.

    Each round asks every chunk how much it holds, finds the first missing byte, and appends from there.
    What can go wrong is part of the input: a round is cut by this node or its client after `budget` bytes,
    and a transfer to a peer can also be cut by the peer or the connection, which goes unreported. */
module DurableUploads {
  import opened Common
  import opened Sums

  /** One chunk of the session: its file if one was ever opened, the progress its reservation records,
      and whether the reservation was released as complete. */
  datatype Chunk = Chunk(size: nat, remote: bool, file: Option<seq<byte>>, completed: nat, done: bool)

  function Bytes(c: Chunk): seq<byte> {
    c.file.GetOr([])
  }

  /** What a query for the chunk answers. */
  function Reported(c: Chunk): nat {
    if c.done then c.size else c.completed
  }

  function Sizes(cs: seq<Chunk>): seq<nat> {
    seq(|cs|, i requires 0 <= i < |cs| => cs[i].size)
  }

  function AllReported(cs: seq<Chunk>): seq<nat> {
    seq(|cs|, i requires 0 <= i < |cs| => Reported(cs[i]))
  }

  function Contents(cs: seq<Chunk>): seq<byte> {
    if cs == [] then [] else Bytes(cs[0]) + Contents(cs[1..])
  }

  /** A transfer that the peer's side or the connection ends: how much the peer had stored, and how much had
      been taken from the client's stream. The sender is told that all went well. */
  datatype Cut = NoCut | PeerCut(stored: nat, consumed: nat)

  /** The bytes the client sends, and what goes wrong: at most `budget` of them get through before a failure
      that is noticed, `hard` says whether it also hits the chunk that has just received its last byte, and
      `cuts` lists, chunk by chunk, the failures that are not. */
  datatype Env = Env(input: seq<byte>, budget: nat, hard: bool, cuts: seq<Cut>) {
    /** Whether a chunk's remaining `need` bytes all arrive. */
    predicate Arrives(need: nat) {
      need <= |input| && (need < budget || (need == budget && !hard))
    }

    function Through(): nat {
      Min(budget, |input|)
    }

    /** Whether the peer's side cuts a transfer of `need` bytes short. */
    predicate CutsShort(need: nat) {
      cuts != [] && cuts[0].PeerCut? && cuts[0].stored <= cuts[0].consumed <= Min(Through(), need) &&
          cuts[0].stored < need
    }

    /** What is left for the next chunk. */
    function After(used: nat): Env
      requires used <= |input| && used <= budget
    {
      Env(input[used..], budget - used, hard, if cuts == [] then [] else cuts[1..])
    }
  }

  /** A remote node refuses a length it does not expect. */
  predicate Refuses(c: Chunk, skip: nat)
    requires skip <= c.size
  {
    c.remote && (c.done || c.size - skip != c.size - c.completed)
  }

  /** Whether this transfer is one that ends early without anybody being told. */
  predicate CutHere(c: Chunk, skip: nat, env: Env)
    requires skip <= c.size
  {
    c.remote && !Refuses(c, skip) && env.CutsShort(c.size - skip)
  }

  /** Transfer into one chunk: the chunk afterwards, whether the transfer is reported as successful, and how
      much of the stream it used up. A local chunk is released with its size on disk, a remote one with the
      bytes of the current channel only. */
  function Inbound(c: Chunk, skip: nat, append: bool, env: Env): (r: (Chunk, bool, nat))
    requires skip <= c.size
    ensures r.0.size == c.size && r.0.remote == c.remote
    ensures r.1 ==> r.2 <= env.Through()
    ensures r.1 ==> CutHere(c, skip, env) || (env.Arrives(c.size - skip) && r.2 == c.size - skip)
  {
    var need := c.size - skip;
    var base := if append then Bytes(c) else [];
    if Refuses(c, skip) then (c, false, 0)
    else if CutHere(c, skip, env) then
      var cut := env.cuts[0];
      (c.(file := Some(base + env.input[..cut.stored]), completed := cut.stored), true, cut.consumed)
    else
      var ok := env.Arrives(need);
      var k := if ok then need else Min(env.Through(), need);
      var stored := base + env.input[..k];
      var written := c.(file := Some(stored));
      if c.done then (written, false, 0)
      else if ok then (written.(done := true), true, need)
      else
        var released := if c.remote then k else |stored|;
        (if released == c.size then written.(done := true) else written.(completed := released), false, 0)
  }

  /** The transfer loop over the remaining chunks; only the first one skips and appends. */
  function Transfer(cs: seq<Chunk>, skip: nat, append: bool, env: Env): (r: (seq<Chunk>, bool))
    requires cs != [] ==> skip <= cs[0].size
    ensures |r.0| == |cs|
    ensures forall i :: 0 <= i < |cs| ==> r.0[i].size == cs[i].size && r.0[i].remote == cs[i].remote
    decreases |cs|
  {
    if cs == [] then ([], true)
    else
      var (c, ok, used) := Inbound(cs[0], skip, append, env);
      if !ok then ([c] + cs[1..], false)
      else
        var rest := Transfer(cs[1..], 0, false, env.After(used));
        ([c] + rest.0, rest.1)
  }

  /** Some transfer of the loop is cut by the peer's side. */
  predicate PeerCuts(cs: seq<Chunk>, skip: nat, append: bool, env: Env)
    requires cs != [] ==> skip <= cs[0].size
    decreases |cs|
  {
    cs != [] &&
    (|| CutHere(cs[0], skip, env)
     || var (_, ok, used) := Inbound(cs[0], skip, append, env); ok && PeerCuts(cs[1..], 0, false, env.After(used)))
  }

  lemma TransferNone(skip: nat, append: bool, env: Env)
    ensures Transfer([], skip, append, env) == ([], true) && !PeerCuts([], skip, append, env)
  {
  }

  lemma TransferStep(cs: seq<Chunk>, skip: nat, append: bool, env: Env)
    requires cs != [] && skip <= cs[0].size
    ensures var (c, ok, used) := Inbound(cs[0], skip, append, env);
            Transfer(cs, skip, append, env)
            == if !ok then ([c] + cs[1..], false)
               else var rest := Transfer(cs[1..], 0, false, env.After(used)); ([c] + rest.0, rest.1)
    ensures var (c, ok, used) := Inbound(cs[0], skip, append, env);
            PeerCuts(cs, skip, append, env)
            == (CutHere(cs[0], skip, env) || (ok && PeerCuts(cs[1..], 0, false, env.After(used))))
  {
  }

  /** The chunk that holds byte `uploaded`, and how much of it is already there. */
  function Locate(sizes: seq<nat>, uploaded: nat): Option<(nat, nat)> {
    if sizes == [] then None
    else if uploaded < sizes[0] then Some((0, uploaded))
    else
      match Locate(sizes[1..], uploaded - sizes[0])
      case None => None
      case Some((i, skip)) => Some((i + 1, skip))
  }

  lemma {:induction false} LocateIsFirstMissing(sizes: seq<nat>, uploaded: nat)
    ensures Locate(sizes, uploaded).None? <==> Total(sizes) <= uploaded
    ensures Locate(sizes, uploaded).Some? ==>
              var (i, skip) := Locate(sizes, uploaded).value;
              i < |sizes| && skip < sizes[i] && Total(sizes[..i]) + skip == uploaded
  {
    if sizes != [] && sizes[0] <= uploaded {
      LocateIsFirstMissing(sizes[1..], uploaded - sizes[0]);
      if Locate(sizes, uploaded).Some? {
        var (i, _) := Locate(sizes, uploaded).value;
        assert sizes[..i][1..] == sizes[1..][..i - 1];
      }
    }
  }

  datatype Outcome = Finished | Interrupted | Fatal

  function Round(cs: seq<Chunk>, size: nat, env: Env): (seq<Chunk>, Outcome) {
    var uploaded := Total(AllReported(cs));
    if uploaded == size then (cs, Finished)
    else
      match Locate(Sizes(cs), uploaded)
      case None => (cs, Fatal)
      case Some((i, skip)) =>
        LocateIsFirstMissing(Sizes(cs), uploaded);
        var rest := Transfer(cs[i..], skip, uploaded > 0, env);
        (cs[..i] + rest.0, if rest.1 then Finished else Interrupted)
  }

  /** Some transfer of the round is cut by the peer's side. */
  predicate RoundIsCut(cs: seq<Chunk>, size: nat, env: Env) {
    var uploaded := Total(AllReported(cs));
    uploaded != size &&
    match Locate(Sizes(cs), uploaded)
    case None => false
    case Some((i, skip)) => LocateIsFirstMissing(Sizes(cs), uploaded); PeerCuts(cs[i..], skip, uploaded > 0, env)
  }

  lemma RoundKeepsShape(cs: seq<Chunk>, size: nat, env: Env)
    ensures var cs' := Round(cs, size, env).0;
            |cs'| == |cs| && forall i :: 0 <= i < |cs| ==> cs'[i].size == cs[i].size && cs'[i].remote == cs[i].remote
  {
    hide Transfer, Locate, Total;
    LocateIsFirstMissing(Sizes(cs), Total(AllReported(cs)));
  }

  class DurableUpload {
    var chunks: seq<Chunk>
    const size: nat

    constructor (chunks: seq<Chunk>, size: nat)
      ensures this.chunks == chunks && this.size == size
    {
      this.chunks, this.size := chunks, size;
    }

    method UploadedSoFar() returns (uploaded: nat)
      ensures uploaded == Total(AllReported(chunks))
    {
      uploaded := 0;
      var i := 0;
      while i < |chunks|
        invariant 0 <= i <= |chunks|
        invariant uploaded == Total(AllReported(chunks)[..i])
      {
        TotalStep(AllReported(chunks), i);
        uploaded := uploaded + Reported(chunks[i]);
        i := i + 1;
      }
      assert AllReported(chunks)[..i] == AllReported(chunks);
    }

    /** The search loop: accumulates chunk sizes until they pass the uploaded amount; -1 if they never do. */
    method FindResumePoint(uploaded: nat) returns (i: int, skip: nat)
      ensures i == -1 ==> Locate(Sizes(chunks), uploaded) == None
      ensures i != -1 ==> 0 <= i < |chunks| && Locate(Sizes(chunks), uploaded) == Some((i, skip))
    {
      var curr := 0;
      i, skip := -1, 0;
      var idx := 0;
      ghost var sizes := Sizes(chunks);
      while idx < |chunks|
        invariant 0 <= idx <= |chunks| && i == -1 && curr <= uploaded
        invariant Locate(sizes, uploaded) ==
                    match Locate(sizes[idx..], uploaded - curr)
                    case None => None
                    case Some((j, s)) => Some((j + idx, s))
      {
        assert sizes[idx..][1..] == sizes[idx + 1..];
        curr := curr + chunks[idx].size;
        if curr > uploaded {
          i := idx;
          skip := chunks[idx].size - (curr - uploaded);
          break;
        }
        idx := idx + 1;
      }
    }

    method HandleUpload(env: Env) returns (outcome: Outcome)
      modifies this
      ensures (chunks, outcome) == old(Round(chunks, size, env))
    {
      var uploaded := UploadedSoFar();
      if uploaded == size { return Finished; }
      var i, skip := FindResumePoint(uploaded);
      if i == -1 { return Fatal; }
      LocateIsFirstMissing(Sizes(chunks), uploaded);
      var ok := TransferChunks(i, skip, uploaded > 0, env);
      return if ok then Finished else Interrupted;
    }

    method TransferChunks(first: nat, skip: nat, append: bool, env: Env) returns (ok: bool)
      requires first < |chunks| && skip <= chunks[first].size
      modifies this
      ensures var (rest, done) := old(Transfer(chunks[first..], skip, append, env));
              chunks == old(chunks[..first]) + rest && ok == done
    {
      hide Inbound, Transfer;
      var done, ahead := chunks[..first], chunks[first..];
      ghost var whole := Transfer(ahead, skip, append, env);
      var left, skip': nat, append' := env, skip, append;
      while ahead != []
        invariant ahead != [] ==> skip' <= ahead[0].size
        invariant var rest := Transfer(ahead, skip', append', left);
                  old(chunks[..first]) + whole.0 == done + rest.0 && whole.1 == rest.1
        decreases |ahead|
      {
        TransferStep(ahead, skip', append', left);
        var (c, arrived, used) := Inbound(ahead[0], skip', append', left);
        done, ahead := done + [c], ahead[1..];
        if !arrived {
          chunks := done + ahead;
          return false;
        }
        left, append', skip' := left.After(used), false, 0;
      }
      TransferNone(skip', append', left);
      chunks := done;
      return true;
    }
  }

  // ---- what a round keeps

  predicate Untouched(c: Chunk) {
    c.file == None && c.completed == 0 && !c.done
  }

  ghost predicate AllUntouched(cs: seq<Chunk>) {
    forall i :: 0 <= i < |cs| ==> Untouched(cs[i])
  }

  /** The first `u` bytes of the file lie over the chunks in order: full chunks, then at most one
      partial chunk, then chunks nobody has touched. Every chunk reports what it holds. */
  ghost predicate Laid(cs: seq<Chunk>, data: seq<byte>, u: nat)
    decreases |cs|
  {
    if cs == [] then data == [] && u == 0
    else
      var c := cs[0];
      && c.size <= |data|
      && Bytes(c) == data[..Min(u, c.size)]
      && Reported(c) == Min(u, c.size)
      && (if u < c.size then !c.done && AllUntouched(cs[1..]) && Total(Sizes(cs)) == |data|
          else (c.size > 0 ==> c.done) && Laid(cs[1..], data[c.size..], u - c.size))
  }

  lemma {:induction false} LaidTotals(cs: seq<Chunk>, data: seq<byte>, u: nat)
    requires Laid(cs, data, u)
    ensures u <= |data| == Total(Sizes(cs)) && Total(AllReported(cs)) == u
    decreases |cs|
  {
    if cs != [] {
      assert Sizes(cs)[1..] == Sizes(cs[1..]) && AllReported(cs)[1..] == AllReported(cs[1..]);
      if u < cs[0].size {
        UntouchedReportNothing(cs[1..]);
      } else {
        LaidTotals(cs[1..], data[cs[0].size..], u - cs[0].size);
      }
    }
  }

  lemma {:induction false} UntouchedReportNothing(cs: seq<Chunk>)
    requires AllUntouched(cs)
    ensures Total(AllReported(cs)) == 0
  {
    if cs != [] {
      assert AllReported(cs)[1..] == AllReported(cs[1..]);
      UntouchedReportNothing(cs[1..]);
    }
  }

  /** A new session holds nothing. */
  lemma {:induction false} UntouchedLaid(cs: seq<Chunk>, data: seq<byte>)
    requires AllUntouched(cs) && Total(Sizes(cs)) == |data|
    ensures Laid(cs, data, 0)
  {
    if cs != [] {
      assert Sizes(cs)[1..] == Sizes(cs[1..]);
      if cs[0].size == 0 { UntouchedLaid(cs[1..], data); }
      assert data[0..] == data;
    }
  }

  lemma {:induction false} LaidContents(cs: seq<Chunk>, data: seq<byte>, u: nat)
    requires Laid(cs, data, u)
    ensures u <= |data| && Contents(cs) == data[..u]
    decreases |cs|
  {
    LaidTotals(cs, data, u);
    if cs != [] {
      var c := cs[0];
      if u < c.size {
        UntouchedContents(cs[1..]);
      } else {
        LaidContents(cs[1..], data[c.size..], u - c.size);
        assert data[..u] == data[..c.size] + data[c.size..][..u - c.size];
      }
    }
  }

  lemma {:induction false} UntouchedContents(cs: seq<Chunk>)
    requires AllUntouched(cs)
    ensures Contents(cs) == []
  {
    if cs != [] { UntouchedContents(cs[1..]); }
  }

  /** The head chunk is where writing goes on: it holds `u` bytes and reports them. */
  ghost predicate Open(cs: seq<Chunk>, data: seq<byte>, u: nat) {
    && cs != [] && u <= cs[0].size
    && !cs[0].done && cs[0].completed == u && u <= |data| && Bytes(cs[0]) == data[..u]
    && AllUntouched(cs[1..]) && Total(Sizes(cs)) == |data|
  }

  /** A full chunk in front of a laid rest. */
  lemma LaidCons(c: Chunk, rest: seq<Chunk>, data: seq<byte>, v: nat)
    requires c.size <= |data| && c.size <= v && Bytes(c) == data[..c.size]
    requires Reported(c) == c.size && (c.size > 0 ==> c.done)
    requires Laid(rest, data[c.size..], v - c.size)
    ensures Laid([c] + rest, data, v)
  {
    assert ([c] + rest)[1..] == rest;
  }

  /** The chunk where a transfer stops keeps the bytes that reached it, and nothing beyond is touched. */
  lemma TransferStops(cs: seq<Chunk>, data: seq<byte>, u: nat, append: bool, env: Env)
    requires Open(cs, data, u) && (append || u == 0) && (cs[0].remote ==> u == 0)
    requires env.input <= data[u..] && !env.Arrives(cs[0].size - u) && !CutHere(cs[0], u, env)
    ensures var c := Inbound(cs[0], u, append, env).0;
            Laid([c] + cs[1..], data, u + env.Through())
    ensures !Inbound(cs[0], u, append, env).1
  {
    var c := cs[0];
    var c' := Inbound(c, u, append, env).0;
    var k := Min(env.Through(), c.size - u);
    assert k == env.Through();
    assert data[..u] + env.input[..k] == data[..u + k];
    assert ([c'] + cs[1..])[1..] == cs[1..];
    assert Sizes([c'] + cs[1..]) == Sizes(cs);
    assert Sizes(cs)[1..] == Sizes(cs[1..]);
    if c'.done { UntouchedLaid(cs[1..], data[c.size..]); }
  }

  /** A chunk that receives its last byte holds its part of the file, wherever it was resumed, and the next
      one is open. */
  lemma TransferMovesOn(cs: seq<Chunk>, data: seq<byte>, u: nat, append: bool, env: Env)
    requires Open(cs, data, u) && (append || u == 0)
    requires env.input <= data[u..] && env.Arrives(cs[0].size - u) && !CutHere(cs[0], u, env)
    ensures var c := cs[0];
            var (c', ok, used) := Inbound(c, u, append, env);
            && ok && used == c.size - u && c'.done && c'.size == c.size && Bytes(c') == data[..c.size]
            && env.After(used).input <= data[c.size..]
            && Total(Sizes(cs[1..])) == |data| - c.size
            && (cs[1..] != [] ==> Open(cs[1..], data[c.size..], 0))
  {
    var c := cs[0];
    assert Sizes(cs)[1..] == Sizes(cs[1..]);
    assert data[..u] + env.input[..c.size - u] == data[..c.size];
    PrefixAfter(env.input, data[u..], c.size - u);
    assert data[u..][c.size - u..] == data[c.size..];
  }

  lemma PrefixAfter(a: seq<byte>, b: seq<byte>, n: nat)
    requires a <= b && n <= |a|
    ensures a[n..] <= b[n..]
  {
    assert forall i :: 0 <= i < |a| - n ==> a[n..][i] == b[n..][i];
  }

  /** A transfer may start inside the chunk it resumes: the chunk is local, or remote and still empty, or all
      that it lacks arrives. */
  predicate StartsSafely(c: Chunk, skip: nat, env: Env)
    requires skip <= c.size
  {
    c.remote ==> skip == 0 || env.Arrives(c.size - skip)
  }

  /** A transfer that starts safely at the open chunk and is not cut by a peer extends the laid prefix by
      exactly the bytes that got through; if it completes, the whole file is there. */
  lemma {:induction false} TransferExtends(cs: seq<Chunk>, data: seq<byte>, u: nat, append: bool, env: Env)
    requires Open(cs, data, u) && (append || u == 0) && env.input <= data[u..]
    requires StartsSafely(cs[0], u, env) && !PeerCuts(cs, u, append, env)
    ensures var (cs', ok) := Transfer(cs, u, append, env);
            && Laid(cs', data, u + env.Through())
            && (ok ==> u + |env.input| == |data| && |env.input| <= env.budget)
            && (u + |env.input| == |data| && |env.input| < env.budget ==> ok)
    decreases |cs|
  {
    hide Inbound, CutHere, Transfer, PeerCuts, Laid;
    TransferStep(cs, u, append, env);
    var c, need := cs[0], cs[0].size - u;
    if !env.Arrives(need) {
      TransferStops(cs, data, u, append, env);
    } else {
      TransferMovesOn(cs, data, u, append, env);
      var c', rest := Inbound(c, u, append, env).0, Transfer(cs[1..], 0, false, env.After(need)).0;
      if cs[1..] != [] {
        TransferExtends(cs[1..], data[c.size..], 0, false, env.After(need));
      } else {
        TransferNone(0, false, env.After(need));
        UntouchedLaid([], data[c.size..]);
      }
      LaidCons(c', rest, data, u + env.Through());
    }
  }

  /** The round starts safely in the chunk it resumes. */
  ghost predicate ResumesSafely(cs: seq<Chunk>, env: Env) {
    var at := Locate(Sizes(cs), Total(AllReported(cs)));
    at.Some? && at.value.0 < |cs| && at.value.1 <= cs[at.value.0].size ==> StartsSafely(cs[at.value.0], at.value.1, env)
  }

  /** One round, from any laid prefix, that resumes safely and is not cut by a peer: the search succeeds, and
      the prefix grows by the bytes that got through. `Finished` means the chunks hold the file. */
  lemma RoundExtends(cs: seq<Chunk>, data: seq<byte>, u: nat, env: Env)
    requires Laid(cs, data, u) && u <= |data| && env.input <= data[u..]
    requires ResumesSafely(cs, env) && !RoundIsCut(cs, |data|, env)
    ensures var (cs', outcome) := Round(cs, |data|, env);
            && outcome != Fatal
            && Laid(cs', data, if u == |data| then u else u + env.Through())
            && (outcome == Finished ==> Contents(cs') == data && Laid(cs', data, |data|))
            && (u + |env.input| == |data| && |env.input| < env.budget ==> outcome == Finished)
  {
    hide Transfer, PeerCuts, Laid, Locate, Contents, Total;
    LaidTotals(cs, data, u);
    if u == |data| {
      LaidContents(cs, data, u);
      assert data[..u] == data;
    } else {
      LocateIsFirstMissing(Sizes(cs), u);
      var (i, skip) := Locate(Sizes(cs), u).value;
      ResumeAt(cs, data, u, i, skip, u > 0, env);
      var rest := Transfer(cs[i..], skip, u > 0, env);
      var v := u + env.Through();
      LaidContents(cs[..i] + rest.0, data, v);
      if rest.1 { assert data[..v] == data; }
    }
  }

  lemma LocateNext(cs: seq<Chunk>, u: nat, i: nat, skip: nat)
    requires cs != [] && Locate(Sizes(cs), u) == Some((i, skip))
    ensures if u < cs[0].size then i == 0 && skip == u
            else i > 0 && Locate(Sizes(cs[1..]), u - cs[0].size) == Some((i - 1, skip))
  {
    assert Sizes(cs)[1..] == Sizes(cs[1..]);
  }

  lemma {:induction false} ResumeAt(cs: seq<Chunk>, data: seq<byte>, u: nat, i: nat, skip: nat, append: bool, env: Env)
    requires Laid(cs, data, u) && u < |data| && env.input <= data[u..]
    requires Locate(Sizes(cs), u) == Some((i, skip)) && i < |cs| && skip < cs[i].size
    requires StartsSafely(cs[i], skip, env) && !PeerCuts(cs[i..], skip, append, env)
    requires append || skip == 0
    ensures var (rest, ok) := Transfer(cs[i..], skip, append, env);
            && Laid(cs[..i] + rest, data, u + env.Through())
            && (ok ==> u + |env.input| == |data| && |env.input| <= env.budget)
            && (u + |env.input| == |data| && |env.input| < env.budget ==> ok)
    decreases |cs|
  {
    hide Transfer, PeerCuts, Laid, Open, Total, Locate;
    var c := cs[0];
    LocateNext(cs, u, i, skip);
    var rest := Transfer(cs[i..], skip, append, env).0;
    if u < c.size {
      LaidHead(cs, data, u);
      assert cs[0..] == cs && cs[..0] + rest == rest;
      TransferExtends(cs, data, u, append, env);
    } else {
      LaidTail(cs, data, u);
      assert data[c.size..][u - c.size..] == data[u..];
      assert cs[1..][i - 1..] == cs[i..];
      ResumeAt(cs[1..], data[c.size..], u - c.size, i - 1, skip, append, env);
      LaidCons(c, cs[1..][..i - 1] + rest, data, u + env.Through());
      assert cs[..i] + rest == [c] + (cs[1..][..i - 1] + rest);
    }
  }

  lemma LaidHead(cs: seq<Chunk>, data: seq<byte>, u: nat)
    requires Laid(cs, data, u) && cs != [] && u < cs[0].size
    ensures Open(cs, data, u)
  {
  }

  lemma LaidTail(cs: seq<Chunk>, data: seq<byte>, u: nat)
    requires Laid(cs, data, u) && cs != [] && cs[0].size <= u
    ensures cs[0].size <= |data| && Bytes(cs[0]) == data[..cs[0].size]
    ensures Reported(cs[0]) == cs[0].size && (cs[0].size > 0 ==> cs[0].done)
    ensures Laid(cs[1..], data[cs[0].size..], u - cs[0].size)
  {
  }

  // ---- exactly when a round keeps what it should

  /** Where a laid upload is resumed: the chunk holds what it reports, and nothing beyond was touched. */
  ghost predicate Pending(cs: seq<Chunk>, skip: nat, append: bool) {
    cs != [] ==>
      && !cs[0].done && cs[0].completed == |Bytes(cs[0])| == skip <= cs[0].size
      && (append || skip == 0) && AllUntouched(cs[1..])
  }

  lemma {:induction false} ResumePoint(cs: seq<Chunk>, data: seq<byte>, u: nat, i: nat, skip: nat)
    requires Laid(cs, data, u) && Locate(Sizes(cs), u) == Some((i, skip)) && i < |cs|
    ensures Pending(cs[i..], skip, u > 0) && skip < cs[i].size
    ensures |Contents(cs[..i])| == Total(Sizes(cs)[..i])
    decreases |cs|
  {
    hide Locate, Laid, Pending, Contents, Total, Open;
    LocateNext(cs, u, i, skip);
    var c := cs[0];
    if u < c.size {
      LaidHead(cs, data, u);
      OpenIsPending(cs, data, u);
      assert cs[0..] == cs;
      NothingInFront(cs);
    } else {
      LaidTail(cs, data, u);
      ResumePoint(cs[1..], data[c.size..], u - c.size, i - 1, skip);
      PendingLater(cs[i..], skip, u - c.size > 0, u > 0);
      assert cs[1..][i - 1..] == cs[i..];
      FrontLength(cs, i);
    }
  }

  lemma OpenIsPending(cs: seq<Chunk>, data: seq<byte>, u: nat)
    requires Open(cs, data, u)
    ensures Pending(cs, u, u > 0)
  {
  }

  lemma PendingLater(cs: seq<Chunk>, skip: nat, append: bool, append': bool)
    requires Pending(cs, skip, append) && (append ==> append')
    ensures Pending(cs, skip, append')
  {
  }

  lemma NothingInFront(cs: seq<Chunk>)
    ensures |Contents(cs[..0])| == Total(Sizes(cs)[..0])
  {
  }

  lemma FrontLength(cs: seq<Chunk>, i: nat)
    requires 0 < i <= |cs| && |Bytes(cs[0])| == cs[0].size
    requires |Contents(cs[1..][..i - 1])| == Total(Sizes(cs[1..])[..i - 1])
    ensures |Contents(cs[..i])| == Total(Sizes(cs)[..i])
  {
    assert cs[..i][1..] == cs[1..][..i - 1] && Sizes(cs)[..i][1..] == Sizes(cs[1..])[..i - 1];
  }

  /** In a laid upload every chunk holds what it reports, and behind an incomplete one nothing was touched. */
  lemma {:induction false} LaidIsHonest(cs: seq<Chunk>, data: seq<byte>, v: nat, j: nat)
    requires Laid(cs, data, v) && j < |cs|
    ensures |Bytes(cs[j])| == Reported(cs[j])
    ensures Reported(cs[j]) < cs[j].size ==> AllUntouched(cs[j + 1..])
    decreases |cs|
  {
    if j > 0 {
      assert cs[j] == cs[1..][j - 1] && cs[j + 1..] == cs[1..][j..];
      if v < cs[0].size {
        assert Untouched(cs[1..][j - 1]);
      } else {
        LaidIsHonest(cs[1..], data[cs[0].size..], v - cs[0].size, j - 1);
      }
    }
  }

  /** Resuming a remote chunk that is interrupted again makes it report less than it holds. */
  lemma UnsafeStartIsDishonest(cs: seq<Chunk>, skip: nat, append: bool, env: Env)
    requires cs != [] && Pending(cs, skip, append) && !StartsSafely(cs[0], skip, env) &&
        !PeerCuts(cs, skip, append, env)
    ensures var c := Transfer(cs, skip, append, env).0[0]; Reported(c) < |Bytes(c)|
  {
  }

  /** A transfer that was cut by a peer and later interrupted leaves an incomplete chunk with a touched one
      behind it. */
  lemma {:induction false} CutLeavesGap(cs: seq<Chunk>, skip: nat, append: bool, env: Env) returns (a: nat)
    requires Pending(cs, skip, append) && (cs != [] ==> skip <= cs[0].size)
    requires PeerCuts(cs, skip, append, env) && !Transfer(cs, skip, append, env).1
    ensures a + 1 < |cs|
    ensures var cs' := Transfer(cs, skip, append, env).0;
            Reported(cs'[a]) < cs[a].size && !Untouched(cs'[a + 1])
    decreases |cs|
  {
    assert cs != [];
    hide Inbound, CutHere, Transfer, PeerCuts, Pending;
    TransferStep(cs, skip, append, env);
    var (c, ok, used) := Inbound(cs[0], skip, append, env);
    var rest := cs[1..];
    if CutHere(cs[0], skip, env) {
      CutIsReported(cs, skip, append, env);
      TransferNone(0, false, env.After(used));
      TransferStep(rest, 0, false, env.After(used));
      NewChunkIsTouched(cs, skip, append, env.After(used));
      a := 0;
    } else {
      CompleteChunkLength(cs, skip, append, env);
      a := CutLeavesGap(rest, 0, false, env.After(used));
      a := a + 1;
    }
  }

  lemma CutIsReported(cs: seq<Chunk>, skip: nat, append: bool, env: Env)
    requires cs != [] && skip <= cs[0].size && Pending(cs, skip, append) && CutHere(cs[0], skip, env)
    ensures var (c, ok, _) := Inbound(cs[0], skip, append, env); ok && Reported(c) < cs[0].size
  {
  }

  lemma NewChunkIsTouched(cs: seq<Chunk>, skip: nat, append: bool, env: Env)
    requires |cs| > 1 && Pending(cs, skip, append)
    ensures !Untouched(Inbound(cs[1], 0, false, env).0)
  {
    assert Untouched(cs[1..][0]);
  }

  /** A transfer that is reported as complete stores as many bytes as the chunks take exactly when no peer cut
      it short. */
  lemma {:induction false} CompleteTransferLength(cs: seq<Chunk>, skip: nat, append: bool, env: Env)
    requires Pending(cs, skip, append) && (cs != [] ==> skip <= cs[0].size) && Transfer(cs, skip, append, env).1
    ensures var stored := |Contents(Transfer(cs, skip, append, env).0)|;
            stored <= Total(Sizes(cs)) && (stored == Total(Sizes(cs)) <==> !PeerCuts(cs, skip, append, env))
    decreases |cs|
  {
    if cs != [] {
      hide Inbound, CutHere, Transfer, PeerCuts, Pending, Contents, Total;
      TransferStep(cs, skip, append, env);
      var (c, ok, used) := Inbound(cs[0], skip, append, env);
      CompleteChunkLength(cs, skip, append, env);
      CompleteTransferLength(cs[1..], 0, false, env.After(used));
      Lengths(cs, c, Transfer(cs[1..], 0, false, env.After(used)).0);
    }
  }

  lemma Lengths(cs: seq<Chunk>, c: Chunk, rest: seq<Chunk>)
    requires cs != []
    ensures |Contents([c] + rest)| == |Bytes(c)| + |Contents(rest)|
    ensures Total(Sizes(cs)) == cs[0].size + Total(Sizes(cs[1..]))
  {
    assert ([c] + rest)[1..] == rest && Sizes(cs)[1..] == Sizes(cs[1..]);
  }

  lemma CompleteChunkLength(cs: seq<Chunk>, skip: nat, append: bool, env: Env)
    requires cs != [] && skip <= cs[0].size && Pending(cs, skip, append) && Inbound(cs[0], skip, append, env).1
    ensures var c := Inbound(cs[0], skip, append, env).0;
            if CutHere(cs[0], skip, env) then |Bytes(c)| < c.size else |Bytes(c)| == c.size
    ensures Pending(cs[1..], 0, false)
  {
    if |cs| > 1 { assert Untouched(cs[1]) && AllUntouched(cs[1..][1..]); }
  }

  lemma {:induction false} ContentsConcat(a: seq<Chunk>, b: seq<Chunk>)
    ensures Contents(a + b) == Contents(a) + Contents(b)
  {
    if a == [] {
      assert a + b == b;
    } else {
      assert (a + b)[1..] == a[1..] + b;
      ContentsConcat(a[1..], b);
    }
  }

  /** A round from a laid prefix never fails to find its place, and one that is reported as finished has stored
      the file exactly when none of its transfers was cut by a peer. */
  lemma RoundHoldsFileIff(cs: seq<Chunk>, data: seq<byte>, u: nat, env: Env)
    requires Laid(cs, data, u) && u <= |data| && env.input <= data[u..]
    ensures var (cs', outcome) := Round(cs, |data|, env);
            && outcome != Fatal
            && (outcome == Finished ==> (Contents(cs') == data <==> !RoundIsCut(cs, |data|, env)))
            && (outcome == Finished && !RoundIsCut(cs, |data|, env) ==> Laid(cs', data, |data|))
  {
    hide Transfer, PeerCuts, Laid, Locate, Contents, Total, Inbound;
    LaidTotals(cs, data, u);
    if u == |data| {
      LaidContents(cs, data, u);
      assert data[..u] == data;
    } else {
      LocateIsFirstMissing(Sizes(cs), u);
      var (i, skip) := Locate(Sizes(cs), u).value;
      ResumePoint(cs, data, u, i, skip);
      var rest := Transfer(cs[i..], skip, u > 0, env);
      if rest.1 {
        TransferStep(cs[i..], skip, u > 0, env);
        CompleteTransferLength(cs[i..], skip, u > 0, env);
        ContentsConcat(cs[..i], rest.0);
        assert Sizes(cs) == Sizes(cs)[..i] + Sizes(cs[i..]);
        TotalConcat(Sizes(cs)[..i], Sizes(cs[i..]));
        if !PeerCuts(cs[i..], skip, u > 0, env) { RoundExtends(cs, data, u, env); }
      }
    }
  }

  /** What keeps an interrupted round honest. */
  ghost predicate KeepsLayout(cs: seq<Chunk>, size: nat, env: Env) {
    ResumesSafely(cs, env) && !RoundIsCut(cs, size, env)
  }

  /** An interrupted round leaves a prefix of the file laid over the chunks exactly when the chunk it resumed
      is local, was empty, or got all it lacked, and no transfer was cut by a peer. */
  lemma RoundKeepsLayoutIff(cs: seq<Chunk>, data: seq<byte>, u: nat, env: Env)
    requires Laid(cs, data, u) && u <= |data| && env.input <= data[u..]
    requires Round(cs, |data|, env).1 == Interrupted
    ensures (exists v :: Laid(Round(cs, |data|, env).0, data, v)) <==> KeepsLayout(cs, |data|, env)
  {
    hide Transfer, PeerCuts, Laid, Locate, Total, StartsSafely, Pending;
    LaidTotals(cs, data, u);
    LocateIsFirstMissing(Sizes(cs), u);
    var (i, skip) := Locate(Sizes(cs), u).value;
    var cs' := Round(cs, |data|, env).0;
    if KeepsLayout(cs, |data|, env) {
      RoundExtends(cs, data, u, env);
      assert Laid(cs', data, u + env.Through());
    } else {
      ResumePoint(cs, data, u, i, skip);
      var rest := Transfer(cs[i..], skip, u > 0, env).0;
      var j := GapIn(cs[i..], skip, u > 0, env);
      forall v ensures !Laid(cs', data, v) {
        assert cs'[i + j] == rest[j];
        if Laid(cs', data, v) {
          LaidIsHonest(cs', data, v, i + j);
          GapIsUntouchable(cs', i, rest, j);
        }
      }
    }
  }

  /** What a bad round leaves behind: a chunk that does not hold what it reports, or one that is incomplete in
      front of a touched one. */
  ghost predicate Gap(rest: seq<Chunk>, j: nat) {
    j < |rest| &&
    (|| |Bytes(rest[j])| != Reported(rest[j])
     || (Reported(rest[j]) < rest[j].size && j + 1 < |rest| && !Untouched(rest[j + 1])))
  }

  lemma GapIn(cs: seq<Chunk>, skip: nat, append: bool, env: Env) returns (j: nat)
    requires cs != [] && Pending(cs, skip, append) && skip <= cs[0].size && !Transfer(cs, skip, append, env).1
    requires !(StartsSafely(cs[0], skip, env) && !PeerCuts(cs, skip, append, env))
    ensures Gap(Transfer(cs, skip, append, env).0, j)
  {
    hide Transfer, PeerCuts, StartsSafely, Pending;
    if PeerCuts(cs, skip, append, env) {
      j := CutLeavesGap(cs, skip, append, env);
    } else {
      UnsafeStartIsDishonest(cs, skip, append, env);
      j := 0;
    }
  }

  lemma GapIsUntouchable(cs: seq<Chunk>, i: nat, rest: seq<Chunk>, j: nat)
    requires i <= |cs| && cs[i..] == rest && Gap(rest, j)
    ensures !(|Bytes(cs[i + j])| == Reported(cs[i + j]) &&
              (Reported(cs[i + j]) < cs[i + j].size ==> AllUntouched(cs[i + j + 1..])))
  {
    assert cs[i + j] == rest[j];
    if j + 1 < |rest| { assert cs[i + j + 1..][0] == rest[j + 1]; }
  }

  /** The search fails exactly when the chunks report more than the file has. */
  lemma FatalIffOverfull(cs: seq<Chunk>, size: nat, env: Env)
    requires Total(Sizes(cs)) == size
    ensures Round(cs, size, env).1 == Fatal <==> Total(AllReported(cs)) > size
    ensures Round(cs, size, env).1 == Fatal ==> Round(cs, size, env).0 == cs
  {
    hide Transfer, Locate, Total;
    LocateIsFirstMissing(Sizes(cs), Total(AllReported(cs)));
  }

  /** Nothing is reported and nothing is complete, whatever the files hold. */
  ghost predicate AllBlank(cs: seq<Chunk>) {
    forall i :: 0 <= i < |cs| ==> !cs[i].done && cs[i].completed == 0
  }

  lemma {:induction false} BlankReportNothing(cs: seq<Chunk>)
    requires AllBlank(cs)
    ensures Total(AllReported(cs)) == 0
  {
    if cs != [] {
      assert AllReported(cs)[1..] == AllReported(cs[1..]);
      BlankReportNothing(cs[1..]);
    }
  }

  lemma {:induction false} BlankTransfer(cs: seq<Chunk>, data: seq<byte>, env: Env)
    requires AllBlank(cs) && Total(Sizes(cs)) == |data| && env.input == data && |data| < env.budget && env.cuts == []
    ensures var (cs', ok) := Transfer(cs, 0, false, env); ok && Contents(cs') == data
    decreases |cs|
  {
    if cs != [] {
      hide Transfer, Total, Inbound, Contents;
      assert Total(Sizes(cs)) == cs[0].size + Total(Sizes(cs[1..])) by { Lengths(cs, cs[0], []); }
      TransferStep(cs, 0, false, env);
      BlankChunk(cs[0], env);
      var (c, _, used) := Inbound(cs[0], 0, false, env);
      BlankTransfer(cs[1..], data[used..], env.After(used));
      ContentsConcat([c], Transfer(cs[1..], 0, false, env.After(used)).0);
      ContentsOne(c);
    } else {
      TransferNone(0, false, env);
    }
  }

  lemma BlankChunk(c: Chunk, env: Env)
    requires !c.done && c.completed == 0 && c.size <= |env.input| < env.budget && env.cuts == []
    ensures var (c', ok, used) := Inbound(c, 0, false, env);
            ok && used == c.size && Bytes(c') == env.input[..c.size]
  {
  }

  lemma ContentsOne(c: Chunk)
    ensures Contents([c]) == Bytes(c)
  {
    assert [c][1..] == [];
  }

  /** When nothing is reported the upload starts over: whatever bytes an earlier attempt left in the files are
      overwritten, and an undisturbed round stores the file. */
  lemma FreshStartOverwrites(cs: seq<Chunk>, data: seq<byte>, env: Env)
    requires AllBlank(cs) && Total(Sizes(cs)) == |data| && forall i :: 0 <= i < |cs| ==> cs[i].size > 0
    requires env.input == data && |data| < env.budget && env.cuts == []
    ensures var (cs', outcome) := Round(cs, |data|, env); outcome == Finished && Contents(cs') == data
  {
    BlankReportNothing(cs);
    if cs == [] {
      assert data == [];
    } else {
      BlankTransfer(cs, data, env);
      assert cs[0..] == cs;
      assert Locate(Sizes(cs), 0) == Some((0, 0));
      assert cs[..0] + Transfer(cs, 0, false, env).0 == Transfer(cs, 0, false, env).0;
      TotalIsPositive(cs);
    }
  }

  lemma TotalIsPositive(cs: seq<Chunk>)
    requires cs != [] && cs[0].size > 0
    ensures Total(Sizes(cs)) > 0
  {
  }

  // ---- whole uploads

  /** One request: how much of the remainder the client sends, and what goes wrong. */
  datatype Attempt = Attempt(sent: nat, budget: nat, hard: bool, cuts: seq<Cut>)

  /** The client resumes from the amount the server reports. */
  function Remainder(cs: seq<Chunk>, data: seq<byte>, sent: nat): seq<byte> {
    var u := Total(AllReported(cs));
    if u <= |data| then data[u..Min(u + sent, |data|)] else []
  }

  function EnvOf(cs: seq<Chunk>, data: seq<byte>, a: Attempt): Env {
    Env(Remainder(cs, data, a.sent), a.budget, a.hard, a.cuts)
  }

  function Next(cs: seq<Chunk>, data: seq<byte>, a: Attempt): (r: (seq<Chunk>, Outcome))
    ensures |r.0| == |cs|
    ensures forall i :: 0 <= i < |cs| ==> r.0[i].size == cs[i].size && r.0[i].remote == cs[i].remote
  {
    RoundKeepsShape(cs, |data|, EnvOf(cs, data, a));
    Round(cs, |data|, EnvOf(cs, data, a))
  }

  /** Attempts follow each other until one does not end in an interruption. */
  function Upload(cs: seq<Chunk>, data: seq<byte>, attempts: seq<Attempt>): (r: (seq<Chunk>, Outcome))
    ensures |r.0| == |cs| && forall i :: 0 <= i < |cs| ==> r.0[i].size == cs[i].size
    decreases |attempts|
  {
    if attempts == [] then (cs, Interrupted)
    else
      var r := Next(cs, data, attempts[0]);
      if r.1 == Interrupted then Upload(r.0, data, attempts[1..]) else r
  }

  /** Every interrupted round of the upload keeps the layout; nothing is asked of the one that ends it. */
  ghost predicate SafeRun(cs: seq<Chunk>, data: seq<byte>, attempts: seq<Attempt>)
    decreases |attempts|
  {
    attempts != [] && Next(cs, data, attempts[0]).1 == Interrupted ==>
      && KeepsLayout(cs, |data|, EnvOf(cs, data, attempts[0]))
      && SafeRun(Next(cs, data, attempts[0]).0, data, attempts[1..])
  }

  /** A transfer of the round that ends the upload was cut by a peer. */
  ghost predicate LastRoundIsCut(cs: seq<Chunk>, data: seq<byte>, attempts: seq<Attempt>)
    decreases |attempts|
  {
    attempts != [] &&
    if Next(cs, data, attempts[0]).1 == Interrupted
    then LastRoundIsCut(Next(cs, data, attempts[0]).0, data, attempts[1..])
    else RoundIsCut(cs, |data|, EnvOf(cs, data, attempts[0]))
  }

  /** Over any number of interruptions and resumes the stored bytes are a prefix of the file and the search
      for the resume point never fails; an upload that is reported as finished holds the file exactly when
      no transfer of its last round was cut by a peer. */
  lemma {:induction false} UploadIsCorrect(cs: seq<Chunk>, data: seq<byte>, u: nat,
      attempts: seq<Attempt>) returns (v: nat)
    requires Laid(cs, data, u) && SafeRun(cs, data, attempts)
    ensures u <= v <= |data|
    ensures var (cs', outcome) := Upload(cs, data, attempts);
            && outcome != Fatal
            && (outcome == Interrupted || !LastRoundIsCut(cs, data, attempts) ==> Laid(cs', data, v))
            && (outcome == Finished ==> v == |data| && (Contents(cs') == data <==> !LastRoundIsCut(cs, data, attempts)))
    decreases |attempts|
  {
    hide Round, RoundIsCut, Laid, ResumesSafely;
    LaidTotals(cs, data, u);
    if attempts == [] {
      v := u;
    } else {
      var a := attempts[0];
      var env := EnvOf(cs, data, a);
      assert env.input <= data[u..];
      RoundHoldsFileIff(cs, data, u, env);
      var (cs', outcome) := Next(cs, data, a);
      if outcome == Interrupted {
        RoundExtends(cs, data, u, env);
        v := UploadIsCorrect(cs', data, if u == |data| then u else u + env.Through(), attempts[1..]);
      } else {
        v := |data|;
      }
    }
  }

  ghost predicate AllLocal(cs: seq<Chunk>) {
    forall i :: 0 <= i < |cs| ==> !cs[i].remote
  }

  lemma {:induction false} LocalIsNeverCut(cs: seq<Chunk>, skip: nat, append: bool, env: Env)
    requires AllLocal(cs) && (cs != [] ==> skip <= cs[0].size)
    ensures !PeerCuts(cs, skip, append, env)
    decreases |cs|
  {
    if cs != [] {
      hide Inbound;
      TransferStep(cs, skip, append, env);
      var (_, ok, used) := Inbound(cs[0], skip, append, env);
      if ok { LocalIsNeverCut(cs[1..], 0, false, env.After(used)); }
    }
  }

  lemma LocalKeepsLayout(cs: seq<Chunk>, size: nat, env: Env)
    requires AllLocal(cs)
    ensures KeepsLayout(cs, size, env)
  {
    hide PeerCuts, Locate, Total;
    var u := Total(AllReported(cs));
    LocateIsFirstMissing(Sizes(cs), u);
    if Locate(Sizes(cs), u).Some? {
      var (i, skip) := Locate(Sizes(cs), u).value;
      LocalIsNeverCut(cs[i..], skip, u > 0, env);
    }
  }

  lemma {:induction false} LocalRunIsSafe(cs: seq<Chunk>, data: seq<byte>, attempts: seq<Attempt>)
    requires AllLocal(cs)
    ensures SafeRun(cs, data, attempts) && !LastRoundIsCut(cs, data, attempts)
    decreases |attempts|
  {
    if attempts != [] {
      hide Next, KeepsLayout;
      LocalKeepsLayout(cs, |data|, EnvOf(cs, data, attempts[0]));
      LocalIsNotCut(cs, |data|, EnvOf(cs, data, attempts[0]));
      LocalRunIsSafe(Next(cs, data, attempts[0]).0, data, attempts[1..]);
    }
  }

  lemma LocalIsNotCut(cs: seq<Chunk>, size: nat, env: Env)
    requires AllLocal(cs)
    ensures !RoundIsCut(cs, size, env)
  {
    LocalKeepsLayout(cs, size, env);
  }

  /** A new local session, uploaded in any number of attempts. */
  lemma LocalUploadIsCorrect(cs: seq<Chunk>, data: seq<byte>, attempts: seq<Attempt>)
    requires AllUntouched(cs) && AllLocal(cs) && Total(Sizes(cs)) == |data|
    ensures var (cs', outcome) := Upload(cs, data, attempts);
            && outcome != Fatal && Contents(cs') <= data
            && (outcome == Finished ==> Contents(cs') == data)
  {
    UntouchedLaid(cs, data);
    LocalRunIsSafe(cs, data, attempts);
    var v := UploadIsCorrect(cs, data, 0, attempts);
    LaidContents(Upload(cs, data, attempts).0, data, v);
  }

  /** In a finished upload every chunk of positive size has its file and is released as complete. */
  lemma {:induction false} PositiveChunksAreStored(cs: seq<Chunk>, data: seq<byte>, j: nat)
    requires Laid(cs, data, |data|) && j < |cs| && cs[j].size > 0
    ensures cs[j].done && cs[j].file.Some?
    decreases |cs|
  {
    if j > 0 {
      PositiveChunksAreStored(cs[1..], data[cs[0].size..], j - 1);
    }
  }

  // ---- where the guarantees end

  /** An interrupted remote chunk reports what it holds exactly when its channel started from nothing. */
  lemma RemoteProgressIffFromScratch(c: Chunk, env: Env)
    requires c.remote && !c.done && c.completed == |Bytes(c)| < c.size
    requires !env.Arrives(c.size - c.completed) && !CutHere(c, c.completed, env)
    ensures var c' := Inbound(c, c.completed, true, env).0;
            Reported(c') == |Bytes(c')| <==> c.completed == 0
  {
  }

  /** A peer that goes away in the middle: the upload is reported as finished with only the bytes that the peer
      had stored. */
  lemma PeerCutTruncates(data: seq<byte>, stored: nat, consumed: nat)
    requires stored <= consumed <= |data| && stored < |data|
    ensures var (cs', outcome) := Upload([Chunk(|data|, true, None, 0, false)], data,
                                         [Attempt(|data|, |data|, false, [PeerCut(stored, consumed)])]);
            outcome == Finished && Contents(cs') == data[..stored]
  {
    var c, a := Chunk(|data|, true, None, 0, false), Attempt(|data|, |data|, false, [PeerCut(stored, consumed)]);
    var env := Env(data[0..], |data|, false, a.cuts);
    assert data[0..] == data;
    SingleChunkRound(c, data, a);
    assert CutHere(c, 0, env);
    var c' := Inbound(c, 0, false, env).0;
    assert Bytes(c') == data[..stored];
    hide Next;
    assert Upload([c], data, [a]) == Next([c], data, a);
    assert Contents([c']) == Bytes(c') + Contents([]);
  }

  /** Two interruptions of one remote chunk are enough to corrupt it: the third attempt is accepted,
      the upload finishes, and the chunk holds more bytes than the file has. */
  lemma RemoteResumeCorrupts(data: seq<byte>, a: nat, b: nat)
    requires 0 < a && 0 < b && a + b < |data|
    ensures var cs := [Chunk(|data|, true, None, 0, false)];
            var n := |data|;
            var (cs', outcome) := Upload(cs, data, [Attempt(n, a, false, []), Attempt(n, b, false, []), Attempt(n,
                n, false, [])]);
            outcome == Finished && |Contents(cs')| == n + a
  {
    var n := |data|;
    var c0 := Chunk(n, true, None, 0, false);
    var c1 := c0.(file := Some(Bytes(c0) + data[c0.completed..c0.completed + a]), completed := a);
    var c2 := c1.(file := Some(Bytes(c1) + data[c1.completed..c1.completed + b]), completed := b);
    var c3 := c2.(file := Some(Bytes(c2) + data[c2.completed..]), done := true);
    var x, y, z := Attempt(n, a, false, []), Attempt(n, b, false, []), Attempt(n, n, false, []);
    hide Next, Upload, Contents;
    RemoteRoundCut(c0, data, a);
    RemoteRoundCut(c1, data, b);
    RemoteRoundDone(c2, data);
    UploadThree([c0], [c1], [c2], data, x, y, z);
    ContentsOne(c3);
    assert |Bytes(c1)| == a && |Bytes(c2)| == a + b;
  }

  lemma UploadThree(cs0: seq<Chunk>, cs1: seq<Chunk>, cs2: seq<Chunk>, data: seq<byte>, x: Attempt, y: Attempt,
      z: Attempt)
    requires Next(cs0, data, x) == (cs1, Interrupted) && Next(cs1, data, y) == (cs2, Interrupted)
    requires Next(cs2, data, z).1 == Finished
    ensures Upload(cs0, data, [x, y, z]) == Next(cs2, data, z)
  {
    hide Next;
    assert [x, y, z][1..] == [y, z] && [y, z][1..] == [z];
    assert Upload(cs1, data, [y, z]) == Upload(cs2, data, [z]);
  }

  lemma RemoteRoundCut(c: Chunk, data: seq<byte>, k: nat)
    requires c.remote && !c.done && c.size == |data| && (c.completed == 0 ==> Bytes(c) == [])
    requires 0 < k && c.completed + k < |data|
    ensures Next([c], data, Attempt(|data|, k, false, []))
            == ([c.(file := Some(Bytes(c) + data[c.completed..c.completed + k]), completed := k)], Interrupted)
  {
    SingleChunkRound(c, data, Attempt(|data|, k, false, []));
    assert data[c.completed..][..k] == data[c.completed..c.completed + k];
  }

  lemma RemoteRoundDone(c: Chunk, data: seq<byte>)
    requires c.remote && !c.done && c.size == |data| && 0 < c.completed < |data|
    ensures Next([c], data, Attempt(|data|, |data|, false, []))
            == ([c.(file := Some(Bytes(c) + data[c.completed..]), done := true)], Finished)
  {
    SingleChunkRound(c, data, Attempt(|data|, |data|, false, []));
    assert data[c.completed..][..|data| - c.completed] == data[c.completed..];
  }

  lemma SingleChunkRound(c: Chunk, data: seq<byte>, a: Attempt)
    requires c.remote && !c.done && c.size == |data| == a.sent && c.completed < |data|
    requires c.completed == 0 ==> Bytes(c) == []
    ensures var u := c.completed;
            var (c', ok, _) := Inbound(c, u, u > 0, Env(data[u..], a.budget, a.hard, a.cuts));
            Next([c], data, a) == ([c'], if ok then Finished else Interrupted)
  {
    hide Inbound;
    var u := c.completed;
    var env := Env(data[u..], a.budget, a.hard, a.cuts);
    assert AllReported([c]) == [u] && Sizes([c]) == [|data|];
    assert Total([u]) == u && Total([|data|]) == |data|;
    assert Locate([|data|], u) == Some((0, u));
    assert [c][0..] == [c] && [c][..0] == [];
    assert EnvOf([c], data, a) == env;
    TransferStep([c], u, u > 0, env);
    assert [c][1..] == [];
    var (c', ok, used) := Inbound(c, u, u > 0, env);
    if ok { TransferNone(0, false, env.After(used)); }
    assert [c'] + [] == [c'] && [] + [c'] == [c'];
  }

  /** Chunks in front of the resume point are left alone. */
  lemma RoundKeepsFront(cs: seq<Chunk>, data: seq<byte>, a: Attempt, j: nat)
    requires j < |cs| && cs[j].size == 0 && Total(Sizes(cs)[..j]) <= Total(AllReported(cs))
    ensures |Next(cs, data, a).0| == |cs| && Next(cs, data, a).0[j] == cs[j]
  {
    var sizes, u := Sizes(cs), Total(AllReported(cs));
    LocateIsFirstMissing(sizes, u);
    if Locate(sizes, u).Some? {
      var (i, skip) := Locate(sizes, u).value;
      if i < j {
        TotalStep(sizes, i);
        assert sizes[..j] == sizes[..i + 1] + sizes[i + 1..j];
        TotalConcat(sizes[..i + 1], sizes[i + 1..j]);
      }
    }
  }

  /** A zero-size chunk in front of all data, which a node with no free space reserves for itself, never
      gets a file, in any upload. */
  lemma {:induction false} LeadingEmptyChunkIsNeverStored(cs: seq<Chunk>, data: seq<byte>, attempts: seq<Attempt>,
      j: nat)
    requires j < |cs| && cs[j].size == 0 && Total(Sizes(cs)[..j]) == 0
    ensures |Upload(cs, data, attempts).0| == |cs| && Upload(cs, data, attempts).0[j] == cs[j]
    decreases |attempts|
  {
    if attempts != [] {
      RoundKeepsFront(cs, data, attempts[0], j);
      var cs' := Next(cs, data, attempts[0]).0;
      assert Sizes(cs') == Sizes(cs);
      LeadingEmptyChunkIsNeverStored(cs', data, attempts[1..], j);
    }
  }

  /** A hard failure on the byte before chunk `j` ends the round before `j` is opened. */
  lemma {:induction false} HardCutStopsBefore(cs: seq<Chunk>, append: bool, env: Env, j: nat)
    requires AllUntouched(cs) && AllLocal(cs) && j < |cs| && env.hard
    requires 0 < env.budget == Total(Sizes(cs)[..j]) && env.budget <= |env.input|
    ensures var (cs', ok) := Transfer(cs, 0, append, env); !ok && cs'[j] == cs[j]
    decreases |cs|
  {
    var need := cs[0].size;
    assert Sizes(cs)[..j][1..] == Sizes(cs[1..])[..j - 1];
    if need < env.budget {
      HardCutStopsBefore(cs[1..], false, env.After(need), j - 1);
    }
  }

  lemma {:induction false} HardCutFromStart(cs: seq<Chunk>, data: seq<byte>, j: nat)
    requires AllUntouched(cs) && AllLocal(cs) && Total(Sizes(cs)) == |data| && j < |cs|
    requires cs[j].size == 0 && 0 < Total(Sizes(cs)[..j]) <= |data|
    ensures var (cs', outcome) := Next(cs, data, Attempt(|data|, Total(Sizes(cs)[..j]), true, []));
            outcome == Interrupted && cs'[j] == cs[j]
  {
    hide Transfer, Locate, Total;
    UntouchedReportNothing(cs);
    var sizes, off := Sizes(cs), Total(Sizes(cs)[..j]);
    LocateIsFirstMissing(sizes, 0);
    var (i, skip) := Locate(sizes, 0).value;
    if j <= i {
      assert sizes[..i] == sizes[..j] + sizes[j..i];
      TotalConcat(sizes[..j], sizes[j..i]);
    }
    assert sizes[..j] == sizes[..i] + sizes[i..j];
    TotalConcat(sizes[..i], sizes[i..j]);
    assert Sizes(cs[i..])[..j - i] == sizes[i..j];
    HardCutStopsBefore(cs[i..], false, EnvOf(cs, data, Attempt(|data|, off, true, [])), j - i);
  }

  lemma PrefixTotal(sizes: seq<nat>, j: nat)
    requires j <= |sizes|
    ensures Total(sizes[..j]) <= Total(sizes)
  {
    assert sizes == sizes[..j] + sizes[j..];
    TotalConcat(sizes[..j], sizes[j..]);
  }

  lemma CutBefore(cs: seq<Chunk>, data: seq<byte>, j: nat)
    requires AllUntouched(cs) && AllLocal(cs) && Total(Sizes(cs)) == |data|
    requires j < |cs| && cs[j].size == 0
    ensures var off := Total(Sizes(cs)[..j]);
            var (cs', outcome) := Next(cs, data, Attempt(|data|, off, true, []));
            cs'[j] == cs[j] && (outcome == Finished || (outcome == Interrupted && off <= |data| &&
                Laid(cs', data, off)))
  {
    var off := Total(Sizes(cs)[..j]);
    PrefixTotal(Sizes(cs), j);
    UntouchedLaid(cs, data);
    LaidTotals(cs, data, 0);
    if off > 0 { HardCutFromStart(cs, data, j); } else { RoundKeepsFront(cs, data, Attempt(|data|, off, true, []), j); }
    var env := EnvOf(cs, data, Attempt(|data|, off, true, []));
    LocalKeepsLayout(cs, |data|, env);
    hide Round, RoundIsCut, Laid;
    assert env.input <= data[0..];
    RoundExtends(cs, data, 0, env);
  }

  lemma CleanFinish(cs: seq<Chunk>, data: seq<byte>, u: nat, j: nat)
    requires Laid(cs, data, u) && AllLocal(cs) && j < |cs| && cs[j].size == 0
    requires Total(Sizes(cs)[..j]) <= u <= |data|
    ensures var (cs', outcome) := Next(cs, data, Attempt(|data|, |data| + 1, false, []));
            outcome == Finished && cs'[j] == cs[j]
  {
    hide Round, RoundIsCut, Laid;
    LaidTotals(cs, data, u);
    var a := Attempt(|data|, |data| + 1, false, []);
    RoundKeepsFront(cs, data, a, j);
    assert EnvOf(cs, data, a).input == data[u..];
    LocalKeepsLayout(cs, |data|, EnvOf(cs, data, a));
    RoundExtends(cs, data, u, EnvOf(cs, data, a));
  }

  /** Any zero-size chunk can be lost: one failure just before it, then a clean attempt. */
  lemma EmptyChunkCanBeLost(cs: seq<Chunk>, data: seq<byte>, j: nat)
    requires AllUntouched(cs) && AllLocal(cs) && Total(Sizes(cs)) == |data|
    requires j < |cs| && cs[j].size == 0
    ensures var attempts := [Attempt(|data|, Total(Sizes(cs)[..j]), true, []), Attempt(|data|, |data| + 1, false, [])];
            Upload(cs, data, attempts).1 == Finished && Upload(cs, data, attempts).0[j].file == None
  {
    var off := Total(Sizes(cs)[..j]);
    var first, second := Attempt(|data|, off, true, []), Attempt(|data|, |data| + 1, false, []);
    CutBefore(cs, data, j);
    var (cs1, outcome) := Next(cs, data, first);
    assert [first, second][1..] == [second];
    if outcome == Interrupted {
      assert Sizes(cs1) == Sizes(cs);
      CleanFinish(cs1, data, off, j);
      hide Next;
      assert Upload(cs1, data, [second]) == Next(cs1, data, second);
    }
  }

  ghost predicate EveryFileExists(cs: seq<Chunk>) {
    forall j :: 0 <= j < |cs| ==> cs[j].file.Some?
  }

  lemma AllPositiveAllStored(cs: seq<Chunk>, data: seq<byte>, attempts: seq<Attempt>)
    requires AllUntouched(cs) && AllLocal(cs) && Total(Sizes(cs)) == |data|
    requires (forall j :: 0 <= j < |cs| ==> cs[j].size > 0) && Upload(cs, data, attempts).1 == Finished
    ensures EveryFileExists(Upload(cs, data, attempts).0)
  {
    hide Upload;
    UntouchedLaid(cs, data);
    LocalRunIsSafe(cs, data, attempts);
    var _ := UploadIsCorrect(cs, data, 0, attempts);
    var cs' := Upload(cs, data, attempts).0;
    forall j | 0 <= j < |cs'| ensures cs'[j].file.Some? {
      PositiveChunksAreStored(cs', data, j);
    }
  }

  /** Every finished upload of a session leaves a file for every chunk exactly when no chunk has size zero. */
  lemma {:induction false} EveryChunkStoredIffAllPositive(cs: seq<Chunk>, data: seq<byte>)
    requires AllUntouched(cs) && AllLocal(cs) && Total(Sizes(cs)) == |data|
    ensures (forall attempts :: Upload(cs, data, attempts).1 == Finished ==>
        EveryFileExists(Upload(cs, data, attempts).0))
       <==> (forall j :: 0 <= j < |cs| ==> cs[j].size > 0)
  {
    hide Upload;
    if forall j :: 0 <= j < |cs| ==> cs[j].size > 0 {
      forall attempts | Upload(cs, data, attempts).1 == Finished ensures EveryFileExists(Upload(cs, data, attempts).0) {
        AllPositiveAllStored(cs, data, attempts);
      }
    } else {
      var j :| 0 <= j < |cs| && cs[j].size == 0;
      EmptyChunkCanBeLost(cs, data, j);
    }
  }
}
