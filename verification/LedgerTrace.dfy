/** One chunk as the ledger and the disk know it: what each operation does to it, and that every other
    chunk is left alone. */
module LedgerTraces {
  import opened Common
  import opened Sums
  import opened LedgerModel
  import opened LedgerAccounting

  /** All there is about one identifier: the entries of the four maps and the files under its two names. */
  datatype Trace = Trace(
    chunk: Option<FragmentMeta>,
    reservation: Option<Reservation>,
    mark: Option<nat>,
    meta: Option<ExtMeta>,
    committed: Option<DiskFile>,
    uncommitted: Option<DiskFile>)

  const GONE := Trace(None, None, None, None, None, None)

  function Get<K, V>(m: map<K, V>, k: K): Option<V> {
    if k in m then Some(m[k]) else None
  }

  function TraceOf(s: Ledger, id: Uuid): Trace {
    Trace(Get(s.chunks, id), Get(s.reservations, id), Get(s.uncommitted, id), Get(s.meta, id),
          Get(s.disk, Committed(id)), Get(s.disk, Uncommitted(id)))
  }

  /** Only `id` may have changed, besides the counters. */
  ghost predicate OthersKept(s: Ledger, t: Ledger, id: Uuid) {
    && t.maxPhysical == s.maxPhysical && t.paused == s.paused
    && forall k: Uuid :: k != id ==> TraceOf(t, k) == TraceOf(s, k)
  }

  /** A stored chunk has its file, with the recorded sizes, under the name its commit state selects and no
      other; only a committed chunk has a file under the final name; what is marked uncommitted is stored or
      reserved; and what is stored or marked has its metadata. */
  predicate Filed(tr: Trace) {
    && (tr.chunk.Some? ==>
          tr.reservation.None? &&
          (if tr.mark.Some? then tr.uncommitted else tr.committed) == Some(FileOf(tr.chunk.value)))
    && (tr.committed.Some? ==> tr.chunk.Some? && tr.mark.None? && tr.uncommitted.None?)
    && (tr.mark.Some? ==> tr.chunk.Some? || tr.reservation.Some?)
    && (tr.chunk.Some? || tr.mark.Some? ==> tr.meta.Some?)
  }

  function FileOf(c: FragmentMeta): DiskFile {
    DiskFile(c.contentSize, c.physicalSize)
  }

  predicate SameCounters(s: Ledger, t: Ledger) {
    t.content == s.content && t.physical == s.physical && t.reserved == s.reserved
  }

  /** The counters hold at least what one identifier contributes, so taking it off does not wrap around. */
  lemma CountersCover(s: Ledger, leak: nat, id: Uuid)
    requires Accounts(s, leak)
    ensures id in s.chunks ==>
              && FetchSub(s.content, s.chunks[id].contentSize) == s.content - s.chunks[id].contentSize
              && FetchSub(s.physical, s.chunks[id].physicalSize) == s.physical - s.chunks[id].physicalSize
    ensures id in s.reservations ==>
              FetchSub(s.reserved, s.reservations[id].fileSpace) == s.reserved - s.reservations[id].fileSpace
  {
    hide Sum;
    if id in s.chunks {
      SumSplit(s.chunks, id, ContentSize);
      SumSplit(s.chunks, id, PhysicalSize);
    }
    if id in s.reservations { SumSplit(s.reservations, id, FileSpace); }
  }

  /** A reservation is granted exactly when the ledger is not paused, the space suffices and the metadata is
      stored; an empty one needs no space. It leaves what it was asked for and the time. */
  lemma ReserveEffect(s: Ledger, size: nat, ext: ExtMeta, durable: bool, id: Uuid, now: nat, metaOk: bool)
    requires Fresh(s, id)
    ensures var (t, r) := TryReserve(s, size, ext, durable, id, now, metaOk);
            && (r.Ok? <==> !s.paused && (size == 0 || s.physical + s.reserved + size <= s.maxPhysical) && metaOk)
            && (r == Err(Paused) <==> s.paused)
            && (r.Err? ==> t == s)
            && (r.Ok? ==>
                  && r.value == id && OthersKept(s, t, id)
                  && TraceOf(t, id) ==
                     Trace(None, Some(Reservation(size, 0, durable, now)), Some(now), Some(ext), None, None)
                  && t.reserved == s.reserved + size && t.content == s.content && t.physical == s.physical)
  {
  }

  /** Cancelling forgets a reservation and gives its space back. Its file goes too if it can be removed. */
  lemma CancelEffect(s: Ledger, leak: nat, id: Uuid, ioOk: bool)
    requires Filed(TraceOf(s, id)) && Accounts(s, leak)
    ensures var (t, r), a := CancelReservation(s, id, ioOk), TraceOf(s, id);
            && (a.reservation.None? ==> t == s && r.Ok?)
            && (a.reservation.Some? ==>
                  && (r.Ok? <==> ioOk && a.mark.Some? && a.uncommitted.Some?)
                  && OthersKept(s, t, id)
                  && TraceOf(t, id) == GONE.(uncommitted := if r.Ok? then None else a.uncommitted)
                  && t.reserved == s.reserved - a.reservation.value.fileSpace
                  && t.content == s.content && t.physical == s.physical)
  {
    hide FetchSub, Accounts;
    CountersCover(s, leak, id);
  }

  /** Releasing with the full size turns the reservation into a stored chunk, for which its file must be
      there; space and sizes move with it. */
  lemma CompleteEffect(s: Ledger, leak: nat, id: Uuid, now: nat, ioOk: bool)
    requires Filed(TraceOf(s, id)) && Accounts(s, leak) && id in s.reservations
    ensures var size, a := s.reservations[id].fileSpace, TraceOf(s, id);
            var (t, r) := ReleaseReservation(s, id, size, now, ioOk);
            && (r.Ok? <==> ioOk && a.mark.Some? && a.uncommitted.Some?)
            && (r.Err? ==> t == s)
            && (r.Ok? ==>
                  var physical := a.uncommitted.value.physical;
                  && OthersKept(s, t, id)
                  && TraceOf(t, id) == a.(reservation := None, chunk := Some(FragmentMeta(size, physical)))
                  && t.reserved == s.reserved - size
                  && t.content == s.content + size && t.physical == s.physical + physical)
  {
    hide FetchSub, Accounts;
    CountersCover(s, leak, id);
  }

  /** Releasing with any other size pauses a durable reservation, recording how far it got and when, and
      forgets any other, except for its metadata. */
  lemma InterruptEffect(s: Ledger, leak: nat, id: Uuid, sizeActual: nat, now: nat, ioOk: bool)
    requires Filed(TraceOf(s, id)) && Accounts(s, leak)
    requires id in s.reservations && sizeActual != s.reservations[id].fileSpace
    ensures var (t, r), a := ReleaseReservation(s, id, sizeActual, now, ioOk), TraceOf(s, id);
            var held := s.reservations[id];
            && OthersKept(s, t, id)
            && (held.durable ==>
                  && r.Ok? && SameCounters(s, t)
                  && TraceOf(t, id) == a.(reservation := Some(Reservation(held.fileSpace, sizeActual, true, now))))
            && (!held.durable ==>
                  && (r.Ok? <==> ioOk && a.mark.Some? && a.uncommitted.Some?)
                  && TraceOf(t, id) ==
                     GONE.(meta := a.meta, uncommitted := if r.Ok? then None else a.uncommitted)
                  && t.reserved == s.reserved - held.fileSpace
                  && t.content == s.content && t.physical == s.physical)
  {
    hide FetchSub, Accounts;
    CountersCover(s, leak, id);
  }

  /** Committing moves the file of a marked chunk to its final name. The mark goes even if that fails. */
  lemma CommitEffect(s: Ledger, id: Uuid, ioOk: bool)
    requires Filed(TraceOf(s, id))
    ensures var (t, r), a := CommitChunk(s, id, ioOk), TraceOf(s, id);
            && (a.mark.None? ==> t == s && r.Ok?)
            && (a.mark.Some? ==>
                  && (r.Ok? <==> ioOk && a.uncommitted.Some?)
                  && OthersKept(s, t, id) && SameCounters(s, t)
                  && TraceOf(t, id) == if r.Ok? then a.(mark := None, committed := a.uncommitted, uncommitted := None)
                                       else a.(mark := None))
  {
  }

  /** Deleting succeeds for a stored chunk, and for a marked reservation that has a file. Then nothing is left of
      the identifier and the counters drop by what it held. Otherwise only its mark and metadata are lost. */
  lemma DeleteEffect(s: Ledger, leak: nat, id: Uuid, ioOk: bool)
    requires Filed(TraceOf(s, id)) && Accounts(s, leak)
    ensures var (t, r), a := DeleteChunk(s, id, ioOk), TraceOf(s, id);
            && OthersKept(s, t, id)
            && (r.Ok? <==> ioOk && (a.chunk.Some? || (a.mark.Some? && a.uncommitted.Some?)))
            && (r.Err? ==> TraceOf(t, id) == a.(mark := None, meta := None) && SameCounters(s, t))
            && (r.Ok? ==>
                  && TraceOf(t, id) == GONE
                  && (a.chunk.Some? ==>
                        && t.content == s.content - a.chunk.value.contentSize
                        && t.physical == s.physical - a.chunk.value.physicalSize
                        && t.reserved == s.reserved)
                  && (a.chunk.None? ==>
                        && a.reservation.Some? && t.reserved == s.reserved - a.reservation.value.fileSpace
                        && t.content == s.content && t.physical == s.physical))
  {
    hide FetchSub, Accounts;
    CountersCover(s, leak, id);
  }

  /** A refresh sets the time of the reservation and nothing else. */
  lemma RefreshEffect(s: Ledger, id: Uuid, now: nat)
    requires id in s.reservations
    ensures var (t, r), held := RefreshReservation(s, id, now), s.reservations[id];
            var renewed := Reservation(held.fileSpace, held.completed, held.durable, now);
            && r == Ok(renewed) && OthersKept(s, t, id) && SameCounters(s, t)
            && TraceOf(t, id) == TraceOf(s, id).(reservation := Some(renewed))
  {
  }

  /** A keep-alive sets the time of the reservation and of the mark, whichever are there, and nothing else. */
  lemma AliveEffect(s: Ledger, id: Uuid, now: nat)
    ensures var (t, r), a := CommitAlive(s, id, now), TraceOf(s, id);
            && (r.Ok? <==> a.reservation.Some? || a.mark.Some?)
            && OthersKept(s, t, id) && SameCounters(s, t)
            && TraceOf(t, id) ==
               a.(mark := if a.mark.Some? then Some(now) else None,
                  reservation := if a.reservation.None? then None
                                 else Some(Reservation(a.reservation.value.fileSpace, a.reservation.value.completed,
                                                       a.reservation.value.durable, now)))
  {
  }

  /** A write stream starts the file anew, an append stream continues it; either way it is the partial file. */
  lemma WriteEffect(s: Ledger, id: Uuid, append: bool, n: nat, physical: nat)
    ensures var t, a := WriteFragment(s, id, append, n, physical), TraceOf(s, id);
            var kept := if append && a.uncommitted.Some? then a.uncommitted.value.len else 0;
            && OthersKept(s, t, id) && SameCounters(s, t)
            && TraceOf(t, id) == a.(uncommitted := Some(DiskFile(kept + n, physical)))
  {
  }

  /** Sweeping a reservation forgets it; file and space go only if the file can be removed. */
  lemma SweepEffect(s: Ledger, leak: nat, id: Uuid, ioOk: bool)
    requires Filed(TraceOf(s, id)) && Accounts(s, leak) && id in s.reservations
    ensures var (t, swept), a := SweepOne(s, id, ioOk), TraceOf(s, id);
            && (swept <==> ioOk && a.mark.Some? && a.uncommitted.Some?)
            && OthersKept(s, t, id)
            && TraceOf(t, id) == GONE.(uncommitted := if swept then None else a.uncommitted)
            && t.reserved == (if swept then s.reserved - a.reservation.value.fileSpace else s.reserved)
            && t.content == s.content && t.physical == s.physical
  {
    hide FetchSub, Accounts;
    CountersCover(s, leak, id);
  }

  /** A restart keeps the metadata and the committed file, and records the chunk that the file makes. */
  lemma RestartEffect(s: Ledger, id: Uuid)
    ensures var a := TraceOf(s, id);
            TraceOf(Restart(s), id) ==
              GONE.(chunk := if a.committed.Some? then Some(MetaOf(a.committed.value)) else None,
                    meta := a.meta, committed := a.committed)
  {
    hide Sum;
  }

  /** A sweep touches nothing it has not marked. */
  lemma {:induction false} SweepBrokenSpares(s: Ledger, marks: seq<Uuid>, failing: set<Uuid>, id: Uuid)
    requires Sweepable(s, marks) && id !in marks
    ensures TraceOf(SweepBroken(s, marks, failing).0, id) == TraceOf(s, id)
    decreases |marks|
  {
    hide FetchSub;
    if marks != [] {
      var (t, swept) := SweepOne(s, marks[0], marks[0] !in failing);
      if swept { SweepBrokenSpares(t, marks[1..], failing, id); }
    }
  }

  lemma FilesSpared(disk: map<Path, DiskFile>, path: Path, k: Uuid)
    requires path.id != k
    ensures var left: map<Path, DiskFile> := disk - {path};
            && Get(left, Committed(k)) == Get(disk, Committed(k))
            && Get(left, Uncommitted(k)) == Get(disk, Uncommitted(k))
  {
  }

  lemma DeleteSpares(s: Ledger, id: Uuid, ioOk: bool, k: Uuid)
    requires k != id
    ensures TraceOf(DeleteChunk(s, id, ioOk).0, k) == TraceOf(s, k)
  {
    hide FetchSub;
    FilesSpared(s.disk, PathOf(s, id), k);
  }

  lemma DeleteIsLocal(s: Ledger, id: Uuid, ioOk: bool)
    ensures OthersKept(s, DeleteChunk(s, id, ioOk).0, id)
  {
    hide FetchSub, TraceOf;
    forall k: Uuid | k != id ensures TraceOf(DeleteChunk(s, id, ioOk).0, k) == TraceOf(s, k) {
      DeleteSpares(s, id, ioOk, k);
    }
  }

  lemma CancelIsLocal(s: Ledger, id: Uuid, ioOk: bool)
    ensures OthersKept(s, CancelReservation(s, id, ioOk).0, id)
  {
    hide FetchSub;
  }

  lemma ReleaseSpares(s: Ledger, id: Uuid, sizeActual: nat, now: nat, ioOk: bool, k: Uuid)
    requires k != id
    ensures TraceOf(ReleaseReservation(s, id, sizeActual, now, ioOk).0, k) == TraceOf(s, k)
  {
    hide FetchSub;
    FilesSpared(s.disk, PathOf(s, id), k);
  }

  lemma ReleaseIsLocal(s: Ledger, id: Uuid, sizeActual: nat, now: nat, ioOk: bool)
    ensures OthersKept(s, ReleaseReservation(s, id, sizeActual, now, ioOk).0, id)
  {
    hide FetchSub, TraceOf;
    forall k: Uuid | k != id ensures TraceOf(ReleaseReservation(s, id, sizeActual, now, ioOk).0, k) == TraceOf(s, k) {
      ReleaseSpares(s, id, sizeActual, now, ioOk, k);
    }
  }

  lemma CommitIsLocal(s: Ledger, id: Uuid, ioOk: bool)
    ensures OthersKept(s, CommitChunk(s, id, ioOk).0, id)
  {
  }

  lemma {:induction false} SweepUncommittedSpares(s: Ledger, marks: seq<Uuid>, failing: set<Uuid>, id: Uuid)
    requires id !in marks
    ensures TraceOf(SweepUncommitted(s, marks, failing).0, id) == TraceOf(s, id)
    decreases |marks|
  {
    hide LedgerModel.DeleteChunk, TraceOf;
    if marks != [] {
      DeleteIsLocal(s, marks[0], marks[0] !in failing);
      var (t, r) := DeleteChunk(s, marks[0], marks[0] !in failing);
      if r.Ok? { SweepUncommittedSpares(t, marks[1..], failing, id); }
    }
  }
}
