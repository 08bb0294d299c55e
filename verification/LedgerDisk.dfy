/** The ledger and its disk: where each chunk's file is, what survives a restart, how much is allocated. */
module LedgerDisk {
  import opened Common
  import opened Sums
  import opened LedgerModel
  import opened LedgerAccounting
  import opened LedgerTraces

  /** Every chunk is where its state says. */
  ghost predicate OnDisk(s: Ledger) {
    forall id: Uuid :: Filed(TraceOf(s, id))
  }

  /** What callers respect (write only to reservations, release with the size on disk, commit only
      completed chunks), and the only I/O failures excluded: renaming or deleting a stored chunk's file.
      Every other failure is allowed. */
  ghost predicate Careful(s: Ledger, op: Op) {
    match op
    case Write(id, _, _, _) => id in s.reservations
    case Release(id, sizeActual, _, _) =>
      id in s.reservations && Uncommitted(id) in s.disk ==> sizeActual == s.disk[Uncommitted(id)].len
    case Commit(id, ioOk) => id !in s.reservations && (id in s.uncommitted ==> ioOk)
    case Delete(id, ioOk) => id in s.chunks ==> ioOk
    case CleanUncommitted(_, _, failing) => failing !! s.chunks.Keys
    case _ => true
  }

  ghost predicate CarefulRun(s: Ledger, ops: seq<Op>)
    requires AdmissibleRun(s, ops)
    decreases |ops|
  {
    ops == [] || (Careful(s, ops[0]) && CarefulRun(Step(s, ops[0]), ops[1..]))
  }

  /** A change to one chunk that leaves it where its state says keeps the whole in order. */
  lemma LocalOnDisk(s: Ledger, t: Ledger, id: Uuid)
    requires OnDisk(s) && OthersKept(s, t, id) && Filed(TraceOf(t, id))
    ensures OnDisk(t)
  {
    hide Filed, TraceOf;
    forall k: Uuid ensures Filed(TraceOf(t, k)) {
      if k != id { assert Filed(TraceOf(s, k)); }
    }
  }

  lemma DropOnDisk(s: Ledger, t: Ledger, id: Uuid)
    requires OnDisk(s) && OthersKept(s, t, id)
    requires TraceOf(t, id).chunk.None? && TraceOf(t, id).committed.None? && TraceOf(t, id).mark.None?
    ensures OnDisk(t)
  {
    LocalOnDisk(s, t, id);
  }

  lemma DeleteOnDisk(s: Ledger, id: Uuid, ioOk: bool)
    requires OnDisk(s) && (id in s.chunks ==> ioOk)
    ensures OnDisk(DeleteChunk(s, id, ioOk).0)
  {
    hide FetchSub, OnDisk;
    assert Filed(TraceOf(s, id)) by { FiledAt(s, id); }
    LocalOnDisk(s, DeleteChunk(s, id, ioOk).0, id);
  }

  lemma FiledAt(s: Ledger, id: Uuid)
    requires OnDisk(s)
    ensures Filed(TraceOf(s, id))
  {
  }

  lemma {:induction false} SweepBrokenOnDisk(s: Ledger, marks: seq<Uuid>, failing: set<Uuid>)
    requires OnDisk(s) && Sweepable(s, marks)
    ensures OnDisk(SweepBroken(s, marks, failing).0)
    decreases |marks|
  {
    hide FetchSub, OnDisk;
    if marks != [] {
      var (t, swept) := SweepOne(s, marks[0], marks[0] !in failing);
      FiledAt(s, marks[0]);
      DropOnDisk(s, t, marks[0]);
      if swept { SweepBrokenOnDisk(t, marks[1..], failing); }
    }
  }

  lemma {:induction false} SweepUncommittedOnDisk(s: Ledger, marks: seq<Uuid>, failing: set<Uuid>)
    requires OnDisk(s) && failing !! s.chunks.Keys
    ensures OnDisk(SweepUncommitted(s, marks, failing).0)
    decreases |marks|
  {
    hide FetchSub, OnDisk;
    if marks != [] {
      var (t, r) := DeleteChunk(s, marks[0], marks[0] !in failing);
      DeleteOnDisk(s, marks[0], marks[0] !in failing);
      if r.Ok? { SweepUncommittedOnDisk(t, marks[1..], failing); }
    }
  }

  lemma ReserveOnDisk(s: Ledger, size: nat, ext: ExtMeta, durable: bool, id: Uuid, now: nat, metaOk: bool)
    requires OnDisk(s) && Fresh(s, id)
    ensures OnDisk(TryReserve(s, size, ext, durable, id, now, metaOk).0)
  {
    hide OnDisk;
    ReserveEffect(s, size, ext, durable, id, now, metaOk);
    var (t, r) := TryReserve(s, size, ext, durable, id, now, metaOk);
    if r.Ok? { LocalOnDisk(s, t, id); }
  }

  lemma WriteOnDisk(s: Ledger, id: Uuid, append: bool, n: nat, physical: nat)
    requires OnDisk(s) && id in s.reservations
    ensures OnDisk(WriteFragment(s, id, append, n, physical))
  {
    hide OnDisk;
    FiledAt(s, id);
    WriteEffect(s, id, append, n, physical);
    LocalOnDisk(s, WriteFragment(s, id, append, n, physical), id);
  }

  lemma CancelOnDisk(s: Ledger, id: Uuid, ioOk: bool)
    requires OnDisk(s)
    ensures OnDisk(CancelReservation(s, id, ioOk).0)
  {
    hide FetchSub, OnDisk;
    FiledAt(s, id);
    if id in s.reservations { DropOnDisk(s, CancelReservation(s, id, ioOk).0, id); }
  }

  lemma CompleteOnDisk(s: Ledger, id: Uuid, now: nat, ioOk: bool)
    requires OnDisk(s) && id in s.reservations
    requires Uncommitted(id) in s.disk ==> s.disk[Uncommitted(id)].len == s.reservations[id].fileSpace
    ensures OnDisk(ReleaseReservation(s, id, s.reservations[id].fileSpace, now, ioOk).0)
  {
    hide FetchSub, OnDisk;
    FiledAt(s, id);
    LocalOnDisk(s, ReleaseReservation(s, id, s.reservations[id].fileSpace, now, ioOk).0, id);
  }

  lemma InterruptOnDisk(s: Ledger, id: Uuid, sizeActual: nat, now: nat, ioOk: bool)
    requires OnDisk(s) && (id in s.reservations ==> sizeActual != s.reservations[id].fileSpace)
    ensures OnDisk(ReleaseReservation(s, id, sizeActual, now, ioOk).0)
  {
    hide FetchSub, OnDisk;
    FiledAt(s, id);
    LocalOnDisk(s, ReleaseReservation(s, id, sizeActual, now, ioOk).0, id);
  }

  lemma CommitOnDisk(s: Ledger, id: Uuid, ioOk: bool)
    requires OnDisk(s) && id !in s.reservations && (id in s.uncommitted ==> ioOk)
    ensures OnDisk(CommitChunk(s, id, ioOk).0)
  {
    hide OnDisk;
    FiledAt(s, id);
    CommitEffect(s, id, ioOk);
    LocalOnDisk(s, CommitChunk(s, id, ioOk).0, id);
  }

  lemma RefreshOnDisk(s: Ledger, id: Uuid, now: nat)
    requires OnDisk(s)
    ensures OnDisk(RefreshReservation(s, id, now).0) && OnDisk(CommitAlive(s, id, now).0)
  {
    hide OnDisk;
    FiledAt(s, id);
    AliveEffect(s, id, now);
    LocalOnDisk(s, CommitAlive(s, id, now).0, id);
    if id in s.reservations {
      RefreshEffect(s, id, now);
      LocalOnDisk(s, RefreshReservation(s, id, now).0, id);
    }
  }

  lemma StepOnDisk(s: Ledger, op: Op)
    requires OnDisk(s) && Admissible(s, op) && Careful(s, op)
    ensures OnDisk(Step(s, op))
  {
    hide OnDisk;
    match op
    case Reserve(size, ext, durable, id, now, metaOk) => ReserveOnDisk(s, size, ext, durable, id, now, metaOk);
    case Cancel(id, ioOk) => CancelOnDisk(s, id, ioOk);
    case Write(id, append, n, physical) => WriteOnDisk(s, id, append, n, physical);
    case Release(id, sizeActual, now, ioOk) =>
      if id in s.reservations && sizeActual == s.reservations[id].fileSpace {
        CompleteOnDisk(s, id, now, ioOk);
      } else {
        InterruptOnDisk(s, id, sizeActual, now, ioOk);
      }
    case Commit(id, ioOk) => CommitOnDisk(s, id, ioOk);
    case Delete(id, ioOk) => DeleteOnDisk(s, id, ioOk);
    case CleanBroken(order, now, failing) => SweepBrokenOnDisk(s, BrokenMarks(s, order, now), failing);
    case CleanUncommitted(order, now, failing) => SweepUncommittedOnDisk(s, UncommittedMarks(s, order, now), failing);
    case Reboot => RestartRebuilds(s);
    case Refresh(id, now) => RefreshOnDisk(s, id, now);
    case Alive(id, now) => RefreshOnDisk(s, id, now);
  }

  /** In every careful run, restarts included, the disk holds exactly what the ledger says it holds. */
  lemma {:induction false} RunOnDisk(s: Ledger, ops: seq<Op>)
    requires OnDisk(s) && AdmissibleRun(s, ops) && CarefulRun(s, ops)
    ensures OnDisk(Run(s, ops))
    decreases |ops|
  {
    if ops != [] {
      StepOnDisk(s, ops[0]);
      RunOnDisk(Step(s, ops[0]), ops[1..]);
    }
  }

  function CommittedChunks(s: Ledger): map<Uuid, FragmentMeta> {
    map id | id in s.chunks && id !in s.uncommitted :: s.chunks[id]
  }

  /** A restart rebuilds exactly the committed chunks, finds metadata for each, and recomputes their sums. */
  lemma RestartRebuilds(s: Ledger)
    requires OnDisk(s)
    ensures Restart(s).chunks == CommittedChunks(s)
    ensures Restart(s).content == Sum(CommittedChunks(s), ContentSize)
    ensures Restart(s).physical == Sum(CommittedChunks(s), PhysicalSize)
    ensures Restart(s).chunks.Keys <= Restart(s).meta.Keys
    ensures OnDisk(Restart(s))
  {
    hide Sum;
    FoundIsCommitted(s);
    RestartOnDisk(s);
    forall id | id in Restart(s).chunks ensures id in s.meta {
      FiledAt(s, id);
    }
  }

  lemma RestartOnDisk(s: Ledger)
    requires OnDisk(s)
    ensures OnDisk(Restart(s))
  {
    hide Restart;
    forall id: Uuid ensures Filed(TraceOf(Restart(s), id)) {
      RestartEffect(s, id);
    }
  }

  lemma FoundIsCommitted(s: Ledger)
    requires OnDisk(s)
    ensures Found(s.disk) == CommittedChunks(s)
  {
    forall id: Uuid ensures id in Found(s.disk) <==> id in CommittedChunks(s)
      ensures id in Found(s.disk) ==> Found(s.disk)[id] == CommittedChunks(s)[id]
    {
      FiledAt(s, id);
    }
  }

  /** Neither sweep touches a committed chunk or its file, whatever fails and however callers behave. */
  lemma SweepsKeepCommitted(s: Ledger, op: Op, id: Uuid)
    requires Admissible(s, op) && (op.CleanBroken? || op.CleanUncommitted?)
    requires s.chunks.Keys !! s.reservations.Keys && id in CommittedChunks(s)
    ensures id in CommittedChunks(Step(s, op)) && Step(s, op).chunks[id] == s.chunks[id]
    ensures Committed(id) in s.disk ==>
              Committed(id) in Step(s, op).disk && Step(s, op).disk[Committed(id)] == s.disk[Committed(id)]
  {
    if op.CleanBroken? {
      SweepBrokenSpares(s, BrokenMarks(s, op.order, op.now), op.failing, id);
    } else {
      SweepUncommittedSpares(s, UncommittedMarks(s, op.order, op.now), op.failing, id);
    }
    assert TraceOf(Step(s, op), id) == TraceOf(s, id);
  }

  /** The life of a chunk: reserve, write in two parts, release, commit. The chunk ends up stored under
      its final name, nothing else changes, and the available space drops by its size on disk. */
  lemma Lifecycle(s: Ledger, size: nat, part: nat, ext: ExtMeta, durable: bool, id: Uuid, now: nat, physical: nat)
    requires Fresh(s, id) && !s.paused && size <= Available(s) && part <= size
    ensures var t := TryReserve(s, size, ext, durable, id, now, true).0;
            var u := WriteFragment(WriteFragment(t, id, false, part, physical), id, true, size - part, physical);
            var v := ReleaseReservation(u, id, size, now, true).0;
            CommitChunk(v, id, true).0 == s.(chunks := s.chunks[id := FragmentMeta(size, physical)],
                                             meta := s.meta[id := ext],
                                             physical := s.physical + physical,
                                             content := s.content + size,
                                             disk := s.disk[Committed(id) := DiskFile(size, physical)])
    ensures Available(TryReserve(s, size, ext, durable, id, now, true).0) == Available(s) - size
  {
    var t := TryReserve(s, size, ext, durable, id, now, true).0;
    var u := WriteFragment(WriteFragment(t, id, false, part, physical), id, true, size - part, physical);
    var v := ReleaseReservation(u, id, size, now, true).0;
    var w := CommitChunk(v, id, true).0;
    assert u.disk == s.disk[Uncommitted(id) := DiskFile(size, physical)];
    assert v.reservations == s.reservations;
    assert w.uncommitted == s.uncommitted;
    assert w.disk == s.disk[Committed(id) := DiskFile(size, physical)];
  }

  // ---- allocation bound

  function Slack(c: FragmentMeta): nat {
    if c.contentSize <= c.physicalSize then c.physicalSize - c.contentSize else 0
  }

  /** Stored content plus reservations fit the limit, and no chunk occupies less disk than its length. */
  ghost predicate Fits(s: Ledger) {
    && s.content + s.reserved <= s.maxPhysical
    && forall id :: id in s.chunks ==> s.chunks[id].contentSize <= s.chunks[id].physicalSize
  }

  /** A completed file occupies at least its length on disk. */
  ghost predicate Rounded(s: Ledger, op: Op) {
    match op
    case Release(id, sizeActual, _, _) => PathOf(s, id) in s.disk ==> sizeActual <= s.disk[PathOf(s, id)].physical
    case _ => true
  }

  ghost predicate RoundedRun(s: Ledger, ops: seq<Op>)
    requires AdmissibleRun(s, ops)
    decreases |ops|
  {
    ops == [] || (Rounded(s, ops[0]) && RoundedRun(Step(s, ops[0]), ops[1..]))
  }

  lemma PhysicalIsContentPlusSlack(s: Ledger, leak: nat)
    requires Accounts(s, leak) && Fits(s)
    ensures s.physical == s.content + Sum(s.chunks, Slack)
  {
    SumAdd(s.chunks, ContentSize, Slack, PhysicalSize);
  }

  lemma {:induction false} SweepBrokenShrinks(s: Ledger, leak: nat, marks: seq<Uuid>, failing: set<Uuid>)
    requires Accounts(s, leak) && Sweepable(s, marks)
    ensures var t := SweepBroken(s, marks, failing).0;
            t.chunks == s.chunks && t.content == s.content && t.reserved <= s.reserved && t.maxPhysical == s.maxPhysical
    decreases |marks|
  {
    hide Sum;
    if marks != [] {
      SumSplit(s.reservations, marks[0], FileSpace);
      var (t, swept) := SweepOne(s, marks[0], marks[0] !in failing);
      if swept { SweepBrokenShrinks(t, leak, marks[1..], failing); }
    }
  }

  lemma DeleteFits(s: Ledger, leak: nat, id: Uuid, ioOk: bool)
    requires Accounts(s, leak) && Fits(s)
    ensures Fits(DeleteChunk(s, id, ioOk).0)
  {
    hide Sum;
    if id in s.chunks { SumSplit(s.chunks, id, ContentSize); }
    if id in s.reservations { SumSplit(s.reservations, id, FileSpace); }
  }

  lemma {:induction false} SweepUncommittedFits(s: Ledger, leak: nat, marks: seq<Uuid>, failing: set<Uuid>)
    requires Accounts(s, leak) && Fits(s)
    ensures Fits(SweepUncommitted(s, marks, failing).0)
    decreases |marks|
  {
    if marks != [] {
      DeleteFits(s, leak, marks[0], marks[0] !in failing);
      DeleteAccounts(s, leak, marks[0], marks[0] !in failing);
      SweepUncommittedFits(DeleteChunk(s, marks[0], marks[0] !in failing).0, leak, marks[1..], failing);
    }
  }

  lemma CancelFits(s: Ledger, leak: nat, id: Uuid, ioOk: bool)
    requires Accounts(s, leak) && Fits(s)
    ensures Fits(CancelReservation(s, id, ioOk).0)
  {
    hide Sum;
    if id in s.reservations { SumSplit(s.reservations, id, FileSpace); }
  }

  lemma ReleaseFits(s: Ledger, leak: nat, id: Uuid, sizeActual: nat, now: nat, ioOk: bool)
    requires Accounts(s, leak) && Fits(s) && Rounded(s, Release(id, sizeActual, now, ioOk))
    ensures Fits(ReleaseReservation(s, id, sizeActual, now, ioOk).0)
  {
    hide Sum;
    if id in s.reservations { SumSplit(s.reservations, id, FileSpace); }
  }

  lemma StepFits(s: Ledger, leak: nat, op: Op)
    requires Accounts(s, leak) && Fits(s) && Admissible(s, op) && Rounded(s, op) && !op.Reboot?
    ensures Fits(Step(s, op))
  {
    hide Sum;
    match op
    case Reserve(_, _, _, _, _, _) => PhysicalIsContentPlusSlack(s, leak);
    case Cancel(id, ioOk) => CancelFits(s, leak, id, ioOk);
    case Release(id, sizeActual, now, ioOk) => ReleaseFits(s, leak, id, sizeActual, now, ioOk);
    case Delete(id, ioOk) => DeleteFits(s, leak, id, ioOk);
    case CleanBroken(order, now, failing) => SweepBrokenShrinks(s, leak, BrokenMarks(s, order, now), failing);
    case CleanUncommitted(order, now, failing) =>
      SweepUncommittedFits(s, leak, UncommittedMarks(s, order, now), failing);
    case _ =>
  }

  /** A restart of a ledger that agrees with its disk keeps the bound. */
  lemma RestartFits(s: Ledger, leak: nat)
    requires OnDisk(s) && Accounts(s, leak) && Fits(s)
    ensures Fits(Restart(s)) && Accounts(Restart(s), 0)
  {
    hide Sum;
    RestartRebuilds(s);
    SumSubset(CommittedChunks(s), s.chunks, ContentSize);
    StepAccounts(s, leak, Reboot);
  }

  /** What the bound comes to: physical plus reserved exceed the limit by at most the block-rounding slack. */
  lemma FitsWithinSlack(s: Ledger, leak: nat)
    requires Accounts(s, leak) && Fits(s)
    ensures s.physical + s.reserved <= s.maxPhysical + Sum(s.chunks, Slack)
  {
    hide Sum;
    PhysicalIsContentPlusSlack(s, leak);
  }

  /** Allocation bound over every careful run, restarts included: content plus reservations never exceed
      the limit, and physical plus reserved exceed it by at most the block-rounding slack of the chunks. */
  lemma {:induction false} RunFits(s: Ledger, leak: nat, ops: seq<Op>)
    requires OnDisk(s) && Accounts(s, leak) && Fits(s)
    requires AdmissibleRun(s, ops) && RoundedRun(s, ops) && CarefulRun(s, ops)
    ensures Fits(Run(s, ops))
    ensures Run(s, ops).physical + Run(s, ops).reserved
            <= Run(s, ops).maxPhysical + Sum(Run(s, ops).chunks, Slack)
    decreases |ops|
  {
    hide Sum, OnDisk, Fits, Accounts;
    if ops == [] {
      FitsWithinSlack(s, leak);
    } else {
      StepAccounts(s, leak, ops[0]);
      StepOnDisk(s, ops[0]);
      if ops[0].Reboot? { RestartFits(s, leak); } else { StepFits(s, leak, ops[0]); }
      RunFits(Step(s, ops[0]), LeakAfter(s, leak, ops[0]), ops[1..]);
    }
  }

  ghost predicate NoReboot(ops: seq<Op>) {
    forall op :: op in ops ==> !op.Reboot?
  }

  /** Between restarts the bound holds whatever fails and however callers behave. */
  lemma {:induction false} RunFitsBetweenRestarts(s: Ledger, leak: nat, ops: seq<Op>)
    requires Accounts(s, leak) && Fits(s) && AdmissibleRun(s, ops) && RoundedRun(s, ops) && NoReboot(ops)
    ensures Fits(Run(s, ops))
    ensures Run(s, ops).physical + Run(s, ops).reserved
            <= Run(s, ops).maxPhysical + Sum(Run(s, ops).chunks, Slack)
    decreases |ops|
  {
    hide Sum, Fits, Accounts;
    if ops == [] {
      FitsWithinSlack(s, leak);
    } else {
      assert !ops[0].Reboot? && NoReboot(ops[1..]);
      StepFits(s, leak, ops[0]);
      StepAccounts(s, leak, ops[0]);
      RunFitsBetweenRestarts(Step(s, ops[0]), LeakAfter(s, leak, ops[0]), ops[1..]);
    }
  }

  // ---- the periodic check of the limit

  /** `max - physical_used` in 64 bits. */
  function AppFree(s: Ledger): nat {
    FetchSub(s.maxPhysical, s.physical)
  }

  /** The slack that the bound allows is what the check does not: its subtraction is exact exactly when the
      slack of the stored chunks fits beside their content. */
  lemma AppFreeIsExactIff(s: Ledger, leak: nat)
    requires Accounts(s, leak) && Fits(s) && s.maxPhysical < U64 && s.physical < U64
    ensures AppFree(s) == s.maxPhysical - s.physical <==> Sum(s.chunks, Slack) <= s.maxPhysical - s.content
  {
    hide Sum;
    PhysicalIsContentPlusSlack(s, leak);
  }

  /** One full-size chunk whose file takes one more byte of blocks than its length makes it wrap around. */
  lemma RoundedChunkWrapsCheck(s: Ledger, ext: ExtMeta, id: Uuid, now: nat)
    requires Fresh(s, id) && !s.paused && s.physical == s.reserved == 0 && 0 < s.maxPhysical < U64
    ensures var t := TryReserve(s, s.maxPhysical, ext, true, id, now, true).0;
            var u := WriteFragment(t, id, false, s.maxPhysical, s.maxPhysical + 1);
            var v := ReleaseReservation(u, id, s.maxPhysical, now, true).0;
            v.physical == s.maxPhysical + 1 && AppFree(v) == U64 - 1
  {
  }
}
