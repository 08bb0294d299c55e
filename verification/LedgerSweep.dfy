/** What the sweeps take and what they spare, and for how long a keep-alive protects a chunk. */
module LedgerSweeps {
  import opened Common
  import opened Sums
  import opened LedgerModel
  import opened LedgerAccounting
  import opened LedgerTraces
  import opened LedgerDisk

  // ---- what a sweep does to each chunk

  /** The file of a marked reservation or of an uncommitted chunk is there and can be removed. */
  predicate Removable(s: Ledger, id: Uuid, failing: set<Uuid>) {
    id !in failing && id in s.uncommitted && Uncommitted(id) in s.disk
  }

  ghost predicate AllRemovable(s: Ledger, marks: seq<Uuid>, failing: set<Uuid>) {
    forall id :: id in marks ==> Removable(s, id, failing)
  }

  /** Taking one chunk away does not change whether the files of the others can be removed. */
  lemma RemovableElsewhere(s: Ledger, t: Ledger, marks: seq<Uuid>, failing: set<Uuid>)
    requires NoDuplicates(marks) && marks != [] && OthersKept(s, t, marks[0])
    ensures AllRemovable(s, marks, failing) <==>
            Removable(s, marks[0], failing) && AllRemovable(t, marks[1..], failing)
  {
    forall k | k != marks[0] ensures Removable(s, k, failing) <==> Removable(t, k, failing) {
      assert TraceOf(t, k) == TraceOf(s, k);
    }
    assert forall k :: k in marks <==> k == marks[0] || k in marks[1..];
  }

  lemma {:induction false} SweepBrokenTakes(s: Ledger, leak: nat, marks: seq<Uuid>, failing: set<Uuid>, id: Uuid)
    requires OnDisk(s) && Accounts(s, leak) && Sweepable(s, marks)
    ensures var (t, r) := SweepBroken(s, marks, failing);
            && (r.Ok? <==> AllRemovable(s, marks, failing))
            && (r.Ok? && id in marks ==> TraceOf(t, id) == GONE)
    decreases |marks|
  {
    if marks != [] {
      hide OnDisk, Accounts, SweepOne, TraceOf, Removable, AllRemovable, OthersKept;
      SweepOnce(s, leak, marks, failing);
      var (t, swept) := SweepOne(s, marks[0], marks[0] !in failing);
      if swept {
        SweepBrokenTakes(t, leak, marks[1..], failing, id);
        if id == marks[0] { SweepBrokenSpares(t, marks[1..], failing, id); }
      }
    }
  }

  lemma SweepOnce(s: Ledger, leak: nat, marks: seq<Uuid>, failing: set<Uuid>)
    requires OnDisk(s) && Accounts(s, leak) && Sweepable(s, marks) && marks != []
    ensures var (t, swept) := SweepOne(s, marks[0], marks[0] !in failing);
            && (swept <==> Removable(s, marks[0], failing))
            && (AllRemovable(s, marks, failing) <==> swept && AllRemovable(t, marks[1..], failing))
            && (swept ==> OnDisk(t) && Accounts(t, leak) && Sweepable(t, marks[1..])
                          && TraceOf(t, marks[0]) == GONE)
  {
    hide OnDisk, SweepOne, AllRemovable, Accounts;
    var (t, swept) := SweepOne(s, marks[0], marks[0] !in failing);
    FiledAt(s, marks[0]);
    SweepEffect(s, leak, marks[0], marks[0] !in failing);
    RemovableElsewhere(s, t, marks, failing);
    if swept {
      DropOnDisk(s, t, marks[0]);
      SweepOneAccounts(s, leak, marks[0], marks[0] !in failing);
      assert Sweepable(t, marks[1..]) by { StillSweepable(s, marks, marks[0] !in failing); }
    }
  }

  lemma StillSweepable(s: Ledger, marks: seq<Uuid>, ioOk: bool)
    requires Sweepable(s, marks) && marks != []
    ensures Sweepable(SweepOne(s, marks[0], ioOk).0, marks[1..])
  {
    hide FetchSub;
  }

  lemma SweepOneAccounts(s: Ledger, leak: nat, id: Uuid, ioOk: bool)
    requires Accounts(s, leak) && id in s.reservations && FileOk(s, PathOf(s, id), ioOk)
    ensures Accounts(SweepOne(s, id, ioOk).0, leak)
  {
    hide Sum;
    SumSplit(s.reservations, id, FileSpace);
  }

  predicate Idle(s: Ledger, id: Uuid, now: nat) {
    id in s.reservations && s.reservations[id].lastUpdate + 3600 < now
  }

  predicate Overdue(s: Ledger, id: Uuid, now: nat) {
    id in s.uncommitted && s.uncommitted[id] + 3600 < now
  }

  /** The sweep of reservations succeeds exactly when the file of each reservation idle for over an hour can be
      removed. Then nothing is left of those; everything else is spared whether it succeeds or not. */
  lemma BrokenSweepIsExact(s: Ledger, leak: nat, order: seq<Uuid>, now: nat, failing: set<Uuid>, id: Uuid)
    requires OnDisk(s) && Accounts(s, leak) && Lists(order, s.reservations.Keys)
    ensures var (t, r) := SweepBroken(s, BrokenMarks(s, order, now), failing);
            && (r.Ok? <==> forall k :: Idle(s, k, now) ==> Removable(s, k, failing))
            && (!Idle(s, id, now) ==> TraceOf(t, id) == TraceOf(s, id))
            && (Idle(s, id, now) && r.Ok? ==> TraceOf(t, id) == GONE)
  {
    hide OnDisk, Accounts, TraceOf, LedgerModel.SweepBroken, Removable;
    var marks := BrokenMarks(s, order, now);
    assert forall k :: k in marks <==> Idle(s, k, now);
    SweepBrokenTakes(s, leak, marks, failing, id);
    if id !in marks { SweepBrokenSpares(s, marks, failing, id); }
  }

  lemma {:induction false} SweepUncommittedTakes(s: Ledger, leak: nat, marks: seq<Uuid>, failing: set<Uuid>, id: Uuid)
    requires OnDisk(s) && Accounts(s, leak) && NoDuplicates(marks) && forall k :: k in marks ==> k in s.uncommitted
    ensures var (t, r) := SweepUncommitted(s, marks, failing);
            && (r.Ok? <==> AllRemovable(s, marks, failing))
            && (r.Ok? && id in marks ==> TraceOf(t, id) == GONE)
    decreases |marks|
  {
    if marks != [] {
      hide OnDisk, Accounts, LedgerModel.DeleteChunk, TraceOf, Removable, AllRemovable, OthersKept;
      DeleteOnce(s, leak, marks, failing);
      var (t, r) := DeleteChunk(s, marks[0], marks[0] !in failing);
      if r.Ok? {
        SweepUncommittedTakes(t, leak, marks[1..], failing, id);
        if id == marks[0] { SweepUncommittedSpares(t, marks[1..], failing, id); }
      }
    }
  }

  lemma DeleteOnce(s: Ledger, leak: nat, marks: seq<Uuid>, failing: set<Uuid>)
    requires OnDisk(s) && Accounts(s, leak) && marks != []
    requires NoDuplicates(marks) && forall k :: k in marks ==> k in s.uncommitted
    ensures var (t, r) := DeleteChunk(s, marks[0], marks[0] !in failing);
            && (r.Ok? <==> Removable(s, marks[0], failing))
            && (AllRemovable(s, marks, failing) <==> r.Ok? && AllRemovable(t, marks[1..], failing))
            && (forall k :: k in marks[1..] ==> k in t.uncommitted)
            && Accounts(t, leak)
            && (r.Ok? ==> OnDisk(t) && TraceOf(t, marks[0]) == GONE)
  {
    hide OnDisk, LedgerModel.DeleteChunk, AllRemovable, Accounts;
    var (t, r) := DeleteChunk(s, marks[0], marks[0] !in failing);
    FiledAt(s, marks[0]);
    DeleteEffect(s, leak, marks[0], marks[0] !in failing);
    RemovableElsewhere(s, t, marks, failing);
    DeleteAccounts(s, leak, marks[0], marks[0] !in failing);
    if r.Ok? { DropOnDisk(s, t, marks[0]); }
    forall k | k in marks[1..] ensures k in t.uncommitted {
      assert k in marks && TraceOf(t, k) == TraceOf(s, k);
    }
  }

  /** The sweep of uncommitted chunks succeeds exactly when the file of each chunk marked for over an hour can be
      removed. Then nothing is left of those; everything else is spared whether it succeeds or not. */
  lemma UncommittedSweepIsExact(s: Ledger, leak: nat, order: seq<Uuid>, now: nat, failing: set<Uuid>, id: Uuid)
    requires OnDisk(s) && Accounts(s, leak) && Lists(order, s.uncommitted.Keys)
    ensures var (t, r) := SweepUncommitted(s, UncommittedMarks(s, order, now), failing);
            && (r.Ok? <==> forall k :: Overdue(s, k, now) ==> Removable(s, k, failing))
            && (!Overdue(s, id, now) ==> TraceOf(t, id) == TraceOf(s, id))
            && (Overdue(s, id, now) && r.Ok? ==> TraceOf(t, id) == GONE)
  {
    hide OnDisk, Accounts, TraceOf, LedgerModel.SweepUncommitted, Removable;
    var marks := UncommittedMarks(s, order, now);
    assert forall k :: k in marks <==> Overdue(s, k, now);
    SweepUncommittedTakes(s, leak, marks, failing, id);
    if id !in marks { SweepUncommittedSpares(s, marks, failing, id); }
  }

  // ---- clocks

  /** What the two sweeps would mark is the same for all but `id`. */
  ghost predicate OtherClocksKept(s: Ledger, t: Ledger, id: Uuid) {
    forall k, later :: k != id ==>
      Idle(t, k, later) == Idle(s, k, later) && Overdue(t, k, later) == Overdue(s, k, later)
  }

  lemma KeptClocks(s: Ledger, t: Ledger, id: Uuid)
    requires OthersKept(s, t, id)
    ensures OtherClocksKept(s, t, id)
  {
    forall k, later | k != id
      ensures Idle(t, k, later) == Idle(s, k, later) && Overdue(t, k, later) == Overdue(s, k, later)
    {
      assert TraceOf(t, k) == TraceOf(s, k);
    }
  }

  /** After a refresh the sweep of reservations, however it lists them, marks this one from an hour later on.
      Nothing else changes: not the clock that the other sweep goes by, and not those of the other chunks. */
  lemma RefreshRestartsClock(s: Ledger, id: Uuid, now: nat, later: nat, order: seq<Uuid>)
    requires id in s.reservations && Lists(order, s.reservations.Keys)
    ensures var t := RefreshReservation(s, id, now).0;
            && t.reservations.Keys == s.reservations.Keys
            && (id in BrokenMarks(t, order, later) <==> now + 3600 < later)
            && (Overdue(t, id, later) <==> Overdue(s, id, later))
            && OtherClocksKept(s, t, id)
  {
    RefreshEffect(s, id, now);
    KeptClocks(s, RefreshReservation(s, id, now).0, id);
  }

  /** So it is when a durable transfer is interrupted. */
  lemma PauseRestartsClock(s: Ledger, id: Uuid, sizeActual: nat, now: nat, ioOk: bool, later: nat, order: seq<Uuid>)
    requires id in s.reservations && Lists(order, s.reservations.Keys)
    requires s.reservations[id].durable && sizeActual != s.reservations[id].fileSpace
    ensures var t := ReleaseReservation(s, id, sizeActual, now, ioOk).0;
            && t.reservations.Keys == s.reservations.Keys
            && (id in BrokenMarks(t, order, later) <==> now + 3600 < later)
            && (Overdue(t, id, later) <==> Overdue(s, id, later))
            && OtherClocksKept(s, t, id)
  {
  }

  /** A keep-alive restarts both clocks, so far as they run. */
  lemma AliveRestartsClocks(s: Ledger, id: Uuid, now: nat, later: nat, order: seq<Uuid>, marked: seq<Uuid>)
    requires Lists(order, s.reservations.Keys) && Lists(marked, s.uncommitted.Keys)
    ensures var t := CommitAlive(s, id, now).0;
            && t.reservations.Keys == s.reservations.Keys && t.uncommitted.Keys == s.uncommitted.Keys
            && (id in BrokenMarks(t, order, later) <==> id in s.reservations && now + 3600 < later)
            && (id in UncommittedMarks(t, marked, later) <==> id in s.uncommitted && now + 3600 < later)
            && OtherClocksKept(s, t, id)
  {
    AliveEffect(s, id, now);
    KeptClocks(s, CommitAlive(s, id, now).0, id);
  }

  // ---- how long a chunk lives

  /** Whatever clocks run for the chunk were started at `since` or later. */
  ghost predicate Live(s: Ledger, id: Uuid, since: nat) {
    && (id in s.reservations || id in s.uncommitted)
    && (id in s.reservations ==> since <= s.reservations[id].lastUpdate)
    && (id in s.uncommitted ==> since <= s.uncommitted[id])
  }

  /** The step neither ends the chunk's life on purpose, nor sweeps more than an hour after `since`. */
  predicate Spares(op: Op, id: Uuid, since: nat) {
    match op
    case Cancel(k, _) => k != id
    case Release(k, _, _, _) => k != id
    case Commit(k, _) => k != id
    case Delete(k, _) => k != id
    case Refresh(k, now) => k == id ==> since <= now
    case Alive(k, now) => k == id ==> since <= now
    case CleanBroken(_, now, _) => now <= since + 3600
    case CleanUncommitted(_, now, _) => now <= since + 3600
    case Reserve(_, _, _, _, _, _) => true
    case Write(_, _, _, _) => true
    case Reboot => false
  }

  /** All about the chunk but its clocks and its unfinished file. */
  function Essence(tr: Trace): Trace {
    tr.(mark := if tr.mark.Some? then Some(0) else None,
        reservation := if tr.reservation.Some? then Some(tr.reservation.value.(lastUpdate := 0)) else None,
        uncommitted := None)
  }

  predicate Writes(op: Op, id: Uuid) {
    op.Write? && op.id == id
  }

  ghost predicate Survives(s: Ledger, t: Ledger, id: Uuid, since: nat) {
    Live(t, id, since) && Essence(TraceOf(t, id)) == Essence(TraceOf(s, id))
  }

  lemma StepKeepsLive(s: Ledger, op: Op, id: Uuid, since: nat)
    requires Admissible(s, op) && Live(s, id, since) && Spares(op, id, since)
    ensures Survives(s, Step(s, op), id, since)
    ensures !Writes(op, id) ==> TraceOf(Step(s, op), id).uncommitted == TraceOf(s, id).uncommitted
  {
    hide OthersKept, TraceOf, Essence, Live, FetchSub, LedgerModel.DeleteChunk, LedgerModel.CancelReservation,
      LedgerModel.ReleaseReservation, LedgerModel.CommitChunk, LedgerModel.CommitAlive, LedgerModel.TryReserve,
      LedgerModel.RefreshReservation, LedgerModel.WriteFragment, LedgerModel.SweepBroken, LedgerModel.SweepUncommitted;
    var t := Step(s, op);
    match op
    case Reserve(size, ext, durable, k, now, metaOk) => ReserveKeepsLive(s, op, id, since);
    case Refresh(k, now) => RenewKeepsLive(s, k, now, id, since);
    case Alive(k, now) => RenewKeepsLive(s, k, now, id, since);
    case Write(k, append, n, physical) => WriteKeepsLive(s, op, id, since);
    case Cancel(k, ioOk) =>
      CancelIsLocal(s, k, ioOk);
      OtherSurvives(s, t, k, id, since);
    case Release(k, sizeActual, now, ioOk) =>
      ReleaseIsLocal(s, k, sizeActual, now, ioOk);
      OtherSurvives(s, t, k, id, since);
    case Commit(k, ioOk) =>
      CommitIsLocal(s, k, ioOk);
      OtherSurvives(s, t, k, id, since);
    case Delete(k, ioOk) =>
      DeleteIsLocal(s, k, ioOk);
      OtherSurvives(s, t, k, id, since);
    case CleanBroken(order, now, failing) =>
      IdleNot(s, id, since, now);
      SweepBrokenSpares(s, BrokenMarks(s, order, now), failing, id);
      SameSurvives(s, t, id, since);
    case CleanUncommitted(order, now, failing) =>
      IdleNot(s, id, since, now);
      SweepUncommittedSpares(s, UncommittedMarks(s, order, now), failing, id);
      SameSurvives(s, t, id, since);
  }

  lemma IdleNot(s: Ledger, id: Uuid, since: nat, now: nat)
    requires Live(s, id, since) && now <= since + 3600
    ensures !Idle(s, id, now) && !Overdue(s, id, now)
  {
  }

  lemma SameSurvives(s: Ledger, t: Ledger, id: Uuid, since: nat)
    requires Live(s, id, since) && TraceOf(t, id) == TraceOf(s, id)
    ensures Survives(s, t, id, since)
  {
  }

  lemma OtherSurvives(s: Ledger, t: Ledger, k: Uuid, id: Uuid, since: nat)
    requires Live(s, id, since) && OthersKept(s, t, k) && k != id
    ensures Survives(s, t, id, since) && TraceOf(t, id) == TraceOf(s, id)
  {
    SameSurvives(s, t, id, since);
  }

  lemma ReserveKeepsLive(s: Ledger, op: Op, id: Uuid, since: nat)
    requires Admissible(s, op) && Live(s, id, since) && op.Reserve?
    ensures Survives(s, Step(s, op), id, since) && TraceOf(Step(s, op), id) == TraceOf(s, id)
  {
    hide Essence, LedgerModel.TryReserve;
    ReserveEffect(s, op.size, op.ext, op.durable, op.id, op.now, op.metaOk);
    SameSurvives(s, Step(s, op), id, since);
  }

  lemma WriteKeepsLive(s: Ledger, op: Op, id: Uuid, since: nat)
    requires Live(s, id, since) && op.Write?
    ensures Survives(s, Step(s, op), id, since) && (op.id != id ==> TraceOf(Step(s, op), id) == TraceOf(s, id))
  {
    WriteEffect(s, op.id, op.append, op.n, op.physical);
  }

  lemma RenewKeepsLive(s: Ledger, k: Uuid, now: nat, id: Uuid, since: nat)
    requires Live(s, id, since) && (k == id ==> since <= now)
    ensures Survives(s, RefreshReservation(s, k, now).0, id, since) && Survives(s, CommitAlive(s, k, now).0, id, since)
    ensures TraceOf(RefreshReservation(s, k, now).0, id).uncommitted == TraceOf(s, id).uncommitted
    ensures TraceOf(CommitAlive(s, k, now).0, id).uncommitted == TraceOf(s, id).uncommitted
  {
    hide LedgerModel.CommitAlive, LedgerModel.RefreshReservation;
    AliveEffect(s, k, now);
    if k in s.reservations { RefreshEffect(s, k, now); } else { RefreshOfNone(s, k, now); }
    assert k != id ==> TraceOf(CommitAlive(s, k, now).0, id) == TraceOf(s, id);
    assert k != id ==> TraceOf(RefreshReservation(s, k, now).0, id) == TraceOf(s, id);
  }

  lemma RefreshOfNone(s: Ledger, id: Uuid, now: nat)
    requires id !in s.reservations
    ensures RefreshReservation(s, id, now).0 == s
  {
  }

  /** Over any run that leaves it alone, a chunk survives for an hour after its clocks were last started: its
      sizes, metadata and committed file stay, and so does its unfinished file unless it is written to. */
  lemma {:induction false} RunKeepsLive(s: Ledger, ops: seq<Op>, id: Uuid, since: nat)
    requires AdmissibleRun(s, ops) && Live(s, id, since) && forall op :: op in ops ==> Spares(op, id, since)
    ensures Survives(s, Run(s, ops), id, since)
    ensures (forall op :: op in ops ==> !Writes(op, id)) ==>
              TraceOf(Run(s, ops), id).uncommitted == TraceOf(s, id).uncommitted
    decreases |ops|
  {
    if ops != [] {
      hide Live, Spares, Essence, TraceOf, Step, Admissible, Writes;
      assert ops[0] in ops && forall op :: op in ops[1..] ==> op in ops;
      StepKeepsLive(s, ops[0], id, since);
      RunKeepsLive(Step(s, ops[0]), ops[1..], id, since);
    }
  }

  /** A keep-alive that succeeds protects the chunk for an hour, over every run that leaves it alone. */
  lemma AliveProtects(s: Ledger, id: Uuid, now: nat, ops: seq<Op>)
    requires CommitAlive(s, id, now).1.Ok? && AdmissibleRun(CommitAlive(s, id, now).0, ops)
    requires forall op :: op in ops ==> Spares(op, id, now)
    ensures Survives(s, Run(CommitAlive(s, id, now).0, ops), id, now)
  {
    AliveEffect(s, id, now);
    RunKeepsLive(CommitAlive(s, id, now).0, ops, id, now);
  }

  /** An interrupted durable transfer is meant to wait an hour for more data. It does exactly when it is not swept
      as uncommitted before that: the pause does not renew the mark, and that sweep goes by the mark. */
  lemma PausedTransferWaitsIff(s: Ledger, leak: nat, id: Uuid, sizeActual: nat, now: nat, later: nat, order: seq<Uuid>)
    requires OnDisk(s) && Accounts(s, leak) && Lists(order, s.uncommitted.Keys)
    requires id in s.reservations && s.reservations[id].durable && sizeActual != s.reservations[id].fileSpace
    requires id in s.uncommitted && forall k :: k in s.uncommitted ==> Uncommitted(k) in s.disk
    ensures var paused := ReleaseReservation(s, id, sizeActual, now, true).0;
            && Admissible(paused, CleanUncommitted(order, later, {}))
            && TraceOf(Step(paused, CleanUncommitted(order, later, {})), id) ==
               if later <= s.uncommitted[id] + 3600 then TraceOf(paused, id) else GONE
  {
    hide OnDisk, Accounts, LedgerModel.SweepUncommitted;
    var paused := ReleaseReservation(s, id, sizeActual, now, true).0;
    InterruptOnDisk(s, id, sizeActual, now, true);
    ReleaseAccounts(s, leak, id, sizeActual, now, true);
    UncommittedSweepIsExact(paused, leak, order, later, {}, id);
  }

  /** Kept alive, then interrupted within the minute: gone less than an hour after the interruption. */
  lemma PausedTransferIsSweptEarly(s: Ledger, ext: ExtMeta, id: Uuid, start: nat, alive: nat, paused: nat)
    requires OnDisk(s) && Accounts(s, 0) && Fresh(s, id) && s.uncommitted == map[] && !s.paused && 5 <= Available(s)
    requires start <= alive < paused <= alive + 60
    ensures var reserved := TryReserve(s, 5, ext, true, id, start, true).0;
            var written := CommitAlive(WriteFragment(reserved, id, false, 3, 8), id, alive).0;
            var waiting := ReleaseReservation(written, id, 3, paused, true).0;
            var sweep := CleanUncommitted([id], alive + 3601, {});
            && alive + 3601 <= paused + 3600
            && Admissible(waiting, sweep) && TraceOf(Step(waiting, sweep), id) == GONE
  {
    hide OnDisk, Accounts, Step, LedgerModel.TryReserve, LedgerModel.CommitAlive, LedgerModel.WriteFragment,
      LedgerModel.ReleaseReservation;
    var written := WrittenAndAlive(s, ext, id, start, alive);
    PausedTransferWaitsIff(written, 0, id, 3, paused, alive + 3601, [id]);
  }

  lemma WrittenAndAlive(s: Ledger, ext: ExtMeta, id: Uuid, start: nat, alive: nat) returns (written: Ledger)
    requires OnDisk(s) && Accounts(s, 0) && Fresh(s, id) && s.uncommitted == map[] && !s.paused && 5 <= Available(s)
    ensures written == CommitAlive(WriteFragment(TryReserve(s, 5, ext, true, id, start, true).0, id, false, 3, 8), id,
                                   alive).0
    ensures OnDisk(written) && Accounts(written, 0) && id in written.reservations
    ensures written.uncommitted == map[id := alive] && Uncommitted(id) in written.disk
    ensures written.reservations[id] == Reservation(5, 0, true, alive)
  {
    hide OnDisk, Sum;
    var reserved := TryReserve(s, 5, ext, true, id, start, true).0;
    var open := WriteFragment(reserved, id, false, 3, 8);
    ReserveOnDisk(s, 5, ext, true, id, start, true);
    ReserveAccounts(s, 0, 5, ext, true, id, start, true);
    WriteOnDisk(reserved, id, false, 3, 8);
    RefreshOnDisk(open, id, alive);
    RefreshAccounts(open, 0, id, alive);
    written := CommitAlive(open, id, alive).0;
  }
}
