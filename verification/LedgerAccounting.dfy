/** What every ledger step keeps: the counters are the sums they stand for. */
module LedgerAccounting {
  import opened Common
  import opened Sums
  import opened LedgerModel

  /** The two size counters are exact, no identifier is both stored and reserved, and the reserved
      counter is the sum of the live reservations plus `leak` bytes nobody holds any more. */
  ghost predicate Accounts(s: Ledger, leak: nat) {
    && s.physical == Sum(s.chunks, PhysicalSize)
    && s.content == Sum(s.chunks, ContentSize)
    && s.reserved == Sum(s.reservations, FileSpace) + leak
    && s.chunks.Keys !! s.reservations.Keys
  }

  /** The bytes a sweep loses: the space of the first reservation whose file cannot be removed. */
  ghost function SweepLoss(s: Ledger, marks: seq<Uuid>, failing: set<Uuid>): nat
    requires Sweepable(s, marks)
    decreases |marks|
  {
    if marks == [] then 0
    else
      var r := SweepOne(s, marks[0], marks[0] !in failing);
      if r.1 then SweepLoss(r.0, marks[1..], failing) else s.reservations[marks[0]].fileSpace
  }

  predicate Sweeps(s: Ledger, id: Uuid, failing: set<Uuid>) {
    FileOk(s, PathOf(s, id), id !in failing)
  }

  /** Mark `i` is the first whose file cannot be removed. */
  ghost predicate StopsAt(s: Ledger, marks: seq<Uuid>, failing: set<Uuid>, i: nat) {
    && i < |marks|
    && !Sweeps(s, marks[i], failing)
    && forall j :: 0 <= j < i ==> Sweeps(s, marks[j], failing)
  }

  /** Sweeping one reservation does not change whether the files of the others can be removed. */
  lemma SweepOneIsLocal(s: Ledger, marks: seq<Uuid>, failing: set<Uuid>, i: nat)
    requires Sweepable(s, marks) && marks != [] && Sweeps(s, marks[0], failing)
    ensures StopsAt(SweepOne(s, marks[0], marks[0] !in failing).0, marks[1..], failing, i)
       <==> StopsAt(s, marks, failing, i + 1)
  {
  }

  /** A sweep loses nothing exactly when the file it stops at, if any, belongs to an empty reservation. */
  lemma {:induction false} SweepLossIsExact(s: Ledger, marks: seq<Uuid>, failing: set<Uuid>)
    requires Sweepable(s, marks)
    ensures SweepLoss(s, marks, failing) == 0
       <==> forall i: nat :: StopsAt(s, marks, failing, i) ==> s.reservations[marks[i]].fileSpace == 0
    decreases |marks|
  {
    if marks == [] {
    } else if Sweeps(s, marks[0], failing) {
      var t := SweepOne(s, marks[0], marks[0] !in failing).0;
      var rest := marks[1..];
      SweepLossIsExact(t, rest, failing);
      forall i: nat ensures StopsAt(t, rest, failing, i) <==> StopsAt(s, marks, failing, i + 1) {
        SweepOneIsLocal(s, marks, failing, i);
      }
      if forall i: nat :: StopsAt(s, marks, failing, i) ==> s.reservations[marks[i]].fileSpace == 0 {
        forall i: nat | StopsAt(t, rest, failing, i) ensures t.reservations[rest[i]].fileSpace == 0 {
          assert StopsAt(s, marks, failing, i + 1);
        }
      } else {
        var i: nat :| StopsAt(s, marks, failing, i) && s.reservations[marks[i]].fileSpace != 0;
        assert i > 0 && StopsAt(t, rest, failing, i - 1);
        assert rest[i - 1] == marks[i];
      }
    } else {
      assert StopsAt(s, marks, failing, 0);
    }
  }

  ghost function LeakAfter(s: Ledger, leak: nat, op: Op): nat
    requires Admissible(s, op)
  {
    match op
    case CleanBroken(order, now, failing) => leak + SweepLoss(s, BrokenMarks(s, order, now), failing)
    case Reboot => 0
    case _ => leak
  }

  ghost function RunLeak(s: Ledger, leak: nat, ops: seq<Op>): nat
    requires AdmissibleRun(s, ops)
    decreases |ops|
  {
    if ops == [] then leak else RunLeak(Step(s, ops[0]), LeakAfter(s, leak, ops[0]), ops[1..])
  }

  lemma ReserveAccounts(s: Ledger, leak: nat, size: nat, ext: ExtMeta, durable: bool, id: Uuid, now: nat, metaOk: bool)
    requires Accounts(s, leak) && Fresh(s, id)
    ensures Accounts(TryReserve(s, size, ext, durable, id, now, metaOk).0, leak)
  {
    hide Sum;
    SumInsert(s.reservations, id, Reservation(size, 0, durable, now), FileSpace);
  }

  lemma CancelAccounts(s: Ledger, leak: nat, id: Uuid, ioOk: bool)
    requires Accounts(s, leak)
    ensures Accounts(CancelReservation(s, id, ioOk).0, leak)
  {
    hide Sum;
    if id in s.reservations { SumSplit(s.reservations, id, FileSpace); }
  }

  lemma RefreshAccounts(s: Ledger, leak: nat, id: Uuid, now: nat)
    requires Accounts(s, leak)
    ensures Accounts(RefreshReservation(s, id, now).0, leak)
    ensures Accounts(CommitAlive(s, id, now).0, leak)
  {
    hide Sum;
    if id in s.reservations {
      SumReplace(s.reservations, id, s.reservations[id].(lastUpdate := now), FileSpace);
    }
  }

  lemma ReleaseAccounts(s: Ledger, leak: nat, id: Uuid, sizeActual: nat, now: nat, ioOk: bool)
    requires Accounts(s, leak)
    ensures Accounts(ReleaseReservation(s, id, sizeActual, now, ioOk).0, leak)
  {
    hide Sum;
    if id in s.reservations {
      var r := s.reservations[id];
      var path := PathOf(s, id);
      if sizeActual == r.fileSpace {
        if FileOk(s, path, ioOk) {
          var m := FragmentMeta(sizeActual, s.disk[path].physical);
          SumSplit(s.reservations, id, FileSpace);
          SumInsert(s.chunks, id, m, PhysicalSize);
          SumInsert(s.chunks, id, m, ContentSize);
        }
      } else if r.durable {
        SumReplace(s.reservations, id, r.(completed := sizeActual, lastUpdate := now), FileSpace);
      } else {
        SumSplit(s.reservations, id, FileSpace);
      }
    }
  }

  lemma DeleteAccounts(s: Ledger, leak: nat, id: Uuid, ioOk: bool)
    requires Accounts(s, leak)
    ensures Accounts(DeleteChunk(s, id, ioOk).0, leak)
  {
    hide Sum;
    if FileOk(s, PathOf(s, id), ioOk) {
      if id in s.chunks {
        SumSplit(s.chunks, id, PhysicalSize);
        SumSplit(s.chunks, id, ContentSize);
      } else if id in s.reservations {
        SumSplit(s.reservations, id, FileSpace);
      }
    }
  }

  lemma {:induction false} SweepBrokenAccounts(s: Ledger, leak: nat, marks: seq<Uuid>, failing: set<Uuid>)
    requires Accounts(s, leak) && Sweepable(s, marks)
    ensures Accounts(SweepBroken(s, marks, failing).0, leak + SweepLoss(s, marks, failing))
    decreases |marks|
  {
    hide Sum;
    if marks != [] {
      SumSplit(s.reservations, marks[0], FileSpace);
      var (t, swept) := SweepOne(s, marks[0], marks[0] !in failing);
      if swept { SweepBrokenAccounts(t, leak, marks[1..], failing); }
    }
  }

  lemma {:induction false} SweepUncommittedAccounts(s: Ledger, leak: nat, marks: seq<Uuid>, failing: set<Uuid>)
    requires Accounts(s, leak)
    ensures Accounts(SweepUncommitted(s, marks, failing).0, leak)
    decreases |marks|
  {
    hide Sum;
    if marks != [] {
      DeleteAccounts(s, leak, marks[0], marks[0] !in failing);
      SweepUncommittedAccounts(DeleteChunk(s, marks[0], marks[0] !in failing).0, leak, marks[1..], failing);
    }
  }

  lemma StepAccounts(s: Ledger, leak: nat, op: Op)
    requires Accounts(s, leak) && Admissible(s, op)
    ensures Accounts(Step(s, op), LeakAfter(s, leak, op))
  {
    hide Sum;
    match op
    case Reserve(size, ext, durable, id, now, metaOk) => ReserveAccounts(s, leak, size, ext, durable, id, now, metaOk);
    case Cancel(id, ioOk) => CancelAccounts(s, leak, id, ioOk);
    case Refresh(id, now) => RefreshAccounts(s, leak, id, now);
    case Release(id, sizeActual, now, ioOk) => ReleaseAccounts(s, leak, id, sizeActual, now, ioOk);
    case Commit(_, _) =>
    case Alive(id, now) => RefreshAccounts(s, leak, id, now);
    case Delete(id, ioOk) => DeleteAccounts(s, leak, id, ioOk);
    case Write(_, _, _, _) =>
    case CleanBroken(order, now, failing) => SweepBrokenAccounts(s, leak, BrokenMarks(s, order, now), failing);
    case CleanUncommitted(order, now, failing) =>
      SweepUncommittedAccounts(s, leak, UncommittedMarks(s, order, now), failing);
    case Reboot => SumEmpty<Uuid, Reservation>(FileSpace);
  }

  /** In every reachable state, whatever fails, the counters are exact up to the bytes lost by sweeps. */
  lemma {:induction false} RunAccounts(s: Ledger, leak: nat, ops: seq<Op>)
    requires Accounts(s, leak) && AdmissibleRun(s, ops)
    ensures Accounts(Run(s, ops), RunLeak(s, leak, ops))
    decreases |ops|
  {
    hide Sum;
    if ops != [] {
      StepAccounts(s, leak, ops[0]);
      RunAccounts(Step(s, ops[0]), LeakAfter(s, leak, ops[0]), ops[1..]);
    }
  }

  ghost predicate HasReboot(ops: seq<Op>) {
    exists i :: 0 <= i < |ops| && ops[i].Reboot?
  }

  /** A sweep that stops at no file, or at that of an empty reservation. */
  ghost predicate SweepsCleanly(s: Ledger, op: Op)
    requires Admissible(s, op)
  {
    op.CleanBroken? ==>
      var marks := BrokenMarks(s, op.order, op.now);
      forall i: nat :: StopsAt(s, marks, op.failing, i) ==> s.reservations[marks[i]].fileSpace == 0
  }

  /** Every sweep since the last restart was clean. */
  ghost predicate CleanSinceReboot(s: Ledger, ops: seq<Op>)
    requires AdmissibleRun(s, ops)
    decreases |ops|
  {
    ops == [] || ((HasReboot(ops) || SweepsCleanly(s, ops[0])) && CleanSinceReboot(Step(s, ops[0]), ops[1..]))
  }

  /** A run leaks nothing exactly when its sweeps since the last restart were clean, and nothing had leaked
      before if there was no restart. */
  lemma {:induction false} RunLeaksNothingIff(s: Ledger, leak: nat, ops: seq<Op>)
    requires AdmissibleRun(s, ops)
    ensures RunLeak(s, leak, ops) == 0 <==> (leak == 0 || HasReboot(ops)) && CleanSinceReboot(s, ops)
    decreases |ops|
  {
    if ops != [] {
      hide Step;
      RunLeaksNothingIff(Step(s, ops[0]), LeakAfter(s, leak, ops[0]), ops[1..]);
      assert HasReboot(ops) <==> ops[0].Reboot? || HasReboot(ops[1..]) by {
        assert forall i :: 0 < i < |ops| ==> ops[i] == ops[1..][i - 1];
      }
      if ops[0].CleanBroken? { SweepLossIsExact(s, BrokenMarks(s, ops[0].order, ops[0].now), ops[0].failing); }
    }
  }

  /** Available space is never over-reported, and it is exact when nothing has leaked. */
  lemma AvailableIsSound(s: Ledger, leak: nat)
    requires Accounts(s, leak)
    ensures Available(s) <= Max(0, s.maxPhysical - Sum(s.chunks, PhysicalSize) - Sum(s.reservations, FileSpace))
    ensures leak == 0 ==>
              Available(s) == Max(0, s.maxPhysical - Sum(s.chunks, PhysicalSize) - Sum(s.reservations, FileSpace))
  {
  }

  /** A reservation that never received a byte has no file. When it expires, the sweep drops it and
      stops with its space still counted, although no I/O call misbehaved. */
  lemma UnwrittenReservationLeaks(s: Ledger, size: nat, ext: ExtMeta, id: Uuid, now: nat, later: nat)
    requires Fresh(s, id) && !s.paused && size <= Available(s)
    requires s.reservations == map[] && now + 3600 < later
    ensures var t := Step(s, Reserve(size, ext, true, id, now, true));
            && Admissible(t, CleanBroken([id], later, {}))
            && Step(t, CleanBroken([id], later, {})) == s.(reserved := s.reserved + size)
            && LeakAfter(t, 0, CleanBroken([id], later, {})) == size
  {
  }
}
