/** The upload-session lock: one database row, any number of clients, and a compare-and-set on the
    row's `last_access` timestamp as the only synchronisation. */
module UploadSessions {
  import opened Common

  datatype SessionState = Writing | AwaitingData | TimedOut

  /** The columns that the locking protocol reads and writes. */
  datatype Session = Session(state: SessionState, lastAccess: nat, durable: bool)

  /** For how many milliseconds after its last access a session is valid. */
  function Validity(durable: bool): nat {
    if durable then 3600 * 1000 else 2 * 60 * 1000
  }

  predicate Valid(session: Session, now: nat) {
    now - session.lastAccess <= Validity(session.durable)
  }

  datatype LockError = LockingError | BadRequest

  datatype LockResult = Locked | Refused(error: LockError)

  /** The conditional update: applied only if the row is there and carries the timestamp the caller
      last saw. The caller's copy takes the new timestamp when applied, the stored one when not. */
  function TryUpdate(row: Option<Session>, local: Session, now: nat): (Option<Session>, Session, bool) {
    var written := local.(lastAccess := now);
    match row
    case None => (None, written, false)
    case Some(stored) =>
      if stored.lastAccess == local.lastAccess then (Some(written), written, true)
      else (row, local.(lastAccess := stored.lastAccess), false)
  }

  class SessionStore {
    var row: Option<Session>

    constructor (session: Session)
      ensures row == Some(session)
    {
      row := Some(session);
    }

    method TryUpdateUploadSession(session: Session, now: nat) returns (session': Session, r: LockResult)
      modifies this
      ensures (row, session', r == Locked) == TryUpdate(old(row), session, now)
      ensures r != Locked ==> r == Refused(LockingError)
    {
      var lastAccess := session.lastAccess;
      session' := session.(lastAccess := now);
      if row.Some? {
        if row.value.lastAccess == lastAccess {
          row := Some(session');
          return session', Locked;
        }
        session' := session'.(lastAccess := row.value.lastAccess);
      }
      return session', Refused(LockingError);
    }

    /** Checks the state the caller read, then tries to move the row to `target`. */
    method TryLockSession(session: Session, expected: SessionState, target: SessionState, now: nat)
      returns (session': Session, r: LockResult)
      modifies this
      ensures session.state != expected ==> r == Refused(BadRequest) && row == old(row) && session' == session
      ensures session.state == expected ==>
                (row, session', r == Locked) == TryUpdate(old(row), session.(state := target), now)
      ensures session.state == expected && r != Locked ==> r == Refused(LockingError)
    {
      if session.state != expected { return session, Refused(BadRequest); }
      session', r := TryUpdateUploadSession(session.(state := target), now);
    }

    /** Ends a session that was not accessed for too long, going by the copy the caller has read. */
    method ValidateSession(session: Session, now: nat) returns (valid: bool)
      modifies this
      ensures valid <==> now <= session.lastAccess + (if session.durable then 3_600_000 else 120_000)
      ensures row == if valid then old(row) else None
    {
      valid := Valid(session, now);
      if !valid { EndSession(); }
    }

    method EndSession()
      modifies this
      ensures row == None
    {
      row := None;
    }
  }

  // ---- any number of clients

  /** Where a client stands. `Holding` is the Writing phase: the client owns the session and streams data. */
  datatype Phase =
    | Idle
    | ReadForUpload(copy: Session)
    | ReadForResume(copy: Session)
    | ReadForCheck(copy: Session)
    | Holding(copy: Session)

  type Client = nat

  datatype System = System(row: Option<Session>, clients: map<Client, Phase>, used: set<nat>) {
    function Of(c: Client): Phase {
      if c in clients then clients[c] else Idle
    }

    function Move(c: Client, p: Phase): System {
      this.(clients := clients[c := p])
    }
  }

  datatype Event =
    | GetForUpload(c: Client)
    | Lock(c: Client, now: nat)
    | KeepAlive(c: Client, now: nat)
    | Interrupt(c: Client, now: nat)
    | Finish(c: Client)
    | GetForResume(c: Client)
    | Resume(c: Client, now: nat)
    | GetForCheck(c: Client)
    | Check(c: Client, now: nat)
    | Crash(c: Client)
    | Expire

  /** A timestamped event writes a timestamp this row never carried before. */
  predicate Fresh(s: System, e: Event) {
    match e
    case Lock(_, now) => now !in s.used
    case KeepAlive(_, now) => now !in s.used
    case Interrupt(_, now) => now !in s.used
    case Resume(_, now) => now !in s.used
    case _ => true
  }

  function Stamp(s: System, row: Option<Session>, applied: bool, now: nat): System {
    if applied then s.(row := row, used := s.used + {now}) else s
  }

  /** One step of one client. A step that does not apply to the client's phase does nothing. */
  function Step(s: System, e: Event): System {
    match e
    case GetForUpload(c) =>
      if s.Of(c).Idle? && s.row.Some? then s.Move(c, ReadForUpload(s.row.value)) else s
    case Lock(c, now) =>
      if !s.Of(c).ReadForUpload? then s
      else if s.Of(c).copy.state != AwaitingData then s.Move(c, Idle)
      else
        var (row, copy, applied) := TryUpdate(s.row, s.Of(c).copy.(state := Writing), now);
        Stamp(s, row, applied, now).Move(c, if applied then Holding(copy) else Idle)
    case KeepAlive(c, now) =>
      if !s.Of(c).Holding? then s
      else
        var (row, copy, applied) := TryUpdate(s.row, s.Of(c).copy, now);
        Stamp(s, row, applied, now).Move(c, Holding(copy))
    case Interrupt(c, now) =>
      if !s.Of(c).Holding? then s
      else
        var (row, copy, applied) := TryUpdate(s.row, s.Of(c).copy.(state := TimedOut), now);
        Stamp(s, row, applied, now).Move(c, Idle)
    case Finish(c) =>
      if s.Of(c).Holding? then s.(row := None).Move(c, Idle) else s
    case GetForResume(c) =>
      if s.Of(c).Idle? && s.row.Some? then s.Move(c, ReadForResume(s.row.value)) else s
    case Resume(c, now) =>
      if !s.Of(c).ReadForResume? then s
      else if s.Of(c).copy.state != TimedOut then s.Move(c, Idle)
      else
        var (row, copy, applied) := TryUpdate(s.row, s.Of(c).copy.(state := AwaitingData), now);
        Stamp(s, row, applied, now).Move(c, Idle)
    case GetForCheck(c) =>
      if s.Of(c).Idle? && s.row.Some? then s.Move(c, ReadForCheck(s.row.value)) else s
    case Check(c, now) =>
      if !s.Of(c).ReadForCheck? then s
      else (if Valid(s.Of(c).copy, now) then s else s.(row := None)).Move(c, Idle)
    case Crash(c) => s.Move(c, Idle)
    case Expire => s.(row := None)
  }

  function Run(s: System, events: seq<Event>): System
    decreases |events|
  {
    if events == [] then s else Run(Step(s, events[0]), events[1..])
  }

  ghost predicate FreshRun(s: System, events: seq<Event>)
    decreases |events|
  {
    events == [] || (Fresh(s, events[0]) && FreshRun(Step(s, events[0]), events[1..]))
  }

  /** A new session: the row exists, nobody has read it. A one-shot upload is born held by its creator. */
  function Started(creator: Client, durable: bool, now: nat): System {
    var session := Session(if durable then AwaitingData else Writing, now, durable);
    System(Some(session), if durable then map[] else map[creator := Holding(session)], {now})
  }

  ghost predicate MutualExclusion(s: System) {
    forall c, d :: s.Of(c).Holding? && s.Of(d).Holding? ==> c == d
  }

  /** The holder's next compare-and-set succeeds as long as the row exists. */
  ghost predicate HolderIsCurrent(s: System) {
    forall c :: s.Of(c).Holding? && s.row.Some? ==> s.row.value == s.Of(c).copy && s.row.value.state == Writing
  }

  /** A timestamp identifies a version of the row: whoever saw the current one saw the current state. */
  ghost predicate CopiesAreVersions(s: System) {
    s.row.Some? ==>
      && s.row.value.lastAccess in s.used
      && forall c :: !s.Of(c).Idle? ==>
           && s.Of(c).copy.lastAccess in s.used
           && (s.Of(c).copy.lastAccess == s.row.value.lastAccess ==> s.Of(c).copy == s.row.value)
  }

  ghost predicate Safe(s: System) {
    MutualExclusion(s) && HolderIsCurrent(s) && CopiesAreVersions(s)
  }

  lemma StepIsSafe(s: System, e: Event)
    requires Safe(s) && Fresh(s, e)
    ensures Safe(Step(s, e))
  {
    var t := Step(s, e);
    if e.Expire? {
      assert forall d :: t.Of(d) == s.Of(d);
    } else {
      assert forall d :: d != e.c ==> t.Of(d) == s.Of(d);
      if e.Lock? && s.Of(e.c).ReadForUpload? && t.Of(e.c).Holding? {
        assert s.row.value.state == AwaitingData;
      }
    }
  }

  /** In every interleaving of any number of clients, at most one is in the Writing phase, and the
      holder's compare-and-set never fails while the row exists. */
  lemma {:induction false} RunIsSafe(s: System, events: seq<Event>)
    requires Safe(s) && FreshRun(s, events)
    ensures Safe(Run(s, events))
    decreases |events|
  {
    if events != [] {
      StepIsSafe(s, events[0]);
      RunIsSafe(Step(s, events[0]), events[1..]);
    }
  }

  lemma SessionExclusion(creator: Client, durable: bool, now: nat, events: seq<Event>, e: Event)
    requires FreshRun(Started(creator, durable, now), events)
    ensures var s := Run(Started(creator, durable, now), events);
            && MutualExclusion(s)
            && (e.KeepAlive? && s.Of(e.c).Holding? && s.row.Some? ==> TryUpdate(s.row, s.Of(e.c).copy, e.now).2)
  {
    RunIsSafe(Started(creator, durable, now), events);
  }

  /** A refused update changes nothing and tells the caller the row's timestamp: the next one, if nobody comes
      between, is applied, with the state the caller wants. */
  lemma RefusedUpdateCanBeRetried(row: Option<Session>, local: Session, now: nat, later: nat)
    requires row.Some?
    ensures var (row', copy, applied) := TryUpdate(row, local, now);
            && (applied <==> row.value.lastAccess == local.lastAccess)
            && (applied ==> row' == Some(copy) && copy == local.(lastAccess := now))
            && (!applied ==>
                  && row' == row && copy.state == local.state
                  && TryUpdate(row', copy, later).2
                  && TryUpdate(row', copy, later).0 == Some(local.(lastAccess := later)))
  {
  }

  /** A client that has read the session gets it exactly when the session waits for data and is still as it was
      read; the row then says so, and everybody else stands where they stood. */
  lemma LockSucceedsIff(s: System, c: Client, now: nat)
    requires Safe(s) && s.Of(c).ReadForUpload? && now !in s.used
    ensures var t, copy := Step(s, Lock(c, now)), s.Of(c).copy;
            && (t.Of(c).Holding? <==> copy.state == AwaitingData && s.row == Some(copy))
            && (t.Of(c).Holding? ==>
                  t.row == Some(copy.(state := Writing, lastAccess := now)) && t.row == Some(t.Of(c).copy))
            && (!t.Of(c).Holding? ==> t.row == s.row && t.Of(c) == Idle)
            && forall d :: d != c ==> t.Of(d) == s.Of(d)
  {
  }

  /** Likewise the session is made ready to be locked again exactly when it is interrupted and still as it was
      read. */
  lemma ResumeSucceedsIff(s: System, c: Client, now: nat)
    requires Safe(s) && s.Of(c).ReadForResume? && now !in s.used
    ensures var t, copy := Step(s, Resume(c, now)), s.Of(c).copy;
            && (t.row != s.row <==> copy.state == TimedOut && s.row == Some(copy))
            && (t.row != s.row ==> t.row == Some(copy.(state := AwaitingData, lastAccess := now)))
            && t.Of(c) == Idle && forall d :: d != c ==> t.Of(d) == s.Of(d)
  {
  }

  /** A keep-alive of the holder stamps the row and keeps the session held. */
  lemma KeepAliveRenews(s: System, c: Client, now: nat)
    requires Safe(s) && s.Of(c).Holding? && s.row.Some?
    ensures var t := Step(s, KeepAlive(c, now));
            && t.row == Some(s.row.value.(lastAccess := now)) && t.Of(c) == Holding(t.row.value)
            && forall d :: d != c ==> t.Of(d) == s.Of(d)
  {
  }

  /** The holder does not let go, nobody removes the session for a reason of their own, and no check comes later
      than the validity of the copy it goes by: an hour, or two minutes for a one-shot upload. */
  ghost predicate Tended(s: System, c: Client, e: Event) {
    match e
    case Finish(d) => d != c
    case Interrupt(d, _) => d != c
    case Crash(d) => d != c
    case Check(d, now) =>
      s.Of(d).ReadForCheck? ==>
        now <= s.Of(d).copy.lastAccess + (if s.Of(d).copy.durable then 3_600_000 else 120_000)
    case Expire => false
    case _ => true
  }

  ghost predicate TendedRun(s: System, c: Client, events: seq<Event>)
    decreases |events|
  {
    events == [] || (Tended(s, c, events[0]) && TendedRun(Step(s, events[0]), c, events[1..]))
  }

  ghost predicate Holds(s: System, c: Client) {
    s.Of(c).Holding? && s.row == Some(s.Of(c).copy)
  }

  lemma StepKeepsHolder(s: System, c: Client, e: Event)
    requires Safe(s) && Fresh(s, e) && Holds(s, c) && Tended(s, c, e)
    ensures Holds(Step(s, e), c)
  {
    var t := Step(s, e);
    if !e.Expire? && e.c != c {
      assert t.Of(c) == s.Of(c);
      assert !s.Of(e.c).Holding?;
    }
  }

  /** Whatever the other clients do, a session that is tended stays with its holder. */
  lemma {:induction false} HolderKeepsSession(s: System, c: Client, events: seq<Event>)
    requires Safe(s) && FreshRun(s, events) && Holds(s, c) && TendedRun(s, c, events)
    ensures Holds(Run(s, events), c) && Run(s, events).row.value.state == Writing
    decreases |events|
  {
    if events != [] {
      hide Safe, Tended, Step, Holds;
      StepIsSafe(s, events[0]);
      StepKeepsHolder(s, c, events[0]);
      HolderKeepsSession(Step(s, events[0]), c, events[1..]);
    }
  }

  /** A check removes the session exactly when the copy it goes by is past its validity. */
  lemma CheckRemovesIff(s: System, c: Client, now: nat)
    requires s.Of(c).ReadForCheck?
    ensures var t, copy := Step(s, Check(c, now)), s.Of(c).copy;
            && t.row == (if now <= copy.lastAccess + (if copy.durable then 3_600_000 else 120_000) then s.row else None)
            && t.Of(c) == Idle && forall d :: d != c ==> t.Of(d) == s.Of(d)
  {
  }

  /** Nobody holds a session that says it is being written, or there is none. */
  ghost predicate Stuck(s: System) {
    (forall c :: !s.Of(c).Holding?) && (s.row.Some? ==> s.row.value.state == Writing)
  }

  lemma StepKeepsStuck(s: System, e: Event)
    requires Safe(s) && Fresh(s, e) && Stuck(s)
    ensures Stuck(Step(s, e)) && (Step(s, e).row == s.row || Step(s, e).row == None)
  {
    var t := Step(s, e);
    if e.Expire? {
      assert forall d :: t.Of(d) == s.Of(d);
    } else {
      assert forall d :: d != e.c ==> t.Of(d) == s.Of(d);
      if e.Lock? && s.Of(e.c).ReadForUpload? { LockSucceedsIff(s, e.c, e.now); }
      if e.Resume? && s.Of(e.c).ReadForResume? { ResumeSucceedsIff(s, e.c, e.now); }
      assert !t.Of(e.c).Holding?;
    }
  }

  /** The session of a holder that crashed can never be locked or resumed again: whatever the clients do, it stays
      as it was until it is removed, and then it stays removed. */
  lemma {:induction false} StuckUntilRemoved(s: System, events: seq<Event>)
    requires Safe(s) && FreshRun(s, events) && Stuck(s)
    ensures Stuck(Run(s, events)) && (Run(s, events).row == s.row || Run(s, events).row == None)
    decreases |events|
  {
    if events != [] {
      hide Safe, Stuck, Step;
      StepIsSafe(s, events[0]);
      StepKeepsStuck(s, events[0]);
      StuckUntilRemoved(Step(s, events[0]), events[1..]);
    }
  }

  lemma CrashLeavesSessionStuck(s: System, c: Client)
    requires Safe(s) && Holds(s, c)
    ensures Stuck(Step(s, Crash(c))) && Step(s, Crash(c)).row == s.row
    ensures Stuck(Step(Step(s, Crash(c)), Expire)) && Step(Step(s, Crash(c)), Expire).row == None
  {
    var t := Step(s, Crash(c));
    assert forall d :: t.Of(d) == if d == c then Idle else s.Of(d);
    assert forall d :: Step(t, Expire).Of(d) == t.Of(d);
  }

  /** Freshness is what the lock rests on. Two clients that read the same waiting session can both end
      up writing exactly when the first one's lock writes back the timestamp it read, which a
      millisecond clock allows. */
  lemma StaleTimestampBreaksExclusion(s: System, c: Client, d: Client, t1: nat, t2: nat)
    requires c != d && s.row.Some? && s.row.value.state == AwaitingData
    requires s.Of(c) == ReadForUpload(s.row.value) && s.Of(d) == ReadForUpload(s.row.value)
    ensures var t := Run(s, [Lock(c, t1), Lock(d, t2)]);
            t.Of(c).Holding? && t.Of(d).Holding? <==> t1 == s.row.value.lastAccess
  {
    var a := Step(s, Lock(c, t1));
    assert [Lock(c, t1), Lock(d, t2)][1..] == [Lock(d, t2)] && [Lock(d, t2)][1..] == [];
    assert Run(a, [Lock(d, t2)]) == Run(Step(a, Lock(d, t2)), []);
  }

  /** The intended cycle: a client locks a waiting session, is interrupted, and whoever resumes can
      lock it again, while the interrupted client is out. */
  lemma InterruptedSessionCanBeTakenOver(s: System, c: Client, d: Client, t: seq<nat>)
    requires s.row.Some? && s.row.value.state == AwaitingData && s.Of(c).Idle? && s.Of(d).Idle? && c != d
    requires |t| == 4
    ensures var held := Step(Step(s, GetForUpload(c)), Lock(c, t[0]));
            var interrupted := Step(held, Interrupt(c, t[1]));
            var resumed := Step(Step(interrupted, GetForResume(d)), Resume(d, t[2]));
            var taken := Step(Step(resumed, GetForUpload(d)), Lock(d, t[3]));
            && held.Of(c) == Holding(s.row.value.(state := Writing, lastAccess := t[0]))
            && held.row == Some(s.row.value.(state := Writing, lastAccess := t[0]))
            && interrupted.Of(c) == Idle && interrupted.row == Some(s.row.value.(state := TimedOut, lastAccess := t[1]))
            && resumed.Of(d) == Idle && resumed.row == Some(s.row.value.(state := AwaitingData, lastAccess := t[2]))
            && taken.Of(d) == Holding(s.row.value.(state := Writing, lastAccess := t[3])) && taken.Of(c) == Idle
            && Step(taken, Finish(d)).row == None
  {
  }
}
