/** Per-chunk reader/writer locks: one semaphore per key, kept in a table, with the table entry removed by
    a task that is spawned when the lock is released. */
module LockTables {
  import opened Common
  import opened Sums

  /** A reader holds one permit, a writer all of them. */
  datatype Guard = Guard(key: Uuid, lock: nat, writer: bool)

  datatype Locker = Locker(key: Uuid, available: nat)

  /** `lockers` are all lock objects ever made, `table` the ones the table holds, `removals` the keys whose
      removal has been spawned and has not run yet. */
  datatype Locks = Locks(maxReaders: nat, table: map<Uuid, nat>, lockers: map<nat, Locker>,
                         guards: map<nat, Guard>, removals: multiset<Uuid>)

  datatype Event =
    /** `guard` names the new guard, `lock` the lock object made if the key has none. */
    | TryLock(key: Uuid, writer: bool, guard: nat, lock: nat)
    | Drop(guard: nat)
    | RunRemoval(key: Uuid)

  function Permits(s: Locks, writer: bool): nat {
    if writer then s.maxReaders else 1
  }

  predicate FreshNames(s: Locks, guard: nat, lock: nat) {
    guard !in s.guards && lock !in s.lockers
  }

  /** The entry for the key, made if there is none. */
  function Enter(s: Locks, key: Uuid, lock: nat): Locks {
    if key in s.table then s
    else s.(table := s.table[key := lock], lockers := s.lockers[lock := Locker(key, s.maxReaders)])
  }

  function Acquire(s: Locks, guard: nat, key: Uuid, lock: nat, writer: bool): Locks
    requires lock in s.lockers
  {
    var l := s.lockers[lock];
    if Permits(s, writer) > l.available then s
    else s.(lockers := s.lockers[lock := l.(available := l.available - Permits(s, writer))],
            guards := s.guards[guard := Guard(key, lock, writer)])
  }

  /** The guard can still reach its lock object only while the table holds it. A removal is spawned when
      this guard is the last. */
  function Release(s: Locks, guard: nat): Locks
    requires guard in s.guards && s.guards[guard].lock in s.lockers
  {
    var g := s.guards[guard];
    var l := s.lockers[g.lock];
    var reachable := g.key in s.table && s.table[g.key] == g.lock;
    var spawns := reachable && (g.writer || l.available + 1 == s.maxReaders);
    s.(lockers := s.lockers[g.lock := l.(available := l.available + Permits(s, g.writer))],
       guards := s.guards - {guard},
       removals := if spawns then s.removals + multiset{g.key} else s.removals)
  }

  predicate Wired(s: Locks) {
    && (forall k :: k in s.table ==> s.table[k] in s.lockers && s.lockers[s.table[k]].key == k)
    && (forall g :: g in s.guards ==>
          s.guards[g].lock in s.lockers && s.lockers[s.guards[g].lock].key == s.guards[g].key)
  }

  function Step(s: Locks, e: Event): Locks
    requires Wired(s)
  {
    match e
    case TryLock(key, writer, guard, lock) =>
      if !FreshNames(s, guard, lock) then s
      else var t := Enter(s, key, lock); Acquire(t, guard, key, t.table[key], writer)
    case Drop(guard) => if guard in s.guards then Release(s, guard) else s
    case RunRemoval(key) =>
      if key in s.removals then s.(removals := s.removals - multiset{key}, table := s.table - {key}) else s
  }

  // ---- permits of one lock object

  ghost function Weight(lock: nat, maxReaders: nat): Guard -> nat {
    (g: Guard) => if g.lock != lock then 0 else if g.writer then maxReaders else 1
  }

  ghost function Held(s: Locks, lock: nat): nat {
    Sum(s.guards, Weight(lock, s.maxReaders))
  }

  /** Held plus available permits of each lock object are always the maximum. */
  ghost predicate Balanced(s: Locks) {
    forall l :: l in s.lockers ==> s.lockers[l].available + Held(s, l) == s.maxReaders
  }

  ghost predicate Inv(s: Locks) {
    Wired(s) && Balanced(s)
  }

  /** A guard alone holds its own permits; two of them hold both. */
  lemma HeldByTwo(s: Locks, g: nat, h: nat)
    requires g in s.guards && h in s.guards && g != h && s.guards[g].lock == s.guards[h].lock
    ensures Held(s, s.guards[g].lock) >= Permits(s, s.guards[g].writer) + Permits(s, s.guards[h].writer)
  {
    hide Sum;
    var w := Weight(s.guards[g].lock, s.maxReaders);
    SumSplit(s.guards, g, w);
    SumSplit(s.guards - {g}, h, w);
  }

  /** A lock object never has a writer beside another guard. */
  lemma WriterExcludes(s: Locks, g: nat, h: nat)
    requires Inv(s) && s.maxReaders >= 1
    requires g in s.guards && h in s.guards && g != h && s.guards[g].lock == s.guards[h].lock
    ensures !s.guards[g].writer && !s.guards[h].writer
  {
    HeldByTwo(s, g, h);
  }

  /** A lock object that holds no more than one guard's permits has no other guard. */
  lemma LastGuard(s: Locks, g: nat, h: nat)
    requires Inv(s) && s.maxReaders >= 1 && g in s.guards && h in s.guards && g != h
    requires s.guards[g].writer || s.lockers[s.guards[g].lock].available + 1 == s.maxReaders
    ensures s.guards[h].lock != s.guards[g].lock
  {
    if s.guards[h].lock == s.guards[g].lock { HeldByTwo(s, g, h); }
  }

  lemma NoGuardHoldsNothing(s: Locks, lock: nat)
    requires forall g :: g in s.guards ==> s.guards[g].lock != lock
    ensures Held(s, lock) == 0
  {
    SumZero(s.guards, Weight(lock, s.maxReaders));
  }

  lemma EnterKeepsInv(s: Locks, key: Uuid, lock: nat)
    requires Inv(s) && lock !in s.lockers
    ensures Inv(Enter(s, key, lock))
  {
    hide Sum;
    var t := Enter(s, key, lock);
    if key !in s.table {
      NoGuardHoldsNothing(s, lock);
      assert forall l :: Held(t, l) == Held(s, l);
    }
  }

  lemma AcquireKeepsInv(s: Locks, guard: nat, key: Uuid, lock: nat, writer: bool)
    requires Inv(s) && guard !in s.guards && lock in s.lockers && s.lockers[lock].key == key
    ensures Inv(Acquire(s, guard, key, lock, writer))
  {
    hide Sum;
    var t := Acquire(s, guard, key, lock, writer);
    if t != s {
      forall l | l in t.lockers ensures t.lockers[l].available + Held(t, l) == t.maxReaders {
        SumInsert(s.guards, guard, Guard(key, lock, writer), Weight(l, s.maxReaders));
      }
    }
  }

  lemma ReleaseKeepsInv(s: Locks, guard: nat)
    requires Inv(s) && guard in s.guards
    ensures Inv(Release(s, guard))
  {
    hide Sum;
    var t := Release(s, guard);
    forall l | l in t.lockers ensures t.lockers[l].available + Held(t, l) == t.maxReaders {
      SumSplit(s.guards, guard, Weight(l, s.maxReaders));
    }
  }

  lemma StepKeepsInv(s: Locks, e: Event)
    requires Inv(s)
    ensures Inv(Step(s, e))
  {
    hide Sum;
    match e
    case TryLock(key, writer, guard, lock) =>
      if FreshNames(s, guard, lock) {
        EnterKeepsInv(s, key, lock);
        var t := Enter(s, key, lock);
        AcquireKeepsInv(t, guard, key, t.table[key], writer);
      }
    case Drop(guard) => if guard in s.guards { ReleaseKeepsInv(s, guard); }
    case RunRemoval(key) =>
      assert forall l :: Held(Step(s, e), l) == Held(s, l);
  }

  function Empty(maxReaders: nat): Locks {
    Locks(maxReaders, map[], map[], map[], multiset{})
  }

  ghost function Run(maxReaders: nat, events: seq<Event>): (s: Locks)
    ensures Inv(s) && s.maxReaders == maxReaders
  {
    if events == [] then Empty(maxReaders)
    else
      var s := Run(maxReaders, events[..|events| - 1]);
      StepKeepsInv(s, events[|events| - 1]);
      Step(s, events[|events| - 1])
  }

  /** In every run a writer excludes everyone else on the same lock object. */
  lemma ObjectExclusion(maxReaders: nat, events: seq<Event>, g: nat, h: nat)
    requires maxReaders >= 1
    ensures var guards := Run(maxReaders, events).guards;
            g in guards && h in guards && g != h && guards[g].lock == guards[h].lock ==>
              !guards[g].writer && !guards[h].writer
  {
    var s := Run(maxReaders, events);
    if g in s.guards && h in s.guards && g != h && s.guards[g].lock == s.guards[h].lock { WriterExcludes(s, g, h); }
  }

  // ---- admission, by counting guards

  /** The guards on one lock object. */
  ghost function OnLock(guards: map<nat, Guard>, lock: nat): set<nat> {
    set g | g in guards && guards[g].lock == lock
  }

  ghost predicate HasWriter(guards: map<nat, Guard>, lock: nat) {
    exists g :: g in guards && guards[g].lock == lock && guards[g].writer
  }

  lemma {:induction false} ReadersHoldOneEach(guards: map<nat, Guard>, lock: nat, maxReaders: nat)
    requires !HasWriter(guards, lock)
    ensures Sum(guards, Weight(lock, maxReaders)) == |OnLock(guards, lock)|
    decreases |guards|
  {
    if |guards| == 0 {
      assert OnLock(guards, lock) == {};
    } else {
      hide Sum;
      var g := Pick(guards);
      var rest: map<nat, Guard> := guards - {g};
      SumSplit(guards, g, Weight(lock, maxReaders));
      assert forall h :: h in rest ==> h in guards && rest[h] == guards[h];
      ReadersHoldOneEach(rest, lock, maxReaders);
      if guards[g].lock == lock {
        assert !guards[g].writer;
        assert OnLock(guards, lock) == OnLock(rest, lock) + {g};
      } else {
        assert OnLock(guards, lock) == OnLock(rest, lock);
      }
    }
  }

  lemma GuardHoldsPermits(s: Locks, g: nat)
    requires g in s.guards
    ensures Held(s, s.guards[g].lock) >= Permits(s, s.guards[g].writer)
  {
    hide Sum;
    SumSplit(s.guards, g, Weight(s.guards[g].lock, s.maxReaders));
  }

  /** What a lock object has left, by its guards. */
  lemma AvailableByGuards(s: Locks, lock: nat)
    requires Inv(s) && s.maxReaders >= 1 && lock in s.lockers
    ensures HasWriter(s.guards, lock) ==> s.lockers[lock].available == 0 && |OnLock(s.guards, lock)| == 1
    ensures !HasWriter(s.guards, lock) ==> s.lockers[lock].available == s.maxReaders - |OnLock(s.guards, lock)|
  {
    hide Sum;
    if HasWriter(s.guards, lock) {
      var g :| g in s.guards && s.guards[g].lock == lock && s.guards[g].writer;
      GuardHoldsPermits(s, g);
      forall h | h in OnLock(s.guards, lock) ensures h == g {
        if h != g { WriterExcludes(s, g, h); }
      }
      assert OnLock(s.guards, lock) == {g};
    } else {
      ReadersHoldOneEach(s.guards, lock, s.maxReaders);
    }
  }

  /** A writer is let in beside nobody, a reader beside fewer than the maximum of other readers. */
  ghost predicate Admits(s: Locks, key: Uuid, writer: bool) {
    key !in s.table ||
    (if writer then OnLock(s.guards, s.table[key]) == {}
     else !HasWriter(s.guards, s.table[key]) && |OnLock(s.guards, s.table[key])| < s.maxReaders)
  }

  lemma TryLockAdmitsIff(s: Locks, key: Uuid, writer: bool, guard: nat, lock: nat)
    requires Inv(s) && s.maxReaders >= 1 && FreshNames(s, guard, lock)
    ensures var t := Step(s, TryLock(key, writer, guard, lock));
            && (guard in t.guards <==> Admits(s, key, writer))
            && (guard in t.guards ==>
                  && key in t.table && t.table == s.table[key := t.table[key]]
                  && t.table[key] == (if key in s.table then s.table[key] else lock)
                  && t.guards == s.guards[guard := Guard(key, t.table[key], writer)])
            && (guard !in t.guards ==> t == s)
  {
    hide Sum, Balanced;
    if key in s.table {
      AvailableByGuards(s, s.table[key]);
    }
  }

  /** Dropping a guard spawns a removal exactly when the table still holds its lock object and nobody else does. */
  lemma DropSpawnsRemovalIff(s: Locks, guard: nat)
    requires Inv(s) && s.maxReaders >= 1 && guard in s.guards
    ensures var t, g := Step(s, Drop(guard)), s.guards[guard];
            && t.guards == s.guards - {guard} && t.table == s.table
            && t.removals ==
               if g.key in s.table && s.table[g.key] == g.lock && OnLock(s.guards, g.lock) == {guard}
               then s.removals + multiset{g.key} else s.removals
  {
    hide Sum, Balanced;
    var g := s.guards[guard];
    AvailableByGuards(s, g.lock);
    assert guard in OnLock(s.guards, g.lock);
    if |OnLock(s.guards, g.lock)| == 1 {
      OnlyOne(OnLock(s.guards, g.lock), guard);
    }
    if HasWriter(s.guards, g.lock) {
      var w :| w in s.guards && s.guards[w].lock == g.lock && s.guards[w].writer;
      assert w in OnLock(s.guards, g.lock);
    }
  }

  lemma OnlyOne(s: set<nat>, x: nat)
    requires x in s && |s| == 1
    ensures s == {x}
  {
    assert |s - {x}| == 0;
  }

  // ---- per key

  /** Every live guard of a key is on the lock object the table holds for it. */
  ghost predicate Shared(s: Locks) {
    forall g :: g in s.guards ==> s.guards[g].key in s.table && s.table[s.guards[g].key] == s.guards[g].lock
  }

  ghost predicate InUse(s: Locks, key: Uuid) {
    exists g :: g in s.guards && s.guards[g].key == key
  }

  ghost predicate KeyExclusion(s: Locks) {
    forall g, h :: g in s.guards && h in s.guards && g != h && s.guards[g].key == s.guards[h].key ==>
      !s.guards[g].writer && !s.guards[h].writer
  }

  lemma SharedExcludes(s: Locks)
    requires Inv(s) && s.maxReaders >= 1 && Shared(s)
    ensures KeyExclusion(s)
  {
    forall g, h | g in s.guards && h in s.guards && g != h && s.guards[g].key == s.guards[h].key
      ensures !s.guards[g].writer && !s.guards[h].writer
    {
      WriterExcludes(s, g, h);
    }
  }

  /** Only one thing splits a key over two lock objects: a removal that runs while the key is in use. */
  lemma StepKeepsSharedIff(s: Locks, e: Event)
    requires Inv(s) && Shared(s)
    ensures Shared(Step(s, e)) <==> !(e.RunRemoval? && e.key in s.removals && InUse(s, e.key))
  {
    hide Sum;
    if e.RunRemoval? && e.key in s.removals && InUse(s, e.key) {
      var g :| g in s.guards && s.guards[g].key == e.key;
      assert g in Step(s, e).guards;
    }
  }

  /** After such a removal a writer gets in beside the guard that is still there. */
  lemma SplitKeyAdmitsWriter(s: Locks, key: Uuid, guard: nat, lock: nat)
    requires Inv(s) && s.maxReaders >= 1 && key in s.removals && InUse(s, key) && FreshNames(s, guard, lock)
    ensures var t := Step(s, RunRemoval(key));
            Inv(t) && !KeyExclusion(Step(t, TryLock(key, true, guard, lock)))
  {
    StepKeepsInv(s, RunRemoval(key));
    var t := Step(Step(s, RunRemoval(key)), TryLock(key, true, guard, lock));
    var g :| g in s.guards && s.guards[g].key == key;
    assert g in t.guards && guard in t.guards && g != guard && t.guards[guard].writer;
  }

  /** No key is locked between its release and the removal this spawned. */
  ghost predicate Quiet(maxReaders: nat, events: seq<Event>) {
    events == [] ||
    (var init, e := events[..|events| - 1], events[|events| - 1];
     Quiet(maxReaders, init) && (e.TryLock? ==> e.key !in Run(maxReaders, init).removals))
  }

  /** Pending removals are of keys nobody holds. */
  ghost predicate Settled(s: Locks) {
    forall k :: k in s.removals ==> !InUse(s, k)
  }

  lemma ReleaseSettles(s: Locks, guard: nat)
    requires Inv(s) && Shared(s) && Settled(s) && s.maxReaders >= 1 && guard in s.guards
    ensures Settled(Release(s, guard))
  {
    var t, g := Release(s, guard), s.guards[guard];
    if t.removals != s.removals {
      forall h | h in t.guards ensures t.guards[h].key != g.key {
        LastGuard(s, guard, h);
      }
    }
    forall k | k in t.removals ensures !InUse(t, k) {
      if k != g.key {
        assert k in s.removals;
        assert forall h :: h in t.guards ==> h in s.guards && s.guards[h] == t.guards[h];
      }
    }
  }

  lemma QuietStep(s: Locks, e: Event)
    requires Inv(s) && Shared(s) && Settled(s) && s.maxReaders >= 1
    requires e.TryLock? ==> e.key !in s.removals
    ensures Shared(Step(s, e)) && Settled(Step(s, e))
  {
    hide Sum;
    StepKeepsSharedIff(s, e);
    match e
    case TryLock(key, _, _, _) =>
      var t := Step(s, e);
      forall k | k in t.removals ensures !InUse(t, k) {
        assert forall h :: h in t.guards && t.guards[h].key == k ==> h in s.guards && s.guards[h] == t.guards[h];
      }
    case Drop(guard) => if guard in s.guards { ReleaseSettles(s, guard); }
    case RunRemoval(key) =>
      assert forall k :: k in Step(s, e).removals ==> k in s.removals;
      assert forall k :: InUse(Step(s, e), k) ==> InUse(s, k);
  }

  /** In every quiet run all guards of a key share one lock object, so a writer excludes everyone. */
  lemma {:induction false} QuietRunsExclude(maxReaders: nat, events: seq<Event>)
    requires maxReaders >= 1 && Quiet(maxReaders, events)
    ensures var s := Run(maxReaders, events); Shared(s) && Settled(s) && KeyExclusion(s)
  {
    var s := Run(maxReaders, events);
    if events != [] {
      var init := events[..|events| - 1];
      QuietRunsExclude(maxReaders, init);
      QuietStep(Run(maxReaders, init), events[|events| - 1]);
    }
    SharedExcludes(s);
  }

  /** After any run that leaves a key unused, a reader that comes in between a release and its removal ends
      up beside a writer. */
  lemma LateRemovalBreaksExclusion(maxReaders: nat, run: seq<Event>, key: Uuid, g: nat, h: nat, w: nat, l: nat, m: nat)
    requires maxReaders >= 1 && key !in Run(maxReaders, run).table && l != m && g != h && h != w && g != w
    requires FreshNames(Run(maxReaders, run), g, l) && FreshNames(Run(maxReaders, run), h, m) &&
        FreshNames(Run(maxReaders, run), w, m)
    ensures !KeyExclusion(Run(maxReaders, run + [TryLock(key, false, g, l)] + [Drop(g)] + [TryLock(key, false, h, m)]
                                          + [RunRemoval(key)] + [TryLock(key, true, w, m)]))
  {
    hide Run, Step, Balanced, KeyExclusion;
    var run1 := run + [TryLock(key, false, g, l)];
    var run2 := run1 + [Drop(g)];
    var run3 := run2 + [TryLock(key, false, h, m)];
    RunStep(maxReaders, run, TryLock(key, false, g, l));
    RunStep(maxReaders, run1, Drop(g));
    RunStep(maxReaders, run2, TryLock(key, false, h, m));
    RunStep(maxReaders, run3, RunRemoval(key));
    RunStep(maxReaders, run3 + [RunRemoval(key)], TryLock(key, true, w, m));
    ReleaseSpawnsRemoval(Run(maxReaders, run), key, g, l);
    ReaderComesIn(Run(maxReaders, run2), key, h, m, l);
    SplitKeyAdmitsWriter(Run(maxReaders, run3), key, w, m);
  }

  lemma RunStep(maxReaders: nat, events: seq<Event>, e: Event)
    ensures Run(maxReaders, events + [e]) == Step(Run(maxReaders, events), e)
  {
    assert (events + [e])[..|events|] == events;
  }

  lemma FirstReader(s: Locks, key: Uuid, g: nat, l: nat)
    requires Wired(s) && s.maxReaders >= 1 && key !in s.table && FreshNames(s, g, l)
    ensures Step(s, TryLock(key, false, g, l)) ==
            s.(table := s.table[key := l], lockers := s.lockers[l := Locker(key, s.maxReaders - 1)],
               guards := s.guards[g := Guard(key, l, false)])
  {
  }

  lemma ReleaseSpawnsRemoval(s: Locks, key: Uuid, g: nat, l: nat)
    requires Inv(s) && s.maxReaders >= 1 && key !in s.table && FreshNames(s, g, l)
    ensures var locked := Step(s, TryLock(key, false, g, l));
            Inv(locked) &&
            var released := Step(locked, Drop(g));
            && released.lockers == s.lockers[l := Locker(key, s.maxReaders)] && released.table == s.table[key := l]
            && released.guards == s.guards && key in released.removals && released.maxReaders == s.maxReaders
  {
    hide Step, Wired, Balanced;
    StepKeepsInv(s, TryLock(key, false, g, l));
    FirstReader(s, key, g, l);
    LastReaderLeaves(Step(s, TryLock(key, false, g, l)), g);
    SetThenDrop(s.guards, g, Guard(key, l, false));
    SetTwice(s.lockers, l, Locker(key, s.maxReaders - 1), Locker(key, s.maxReaders));
  }

  lemma SetThenDrop<V>(m: map<nat, V>, k: nat, v: V)
    requires k !in m
    ensures m[k := v] - {k} == m
  {
  }

  lemma SetTwice<V>(m: map<nat, V>, k: nat, v: V, w: V)
    ensures m[k := v][k := w] == m[k := w]
  {
  }

  lemma LastReaderLeaves(s: Locks, g: nat)
    requires Inv(s) && g in s.guards && !s.guards[g].writer
    requires s.guards[g].key in s.table && s.table[s.guards[g].key] == s.guards[g].lock
    requires s.guards[g].lock in s.lockers && s.lockers[s.guards[g].lock].available + 1 == s.maxReaders
    ensures var lock := s.guards[g].lock;
            Step(s, Drop(g)) == s.(lockers := s.lockers[lock := s.lockers[lock].(available := s.maxReaders)],
                                   guards := s.guards - {g}, removals := s.removals + multiset{s.guards[g].key})
  {
  }

  lemma ReaderComesIn(s: Locks, key: Uuid, h: nat, m: nat, l: nat)
    requires Inv(s) && s.maxReaders >= 1 && FreshNames(s, h, m) && key in s.removals
    requires key in s.table && s.table[key] == l && l in s.lockers && s.lockers[l].available == s.maxReaders
    ensures var again := Step(s, TryLock(key, false, h, m));
            && key in again.removals && InUse(again, key) && again.lockers.Keys == s.lockers.Keys
            && again.guards.Keys == s.guards.Keys + {h} && again.maxReaders == s.maxReaders
  {
    var again := Step(s, TryLock(key, false, h, m));
    assert again.guards[h].key == key;
  }

  // ---- the lock table itself

  class FileLockTable {
    var locks: Locks

    constructor (maxReaders: nat)
      ensures locks == Empty(maxReaders) && Inv(locks)
    {
      locks := Empty(maxReaders);
    }

    method TryLock(key: Uuid, writer: bool, guard: nat, lock: nat) returns (ok: bool)
      requires Inv(locks) && FreshNames(locks, guard, lock)
      modifies this
      ensures locks == Step(old(locks), Event.TryLock(key, writer, guard, lock)) && Inv(locks)
      ensures ok <==> guard in locks.guards
      ensures locks.maxReaders >= 1 ==> (ok <==> Admits(old(locks), key, writer))
    {
      hide Balanced, Admits;
      StepKeepsInv(locks, Event.TryLock(key, writer, guard, lock));
      if locks.maxReaders >= 1 { TryLockAdmitsIff(locks, key, writer, guard, lock); }
      if key !in locks.table {
        locks := locks.(lockers := locks.lockers[lock := Locker(key, locks.maxReaders)],
                        table := locks.table[key := lock]);
      }
      var id := locks.table[key];
      var wanted := if writer then locks.maxReaders else 1;
      ok := locks.lockers[id].available >= wanted;
      if ok {
        var rest := locks.lockers[id].(available := locks.lockers[id].available - wanted);
        locks := locks.(lockers := locks.lockers[id := rest], guards := locks.guards[guard := Guard(key, id, writer)]);
      }
    }

    /** Dropping a guard first decides whether to spawn the removal, then gives the permits back. */
    method Drop(guard: nat)
      requires Inv(locks) && guard in locks.guards
      modifies this
      ensures locks == Step(old(locks), Event.Drop(guard)) && Inv(locks)
    {
      var g := locks.guards[guard];
      var l := locks.lockers[g.lock];
      hide Wired, Balanced;
      var removals := locks.removals;
      if g.key in locks.table && locks.table[g.key] == g.lock {
        if g.writer || l.available + 1 == locks.maxReaders { removals := removals + multiset{g.key}; }
      }
      var returned := if g.writer then locks.maxReaders else 1;
      locks := locks.(lockers := locks.lockers[g.lock := l.(available := l.available + returned)],
                      guards := locks.guards - {guard}, removals := removals);
      assert locks == Step(old(locks), Event.Drop(guard));
      hide Step;
      StepKeepsInv(old(locks), Event.Drop(guard));
    }

    /** The spawned task: it removes whatever the table holds for the key by then. */
    method RunRemoval(key: Uuid)
      requires Inv(locks) && key in locks.removals
      modifies this
      ensures locks == Step(old(locks), Event.RunRemoval(key)) && Inv(locks)
    {
      StepKeepsInv(locks, Event.RunRemoval(key));
      hide Balanced;
      locks := locks.(table := locks.table - {key}, removals := locks.removals - multiset{key});
    }
  }
}
