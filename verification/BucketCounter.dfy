/** The per-bucket counters (number of files, bytes taken), changed only by compare-and-set with retry. */
module BucketCounters {
  import opened Common

  const QUERY_ATTEMPTS := 2048

  datatype Pair = Pair(count: int, space: int)

  function Plus(a: Pair, b: Pair): Pair {
    Pair(a.count + b.count, a.space + b.space)
  }

  /** The files and the bytes that the updates add, summed separately. */
  function Files(deltas: seq<Pair>): int {
    if deltas == [] then 0 else Files(deltas[..|deltas| - 1]) + deltas[|deltas| - 1].count
  }

  function Bytes(deltas: seq<Pair>): int {
    if deltas == [] then 0 else Bytes(deltas[..|deltas| - 1]) + deltas[|deltas| - 1].space
  }

  /** `start` with all of `deltas` added. */
  function Value(start: Pair, deltas: seq<Pair>): Pair {
    Pair(start.count + Files(deltas), start.space + Bytes(deltas))
  }

  lemma ValueNext(start: Pair, deltas: seq<Pair>, d: Pair)
    ensures Value(start, deltas + [d]) == Plus(Value(start, deltas), d)
  {
    assert (deltas + [d])[..|deltas|] == deltas;
  }

  class BucketRow {
    var pair: Pair

    constructor (pair: Pair)
      ensures this.pair == pair
    {
      this.pair := pair;
    }

    /** `copy` is the caller's possibly stale copy of the row; `meanwhile[k]` is what other callers add to
        the row before attempt `k`. The delta is added once, to whatever the row holds, or not at all. It is
        refused only if every attempt was overtaken. */
    method UpdateBucketSpace(copy: Pair, delta: Pair, meanwhile: seq<Pair>) returns (ok: bool, used: nat)
      requires |meanwhile| == QUERY_ATTEMPTS
      modifies this
      ensures used <= QUERY_ATTEMPTS
      ensures pair == Value(old(pair), if ok then meanwhile[..used] + [delta] else meanwhile)
      ensures ok <==>
              || Value(old(pair), meanwhile[..1]) == copy
              || exists k :: 1 <= k < QUERY_ATTEMPTS && meanwhile[k] == Pair(0, 0)
    {
      var bucket := copy;
      used := 0;
      while used < QUERY_ATTEMPTS
        invariant used <= QUERY_ATTEMPTS
        invariant pair == Value(old(pair), meanwhile[..used])
        invariant used == 0 ==> bucket == copy
        invariant used > 0 ==> bucket == pair && Value(old(pair), meanwhile[..1]) != copy
        invariant forall k :: 1 <= k < used ==> meanwhile[k] != Pair(0, 0)
      {
        assert meanwhile[..used + 1] == meanwhile[..used] + [meanwhile[used]];
        ValueNext(old(pair), meanwhile[..used], meanwhile[used]);
        pair := Plus(pair, meanwhile[used]);
        used := used + 1;
        if pair == bucket {
          ValueNext(old(pair), meanwhile[..used], delta);
          pair := Plus(bucket, delta);
          return true, used;
        }
        bucket := pair;
      }
      assert meanwhile[..used] == meanwhile;
      return false, used;
    }
  }

  // ---- any number of concurrent callers

  datatype Phase = Running | Applied | GaveUp | Lost

  /** `began` and `seen` count the updates the row had taken when the call began and when it last looked. */
  datatype Call = Call(copy: Pair, delta: Pair, attempts: nat, phase: Phase, began: nat, seen: nat)

  /** `log` records the updates the row has taken, and by which call. */
  datatype System = System(row: Pair, calls: map<nat, Call>, log: seq<(nat, Pair)>)

  datatype Event =
    | Begin(id: nat, copy: Pair, delta: Pair)
    | Attempt(id: nat)
    | ConnectionLost(id: nat, reached: bool)

  function Deltas(log: seq<(nat, Pair)>): seq<Pair> {
    seq(|log|, i requires 0 <= i < |log| => log[i].1)
  }

  predicate Live(s: System, id: nat) {
    id in s.calls && s.calls[id].phase == Running
  }

  function Apply(s: System, id: nat): System
    requires id in s.calls
  {
    var c := s.calls[id];
    System(Plus(c.copy, c.delta), s.calls[id := c.(phase := Applied)], s.log + [(id, c.delta)])
  }

  function Missed(s: System, c: Call): Call {
    c.(copy := s.row, attempts := c.attempts + 1, seen := |s.log|,
       phase := if c.attempts + 1 == QUERY_ATTEMPTS then GaveUp else Running)
  }

  function Step(s: System, e: Event): System {
    match e
    case Begin(id, copy, delta) =>
      if id in s.calls then s
      else s.(calls := s.calls[id := Call(copy, delta, 0, Running, |s.log|, |s.log|)])
    case Attempt(id) =>
      if !Live(s, id) then s
      else if s.row == s.calls[id].copy then Apply(s, id)
      else s.(calls := s.calls[id := Missed(s, s.calls[id])])
    case ConnectionLost(id, reached) =>
      if !Live(s, id) then s
      else if reached && s.row == s.calls[id].copy then Apply(s, id)
      else s.(calls := s.calls[id := s.calls[id].(phase := Lost)])
  }

  function Run(s: System, events: seq<Event>): System {
    if events == [] then s else Step(Run(s, events[..|events| - 1]), events[|events| - 1])
  }

  /** The row holds the start plus the logged updates; each call is logged at most once, with its own
      delta, and exactly if it was applied. */
  ghost predicate Counted(start: Pair, s: System) {
    && s.row == Value(start, Deltas(s.log))
    && (forall i, j :: 0 <= i < j < |s.log| ==> s.log[i].0 != s.log[j].0)
    && (forall i :: 0 <= i < |s.log| ==>
          s.log[i].0 in s.calls && s.calls[s.log[i].0].phase == Applied && s.calls[s.log[i].0].delta == s.log[i].1)
    && AppliedAreLogged(s)
  }

  ghost predicate Logged(log: seq<(nat, Pair)>, id: nat) {
    exists i :: 0 <= i < |log| && log[i].0 == id
  }

  ghost predicate AppliedAreLogged(s: System) {
    forall id :: id in s.calls && s.calls[id].phase == Applied ==> Logged(s.log, id)
  }

  /** What a call that has not succeeded knows, and how often the row was changed under it. */
  ghost predicate Overtaken(start: Pair, s: System, c: Call) {
    && c.began <= c.seen <= |s.log|
    && c.attempts <= 1 + c.seen - c.began
    && (c.phase == Running && c.attempts > 0 ==> c.copy == Value(start, Deltas(s.log[..c.seen])))
    && (c.phase == GaveUp ==> c.attempts == QUERY_ATTEMPTS)
  }

  ghost predicate Inv(start: Pair, s: System) {
    Counted(start, s) && forall id :: id in s.calls ==> Overtaken(start, s, s.calls[id])
  }

  lemma ApplyAdds(start: Pair, s: System, id: nat)
    requires s.row == Value(start, Deltas(s.log)) && id in s.calls && s.row == s.calls[id].copy
    ensures Apply(s, id).row == Value(start, Deltas(Apply(s, id).log))
  {
    hide Value;
    var d := s.calls[id].delta;
    assert Deltas(s.log + [(id, d)]) == Deltas(s.log) + [d];
    ValueNext(start, Deltas(s.log), d);
  }

  lemma ApplyLogs(s: System, id: nat)
    requires AppliedAreLogged(s) && id in s.calls
    ensures AppliedAreLogged(Apply(s, id))
  {
    var t := Apply(s, id);
    forall x | x in t.calls && t.calls[x].phase == Applied ensures Logged(t.log, x) {
      if x == id {
        assert t.log[|s.log|].0 == id;
      } else {
        var i :| 0 <= i < |s.log| && s.log[i].0 == x;
        assert t.log[i].0 == x;
      }
    }
  }

  lemma ApplyCounts(start: Pair, s: System, id: nat)
    requires Counted(start, s) && Live(s, id) && s.row == s.calls[id].copy
    ensures Counted(start, Apply(s, id))
  {
    hide Value, Deltas, AppliedAreLogged;
    ApplyAdds(start, s, id);
    ApplyLogs(s, id);
  }

  lemma OvertakenLater(start: Pair, s: System, t: System, c: Call)
    requires Overtaken(start, s, c) && s.log <= t.log
    ensures Overtaken(start, t, c)
  {
    assert t.log[..c.seen] == s.log[..c.seen];
  }

  lemma ApplyKeepsInv(start: Pair, s: System, id: nat)
    requires Inv(start, s) && Live(s, id) && s.row == s.calls[id].copy
    ensures Inv(start, Apply(s, id))
  {
    hide Value, Deltas;
    var t := Apply(s, id);
    ApplyCounts(start, s, id);
    forall x | x in t.calls ensures Overtaken(start, t, t.calls[x]) {
      OvertakenLater(start, s, t, s.calls[x]);
    }
  }

  lemma ReplaceCallKeepsInv(start: Pair, s: System, id: nat, c: Call)
    requires Inv(start, s) && (id in s.calls ==> s.calls[id].phase == Running)
    requires c.phase != Applied && Overtaken(start, s, c)
    ensures Inv(start, s.(calls := s.calls[id := c]))
  {
    hide Value, Deltas;
    var t := s.(calls := s.calls[id := c]);
    forall x | x in t.calls ensures Overtaken(start, t, t.calls[x]) {
      OvertakenLater(start, s, t, t.calls[x]);
    }
    assert forall x :: x in t.calls && t.calls[x].phase == Applied ==> x in s.calls && s.calls[x].phase == Applied;
  }

  lemma StepKeepsInv(start: Pair, s: System, e: Event)
    requires Inv(start, s)
    ensures Inv(start, Step(s, e))
  {
    hide Value, Deltas;
    if e.Begin? {
      if e.id !in s.calls {
        ReplaceCallKeepsInv(start, s, e.id, Call(e.copy, e.delta, 0, Running, |s.log|, |s.log|));
      }
    } else if Live(s, e.id) {
      var c := s.calls[e.id];
      if s.row == c.copy && (e.Attempt? || e.reached) {
        ApplyKeepsInv(start, s, e.id);
      } else if e.Attempt? {
        OvertakenAgain(start, s, c);
        ReplaceCallKeepsInv(start, s, e.id, Missed(s, c));
      } else {
        ReplaceCallKeepsInv(start, s, e.id, c.(phase := Lost));
      }
    }
  }

  /** An attempt misses only if the row was updated since the call last looked. */
  lemma OvertakenAgain(start: Pair, s: System, c: Call)
    requires Overtaken(start, s, c) && c.phase == Running && s.row != c.copy && s.row == Value(start, Deltas(s.log))
    ensures Overtaken(start, s, Missed(s, c))
  {
    hide Value, Deltas;
    assert s.log[..|s.log|] == s.log;
  }

  /** A call that nobody gets in the way of adds its delta at the first attempt if its copy was current, and at
      the second if not. */
  lemma UndisturbedCallApplies(s: System, id: nat, copy: Pair, delta: Pair)
    requires id !in s.calls
    ensures var first := Step(Step(s, Begin(id, copy, delta)), Attempt(id));
            var second := Step(first, Attempt(id));
            && (first.row == Value(s.row, [delta]) && first.log == s.log + [(id, delta)] <==> copy == s.row)
            && second.row == Value(s.row, [delta]) && second.log == s.log + [(id, delta)]
  {
    ValueNext(s.row, [], delta);
    assert [] + [delta] == [delta];
    var first := Step(Step(s, Begin(id, copy, delta)), Attempt(id));
    assert copy != s.row ==> first.log == s.log && |s.log| < |s.log + [(id, delta)]|;
  }

  /** A caller that loses its connection cannot tell whether its update was taken: with the row as it last saw it,
      the request either arrived, and did all that a successful attempt does, or it did not, and the row is the
      same. */
  lemma LostReplyIsAmbiguous(s: System, id: nat)
    requires Live(s, id) && s.row == s.calls[id].copy
    ensures Step(s, ConnectionLost(id, true)) == Step(s, Attempt(id))
    ensures Step(s, Attempt(id)).row == Value(s.row, [s.calls[id].delta])
    ensures Step(s, ConnectionLost(id, false)).row == s.row && Step(s, ConnectionLost(id, false)).log == s.log
    ensures !Live(Step(s, ConnectionLost(id, false)), id) && !Live(Step(s, Attempt(id)), id)
  {
    ValueNext(s.row, [], s.calls[id].delta);
    assert [] + [s.calls[id].delta] == [s.calls[id].delta];
  }

  /** In every interleaving of any number of calls no update is lost or doubled. */
  lemma {:induction false} NothingIsLost(start: Pair, events: seq<Event>)
    ensures Inv(start, Run(System(start, map[], []), events))
  {
    if events != [] {
      hide Step, Inv;
      NothingIsLost(start, events[..|events| - 1]);
      StepKeepsInv(start, Run(System(start, map[], []), events[..|events| - 1]), events[|events| - 1]);
    }
  }

  /** A call that gives up was overtaken by at least 2047 other calls that did update the row. */
  lemma GivesUpOnlyUnderContention(start: Pair, events: seq<Event>, id: nat)
    requires id in Run(System(start, map[], []), events).calls
    requires Run(System(start, map[], []), events).calls[id].phase == GaveUp
    ensures var s := Run(System(start, map[], []), events);
            && |s.log| >= s.calls[id].began + 2047
            && forall i :: s.calls[id].began <= i < |s.log| ==> s.log[i].0 != id
  {
    NothingIsLost(start, events);
  }
}

/** The file table of one bucket beside the bucket's counters. */
module FileTables {
  import opened Common
  import opened Sums

  /** Directory and name: the primary key of a file within its bucket. */
  type Key = (Uuid, string)

  datatype Table = Table(files: map<Key, nat>, count: int, space: int)

  function Size(n: nat): nat { n }

  /** The counters are what counting the table would give. */
  ghost predicate Exact(t: Table) {
    t.count == |t.files| && t.space == Sum(t.files, Size)
  }

  /** Deleting goes by key and takes the size off the record in hand. */
  function DeleteFile(t: Table, key: Key, size: nat): Table {
    Table(t.files - {key}, t.count - 1, t.space - size)
  }

  /** Inserting overwrites a row with the same key. */
  function InsertFile(t: Table, key: Key, size: nat): Table {
    Table(t.files[key := size], t.count + 1, t.space + size)
  }

  function Lookup(t: Table, key: Key): Option<nat> {
    if key in t.files then Some(t.files[key]) else None
  }

  datatype Request =
    /** `recorded` is the old file found when the upload started; `None` looks it up at the end. */
    | FinishUpload(key: Key, size: nat, recorded: Option<Option<nat>>)
    | Delete(key: Key)
    | Rename(key: Key, target: Key)

  function Step(t: Table, r: Request): Table {
    match r
    case FinishUpload(key, size, recorded) =>
      var previous := recorded.GetOr(Lookup(t, key));
      InsertFile(if previous.Some? then DeleteFile(t, key, previous.value) else t, key, size)
    case Delete(key) =>
      if key in t.files then DeleteFile(t, key, t.files[key]) else t
    case Rename(key, target) =>
      if key !in t.files then t
      else
        var u := if target in t.files then DeleteFile(t, target, t.files[target]) else t;
        u.(files := (u.files - {key})[target := t.files[key]])
  }

  /** The old file recorded at the start of an upload is still the one in the table; a file is not renamed
      to its own key. */
  predicate Current(t: Table, r: Request) {
    match r
    case FinishUpload(key, _, recorded) => recorded.GetOr(Lookup(t, key)) == Lookup(t, key)
    case Delete(_) => true
    case Rename(key, target) => key in t.files ==> key != target
  }

  lemma DeleteKeepsExact(t: Table, key: Key)
    requires Exact(t) && key in t.files
    ensures Exact(DeleteFile(t, key, t.files[key]))
  {
    hide Sum;
    SumSplit(t.files, key, Size);
    assert (t.files - {key}).Keys == t.files.Keys - {key};
  }

  lemma InsertKeepsExactIff(t: Table, key: Key, size: nat)
    requires Exact(t)
    ensures Exact(InsertFile(t, key, size)) <==> key !in t.files
  {
    hide Sum;
    if key in t.files {
      assert t.files[key := size].Keys == t.files.Keys;
    } else {
      SumInsert(t.files, key, size, Size);
    }
  }

  lemma FinishKeepsExactIff(t: Table, key: Key, size: nat, recorded: Option<nat>)
    requires Exact(t)
    ensures Exact(Step(t, FinishUpload(key, size, Some(recorded)))) <==> recorded == Lookup(t, key)
  {
    hide Sum;
    if recorded == None {
      InsertKeepsExactIff(t, key, size);
    } else if key in t.files {
      DeleteKeepsExact(t, key);
      var u := DeleteFile(t, key, t.files[key]);
      InsertKeepsExactIff(u, key, size);
    } else {
      assert (t.files - {key})[key := size] == t.files[key := size];
      assert t.files[key := size].Keys == t.files.Keys + {key};
    }
  }

  lemma MoveKeepsExact(t: Table, key: Key, target: Key)
    requires Exact(t) && key in t.files && target !in t.files
    ensures Exact(t.(files := (t.files - {key})[target := t.files[key]]))
  {
    hide Sum;
    DeleteKeepsExact(t, key);
    InsertKeepsExactIff(DeleteFile(t, key, t.files[key]), target, t.files[key]);
  }

  lemma RenameKeepsExactIff(t: Table, key: Key, target: Key)
    requires Exact(t)
    ensures Exact(Step(t, Rename(key, target))) <==> Current(t, Rename(key, target))
  {
    hide Sum;
    if key in t.files {
      if target in t.files {
        DeleteKeepsExact(t, target);
        var u := DeleteFile(t, target, t.files[target]);
        if key != target {
          MoveKeepsExact(u, key, target);
        } else {
          assert (u.files - {key})[target := t.files[key]] == t.files;
        }
      } else {
        MoveKeepsExact(t, key, target);
      }
    }
  }

  /** A request keeps the counters exact exactly when what it acts on is current. */
  lemma StepKeepsExactIff(t: Table, r: Request)
    requires Exact(t)
    ensures Exact(Step(t, r)) <==> Current(t, r)
  {
    hide Sum;
    match r
    case FinishUpload(key, size, recorded) => FinishKeepsExactIff(t, key, size, recorded.GetOr(Lookup(t, key)));
    case Delete(key) => if key in t.files { DeleteKeepsExact(t, key); }
    case Rename(key, target) => RenameKeepsExactIff(t, key, target);
  }

  function Run(t: Table, requests: seq<Request>): Table
    decreases |requests|
  {
    if requests == [] then t else Run(Step(t, requests[0]), requests[1..])
  }

  predicate AllCurrent(t: Table, requests: seq<Request>)
    decreases |requests|
  {
    requests == [] || (Current(t, requests[0]) && AllCurrent(Step(t, requests[0]), requests[1..]))
  }

  /** Over any run of current requests the counters equal the count and the size sum. */
  lemma {:induction false} CountersAreExact(t: Table, requests: seq<Request>)
    requires Exact(t) && AllCurrent(t, requests)
    ensures Exact(Run(t, requests))
    decreases |requests|
  {
    if requests != [] {
      StepKeepsExactIff(t, requests[0]);
      CountersAreExact(Step(t, requests[0]), requests[1..]);
    }
  }

  /** What is stored under a key after some requests, by what the last of them says of that key alone. */
  function Content(t: Table, requests: seq<Request>, key: Key): Option<nat>
    decreases |requests|
  {
    if requests == [] then Lookup(t, key)
    else
      var earlier := requests[..|requests| - 1];
      match requests[|requests| - 1]
      case FinishUpload(k, size, _) => if k == key then Some(size) else Content(t, earlier, key)
      case Delete(k) => if k == key then None else Content(t, earlier, key)
      case Rename(from, to) =>
        if from == to || Content(t, earlier, from) == None then Content(t, earlier, key)
        else if to == key then Content(t, earlier, from)
        else if from == key then None
        else Content(t, earlier, key)
  }

  /** An upload leaves its file, a deletion none, and a rename moves one, whatever was at its target; no request
      touches another key. */
  lemma StepOnFiles(t: Table, r: Request, other: Key)
    ensures r.FinishUpload? ==>
              Lookup(Step(t, r), r.key) == Some(r.size) &&
              (other != r.key ==> Lookup(Step(t, r), other) == Lookup(t, other))
    ensures r.Delete? ==>
              Lookup(Step(t, r), r.key) == None && (other != r.key ==> Lookup(Step(t, r), other) == Lookup(t, other))
    ensures r.Rename? && r.key != r.target && Lookup(t, r.key).Some? ==>
              Lookup(Step(t, r), r.target) == Lookup(t, r.key) && Lookup(Step(t, r), r.key) == None &&
              (other != r.key && other != r.target ==> Lookup(Step(t, r), other) == Lookup(t, other))
    ensures r.Rename? && (r.key == r.target || Lookup(t, r.key) == None) ==>
              Lookup(Step(t, r), other) == Lookup(t, other)
  {
  }

  lemma {:induction false} RunSnoc(t: Table, requests: seq<Request>, r: Request)
    ensures Run(t, requests + [r]) == Step(Run(t, requests), r)
    decreases |requests|
  {
    if requests == [] {
      assert requests + [r] == [r] && [r][1..] == [];
    } else {
      assert (requests + [r])[1..] == requests[1..] + [r];
      RunSnoc(Step(t, requests[0]), requests[1..], r);
    }
  }

  /** Over any run of requests, current or not, each key holds what its history says. */
  lemma {:induction false} FilesFollowHistory(t: Table, requests: seq<Request>, key: Key)
    ensures Lookup(Run(t, requests), key) == Content(t, requests, key)
    decreases |requests|
  {
    if requests != [] {
      var earlier, r := requests[..|requests| - 1], requests[|requests| - 1];
      assert requests == earlier + [r];
      RunSnoc(t, earlier, r);
      FilesFollowHistory(t, earlier, key);
      StepOnFiles(Run(t, earlier), r, key);
      if r.Rename? { FilesFollowHistory(t, earlier, r.key); }
    }
  }

  lemma EmptyIsExact()
    ensures Exact(Table(map[], 0, 0))
  {
  }
}
