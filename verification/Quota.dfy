/** Storage quotas: bucket quotas within the application's, and a bucket's files plus its running uploads
    within the bucket's. All quota arithmetic is in 64-bit signed integers that wrap. */
module Quotas {
  import opened Common
  import opened Sums
  import FileTables

  function Wrap(x: int): (w: int)
    ensures -I64 <= w < I64
    ensures -I64 <= x < I64 ==> w == x
    ensures I64 <= x < 3 * I64 ==> w == x - U64
  {
    (x + I64) % U64 - I64
  }

  datatype Bucket = Bucket(quota: int, table: FileTables.Table, sessions: map<Uuid, int>)
  datatype App = App(quota: int, buckets: map<Uuid, Bucket>)

  const EMPTY := FileTables.Table(map[], 0, 0)

  function Amount(x: int): nat { if x < 0 then 0 else x }
  function QuotaOf(b: Bucket): nat { Amount(b.quota) }

  ghost function Reserved(b: Bucket): nat { Sum(b.sessions, Amount) }
  ghost function Granted(a: App): nat { Sum(a.buckets, QuotaOf) }

  ghost predicate BucketOk(b: Bucket) {
    && FileTables.Exact(b.table)
    && (forall id :: id in b.sessions ==> b.sessions[id] >= 0)
    && b.table.space + Reserved(b) <= b.quota < I64
  }

  ghost predicate Inv(a: App) {
    && Granted(a) <= a.quota < I64
    && forall id :: id in a.buckets ==> BucketOk(a.buckets[id])
  }

  /** Requests carry unsigned 64-bit sizes and quotas. */
  datatype Request =
    | CreateBucket(id: Uuid, quota: nat)
    | EditBucket(id: Uuid, quota: nat)
    | DeleteBucket(id: Uuid)
    | EditApp(quota: nat, otherApps: nat, userQuota: int)
    /** `expired` sessions are dropped on the way; `overwritten` is deleted first, unseen by the check. */
    | StartUpload(id: Uuid, session: Uuid, size: nat, expired: set<Uuid>, overwritten: Option<FileTables.Key>)
    | FinishUpload(id: Uuid, session: Uuid, size: nat, key: FileTables.Key, recorded: Option<Option<nat>>)
    | EndSession(id: Uuid, session: Uuid)
    | DeleteFile(id: Uuid, key: FileTables.Key)
    | RenameFile(id: Uuid, key: FileTables.Key, target: FileTables.Key)

  /** A request within the machine range of its fields. */
  predicate Sized(r: Request) {
    && (r.CreateBucket? || r.EditBucket? || r.EditApp? ==> r.quota < U64)
    && (r.StartUpload? ==> r.size < U64)
  }

  /** The table after the overwritten file, if any, is deleted. */
  function Cleared(t: FileTables.Table, overwritten: Option<FileTables.Key>): FileTables.Table {
    if overwritten.Some? then FileTables.Step(t, FileTables.Delete(overwritten.value)) else t
  }

  ghost function StartUploadIn(b: Bucket, session: Uuid, size: nat, expired: set<Uuid>,
                               overwritten: Option<FileTables.Key>): Bucket
  {
    var cleared := b.(table := Cleared(b.table, overwritten), sessions := b.sessions - expired);
    if session in b.sessions || Wrap(Wrap(b.table.space + Wrap(size)) + Reserved(cleared)) > b.quota then cleared
    else cleared.(sessions := cleared.sessions[session := Wrap(size)])
  }

  ghost function BucketStep(b: Bucket, r: Request): Bucket {
    match r
    case StartUpload(_, session, size, expired, overwritten) => StartUploadIn(b, session, size, expired, overwritten)
    case FinishUpload(_, session, size, key, recorded) =>
      b.(table := FileTables.Step(b.table, FileTables.FinishUpload(key, size, recorded)),
          sessions := b.sessions - {session})
    case EndSession(_, session) => b.(sessions := b.sessions - {session})
    case DeleteFile(_, key) => b.(table := FileTables.Step(b.table, FileTables.Delete(key)))
    case RenameFile(_, key, target) => b.(table := FileTables.Step(b.table, FileTables.Rename(key, target)))
    case _ => b
  }

  ghost function Step(a: App, r: Request): App {
    match r
    case CreateBucket(id, quota) =>
      if id in a.buckets || Wrap(Granted(a) + Wrap(quota)) > a.quota then a
      else a.(buckets := a.buckets[id := Bucket(Wrap(quota), EMPTY, map[])])
    case EditBucket(id, quota) =>
      if id !in a.buckets then a
      else
        var b := a.buckets[id];
        if Wrap(Wrap(Granted(a) - b.quota) + Wrap(quota)) > a.quota || Wrap(quota) < b.table.space + Reserved(b) then a
        else a.(buckets := a.buckets[id := b.(quota := Wrap(quota))])
    case DeleteBucket(id) => a.(buckets := a.buckets - {id})
    case EditApp(quota, otherApps, userQuota) =>
      if Granted(a) >= Wrap(quota) || Wrap(Wrap(quota) + otherApps) > userQuota then a
      else a.(quota := Wrap(quota))
    case _ =>
      if r.id in a.buckets then a.(buckets := a.buckets[r.id := BucketStep(a.buckets[r.id], r)]) else a
  }

  /** The condition on a request: the exact sums stay below 2^63, or an overwritten file makes room; an upload
      that finishes still has its session, or leaves room without it; and what it acts on is current. */
  ghost predicate InBounds(a: App, r: Request) {
    match r
    case CreateBucket(id, quota) => id in a.buckets || Granted(a) + quota < I64
    case EditBucket(id, quota) => id !in a.buckets || quota >= I64 || Granted(a) - a.buckets[id].quota + quota < I64
    case DeleteBucket(_) => true
    case EditApp(_, _, _) => true
    case _ => r.id !in a.buckets || BucketInBounds(a.buckets[r.id], r)
  }

  ghost predicate BucketInBounds(b: Bucket, r: Request) {
    match r
    case StartUpload(_, session, size, expired, overwritten) =>
      var left: map<Uuid, int> := b.sessions - expired;
      || session in b.sessions
      || b.table.space + Sum(left, Amount) + size < I64
      || (size < I64 && Cleared(b.table, overwritten).space + Sum(left, Amount) + size <= b.quota)
    case FinishUpload(_, session, size, key, recorded) =>
      && FileTables.Current(b.table, FileTables.FinishUpload(key, size, recorded))
      && (|| (session in b.sessions && b.sessions[session] == size)
          || b.table.space - FileTables.Lookup(b.table, key).GetOr(0) + size + Sum(b.sessions - {session},
              Amount) <= b.quota)
    case DeleteFile(_, key) => true
    case RenameFile(_, key, target) => FileTables.Current(b.table, FileTables.Rename(key, target))
    case _ => true
  }

  // ---- inside one bucket

  lemma ExactSpace(b: Bucket)
    requires BucketOk(b)
    ensures 0 <= b.table.space
  {
  }

  lemma DeleteShrinks(t: FileTables.Table, key: FileTables.Key)
    requires FileTables.Exact(t)
    ensures FileTables.Exact(FileTables.Step(t, FileTables.Delete(key)))
    ensures 0 <= FileTables.Step(t, FileTables.Delete(key)).space <= t.space
  {
    FileTables.StepKeepsExactIff(t, FileTables.Delete(key));
  }

  lemma ClearedShrinks(t: FileTables.Table, overwritten: Option<FileTables.Key>)
    requires FileTables.Exact(t)
    ensures FileTables.Exact(Cleared(t, overwritten)) && 0 <= Cleared(t, overwritten).space <= t.space
  {
    if overwritten.Some? { DeleteShrinks(t, overwritten.value); }
  }

  /** Starting an upload keeps the bucket in order exactly when the exact sum is below 2^63, or the file it
      overwrites frees what it lacks. */
  lemma StartUploadKeepsIff(b: Bucket, r: Request)
    requires BucketOk(b) && r.StartUpload? && Sized(r)
    ensures BucketOk(BucketStep(b, r)) <==> BucketInBounds(b, r)
  {
    hide Sum, FileTables.Exact, FileTables.Step, Wrap, Cleared;
    var left: map<Uuid, int> := b.sessions - r.expired;
    assert forall id :: id in left ==> left[id] == b.sessions[id];
    SumSubset(left, b.sessions, Amount);
    ExactSpace(b);
    ClearedShrinks(b.table, r.overwritten);
    if r.session !in b.sessions {
      SumInsert(left, r.session, Wrap(r.size), Amount);
      CheckAccepts(b.table.space, Sum(left, Amount), r.size, b.quota);
      assert left[r.session := Wrap(r.size)][r.session] == Wrap(r.size);
    }
  }

  /** The wrapping comparison accepts what fits, and everything whose exact sum reaches 2^63. */
  lemma CheckAccepts(space: nat, reserved: nat, size: nat, quota: int)
    requires space + reserved <= quota < I64 && size < U64
    ensures var sum := space + reserved + size;
            Wrap(Wrap(space + Wrap(size)) + reserved) <= quota <==> sum <= quota || sum >= I64
  {
    hide Wrap;
  }

  lemma FinishUploadKeepsIff(b: Bucket, r: Request)
    requires BucketOk(b) && r.FinishUpload?
    ensures BucketOk(BucketStep(b, r)) <==> BucketInBounds(b, r)
  {
    hide Sum, FileTables.Exact;
    FileTables.StepKeepsExactIff(b.table, FileTables.FinishUpload(r.key, r.size, r.recorded));
    if r.session in b.sessions {
      SumSplit(b.sessions, r.session, Amount);
    } else {
      assert b.sessions - {r.session} == b.sessions;
    }
  }

  lemma RenameKeepsIff(b: Bucket, r: Request)
    requires BucketOk(b) && r.RenameFile?
    ensures BucketOk(BucketStep(b, r)) <==> BucketInBounds(b, r)
  {
    hide Sum, FileTables.Exact;
    FileTables.StepKeepsExactIff(b.table, FileTables.Rename(r.key, r.target));
  }

  lemma BucketStepKeepsIff(b: Bucket, r: Request)
    requires BucketOk(b) && Sized(r)
    ensures BucketOk(BucketStep(b, r)) <==> BucketInBounds(b, r)
  {
    hide Sum, FileTables.Exact, Wrap;
    match r
    case StartUpload(_, _, _, _, _) => StartUploadKeepsIff(b, r);
    case FinishUpload(_, _, _, _, _) => FinishUploadKeepsIff(b, r);
    case EndSession(_, session) =>
      var left: map<Uuid, int> := b.sessions - {session};
      assert forall id :: id in left ==> left[id] == b.sessions[id];
      SumSubset(left, b.sessions, Amount);
    case DeleteFile(_, key) => DeleteShrinks(b.table, key);
    case RenameFile(_, _, _) => RenameKeepsIff(b, r);
    case _ =>
  }

  // ---- the application

  lemma ReplaceKeepsIff(a: App, id: Uuid, b: Bucket)
    requires Inv(a) && id in a.buckets && b.quota == a.buckets[id].quota
    ensures Inv(a.(buckets := a.buckets[id := b])) <==> BucketOk(b)
  {
    hide Sum, BucketOk;
    var c := a.(buckets := a.buckets[id := b]);
    SumReplace(a.buckets, id, b, QuotaOf);
    assert c.buckets[id] == b;
  }

  lemma CreateBucketKeepsIff(a: App, r: Request)
    requires Inv(a) && r.CreateBucket? && Sized(r)
    ensures Inv(Step(a, r)) <==> InBounds(a, r)
  {
    hide Sum, Wrap;
    if r.id !in a.buckets {
      var b := Bucket(Wrap(r.quota), EMPTY, map[]);
      SumInsert(a.buckets, r.id, b, QuotaOf);
      FileTables.EmptyIsExact();
      SumEmpty<Uuid, int>(Amount);
      var c := a.(buckets := a.buckets[r.id := b]);
      assert c.buckets[r.id] == b;
      assert BucketOk(b) <==> b.quota >= 0;
    }
  }

  lemma EditBucketKeepsIff(a: App, r: Request)
    requires Inv(a) && r.EditBucket? && Sized(r)
    ensures Inv(Step(a, r)) <==> InBounds(a, r)
  {
    hide Sum, Wrap;
    if r.id in a.buckets {
      var b := a.buckets[r.id];
      var c := b.(quota := Wrap(r.quota));
      SumReplace(a.buckets, r.id, c, QuotaOf);
      SumSplit(a.buckets, r.id, QuotaOf);
      assert 0 <= b.quota <= Granted(a);
      assert Reserved(c) == Reserved(b);
    }
  }

  /** A request keeps every quota exactly when it is in bounds. */
  lemma StepKeepsQuotaIff(a: App, r: Request)
    requires Inv(a) && Sized(r)
    ensures Inv(Step(a, r)) <==> InBounds(a, r)
  {
    hide Sum, BucketOk, BucketStep, BucketInBounds, Wrap;
    match r
    case CreateBucket(_, _) => CreateBucketKeepsIff(a, r);
    case EditBucket(_, _) => EditBucketKeepsIff(a, r);
    case DeleteBucket(id) => SumSubset(a.buckets - {id}, a.buckets, QuotaOf);
    case EditApp(_, _, _) =>
    case _ =>
      if r.id in a.buckets {
        SameQuota(a.buckets[r.id], r);
        BucketStepKeepsIff(a.buckets[r.id], r);
        ReplaceKeepsIff(a, r.id, BucketStep(a.buckets[r.id], r));
      }
  }

  lemma SameQuota(b: Bucket, r: Request)
    ensures BucketStep(b, r).quota == b.quota
  {
  }

  // ---- what is granted, and what it changes

  /** An upload is granted exactly when it fits beside the files and the sessions that have not expired, or the
      sum reaches 2^63. Granted or not, the expired sessions and the overwritten file are gone. */
  lemma UploadIsGrantedIff(b: Bucket, r: Request, key: FileTables.Key)
    requires BucketOk(b) && r.StartUpload? && Sized(r) && r.session !in b.sessions
    ensures var c := BucketStep(b, r);
            var left: map<Uuid, int> := b.sessions - r.expired;
            var sum := b.table.space + Sum(left, Amount) + r.size;
            && (r.session in c.sessions <==> sum <= b.quota || sum >= I64)
            && c.sessions == (if r.session in c.sessions then left[r.session := Wrap(r.size)] else left)
            && FileTables.Lookup(c.table, key) ==
               (if r.overwritten == Some(key) then None else FileTables.Lookup(b.table, key))
  {
    hide Sum, Wrap, FileTables.Exact;
    var left: map<Uuid, int> := b.sessions - r.expired;
    assert forall id :: id in left ==> left[id] == b.sessions[id];
    SumSubset(left, b.sessions, Amount);
    ExactSpace(b);
    CheckAccepts(b.table.space, Sum(left, Amount), r.size, b.quota);
  }

  /** What the other requests to a bucket do: a finished upload leaves its file and no session, and so on; no
      request touches another file or another session. */
  lemma BucketStepEffect(b: Bucket, r: Request, session: Uuid, key: FileTables.Key)
    requires r.FinishUpload? || r.EndSession? || r.DeleteFile? || r.RenameFile?
    ensures var c := BucketStep(b, r);
            && c.quota == b.quota
            && (session in c.sessions <==>
                session in b.sessions && !((r.FinishUpload? || r.EndSession?) && r.session == session))
            && (session in c.sessions ==> c.sessions[session] == b.sessions[session])
            && FileTables.Lookup(c.table, key) ==
               match r
               case FinishUpload(_, _, size, k, _) => if k == key then Some(size) else FileTables.Lookup(b.table, key)
               case DeleteFile(_, k) => if k == key then None else FileTables.Lookup(b.table, key)
               case RenameFile(_, k, target) =>
                 if k == target || FileTables.Lookup(b.table, k) == None then FileTables.Lookup(b.table, key)
                 else if key == target then FileTables.Lookup(b.table, k)
                 else if key == k then None
                 else FileTables.Lookup(b.table, key)
               case _ => FileTables.Lookup(b.table, key)
  {
  }

  /** A bucket is created exactly when its quota fits beside the others' or the sum reaches 2^63; it is empty. */
  lemma BucketIsCreatedIff(a: App, r: Request)
    requires Inv(a) && r.CreateBucket? && Sized(r) && r.id !in a.buckets
    ensures var c, sum := Step(a, r), Granted(a) + r.quota;
            && (r.id in c.buckets <==> sum <= a.quota || sum >= I64)
            && c == (if r.id in c.buckets then a.(buckets := a.buckets[r.id := Bucket(Wrap(r.quota), EMPTY, map[])])
                     else a)
  {
    hide Sum, Wrap;
  }

  ghost predicate EditFits(a: App, id: Uuid, quota: nat)
    requires id in a.buckets
  {
    var b := a.buckets[id];
    var sum := Granted(a) - b.quota + quota;
    quota < I64 && b.table.space + Reserved(b) <= quota && (sum <= a.quota || sum >= I64)
  }

  /** A bucket's quota is changed exactly when the new one covers what the bucket holds and fits beside the others,
      or makes the sum reach 2^63. */
  lemma BucketIsEditedIff(a: App, r: Request)
    requires Inv(a) && r.EditBucket? && Sized(r) && r.id in a.buckets
    ensures var b := a.buckets[r.id];
            Step(a, r) == if EditFits(a, r.id, r.quota) then a.(buckets := a.buckets[r.id := b.(quota := r.quota)])
                          else a
  {
    hide Sum, EditFits, Wrap;
    EditChecks(a, r.id, r.quota);
  }

  lemma EditChecks(a: App, id: Uuid, quota: nat)
    requires Inv(a) && id in a.buckets && quota < U64
    ensures var b := a.buckets[id];
            EditFits(a, id, quota) <==>
            Wrap(Wrap(Granted(a) - b.quota) + Wrap(quota)) <= a.quota && Wrap(quota) >= b.table.space + Reserved(b)
    ensures EditFits(a, id, quota) ==> Wrap(quota) == quota
  {
    hide Sum, Wrap;
    SumSplit(a.buckets, id, QuotaOf);
    ExactSpace(a.buckets[id]);
  }

  /** An application's quota is changed exactly when the new one exceeds what its buckets were given and fits
      beside the user's other applications, or makes their sum reach 2^63. */
  lemma AppIsEditedIff(a: App, r: Request)
    requires Inv(a) && r.EditApp? && Sized(r) && r.otherApps < I64 && 0 <= r.userQuota < I64
    ensures var sum := r.quota + r.otherApps;
            var granted := Granted(a) < r.quota < I64 && (sum <= r.userQuota || sum >= I64);
            Step(a, r) == if granted then a.(quota := r.quota) else a
  {
    hide Sum, Wrap;
  }

  /** A request touches no bucket but its own. */
  lemma OtherBucketsAreKept(a: App, r: Request, id: Uuid)
    requires r.EditApp? || r.id != id
    ensures id in Step(a, r).buckets <==> id in a.buckets
    ensures id in a.buckets ==> Step(a, r).buckets[id] == a.buckets[id]
    ensures r.DeleteBucket? ==> r.id !in Step(a, r).buckets
  {
    hide Sum, Wrap, BucketStep;
  }

  // ---- runs

  ghost function Run(a: App, requests: seq<Request>): App
    decreases |requests|
  {
    if requests == [] then a else Run(Step(a, requests[0]), requests[1..])
  }

  ghost predicate AllInBounds(a: App, requests: seq<Request>)
    decreases |requests|
  {
    requests == [] || (Sized(requests[0]) && InBounds(a, requests[0]) &&
        AllInBounds(Step(a, requests[0]), requests[1..]))
  }

  /** Over every run of in-bounds requests no quota is ever exceeded. */
  lemma {:induction false} QuotasHold(a: App, requests: seq<Request>)
    requires Inv(a) && AllInBounds(a, requests)
    ensures Inv(Run(a, requests))
    decreases |requests|
  {
    if requests != [] {
      StepKeepsQuotaIff(a, requests[0]);
      QuotasHold(Step(a, requests[0]), requests[1..]);
    }
  }

  // ---- what goes wrong outside the bounds

  const SMALL := Bucket(10, EMPTY, map[])

  lemma SmallIsOk()
    ensures BucketOk(SMALL) && Reserved(SMALL) == 0 && Inv(App(10, map[0 := SMALL]))
  {
    SumEmpty<Uuid, int>(Amount);
    SumEmpty<Uuid, Bucket>(QuotaOf);
    FileTables.EmptyIsExact();
    SumInsert(map[], 0, SMALL, QuotaOf);
  }

  /** A request for 2^63 bytes is granted in a bucket of ten. */
  lemma HugeUploadIsGranted()
    ensures Inv(App(10, map[0 := SMALL]))
    ensures !Inv(Step(App(10, map[0 := SMALL]), StartUpload(0, 7, I64, {}, None)))
  {
    SmallIsOk();
    var a := App(10, map[0 := SMALL]);
    assert SMALL.sessions - {} == SMALL.sessions;
    StepKeepsQuotaIff(a, StartUpload(0, 7, I64, {}, None));
  }

  /** An upload whose session expired while it ran ends up on top of what was granted meanwhile: two
      uploads of ten bytes into a bucket of ten. */
  lemma ExpiredUploadExceedsQuota(first: FileTables.Key, second: FileTables.Key)
    requires first != second
    ensures var started := BucketStep(SMALL, StartUpload(0, 7, 10, {}, None));
            var again := BucketStep(started, StartUpload(0, 8, 10, {7}, None));
            var done := BucketStep(again, FinishUpload(0, 8, 10, first, None));
            var late := BucketStep(done, FinishUpload(0, 7, 10, second, None));
            BucketOk(started) && BucketOk(again) && BucketOk(done) && late.table.space == 20 && !BucketOk(late)
  {
    hide Sum, FileTables.Exact;
    SmallIsOk();
    var r1, r2 := StartUpload(0, 7, 10, {}, None), StartUpload(0, 8, 10, {7}, None);
    var r3 := FinishUpload(0, 8, 10, first, None);
    var s1, s2 := Bucket(10, EMPTY, map[7 := 10]), Bucket(10, EMPTY, map[8 := 10]);
    assert SMALL.sessions - {} == SMALL.sessions;
    assert BucketStep(SMALL, r1) == s1;
    BucketStepKeepsIff(SMALL, r1);
    assert s1.sessions - {7} == map[];
    assert BucketStep(s1, r2) == s2;
    BucketStepKeepsIff(s1, r2);
    BucketStepKeepsIff(s2, r3);
  }

  // ---- the services

  /** Adding the next listed entry of a map to a running 64-bit sum. */
  lemma SumNext<V>(m: map<Uuid, V>, f: V -> nat, order: seq<Uuid>, i: nat, total: int)
    requires Lists(order, m.Keys) && i < |order|
    requires 0 <= total && total + Sum(Rest(m, order, i), f) == Sum(m, f) < I64
    ensures order[i] in m && Wrap(total + f(m[order[i]])) == total + f(m[order[i]])
    ensures total + f(m[order[i]]) + Sum(Rest(m, order, i + 1), f) == Sum(m, f)
  {
    hide Sum, Wrap;
    var k := order[i];
    assert k in order && k in m.Keys;
    assert k in Rest(m, order, i) by {
      assert forall j :: 0 <= j < i ==> order[j] != k;
    }
    SumSplit(Rest(m, order, i), k, f);
    assert order[..i + 1] == order[..i] + [k];
    assert Rest(m, order, i + 1) == Rest(m, order, i) - {k};
  }

  ghost function Rest<V>(m: map<Uuid, V>, order: seq<Uuid>, i: nat): map<Uuid, V>
    requires i <= |order|
  {
    map k | k in m && k !in order[..i] :: m[k]
  }

  lemma RestEnds<V>(m: map<Uuid, V>, f: V -> nat, order: seq<Uuid>)
    requires Lists(order, m.Keys)
    ensures Rest(m, order, 0) == m && Sum(Rest(m, order, |order|), f) == 0
  {
    assert order[..|order|] == order;
    assert forall k :: k in m ==> k in m.Keys;
    assert Rest(m, order, |order|) == map[];
  }

  class Application {
    var quota: int
    var buckets: map<Uuid, Bucket>

    ghost function State(): App reads this {
      App(quota, buckets)
    }

    constructor (quota: int)
      requires 0 <= quota < I64
      ensures State() == App(quota, map[]) && Inv(State())
    {
      this.quota, buckets := quota, map[];
      new;
      SumEmpty<Uuid, Bucket>(QuotaOf);
    }

    method UsedQuota(order: seq<Uuid>) returns (sum: int)
      requires Inv(State()) && Lists(order, buckets.Keys)
      ensures sum == Granted(State())
    {
      hide Sum, Rest, Wrap, BucketOk;
      sum := 0;
      var i := 0;
      RestEnds(buckets, QuotaOf, order);
      while i < |order|
        invariant 0 <= i <= |order| && 0 <= sum && sum + Sum(Rest(buckets, order, i), QuotaOf) == Granted(State())
      {
        SumNext(buckets, QuotaOf, order, i, sum);
        GrantIsPositive(buckets[order[i]]);
        sum := Wrap(sum + buckets[order[i]].quota);
        i := i + 1;
      }
    }

    lemma GrantIsPositive(b: Bucket)
      requires BucketOk(b)
      ensures b.quota == QuotaOf(b)
    {
    }

    method CreateBucket(id: Uuid, quota: nat, order: seq<Uuid>) returns (ok: bool)
      requires Inv(State()) && Lists(order, buckets.Keys) && id !in buckets
      modifies this
      ensures State() == Step(old(State()), Request.CreateBucket(id, quota))
      ensures ok <==> State() != old(State())
    {
      hide Sum, Wrap, Inv;
      var sum := UsedQuota(order);
      if Wrap(sum + Wrap(quota)) > this.quota { return false; }
      buckets := buckets[id := Bucket(Wrap(quota), EMPTY, map[])];
      assert id in buckets && id !in old(buckets);
      return true;
    }

    method EditBucket(id: Uuid, quota: nat, order: seq<Uuid>, sessions: seq<Uuid>) returns (ok: bool)
      requires Inv(State()) && Lists(order, buckets.Keys) && id in buckets && Lists(sessions, buckets[id].sessions.Keys)
      modifies this
      ensures State() == Step(old(State()), Request.EditBucket(id, quota))
      ensures quota < U64 ==> (ok <==> EditFits(old(State()), id, quota))
    {
      hide Sum, Wrap;
      if quota < U64 { EditChecks(State(), id, quota); }
      var bucket := buckets[id];
      var reserved := SessionTotal(bucket, sessions);
      var used := UsedQuota(order);
      if Wrap(Wrap(used - bucket.quota) + Wrap(quota)) > this.quota { return false; }
      if Wrap(quota) < bucket.table.space + reserved { return false; }
      buckets := buckets[id := bucket.(quota := Wrap(quota))];
      return true;
    }

    method SessionTotal(b: Bucket, order: seq<Uuid>) returns (total: int)
      requires BucketOk(b) && Lists(order, b.sessions.Keys)
      ensures total == Reserved(b)
    {
      hide Sum, Rest, Wrap, FileTables.Exact;
      total := 0;
      var i := 0;
      ReservedFits(b);
      RestEnds(b.sessions, Amount, order);
      while i < |order|
        invariant 0 <= i <= |order| && 0 <= total && total + Sum(Rest(b.sessions, order, i), Amount) == Reserved(b)
      {
        SumNext(b.sessions, Amount, order, i, total);
        total := Wrap(total + b.sessions[order[i]]);
        i := i + 1;
      }
    }

    lemma ReservedFits(b: Bucket)
      requires BucketOk(b)
      ensures Reserved(b) < I64
    {
      ExactSpace(b);
    }

    /** Sessions past their time are removed from the table and not counted. */
    method GetReservedSpace(id: Uuid, order: seq<Uuid>, expired: set<Uuid>) returns (total: int)
      requires Inv(State()) && id in buckets && Lists(order, (buckets[id].sessions - expired).Keys)
      modifies this
      ensures quota == old(quota)
      ensures buckets == old(buckets)[id := old(buckets)[id].(sessions := old(buckets)[id].sessions - expired)]
      ensures BucketOk(buckets[id]) && total == Reserved(buckets[id])
    {
      hide Sum, FileTables.Exact;
      var b := buckets[id];
      var left: map<Uuid, int> := b.sessions - expired;
      assert forall k :: k in left ==> left[k] == b.sessions[k];
      SumSubset(left, b.sessions, Amount);
      buckets := buckets[id := b.(sessions := left)];
      total := SessionTotal(buckets[id], order);
    }

    method StartUpload(id: Uuid, session: Uuid, size: nat, order: seq<Uuid>, expired: set<Uuid>) returns (ok: bool)
      requires Inv(State()) && id in buckets && Lists(order, (buckets[id].sessions - expired).Keys)
      requires session !in buckets[id].sessions
      modifies this
      ensures State() == Step(old(State()), Request.StartUpload(id, session, size, expired, None))
      ensures ok <==> session in buckets[id].sessions
    {
      hide Sum, Wrap, Inv, BucketOk;
      var bucket := buckets[id];
      var reserved := GetReservedSpace(id, order, expired);
      ok := Wrap(Wrap(bucket.table.space + Wrap(size)) + reserved) <= bucket.quota;
      if ok {
        var b := buckets[id];
        buckets := buckets[id := b.(sessions := b.sessions[session := Wrap(size)])];
      }
    }
  }
}
