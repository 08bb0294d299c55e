/** The fragment ledger of one storage node as a value, and each ledger operation as one atomic step.

    The disk is part of the state: a chunk's file lives under one of two names, and every file
    operation carries an explicit "the I/O call failed" input. */
module LedgerModel {
  import opened Common
  import opened Sums

  /** Seconds after which an idle reservation or an uncommitted chunk is swept. */
  const VALIDITY: nat := 3600

  datatype Reservation = Reservation(fileSpace: nat, completed: nat, durable: bool, lastUpdate: nat)

  datatype FragmentMeta = FragmentMeta(contentSize: nat, physicalSize: nat)

  datatype ExtMeta = ExtMeta(bucketId: Uuid, fileId: Uuid)

  datatype Path = Committed(id: Uuid) | Uncommitted(id: Uuid)

  datatype DiskFile = DiskFile(len: nat, physical: nat)

  datatype IoError = NotFound | Internal | Paused | InsufficientDiskSpace

  datatype IoResult<+T> = Ok(value: T) | Err(error: IoError)

  datatype Ledger = Ledger(
    chunks: map<Uuid, FragmentMeta>,
    reservations: map<Uuid, Reservation>,
    uncommitted: map<Uuid, nat>,
    meta: map<Uuid, ExtMeta>,
    maxPhysical: nat,
    physical: nat,
    content: nat,
    reserved: nat,
    paused: bool,
    disk: map<Path, DiskFile>)

  function FileSpace(r: Reservation): nat { r.fileSpace }
  function ContentSize(c: FragmentMeta): nat { c.contentSize }
  function PhysicalSize(c: FragmentMeta): nat { c.physicalSize }

  /** `AtomicU64::fetch_sub`, which wraps around when the counter is too small. */
  function FetchSub(counter: nat, amount: nat): nat {
    if amount <= counter then counter - amount else U64 - (amount - counter) % U64
  }

  function PathOf(s: Ledger, id: Uuid): Path {
    if id in s.uncommitted then Uncommitted(id) else Committed(id)
  }

  /** Available space: the maximum less physical and reserved bytes, saturating at zero. */
  function Available(s: Ledger): nat {
    if s.physical + s.reserved <= s.maxPhysical then s.maxPhysical - (s.physical + s.reserved) else 0
  }

  /** A file operation succeeds when the file is there and the I/O call does not fail. */
  predicate FileOk(s: Ledger, path: Path, ioOk: bool) {
    ioOk && path in s.disk
  }

  function RemoveFile(s: Ledger, path: Path, ioOk: bool): (Ledger, IoResult<()>) {
    if FileOk(s, path, ioOk) then (s.(disk := s.disk - {path}), Ok(()))
    else (s, Err(Internal))
  }

  // ---- operations

  function TryReserve(s: Ledger, size: nat, ext: ExtMeta, durable: bool, id: Uuid, now: nat, metaOk: bool)
    : (Ledger, IoResult<Uuid>)
  {
    if s.paused then (s, Err(Paused))
    else if Available(s) < size then (s, Err(InsufficientDiskSpace))
    else if !metaOk then (s, Err(Internal))
    else
      (s.(meta := s.meta[id := ext],
          reservations := s.reservations[id := Reservation(size, 0, durable, now)],
          reserved := s.reserved + size,
          uncommitted := s.uncommitted[id := now]),
       Ok(id))
  }

  function CancelReservation(s: Ledger, id: Uuid, ioOk: bool): (Ledger, IoResult<()>) {
    if id !in s.reservations then (s, Ok(()))
    else
      RemoveFile(
        s.(reservations := s.reservations - {id},
           uncommitted := s.uncommitted - {id},
           meta := s.meta - {id},
           reserved := FetchSub(s.reserved, s.reservations[id].fileSpace)),
        PathOf(s, id), ioOk)
  }

  function RefreshReservation(s: Ledger, id: Uuid, now: nat): (Ledger, IoResult<Reservation>) {
    if id !in s.reservations then (s, Err(NotFound))
    else
      var r := s.reservations[id].(lastUpdate := now);
      (s.(reservations := s.reservations[id := r]), Ok(r))
  }

  function ReleaseReservation(s: Ledger, id: Uuid, sizeActual: nat, now: nat, ioOk: bool): (Ledger, IoResult<()>) {
    if id !in s.reservations then (s, Err(NotFound))
    else
      var r := s.reservations[id];
      var path := PathOf(s, id);
      if sizeActual == r.fileSpace then
        if !FileOk(s, path, ioOk) then (s, Err(Internal))
        else
          var physicalSize := s.disk[path].physical;
          (s.(physical := s.physical + physicalSize,
              content := s.content + sizeActual,
              reservations := s.reservations - {id},
              reserved := FetchSub(s.reserved, sizeActual),
              chunks := s.chunks[id := FragmentMeta(sizeActual, physicalSize)]),
           Ok(()))
      else if r.durable then
        (s.(reservations := s.reservations[id := r.(completed := sizeActual, lastUpdate := now)]), Ok(()))
      else
        RemoveFile(
          s.(reservations := s.reservations - {id},
             uncommitted := s.uncommitted - {id},
             reserved := FetchSub(s.reserved, r.fileSpace)),
          path, ioOk)
  }

  function CommitChunk(s: Ledger, id: Uuid, ioOk: bool): (Ledger, IoResult<()>) {
    if id !in s.uncommitted then (s, Ok(()))
    else
      var t := s.(uncommitted := s.uncommitted - {id});
      if ioOk && Uncommitted(id) in s.disk then
        (t.(disk := (s.disk - {Uncommitted(id)})[Committed(id) := s.disk[Uncommitted(id)]]), Ok(()))
      else
        (t, Err(Internal))
  }

  function CommitAlive(s: Ledger, id: Uuid, now: nat): (Ledger, IoResult<()>) {
    var t := RefreshReservation(s, id, now).0;
    if id in s.uncommitted then (t.(uncommitted := s.uncommitted[id := now]), Ok(()))
    else if id in s.reservations then (t, Ok(()))
    else (t, Err(NotFound))
  }

  function DeleteChunk(s: Ledger, id: Uuid, ioOk: bool): (Ledger, IoResult<()>) {
    var path := PathOf(s, id);
    var t := s.(uncommitted := s.uncommitted - {id}, meta := s.meta - {id});
    if !FileOk(s, path, ioOk) then (t, Err(NotFound))
    else
      var u := t.(disk := s.disk - {path});
      if id in s.chunks then
        (u.(chunks := s.chunks - {id},
            content := FetchSub(s.content, s.chunks[id].contentSize),
            physical := FetchSub(s.physical, s.chunks[id].physicalSize)),
         Ok(()))
      else if id in s.reservations then
        (u.(reservations := s.reservations - {id},
            reserved := FetchSub(s.reserved, s.reservations[id].fileSpace)),
         Ok(()))
      else
        (u, Ok(()))
  }

  /** Bytes written through a fragment stream: a write stream truncates, an append stream does not. */
  function WriteFragment(s: Ledger, id: Uuid, append: bool, n: nat, physical: nat): Ledger {
    var before := if append && Uncommitted(id) in s.disk then s.disk[Uncommitted(id)].len else 0;
    s.(disk := s.disk[Uncommitted(id) := DiskFile(before + n, physical)])
  }

  // ---- sweeps

  predicate Stale(since: nat, now: nat) {
    now > since + VALIDITY
  }

  /** The reservations to sweep, in the order the map happens to be iterated: exactly those idle for over an hour. */
  function BrokenMarks(s: Ledger, order: seq<Uuid>, now: nat): (marks: seq<Uuid>)
    requires forall id :: id in order ==> id in s.reservations
    ensures forall id :: id in marks <==> id in order && s.reservations[id].lastUpdate + 3600 < now
    ensures NoDuplicates(order) ==> NoDuplicates(marks)
  {
    if order == [] then []
    else
      var rest := BrokenMarks(s, order[1..], now);
      if Stale(s.reservations[order[0]].lastUpdate, now) then [order[0]] + rest else rest
  }

  /** The chunks whose commit is overdue. */
  function UncommittedMarks(s: Ledger, order: seq<Uuid>, now: nat): (marks: seq<Uuid>)
    requires forall id :: id in order ==> id in s.uncommitted
    ensures forall id :: id in marks <==> id in order && s.uncommitted[id] + 3600 < now
    ensures NoDuplicates(order) ==> NoDuplicates(marks)
  {
    if order == [] then []
    else
      var rest := UncommittedMarks(s, order[1..], now);
      if Stale(s.uncommitted[order[0]], now) then [order[0]] + rest else rest
  }

  /** One sweep: the map entries go first; if the file cannot be removed the space is not given back. */
  function SweepOne(s: Ledger, id: Uuid, ioOk: bool): (Ledger, bool)
    requires id in s.reservations
  {
    var t := s.(uncommitted := s.uncommitted - {id},
                reservations := s.reservations - {id},
                meta := s.meta - {id});
    if !FileOk(s, PathOf(s, id), ioOk) then (t, false)
    else
      (t.(disk := s.disk - {PathOf(s, id)},
          reserved := FetchSub(s.reserved, s.reservations[id].fileSpace)),
       true)
  }

  ghost predicate Sweepable(s: Ledger, marks: seq<Uuid>) {
    NoDuplicates(marks) && forall id :: id in marks ==> id in s.reservations
  }

  /** The sweep stops at the first file that cannot be removed. */
  function SweepBroken(s: Ledger, marks: seq<Uuid>, failing: set<Uuid>): (Ledger, IoResult<()>)
    requires Sweepable(s, marks)
    decreases |marks|
  {
    if marks == [] then (s, Ok(()))
    else
      var r := SweepOne(s, marks[0], marks[0] !in failing);
      if r.1 then SweepBroken(r.0, marks[1..], failing) else (r.0, Err(Internal))
  }

  function SweepUncommitted(s: Ledger, marks: seq<Uuid>, failing: set<Uuid>): (Ledger, IoResult<()>)
    decreases |marks|
  {
    if marks == [] then (s, Ok(()))
    else
      var r := DeleteChunk(s, marks[0], marks[0] !in failing);
      if r.1.Ok? then SweepUncommitted(r.0, marks[1..], failing) else r
  }

  // ---- restart

  function CommittedIds(disk: map<Path, DiskFile>): (ids: set<Uuid>)
    ensures forall id :: id in ids <==> Committed(id) in disk
  {
    set p | p in disk && p.Committed? :: p.id
  }

  function MetaOf(file: DiskFile): FragmentMeta {
    FragmentMeta(file.len, file.physical)
  }

  /** The committed files on disk, as the start-up scan records them. */
  function Found(disk: map<Path, DiskFile>): map<Uuid, FragmentMeta> {
    map id | id in CommittedIds(disk) :: MetaOf(disk[Committed(id)])
  }

  function CommittedFiles(disk: map<Path, DiskFile>): map<Path, DiskFile> {
    map p | p in disk && p.Committed? :: disk[p]
  }

  /** A restart forgets the in-memory maps and scans the disk; the metadata store survives. */
  ghost function Restart(s: Ledger): Ledger {
    Ledger(Found(s.disk), map[], map[], s.meta, s.maxPhysical,
           Sum(Found(s.disk), PhysicalSize), Sum(Found(s.disk), ContentSize), 0, false,
           CommittedFiles(s.disk))
  }

  // ---- runs

  datatype Op =
    | Reserve(size: nat, ext: ExtMeta, durable: bool, id: Uuid, now: nat, metaOk: bool)
    | Cancel(id: Uuid, ioOk: bool)
    | Refresh(id: Uuid, now: nat)
    | Release(id: Uuid, sizeActual: nat, now: nat, ioOk: bool)
    | Commit(id: Uuid, ioOk: bool)
    | Alive(id: Uuid, now: nat)
    | Delete(id: Uuid, ioOk: bool)
    | Write(id: Uuid, append: bool, n: nat, physical: nat)
    | CleanBroken(order: seq<Uuid>, now: nat, failing: set<Uuid>)
    | CleanUncommitted(order: seq<Uuid>, now: nat, failing: set<Uuid>)
    | Reboot

  /** No trace of the identifier anywhere: what a fresh random UUID gives. */
  ghost predicate Fresh(s: Ledger, id: Uuid) {
    && id !in s.chunks && id !in s.reservations && id !in s.uncommitted && id !in s.meta
    && Committed(id) !in s.disk && Uncommitted(id) !in s.disk
  }

  /** What the environment guarantees: new identifiers are fresh and a map iteration lists each key once. */
  ghost predicate Admissible(s: Ledger, op: Op) {
    match op
    case Reserve(_, _, _, id, _, _) => Fresh(s, id)
    case CleanBroken(order, _, _) => Lists(order, s.reservations.Keys)
    case CleanUncommitted(order, _, _) => Lists(order, s.uncommitted.Keys)
    case _ => true
  }

  ghost function Step(s: Ledger, op: Op): Ledger
    requires Admissible(s, op)
  {
    match op
    case Reserve(size, ext, durable, id, now, metaOk) => TryReserve(s, size, ext, durable, id, now, metaOk).0
    case Cancel(id, ioOk) => CancelReservation(s, id, ioOk).0
    case Refresh(id, now) => RefreshReservation(s, id, now).0
    case Release(id, sizeActual, now, ioOk) => ReleaseReservation(s, id, sizeActual, now, ioOk).0
    case Commit(id, ioOk) => CommitChunk(s, id, ioOk).0
    case Alive(id, now) => CommitAlive(s, id, now).0
    case Delete(id, ioOk) => DeleteChunk(s, id, ioOk).0
    case Write(id, append, n, physical) => WriteFragment(s, id, append, n, physical)
    case CleanBroken(order, now, failing) => SweepBroken(s, BrokenMarks(s, order, now), failing).0
    case CleanUncommitted(order, now, failing) => SweepUncommitted(s, UncommittedMarks(s, order, now), failing).0
    case Reboot => Restart(s)
  }

  ghost predicate AdmissibleRun(s: Ledger, ops: seq<Op>)
    decreases |ops|
  {
    ops == [] || (Admissible(s, ops[0]) && AdmissibleRun(Step(s, ops[0]), ops[1..]))
  }

  ghost function Run(s: Ledger, ops: seq<Op>): Ledger
    requires AdmissibleRun(s, ops)
    decreases |ops|
  {
    if ops == [] then s else Run(Step(s, ops[0]), ops[1..])
  }
}
