/** The ledger object itself. Its methods change the fields statement by statement, as the node does,
    and each is proved to take exactly the atomic step that LedgerModel defines. */
module FragmentLedgers {
  import opened Common
  import opened Sums
  import opened LedgerModel

  class FragmentLedger {
    var chunkSet: map<Uuid, FragmentMeta>
    var reservationMap: map<Uuid, Reservation>
    var uncommittedMap: map<Uuid, nat>
    var metadataStore: map<Uuid, ExtMeta>
    const maxPhysicalSize: nat
    var diskPhysicalSize: nat
    var diskContentSize: nat
    var diskReservedSize: nat
    var paused: bool
    var disk: map<Path, DiskFile>

    ghost function State(): Ledger
      reads this
    {
      Ledger(chunkSet, reservationMap, uncommittedMap, metadataStore, maxPhysicalSize,
             diskPhysicalSize, diskContentSize, diskReservedSize, paused, disk)
    }

    /** A ledger before its first scan, over the files and metadata a previous process left behind. */
    constructor (maxSpace: nat, store: map<Uuid, ExtMeta>, files: map<Path, DiskFile>)
      ensures State() == Ledger(map[], map[], map[], store, maxSpace, 0, 0, 0, false, files)
    {
      chunkSet, reservationMap, uncommittedMap := map[], map[], map[];
      metadataStore, maxPhysicalSize, disk := store, maxSpace, files;
      diskPhysicalSize, diskContentSize, diskReservedSize, paused := 0, 0, 0, false;
    }

    method GetAvailableSpace() returns (available: nat)
      ensures available == Available(State())
    {
      var used := diskPhysicalSize + diskReservedSize;
      if used <= maxPhysicalSize { available := maxPhysicalSize - used; } else { available := 0; }
    }

    function PathFor(id: Uuid): Path
      reads this
    {
      if id in uncommittedMap then Uncommitted(id) else Committed(id)
    }

    /** `tokio::fs::remove_file`: fails when the call fails or the file is not there. */
    method RemoveFromDisk(path: Path, ioOk: bool) returns (ok: bool)
      modifies this`disk
      ensures ok == old(FileOk(State(), path, ioOk))
      ensures disk == if ok then old(disk) - {path} else old(disk)
    {
      ok := ioOk && path in disk;
      if ok { disk := disk - {path}; }
    }

    method TryReserve(size: nat, ext: ExtMeta, durable: bool, id: Uuid, now: nat, metaOk: bool)
      returns (r: IoResult<Uuid>)
      modifies this
      ensures (State(), r) == old(LedgerModel.TryReserve(State(), size, ext, durable, id, now, metaOk))
    {
      if paused { return Err(Paused); }
      var available := GetAvailableSpace();
      if available < size { return Err(InsufficientDiskSpace); }
      if !metaOk { return Err(Internal); }
      metadataStore := metadataStore[id := ext];
      reservationMap := reservationMap[id := Reservation(size, 0, durable, now)];
      diskReservedSize := diskReservedSize + size;
      uncommittedMap := uncommittedMap[id := now];
      return Ok(id);
    }

    method CancelReservation(id: Uuid, ioOk: bool) returns (r: IoResult<()>)
      modifies this
      ensures (State(), r) == old(LedgerModel.CancelReservation(State(), id, ioOk))
    {
      if id in reservationMap {
        var reservation := reservationMap[id];
        var path := PathFor(id);
        reservationMap := reservationMap - {id};
        uncommittedMap := uncommittedMap - {id};
        metadataStore := metadataStore - {id};
        diskReservedSize := FetchSub(diskReservedSize, reservation.fileSpace);
        var ok := RemoveFromDisk(path, ioOk);
        if !ok { return Err(Internal); }
      }
      return Ok(());
    }

    method RefreshReservation(id: Uuid, now: nat) returns (r: IoResult<Reservation>)
      modifies this`reservationMap
      ensures (State(), r) == old(LedgerModel.RefreshReservation(State(), id, now))
    {
      if id !in reservationMap { return Err(NotFound); }
      reservationMap := reservationMap[id := reservationMap[id].(lastUpdate := now)];
      return Ok(reservationMap[id]);
    }

    method ReleaseReservation(id: Uuid, sizeActual: nat, now: nat, ioOk: bool) returns (r: IoResult<()>)
      modifies this
      ensures (State(), r) == old(LedgerModel.ReleaseReservation(State(), id, sizeActual, now, ioOk))
    {
      if id !in reservationMap { return Err(NotFound); }
      var reservation := reservationMap[id];
      var path := PathFor(id);
      if sizeActual == reservation.fileSpace {
        if !(ioOk && path in disk) { return Err(Internal); }
        var physicalSize := disk[path].physical;
        diskPhysicalSize := diskPhysicalSize + physicalSize;
        diskContentSize := diskContentSize + sizeActual;
        reservationMap := reservationMap - {id};
        diskReservedSize := FetchSub(diskReservedSize, sizeActual);
        chunkSet := chunkSet[id := FragmentMeta(sizeActual, physicalSize)];
      } else if reservation.durable {
        reservationMap := reservationMap[id := reservation.(completed := sizeActual, lastUpdate := now)];
      } else {
        reservationMap := reservationMap - {id};
        uncommittedMap := uncommittedMap - {id};
        diskReservedSize := FetchSub(diskReservedSize, reservation.fileSpace);
        var ok := RemoveFromDisk(path, ioOk);
        if !ok { return Err(Internal); }
      }
      return Ok(());
    }

    method CommitChunk(id: Uuid, ioOk: bool) returns (r: IoResult<()>)
      modifies this
      ensures (State(), r) == old(LedgerModel.CommitChunk(State(), id, ioOk))
    {
      if id in uncommittedMap {
        uncommittedMap := uncommittedMap - {id};
        if !(ioOk && Uncommitted(id) in disk) { return Err(Internal); }
        var file := disk[Uncommitted(id)];
        disk := disk - {Uncommitted(id)};
        disk := disk[Committed(id) := file];
      }
      return Ok(());
    }

    method CommitAlive(id: Uuid, now: nat) returns (r: IoResult<()>)
      modifies this
      ensures (State(), r) == old(LedgerModel.CommitAlive(State(), id, now))
    {
      var reservation := RefreshReservation(id, now);
      var found := id in uncommittedMap;
      if found { uncommittedMap := uncommittedMap[id := now]; }
      if reservation.Err? && !found { return Err(NotFound); }
      return Ok(());
    }

    method DeleteChunk(id: Uuid, ioOk: bool) returns (r: IoResult<()>)
      modifies this
      ensures (State(), r) == old(LedgerModel.DeleteChunk(State(), id, ioOk))
    {
      var path := PathFor(id);
      metadataStore := metadataStore - {id};
      uncommittedMap := uncommittedMap - {id};
      var ok := RemoveFromDisk(path, ioOk);
      if !ok { return Err(NotFound); }
      if id in chunkSet {
        var chunk := chunkSet[id];
        chunkSet := chunkSet - {id};
        diskContentSize := FetchSub(diskContentSize, chunk.contentSize);
        diskPhysicalSize := FetchSub(diskPhysicalSize, chunk.physicalSize);
      } else if id in reservationMap {
        var broken := reservationMap[id];
        reservationMap := reservationMap - {id};
        diskReservedSize := FetchSub(diskReservedSize, broken.fileSpace);
      }
      return Ok(());
    }

    method MarkBroken(order: seq<Uuid>, now: nat) returns (mark: seq<Uuid>)
      requires Lists(order, reservationMap.Keys)
      ensures mark == BrokenMarks(State(), order, now)
    {
      hide NoDuplicates;
      mark := [];
      var i := 0;
      while i < |order|
        invariant 0 <= i <= |order|
        invariant mark + BrokenMarks(State(), order[i..], now) == BrokenMarks(State(), order, now)
      {
        assert order[i..][1..] == order[i + 1..];
        if Stale(reservationMap[order[i]].lastUpdate, now) { mark := mark + [order[i]]; }
        i := i + 1;
      }
    }

    method SweepReservation(id: Uuid, ioOk: bool) returns (ok: bool)
      requires id in reservationMap
      modifies this
      ensures (State(), ok) == old(SweepOne(State(), id, ioOk))
    {
      var path := PathFor(id);
      var reservation := reservationMap[id];
      uncommittedMap := uncommittedMap - {id};
      reservationMap := reservationMap - {id};
      metadataStore := metadataStore - {id};
      ok := RemoveFromDisk(path, ioOk);
      if ok { diskReservedSize := FetchSub(diskReservedSize, reservation.fileSpace); }
    }

    /** Marks every stale reservation, then sweeps the marks, giving up at the first file it cannot remove. */
    method CleanBrokenChunks(order: seq<Uuid>, now: nat, failing: set<Uuid>) returns (r: IoResult<()>)
      requires Lists(order, reservationMap.Keys)
      modifies this
      ensures (State(), r) == old(SweepBroken(State(), BrokenMarks(State(), order, now), failing))
    {
      var mark := MarkBroken(order, now);
      ghost var start := State();
      ghost var whole := SweepBroken(start, mark, failing);
      var j := 0;
      while j < |mark|
        invariant 0 <= j <= |mark|
        invariant Sweepable(State(), mark[j..])
        invariant SweepBroken(State(), mark[j..], failing) == whole
      {
        assert mark[j..][0] == mark[j] && mark[j..][1..] == mark[j + 1..];
        var ok := SweepReservation(mark[j], mark[j] !in failing);
        if !ok { return Err(Internal); }
        j := j + 1;
      }
      return Ok(());
    }

    method MarkUncommitted(order: seq<Uuid>, now: nat) returns (mark: seq<Uuid>)
      requires Lists(order, uncommittedMap.Keys)
      ensures mark == UncommittedMarks(State(), order, now)
    {
      hide NoDuplicates;
      mark := [];
      var i := 0;
      while i < |order|
        invariant 0 <= i <= |order|
        invariant mark + UncommittedMarks(State(), order[i..], now) == UncommittedMarks(State(), order, now)
      {
        assert order[i..][1..] == order[i + 1..];
        if Stale(uncommittedMap[order[i]], now) { mark := mark + [order[i]]; }
        i := i + 1;
      }
    }

    method CleanUncommitted(order: seq<Uuid>, now: nat, failing: set<Uuid>) returns (r: IoResult<()>)
      requires Lists(order, uncommittedMap.Keys)
      modifies this
      ensures (State(), r) == old(SweepUncommitted(State(), UncommittedMarks(State(), order, now), failing))
    {
      var mark := MarkUncommitted(order, now);
      ghost var start := State();
      ghost var whole := SweepUncommitted(start, mark, failing);
      var j := 0;
      while j < |mark|
        invariant 0 <= j <= |mark|
        invariant SweepUncommitted(State(), mark[j..], failing) == whole
      {
        assert mark[j..][0] == mark[j] && mark[j..][1..] == mark[j + 1..];
        var res := DeleteChunk(mark[j], mark[j] !in failing);
        if res.Err? { return res; }
        j := j + 1;
      }
      return Ok(());
    }

    /** Records one committed file; the result says whether its metadata is known. */
    method RecordFragment(id: Uuid) returns (known: bool)
      requires Committed(id) in disk && id !in chunkSet
      modifies this`chunkSet, this`diskContentSize, this`diskPhysicalSize
      ensures var file := disk[Committed(id)];
              && chunkSet == old(chunkSet)[id := MetaOf(file)]
              && diskContentSize == old(diskContentSize) + file.len
              && diskPhysicalSize == old(diskPhysicalSize) + file.physical
      ensures diskPhysicalSize - Sum(chunkSet, PhysicalSize) == old(diskPhysicalSize - Sum(chunkSet, PhysicalSize))
      ensures diskContentSize - Sum(chunkSet, ContentSize) == old(diskContentSize - Sum(chunkSet, ContentSize))
      ensures known == (id in metadataStore)
    {
      hide Sum;
      var found := MetaOf(disk[Committed(id)]);
      SumInsert(chunkSet, id, found, PhysicalSize);
      SumInsert(chunkSet, id, found, ContentSize);
      diskContentSize := diskContentSize + found.contentSize;
      diskPhysicalSize := diskPhysicalSize + found.physicalSize;
      known := id in metadataStore;
      chunkSet := chunkSet[id := found];
    }

    /** The start-up scan: drops half-written files, records every committed one it can read, passes over
        foreign files (`None`), and reports the identifiers whose metadata is missing. It fails at a half-written
        file that cannot be removed. */
    method ScanFragments(entries: seq<Option<Path>>, stuck: set<Uuid>, unreadable: set<Uuid>)
      returns (r: IoResult<set<Uuid>>)
      requires ListsFiles(entries, disk.Keys)
      requires chunkSet == map[] && diskPhysicalSize == 0 && diskContentSize == 0
      modifies this
      ensures r.Err? <==> exists id :: id in stuck && Uncommitted(id) in old(disk)
      ensures diskPhysicalSize == Sum(chunkSet, PhysicalSize) && diskContentSize == Sum(chunkSet, ContentSize)
      ensures State() == old(State()).(chunks := chunkSet, disk := disk, physical := diskPhysicalSize,
                                       content := diskContentSize)
      ensures r.Ok? ==> chunkSet == Found(old(disk)) - unreadable && disk == CommittedFiles(old(disk))
      ensures r.Ok? ==> r.value == chunkSet.Keys - metadataStore.Keys
    {
      hide Sum, Found, CommittedFiles, Scanned, Unscanned;
      var missing := {};
      ghost var files, seen := disk, {};
      var i := 0;
      ScanStart(files, unreadable);
      SumEmpty<Uuid, FragmentMeta>(PhysicalSize);
      SumEmpty<Uuid, FragmentMeta>(ContentSize);
      while i < |entries|
        invariant 0 <= i <= |entries|
        invariant State() == old(State()).(chunks := chunkSet, disk := disk, physical := diskPhysicalSize,
                                           content := diskContentSize)
        invariant forall j :: 0 <= j < |entries| && entries[j].Some? ==> (entries[j].value in seen <==> j < i)
        invariant disk == Unscanned(files, seen)
        invariant chunkSet == Scanned(files, seen, unreadable)
        invariant diskPhysicalSize == Sum(chunkSet, PhysicalSize)
        invariant diskContentSize == Sum(chunkSet, ContentSize)
        invariant missing == chunkSet.Keys - metadataStore.Keys
        invariant forall id :: id in stuck && Uncommitted(id) in files ==> Uncommitted(id) !in seen
      {
        if entries[i].Some? {
          var entry := entries[i].value;
          assert Some(entry) in entries;
          ScanStep(files, seen, entry, unreadable);
          seen := seen + {entry};
          if entry.Uncommitted? {
            if entry.id in stuck { return Err(Internal); }
            disk := disk - {entry};
          } else if entry.id !in unreadable {
            var known := RecordFragment(entry.id);
            if !known { missing := missing + {entry.id}; }
          }
        }
        i := i + 1;
      }
      assert forall p :: p in files ==> Some(p) in entries && p in seen;
      ScanEnd(files, seen, unreadable);
      return Ok(missing);
    }
  }

  /** The directory listing has every file once, besides any foreign ones. */
  ghost predicate ListsFiles(entries: seq<Option<Path>>, files: set<Path>) {
    && (forall p :: p in files <==> Some(p) in entries)
    && (forall i, j :: 0 <= i < j < |entries| && entries[i].Some? ==> entries[i] != entries[j])
  }

  /** A restart: a new ledger over the surviving files and metadata, then the scan. */
  method Reopen(ghost before: Ledger, maxSpace: nat, store: map<Uuid, ExtMeta>, files: map<Path, DiskFile>,
                entries: seq<Option<Path>>) returns (ledger: FragmentLedger, r: IoResult<set<Uuid>>)
    requires before.maxPhysical == maxSpace && before.meta == store && before.disk == files
    requires ListsFiles(entries, files.Keys)
    ensures fresh(ledger) && ledger.State() == Restart(before)
    ensures r == Ok(Restart(before).chunks.Keys - store.Keys)
  {
    hide Sum, LedgerModel.Found, LedgerModel.CommittedFiles;
    ledger := new FragmentLedger(maxSpace, store, files);
    r := ledger.ScanFragments(entries, {}, {});
    AllReadable(LedgerModel.Found(files));
  }

  lemma AllReadable(found: map<Uuid, FragmentMeta>)
    ensures found - {} == found
  {
  }

  /** What the scan has recorded after seeing some entries, and the files it has not yet dropped. */
  ghost function Scanned(files: map<Path, DiskFile>, seen: set<Path>, unreadable: set<Uuid>): map<Uuid, FragmentMeta> {
    map id | id in CommittedIds(files) && Committed(id) in seen && id !in unreadable :: MetaOf(files[Committed(id)])
  }

  ghost function Unscanned(files: map<Path, DiskFile>, seen: set<Path>): map<Path, DiskFile> {
    map p | p in files && (p.Committed? || p !in seen) :: files[p]
  }

  lemma ScanStart(files: map<Path, DiskFile>, unreadable: set<Uuid>)
    ensures Scanned(files, {}, unreadable) == map[] && Unscanned(files, {}) == files
  {
  }

  lemma ScanEnd(files: map<Path, DiskFile>, seen: set<Path>, unreadable: set<Uuid>)
    requires files.Keys <= seen
    ensures Scanned(files, seen, unreadable) == Found(files) - unreadable &&
        Unscanned(files, seen) == CommittedFiles(files)
  {
  }

  lemma ScanStep(files: map<Path, DiskFile>, seen: set<Path>, p: Path, unreadable: set<Uuid>)
    requires p in files && p !in seen
    ensures p in Unscanned(files, seen) && Unscanned(files, seen)[p] == files[p]
    ensures p.Uncommitted? ==> Unscanned(files, seen + {p}) == Unscanned(files, seen) - {p}
    ensures p.Committed? ==> Unscanned(files, seen + {p}) == Unscanned(files, seen)
    ensures p.Uncommitted? || p.id in unreadable ==> Scanned(files, seen + {p}, unreadable) == Scanned(files, seen,
        unreadable)
    ensures p.Committed? ==> p.id !in Scanned(files, seen, unreadable)
    ensures p.Committed? && p.id !in unreadable ==>
              Scanned(files, seen + {p}, unreadable) == Scanned(files, seen, unreadable)[p.id := MetaOf(files[p])]
  {
  }
}
