# Meowith in Dafny

Meowith is a distributed blob store. A file is cut into chunks, the chunks are placed on storage nodes,
uploaded (resumably) over a protocol of its own, committed, and served. This project models the parts
of it that carry state or arithmetic, and proves what they are for.

| files | component |
|---|---|
| LedgerModel, FragmentLedger | the fragment ledger of one node: each operation as a step, and the object whose methods take these steps |
| LedgerAccounting, LedgerTrace, LedgerDisk, LedgerSweep | its counters; what each operation does to one chunk; files on disk and restarts; sweeps and keep-alives |
| UploadSession | the session lock: any number of clients, one row, compare-and-set on a timestamp |
| DurableUpload, UploadOnLedger | resuming an upload over ordered chunks, and the same upload as operations on the nodes' ledgers |
| ChunkTransfer | the sliding-window transfer between two nodes |
| RangedRead | byte ranges cut over chunks |
| Placement, ClusterReservation | greedy placement, reservation on several nodes with rollback, chunk order |
| Mdsftp, MdsftpFraming | packets and framing of the node protocol |
| SchemaCodec | the codec that the protocol macro generates |
| BucketCounter | the compare-and-set bucket counters and the file table beside them |
| Quota | application and bucket quotas |
| LockTable | the per-chunk reader/writer locks |
| Directories, Paths | the directory table and path strings |
| Common | identifiers, options, sums |

Where the program updates fields or runs a loop, the model is a class or a method with that loop, and
it is proved equal to a function on values. What the program promises is then proved about those
functions: over every run, every interleaving, every input.

## Conventions

- The clock, fresh identifiers, the order in which a hash map is iterated, which I/O calls fail, and
  what other callers do in between are inputs, and the results hold for all of them.
- A database row or table is a value with atomic single-row operations. The two statements of a batch take
  effect in their order.
- Each ledger operation is one atomic step; marking and sweeping together are one step.
- Fixed-width arithmetic is written out where it can matter: the ledger counters subtract with
  wrap-around (it is proved never to happen), window sums, frame lengths and path lengths are taken
  modulo 2^32, quota sums modulo 2^64 with sign, chunk order modulo 2^8 with sign. Overflow wraps, as in
  an optimised build; a build with overflow checks stops instead.
- Additions to the ledger counters are unbounded. `RunFits` bounds content plus reserved by the limit, so these
  sums stay far below 2^64 for every real limit.

## What does not hold

Each of these is a lemma with the exact condition under which the promise does hold.

- A reservation that never got a byte has no file; when it expires, the sweep drops it, fails to remove the
  file, and stops with its space still counted, until a restart (`SweepLossIsExact`,
  `UnwrittenReservationLeaks`).
- An interrupted durable upload is promised an hour. Its reservation gets it, but the sweep of uncommitted chunks goes
  by the mark, which an interruption does not renew, so the chunk can go up to a keep-alive interval earlier
  (`PausedTransferWaitsIff`, `PausedTransferIsSweptEarly`).
- The session of a client that crashes while writing can be neither locked nor resumed, only removed
  (`CrashLeavesSessionStuck`, `StuckUntilRemoved`).
- Two clients that read the same session row both get the lock if the first one's update carries the
  timestamp that was there before; the clock has millisecond resolution (`StaleTimestampBreaksExclusion`).
- A remote chunk that is interrupted reports only the bytes of its last channel, so a second resume
  writes in the wrong place (`RemoteProgressIffFromScratch`, `RemoteResumeCorrupts`).
- A transfer that the peer or the connection ends is reported to the sender as a success: the upload goes on,
  and ends as finished with a truncated chunk (`PeerCutTruncates`, `RoundHoldsFileIff`, `RoundKeepsLayoutIff`).
- An empty chunk, which a full node reserves for itself, may never get a file
  (`EveryChunkStoredIffAllPositive`, `EmptyTargetIsOwn`).
- An empty remote transfer sends an empty file chunk, and an empty file chunk fails length validation and
  closes the connection (`EmptyChunkIffEmptyTransfer`, `ChunkIsReadIff`).
- A range whose bounds sum to 2^64 is taken for the whole chunk (`SentinelIsUnambiguous`, `ArrivesAsSentIff`).
- A generated decoder panics on every packet whose trailing variable field comes after anything but a
  single fixed field (`DispatchRecoversIff`).
- Chunk order is an 8-bit signed number: more than 128 fragments are reordered (`SortRestoresFragmentsIffFew`).
- The quota check accepts any request whose exact sum reaches 2^63 (`StepKeepsQuotaIff`), and an upload that
  outlives its session can exceed the quota (`ExpiredUploadExceedsQuota`).
- An upload that acts on an old file record it read at its start, and a rename of a file to its own key under
  another spelling of the path, make the bucket counters wrong (`StepKeepsExactIff`, `DotNamesTheSameFile`).
- The paths "..", "." and what begins with them make a row with empty parent and empty name, which is its own
  child: the descendant iterator then never ends. Inside a path a dot component makes a row that is not the one
  asked for, or one whose parent path has no row (`IteratorEndsIff`, `MkdirMakesRootIff`, `RowOfPathIff`,
  `TryMkdir`).
- The allocation bound lets the physical counter exceed the limit by the rounding of blocks, and then the periodic
  check of the limit subtracts below zero (`AppFreeIsExactIff`, `RoundedChunkWrapsCheck`).
- The table entry of a lock is removed by a task that runs later; if the key is locked again in between, a
  writer can get in beside a reader (`StepKeepsSharedIff`, `LateRemovalBreaksExclusion`).

The comment in `release_read` that nobody can be waiting on the lock when its entry is removed does not agree
with the code, because the removal runs later; the model follows the code.

The protocol document gives query and query response the ids of the two commit answers, 0x10 and 0x11; the code gives
them 0x12 and 0x13, and the model follows the code.

## Model

| member | source | states |
|---|---|---|
| FragmentLedgers.FragmentLedger.constructor | node/src/io/fragment_ledger.rs:51-92 | a ledger before its first scan: empty maps, zero counters, over given files and metadata |
| FragmentLedgers.FragmentLedger.GetAvailableSpace | node/src/io/fragment_ledger.rs:652-664 | the saturating difference of the limit and the physical plus reserved counters |
| FragmentLedgers.FragmentLedger.TryReserve | node/src/io/fragment_ledger.rs:467-521 | the field updates are exactly the atomic reserve step, with its pause, space and metadata errors |
| FragmentLedgers.FragmentLedger.CancelReservation | node/src/io/fragment_ledger.rs:443-465 | the field updates are exactly the atomic cancel step; an unknown id is no error |
| FragmentLedgers.FragmentLedger.RefreshReservation | node/src/io/fragment_ledger.rs:535-541 | the field updates are exactly the atomic refresh step (what that does: `RefreshEffect`, `RefreshRestartsClock`) |
| FragmentLedgers.FragmentLedger.ReleaseReservation | node/src/io/fragment_ledger.rs:550-616 | the field updates are exactly the atomic release step: completed, interrupted durable, abandoned, and each I/O failure |
| FragmentLedgers.FragmentLedger.CommitChunk | node/src/io/fragment_ledger.rs:618-631 | the field updates are exactly the atomic commit step, including the rename of the file |
| FragmentLedgers.FragmentLedger.CommitAlive | node/src/io/fragment_ledger.rs:634-650 | the field updates are exactly the atomic keep-alive step (what that does: `AliveEffect`, `AliveProtects`) |
| FragmentLedgers.FragmentLedger.DeleteChunk | node/src/io/fragment_ledger.rs:787-812 | the field updates are exactly the atomic delete step, of a chunk or of a reservation (what that does: `DeleteEffect`) |
| FragmentLedgers.FragmentLedger.MarkBroken | node/src/io/fragment_ledger.rs:727-737 | the marking loop collects exactly the idle reservations |
| FragmentLedgers.FragmentLedger.SweepReservation | node/src/io/fragment_ledger.rs:743-758 | one turn of the sweep: the entries go, the space only if the file could be removed |
| FragmentLedgers.FragmentLedger.CleanBrokenChunks | node/src/io/fragment_ledger.rs:727-761 | the two loops equal the recursive sweep, stopping at the first file that cannot be removed |
| FragmentLedgers.FragmentLedger.MarkUncommitted | node/src/io/fragment_ledger.rs:763-774 | the marking loop collects exactly the overdue uncommitted chunks |
| FragmentLedgers.FragmentLedger.CleanUncommitted | node/src/io/fragment_ledger.rs:763-785 | the two loops equal the recursive sweep of uncommitted chunks |
| FragmentLedgers.FragmentLedger.RecordFragment | node/src/io/fragment_ledger.rs:168-195 | recording one committed file keeps both size counters equal to their sums |
| FragmentLedgers.FragmentLedger.ScanFragments | node/src/io/fragment_ledger.rs:147-214 | the scan drops half-written files, records every committed file it can read, passes over foreign ones, reports those without metadata, and fails exactly at a half-written file that cannot be removed |
| FragmentLedgers.Reopen | node/src/io/fragment_ledger.rs:117-145 | a new ledger over the surviving files is the restart step |
| LedgerModel.BrokenMarks | node/src/io/fragment_ledger.rs:733-737 | exactly the reservations idle for more than 3600 seconds are marked, each once |
| LedgerModel.UncommittedMarks | node/src/io/fragment_ledger.rs:767-774 | exactly the uncommitted chunks marked for more than 3600 seconds are marked for the sweep, each once |
| LedgerAccounting.ReserveAccounts | node/src/io/fragment_ledger.rs:467-521 | reserving keeps all four counters equal to the sums they stand for |
| LedgerAccounting.CancelAccounts | node/src/io/fragment_ledger.rs:443-465 | cancelling keeps the counters, whether or not the file can be removed |
| LedgerAccounting.ReleaseAccounts | node/src/io/fragment_ledger.rs:550-616 | releasing moves the space from reserved to stored, or gives it back |
| LedgerAccounting.DeleteAccounts | node/src/io/fragment_ledger.rs:787-812 | deleting keeps the counters, and no subtraction wraps |
| LedgerAccounting.SweepBrokenAccounts | node/src/io/fragment_ledger.rs:727-761 | a sweep keeps the counters up to the bytes it loses |
| LedgerAccounting.SweepUncommittedAccounts | node/src/io/fragment_ledger.rs:763-785 | sweeping uncommitted chunks keeps the counters exactly |
| LedgerAccounting.SweepLossIsExact | node/src/io/fragment_ledger.rs:743-758 | a sweep loses no space exactly when the file it stops at, if any, belongs to an empty reservation |
| LedgerAccounting.StepAccounts | node/src/io/fragment_ledger.rs:443-812 | every operation keeps: size counters exact, stored and reserved ids disjoint, reserved counter equal to the reservations plus what sweeps lost |
| LedgerAccounting.RunAccounts | node/src/io/fragment_ledger.rs:443-812 | the same in every reachable state of every run, with arbitrary I/O failures and restarts |
| LedgerAccounting.RunLeaksNothingIff | node/src/io/fragment_ledger.rs:727-761 | over a whole run nothing has leaked exactly when every sweep since the last restart stopped at no file, or at that of an empty reservation |
| LedgerAccounting.AvailableIsSound | node/src/io/fragment_ledger.rs:652-664 | available space is never over-reported, and is exact when nothing has leaked |
| LedgerAccounting.UnwrittenReservationLeaks | node/src/io/fragment_ledger.rs:743-758 | a reservation that never received a byte leaks its whole space when it is swept, with no I/O call failing |
| LedgerTraces.ReserveEffect | node/src/io/fragment_ledger.rs:467-521 | a reservation is granted exactly when the ledger is not paused, the size is zero or fits, and the metadata is stored; then the identifier has exactly the asked-for reservation, mark and metadata, and no other identifier changes; refused, nothing changes |
| LedgerTraces.CancelEffect | node/src/io/fragment_ledger.rs:443-465 | nothing is left of a cancelled reservation but a file that could not be removed; its space is given back; no other identifier changes |
| LedgerTraces.CompleteEffect | node/src/io/fragment_ledger.rs:550-593 | a release with the full size succeeds exactly when the marked file is there; the reservation becomes a chunk of that size and the sizes move between the counters |
| LedgerTraces.InterruptEffect | node/src/io/fragment_ledger.rs:594-616 | any other size pauses a durable reservation with its progress and time, and forgets any other but for its metadata |
| LedgerTraces.CommitEffect | node/src/io/fragment_ledger.rs:618-631 | the file of a marked chunk moves to its final name; the mark goes even if that fails |
| LedgerTraces.DeleteEffect | node/src/io/fragment_ledger.rs:787-812 | a delete succeeds exactly for a stored chunk and for a marked reservation that has a file; then nothing is left of the identifier in any map or on disk and the counters drop by what it held; failed, only mark and metadata are lost; no other identifier changes |
| LedgerTraces.RefreshEffect | node/src/io/fragment_ledger.rs:535-541 | only the time of that reservation changes, to now |
| LedgerTraces.AliveEffect | node/src/io/fragment_ledger.rs:634-650 | the times of the reservation and of the mark, as far as they are there, become now; nothing else changes; it fails exactly when neither is there |
| LedgerTraces.WriteEffect | node/src/io/fragment_ledger.rs:411-437 | a write stream starts the unfinished file anew, an append stream continues it |
| LedgerTraces.SweepEffect | node/src/io/fragment_ledger.rs:743-758 | a swept reservation is forgotten; its file and its space go exactly when the file can be removed |
| LedgerTraces.RestartEffect | node/src/io/fragment_ledger.rs:147-214 | a restart keeps the metadata and the committed file of an identifier and records the chunk that the file makes |
| LedgerSweeps.BrokenSweepIsExact | node/src/io/fragment_ledger.rs:727-761 | the sweep succeeds exactly when the file of every reservation idle for over 3600 seconds can be removed; then nothing is left of those, and everything else is spared in any case |
| LedgerSweeps.UncommittedSweepIsExact | node/src/io/fragment_ledger.rs:763-785 | the same for chunks left uncommitted for over 3600 seconds: a successful sweep leaves no stale identifier behind |
| LedgerSweeps.RefreshRestartsClock | node/src/io/fragment_ledger.rs:524-541 | after a refresh, and in every listing, the sweep marks the reservation exactly from 3601 seconds later on; neither its mark nor any other clock changes |
| LedgerSweeps.PauseRestartsClock | node/src/io/fragment_ledger.rs:594-602 | the same for an interrupted durable transfer |
| LedgerSweeps.AliveRestartsClocks | node/src/io/fragment_ledger.rs:634-650 | after a keep-alive both sweeps mark the chunk exactly from 3601 seconds later on |
| LedgerSweeps.RunKeepsLive | node/src/io/fragment_ledger.rs:727-785 | over every run that leaves it alone a chunk survives both sweeps for an hour after its clocks were started: sizes, progress, metadata and files stay |
| LedgerSweeps.AliveProtects | node/src/public/service/file_access_service.rs:573-601 | a successful keep-alive protects the chunk for an hour over every such run |
| LedgerSweeps.PausedTransferWaitsIff | node/src/io/fragment_ledger.rs:543-549 | an interrupted durable transfer is still there at a later sweep of uncommitted chunks exactly up to an hour after its mark was set, not after the interruption |
| LedgerSweeps.PausedTransferIsSweptEarly | docs/FileOperations.md:23-24 | a transfer kept alive and interrupted within the minute is gone less than an hour after the interruption |
| LedgerDisk.StepOnDisk | node/src/io/fragment_ledger.rs:443-812 | each operation keeps every chunk's file at the path its commit state selects, with the recorded length |
| LedgerDisk.RunOnDisk | node/src/io/fragment_ledger.rs:550-631 | the same in every reachable state, restarts included |
| LedgerDisk.RestartRebuilds | node/src/io/fragment_ledger.rs:147-214 | a restart rebuilds exactly the committed chunks, their sums, and finds metadata for each |
| LedgerDisk.SweepsKeepCommitted | node/src/io/fragment_ledger.rs:727-785 | neither sweep touches a committed chunk or its file, whatever fails |
| LedgerDisk.Lifecycle | node/src/io/fragment_ledger.rs:467-631 | reserve, write in two parts, release and commit leave exactly one new chunk under its final name and nothing else changed |
| LedgerDisk.PhysicalIsContentPlusSlack | node/src/io/fragment_ledger.rs:570-593 | the physical counter is the content counter plus the block-rounding slack |
| LedgerDisk.StepFits | node/src/io/fragment_ledger.rs:467-521 | each operation keeps content plus reserved within the limit |
| LedgerDisk.RunFits | node/src/io/fragment_ledger.rs:467-664 | allocation bound in every reachable state of careful runs, restarts included: content plus reserved never exceeds the limit, physical plus reserved exceeds it by at most the slack |
| LedgerDisk.RunFitsBetweenRestarts | node/src/io/fragment_ledger.rs:467-664 | the same between restarts with arbitrary failures and callers |
| LedgerDisk.RestartFits | node/src/io/fragment_ledger.rs:117-214 | a restart keeps the bound and clears every leak |
| LedgerDisk.AppFreeIsExactIff | node/src/io/fragment_ledger.rs:713-725 | the subtraction in the periodic check of the limit does not wrap around exactly when the slack fits beside the content |
| LedgerDisk.RoundedChunkWrapsCheck | node/src/io/fragment_ledger.rs:713-725 | one full-size chunk whose file takes a byte more than its length makes it wrap around |
| UploadSessions.SessionStore.TryUpdateUploadSession | data/src/access/file_access.rs:607-654 | the compare-and-set on the timestamp, with the caller's copy updated in both outcomes |
| UploadSessions.SessionStore.TryLockSession | node/src/public/service/durable_transfer_session_manager.rs:84-100 | wrong local state is refused without touching the row; otherwise one compare-and-set to the target state |
| UploadSessions.SessionStore.EndSession | node/src/public/service/durable_transfer_session_manager.rs:102-110 | the row is gone |
| UploadSessions.StepIsSafe | data/src/access/file_access.rs:607-654 | one step of any client keeps: at most one holder, the holder's copy is the row, equal timestamps mean equal rows |
| UploadSessions.RunIsSafe | data/src/access/file_access.rs:607-654 | the same over every interleaving of reads, locks, keep-alives, interrupts, resumes, ends, crashes and expiry |
| UploadSessions.SessionExclusion | node/src/public/service/file_access_service.rs:291-305 | from a new session no interleaving puts two clients in the Writing phase, and the holder's keep-alive never fails while the row exists |
| UploadSessions.StaleTimestampBreaksExclusion | data/src/access/file_access.rs:617-633 | two clients that read the same row both get the lock exactly when the first writes back the timestamp it read |
| UploadSessions.InterruptedSessionCanBeTakenOver | node/src/public/service/file_access_service.rs:384-434 | after an interruption another client can resume, lock and finish the session |
| UploadSessions.SessionStore.ValidateSession | node/src/public/service/durable_transfer_session_manager.rs:112-127 | a session is ended exactly when its copy was last accessed more than an hour ago, two minutes for a one-shot upload |
| UploadSessions.RefusedUpdateCanBeRetried | data/src/access/file_access.rs:641-653 | an update is applied exactly when the timestamp matches; a refused one leaves the row, and the next with the returned copy is applied |
| UploadSessions.LockSucceedsIff | node/src/public/service/durable_transfer_session_manager.rs:84-100 | in every safe state a client that has read the session gets it exactly when it awaits data and is still as it was read |
| UploadSessions.ResumeSucceedsIff | node/src/public/service/file_access_service.rs:415-437 | a session is made ready again exactly when it is interrupted and still as it was read |
| UploadSessions.KeepAliveRenews | node/src/public/service/file_access_service.rs:593-597 | the holder's keep-alive stamps the row and the session stays held |
| UploadSessions.HolderKeepsSession | node/src/public/service/durable_transfer_session_manager.rs:112-148 | whatever other clients do, a session whose holder does not let go, and which no check finds past its validity, stays with the holder |
| UploadSessions.CheckRemovesIff | node/src/public/service/durable_transfer_session_manager.rs:129-148 | a check of the reserved space removes a session exactly when the copy it read is past its validity |
| UploadSessions.StuckUntilRemoved | node/src/public/service/file_access_service.rs:291-305 | a session left in the Writing phase by a crash can never be locked or resumed again; it stays as it was until it is removed |
| UploadSessions.CrashLeavesSessionStuck | node/src/public/service/file_access_service.rs:291-305 | a crash of the holder leaves such a session |
| DurableUploads.Inbound | node/src/public/service/file_io_service.rs:16-106 | one transfer: refused, cut by this node, complete, or cut by the peer and reported as complete; sizes stay, and a reported success used no more of the stream than got through |
| DurableUploads.LocateIsFirstMissing | node/src/public/service/file_access_service.rs:336-347 | the search finds the chunk and offset of the first missing byte, and fails exactly when nothing is missing |
| DurableUploads.DurableUpload.UploadedSoFar | node/src/public/service/file_access_service.rs:310-318 | the sum of what the chunks report |
| DurableUploads.DurableUpload.FindResumePoint | node/src/public/service/file_access_service.rs:336-352 | the accumulating loop computes that search, -1 when there is no such chunk |
| DurableUploads.DurableUpload.HandleUpload | node/src/public/service/file_access_service.rs:307-382 | the statement-by-statement upload is exactly one round of the model |
| DurableUploads.DurableUpload.TransferChunks | node/src/public/service/file_access_service.rs:357-382 | the loop over the remaining chunks is the recursive transfer; only the first skips and appends |
| DurableUploads.TransferExtends | node/src/public/service/file_access_service.rs:357-382 | a transfer that starts safely and is not cut by a peer extends the laid prefix by exactly the bytes that got through, and completes only with the whole file |
| DurableUploads.RoundExtends | node/src/public/service/file_access_service.rs:307-382 | one such round from any laid prefix finds its place, extends the prefix, and finishes only when the chunks hold the file |
| DurableUploads.RoundKeepsLayoutIff | node/src/public/service/file_access_service.rs:307-382 | an interrupted round keeps a prefix laid out exactly when the resumed chunk is local, was empty, or got all it lacked, and no transfer was cut by a peer |
| DurableUploads.RoundHoldsFileIff | protocol/src/mdsftp/channel.rs:758-767 | a round reported as finished has stored the file exactly when none of its transfers was cut by a peer |
| DurableUploads.FatalIffOverfull | node/src/public/service/file_access_service.rs:349-352 | the search for the resume point fails exactly when the chunks report more than the file has |
| DurableUploads.FreshStartOverwrites | node/src/public/service/file_access_service.rs:357-382 | when nothing is reported an undisturbed round stores the file whatever an earlier attempt left in the chunk files |
| DurableUploads.CompleteTransferLength | node/src/public/service/file_io_service.rs:94-105 | a transfer reported as complete has stored as many bytes as the chunks take exactly when no peer cut it |
| DurableUploads.UploadIsCorrect | node/src/public/service/file_access_service.rs:307-398 | over any sequence of interruptions and resumes whose interrupted rounds keep the layout: never fatal, always a laid prefix, and a finished upload holds the file exactly when no transfer of its last round was cut by a peer |
| DurableUploads.LocalUploadIsCorrect | node/src/public/service/file_io_service.rs:25-70 | for local chunks of any sizes the above holds unconditionally |
| DurableUploads.PositiveChunksAreStored | node/src/public/service/file_access_service.rs:357-382 | with positive sizes a finished upload has stored every chunk's file |
| DurableUploads.RemoteProgressIffFromScratch | node/src/file_transfer/channel_handler.rs:449-477 | an interrupted remote chunk reports what it holds exactly when its channel started from nothing |
| DurableUploads.PeerCutTruncates | protocol/src/mdsftp/channel.rs:758-767 | a peer that goes away after any number of bytes leaves an upload reported as finished with just those bytes |
| DurableUploads.RemoteResumeCorrupts | node/src/file_transfer/channel_handler.rs:449-477 | three attempts on a remote chunk that end as finished with wrong contents |
| DurableUploads.LeadingEmptyChunkIsNeverStored | node/src/public/service/file_access_service.rs:336-347 | an empty chunk in front of all data never gets a file, in any upload |
| DurableUploads.EmptyChunkCanBeLost | node/src/public/service/file_access_service.rs:336-382 | every empty chunk can end up without a file in an upload that reports success |
| DurableUploads.EveryChunkStoredIffAllPositive | node/src/public/service/file_access_service.rs:307-382 | every successful local upload has stored every file exactly when all chunk sizes are positive |
| UploadOnLedger.QueryIsReported | node/src/io/fragment_ledger.rs:354-371 | a query of the ledger answers what the chunk reports |
| UploadOnLedger.QueryFindsIff | node/src/io/fragment_ledger.rs:354-371 | a query finds a chunk exactly when it is reserved or stored |
| UploadOnLedger.LocalRefines | node/src/public/service/file_io_service.rs:25-70 | a transfer on this node, as write and release on the ledger, is the chunk model's transfer and touches no other chunk |
| UploadOnLedger.RemoteRefines | node/src/file_transfer/channel_handler.rs:247-285 | the same on a peer, as refresh, length check, write and release, also when the peer cuts it |
| UploadOnLedger.TransferRenewsClock | node/src/file_transfer/channel_handler.rs:247-285 | a transfer restarts the clock of its reservation, even when a peer refuses it, and a completed chunk is recorded with its size and blocks |
| UploadOnLedger.TransferRefines | node/src/public/service/file_access_service.rs:357-382 | the transfer loop over ledgers of any number of nodes is the chunk model's loop |
| UploadOnLedger.RoundRefines | node/src/public/service/file_access_service.rs:307-382 | one upload request on the ledgers is one round of the chunk model, with the same outcome |
| UploadOnLedger.UploadRefines | node/src/public/service/file_access_service.rs:307-398 | over any number of interrupted attempts the ledgers hold exactly the model's chunks |
| UploadOnLedger.ReservedIsUntouched | node/src/io/fragment_ledger.rs:467-521 | a reservation that was just made is an untouched chunk |
| UploadOnLedger.LedgerUploadIsCorrect | node/src/public/service/file_access_service.rs:307-398 | the same for an upload into fresh reservations on the ledgers of any nodes: never fatal, and when it finishes uncut the ledgers list each chunk of positive size as complete with a file of that size |
| UploadOnLedger.LocalTransferIsCarefulIff | node/src/public/service/file_io_service.rs:50-70 | a local transfer writes only to its reservation and releases it with the size on disk exactly when it was cut or continued where the file ended |
| UploadOnLedger.RemoteTransferIsCarefulIff | node/src/file_transfer/channel_handler.rs:449-477 | a transfer on a peer releases with the size on disk exactly when all arrived behind what the file held, or the file kept nothing |
| ChunkRanges.SentinelIsUnambiguous | protocol/src/mdsftp/data.rs:197-217 | a proper range is taken for the whole chunk exactly when its bounds sum to 2^64 |
| RangedRead.ComputeChunkRanges | node/src/public/service/file_access_service.rs:624-652 | the slicing loop, including that the range constructor never refuses |
| RangedRead.SliceDelivers | node/src/public/service/file_access_service.rs:633-648 | one chunk contributes exactly its part of the range, and a partial slice is never the sentinel |
| RangedRead.SliceIsTight | node/src/public/service/file_access_service.rs:633-648 | a chunk is skipped exactly when it has no part in the range, and asked for whole exactly when it is all in it |
| RangedRead.RangedReadIsExact | node/src/public/service/file_access_service.rs:614-666 | for every satisfiable range and all chunk lists the slices sent concatenate to that range of the file |
| RangedRead.FullReadIsExact | node/src/public/service/file_io_service.rs:108-156 | without a range the whole file is sent |
| ChunkTransfer.StepInv | node/src/file_transfer/transfer_manager.rs:32-82 | every sender and receiver step keeps the window and the contents of both queues |
| ChunkTransfer.TransferIsSafe | node/src/file_transfer/transfer_manager.rs:32-153 | in every schedule: received bytes are a prefix of the slice, at most buffer + 1 chunks unacknowledged, exactly the final one marked last, no 32-bit overflow, and finished means the slice arrived |
| ChunkTransfer.WindowIsExact | node/src/file_transfer/transfer_manager.rs:47-58 | a waiting sender goes on exactly when at most `chunk_buffer` of its chunks are unacknowledged, and otherwise takes the next acknowledgement |
| ChunkTransfer.ChunksAreFragments | node/src/file_transfer/transfer_manager.rs:32-72 | every chunk on the wire is a full fragment, except that the last may be shorter |
| ChunkTransfer.TransferNeverStalls | node/src/file_transfer/transfer_manager.rs:47-81 | if nobody can move the sender is done: a waiting sender always has a chunk or an acknowledgement in flight |
| ChunkTransfer.StepDecreases | node/src/file_transfer/transfer_manager.rs:32-82 | every move strictly decreases a natural measure |
| ChunkTransfer.TransferCompletes | node/src/file_transfer/channel_handler.rs:150-210 | total correctness: boundedly many moves, and at rest the receiver holds exactly the slice |
| ChunkTransfer.RangeTransferDelivers | node/src/file_transfer/transfer_manager.rs:13-30 | sending a range of a stored chunk delivers that range |
| ChunkTransfer.EmptyChunkIffEmptyTransfer | node/src/file_transfer/transfer_manager.rs:61-72 | an empty chunk goes on the wire exactly when the transfer is empty |
| ChunkTransfer.TooManyFragmentsAreRefused | node/src/file_transfer/transfer_manager.rs:99-103 | more fragments than 32 bits can number are refused before anything is sent |
| Placement.PushMostUsed | node/src/public/service/reservation_service.rs:197-226 | the loop appends the greedy allocation over peers by descending free space, skipping nodes already listed |
| Placement.ResolveTargets | node/src/public/service/reservation_service.rs:44-70 | own share first in one mode, then the greedy allocation of the rest |
| Placement.PlacementConserves | node/src/public/service/reservation_service.rs:44-70 | allocated sizes plus the remainder equal the request, and the remainder is what the request exceeds the free space of this node and all other listed nodes by |
| Placement.PlacementFits | node/src/public/service/reservation_service.rs:44-70 | nodes are distinct, none is asked for more than it has, and none but this one (if preferred) is outside the list of nodes |
| Placement.PlacementIsMinimal | node/src/public/service/reservation_service.rs:197-226 | when all is placed, no choice of fewer listed nodes could hold what this node does not |
| Placement.EmptyTargetIsOwn | node/src/public/service/reservation_service.rs:54-64 | only this node's own target can be empty, exactly when it is full or the request is empty |
| ClusterReservation.CancelUndoesReserve | node/src/io/fragment_ledger.rs:443-521 | cancelling a fresh reservation gives back the very same ledger |
| ClusterReservation.CancelSucceedsIffOpened | node/src/io/fragment_ledger.rs:443-465 | that cancellation is reported as a success exactly when the file had been opened |
| ClusterReservation.Cluster.ReserveChunks | node/src/public/service/reservation_service.rs:101-139 | it succeeds exactly when every target answers, is not paused and has room, and then every target holds its reservation; otherwise this node and every peer the cancellation reached are exactly as before, and any other node has at most its own reservation left |
| ClusterReservation.Cluster.Rollback | node/src/public/service/reservation_service.rs:122-134 | cancelling the acquired fragments restores every ledger it reaches |
| ClusterReservation.SortRestoresFragmentsIffFew | node/src/public/service/reservation_service.rs:32-42 | however the chunk set is listed, the i-th chunk after sorting names node, chunk and size of fragment i exactly when there are at most 128 |
| ClusterReservation.Cluster.ReserveFile | node/src/public/service/reservation_service.rs:72-139 | placement, second try with refreshed peers, reservation and recording: it succeeds exactly when the request fits and every target grants its share, and then the sorted chunks are on different nodes that hold reservations of these sizes under these identifiers, adding up to the request |
| BigEndian.FromTo | protocol/src/mdsftp/net/wire.rs:21-33 | reading a written big-endian field gives the number modulo what the width holds |
| BigEndian.ToFrom | protocol/src/mdsftp/net/wire.rs:21-33 | writing a read field gives the bytes back |
| BigEndian.MostSignificantFirst | protocol/src/mdsftp/net/wire.rs:21-33 | the first byte counts most |
| MdsftpPackets.KindOf | protocol/src/mdsftp/net/packet_type.rs:3-28 | a byte names a packet kind exactly when it is one of the ids |
| MdsftpPackets.PayloadLength | protocol/src/mdsftp/net/packet_type.rs:36-61 | every encoder writes exactly the payload size declared for its kind; a file chunk five bytes and its content |
| MdsftpPackets.ReserveFlagsRoundTrip | protocol/src/mdsftp/data.rs:76-94 | reserve flags survive their byte |
| MdsftpPackets.CommitFlagsRoundTrip | protocol/src/mdsftp/data.rs:148-162 | commit flags survive their byte |
| MdsftpPackets.RetrieveRoundTrip | protocol/src/mdsftp/channel.rs:342-351 | a retrieve request decodes to its id, buffer and range, the range by the sentinel rule |
| MdsftpPackets.ReserveRoundTrip | protocol/src/mdsftp/channel.rs:256-267 | a reserve request decodes to its flags, size and both ids |
| MdsftpPackets.ChunkRoundTrip | protocol/src/mdsftp/channel.rs:408-430 | a nonempty file chunk decodes to its flag, index and content |
| MdsftpPackets.PacketRoundTrip | protocol/src/mdsftp/channel.rs:485-737 | every packet of every kind passes pre-validation and decodes to what it is meant to deliver |
| MdsftpPackets.ArrivesAsSentIff | protocol/src/mdsftp/channel.rs:485-650 | the bytes of a packet are accepted and decode to the packet itself exactly when it is no lock failure, no negative query answer, no empty file chunk, and its range is proper and does not sum to 2^64 |
| MdsftpPackets.OtherwiseArrives | protocol/src/mdsftp/channel.rs:485-650 | what the receiver gets of every other packet but a file chunk |
| MdsftpPackets.PayloadIsTabulated | docs/MDSFTPProtocol.md:15-160 | every packet has the id, and its fields the order and widths, of the documented tables |
| MdsftpFraming.WriteHeader | protocol/src/mdsftp/net/wire.rs:29-33 | the nine bytes written in place |
| MdsftpFraming.PacketWriter.constructor | protocol/src/mdsftp/net/packet_writer.rs:18-24 | an empty stream and a fresh header buffer |
| MdsftpFraming.PacketWriter.WriteRawPacket | protocol/src/mdsftp/net/packet_writer.rs:26-49 | the stream grows by header and payload |
| MdsftpFraming.PacketWriter.WriteChunk | protocol/src/mdsftp/net/packet_writer.rs:52-77 | the stream grows by header and both payload parts, with the length cast to 32 bits |
| MdsftpFraming.PacketWriter.Send | protocol/src/mdsftp/channel.rs:245-430 | what every send method puts on the stream |
| MdsftpFraming.Start | protocol/src/mdsftp/net/packet_reader.rs:84-127 | the read loop returns the recursive reading and the reason it stopped |
| MdsftpFraming.FrameIsRead | protocol/src/mdsftp/net/packet_reader.rs:84-127 | a well-sized frame is taken off the front of any stream as it was put on |
| MdsftpFraming.BadLengthStops | protocol/src/mdsftp/net/validate.rs:9-17 | a frame whose length its kind does not allow ends the connection |
| MdsftpFraming.HeaderIsTabulated | docs/MDSFTPProtocol.md:7-13 | the header is packet id, stream id and payload size, of one, four and four bytes |
| MdsftpFraming.FixedFrameIsReadIff | protocol/src/mdsftp/net/validate.rs:9-17 | a frame of any kind but a file chunk is read exactly when its payload has the length of that kind's packets; otherwise the connection ends |
| MdsftpFraming.UnknownKindStops | protocol/src/mdsftp/net/packet_reader.rs:84-127 | an id that names no packet kind ends the connection |
| MdsftpFraming.TruncatedFrameStops | protocol/src/mdsftp/net/packet_reader.rs:84-127 | a frame that breaks off anywhere ends the connection and nothing of it is delivered |
| MdsftpFraming.BrokenStreamDeliversPrefix | protocol/src/mdsftp/net/packet_reader.rs:84-127 | wherever the bytes of a conversation break off, what is read is a prefix of what would have been |
| MdsftpFraming.ChunkIsReadIff | protocol/src/mdsftp/net/packet_writer.rs:52-77 | a file chunk survives framing exactly when it is not empty and its length fits 32 bits |
| MdsftpFraming.ConversationIsRecovered | protocol/src/mdsftp/net/packet_reader.rs:84-127 | from the bytes of any sequence of packets on any channels, reader and decoder recover what each delivers, in order, up to the first empty file chunk |
| MdsftpFraming.ConversationArrivesAsSentIff | protocol/src/mdsftp/net/packet_reader.rs:84-127 | a whole conversation arrives as it was sent, packet by packet, exactly when every packet is of that kind |
| SchemaCodec.SerializePacket | protocol_macro/src/structs/serializer.rs:50-112 | the encoder loop with the patched length field writes header and body |
| SchemaCodec.ParsePayload | protocol_macro/src/structs/dispatcher.rs:33-115 | the decoder loop over offset and size, panicking on a slice out of bounds |
| SchemaCodec.ValidateLength | protocol_macro/src/traits/validator.rs:21-89 | the accumulated length check |
| SchemaCodec.EncodedLengthIsValid | protocol_macro/src/traits/validator.rs:76-88 | the length of every encoded packet is accepted |
| SchemaCodec.ValidLengthIff | protocol_macro/src/traits/validator.rs:21-89 | a payload length is accepted exactly when some packet of the variant has it |
| SchemaCodec.AllFixedIsTotal | protocol_macro/src/structs/dispatcher.rs:40-53 | without variable fields an accepted length keeps every slice in bounds, and decoding is inverse to encoding |
| SchemaCodec.DecodeInverts | protocol_macro/src/structs/dispatcher.rs:33-115 | whatever is decoded, its encoding stands at the front of the payload |
| SchemaCodec.MisplacedTrailerPanics | protocol_macro/src/structs/dispatcher.rs:54-66 | with a trailing variable field that is not first and does not follow a single fixed field the decoder panics on every payload |
| SchemaCodec.DispatchRecoversIff | protocol_macro/src/structs/dispatcher.rs:130-165 | a packet of any variant is read back exactly when its trailing variable field is well placed and its payload length fits 32 bits |
| BucketCounters.BucketRow.UpdateBucketSpace | data/src/access/file_access.rs:474-518 | the retry loop under arbitrary interference adds the delta exactly once or not at all, and fails exactly when every attempt was overtaken |
| BucketCounters.StepKeepsInv | data/src/access/file_access.rs:485-511 | one attempt, retry or lost connection of any caller keeps the row equal to the start plus the logged updates |
| BucketCounters.NothingIsLost | data/src/access/file_access.rs:474-518 | in every interleaving file count and bytes are, each for itself, the start plus the sum over exactly the applied calls, each once |
| BucketCounters.UndisturbedCallApplies | data/src/access/file_access.rs:485-511 | a call nobody gets in the way of adds its delta at the first attempt exactly when its copy was current, and at the second at the latest |
| BucketCounters.LostReplyIsAmbiguous | data/src/access/file_access.rs:485-511 | a call whose connection is lost has had either the whole effect of a successful attempt or none |
| BucketCounters.GivesUpOnlyUnderContention | data/src/access/file_access.rs:472-518 | a call that gives up was overtaken by at least 2047 other updates |
| FileTables.FinishKeepsExactIff | node/src/public/service/file_access_service.rs:499-511 | finishing an upload keeps the counters exact exactly when the old file it recorded is the one in the table |
| FileTables.RenameKeepsExactIff | node/src/public/service/file_action_service.rs:60-115 | renaming keeps the counters exact exactly when the file is not renamed to its own key; that case rests on the order of the batch (delete, then insert) |
| FileTables.StepKeepsExactIff | data/src/access/file_access.rs:424-437 | a request keeps count and size sum exact exactly when what it acts on is current |
| FileTables.CountersAreExact | data/src/access/file_access.rs:535-548 | over every run of current requests file_count and space_taken are the count and the size sum of the table |
| FileTables.StepOnFiles | data/src/access/file_access.rs:359-373 | a rename leaves the old file under the target and none under the old key, an upload its file, a deletion none; no other key changes |
| FileTables.FilesFollowHistory | node/src/public/service/file_action_service.rs:60-115 | over every run of requests each key holds what the last request about it says |
| Quotas.CheckAccepts | node/src/public/service/file_access_service.rs:84-95 | the wrapping comparison accepts what fits, and everything whose exact sum reaches 2^63 |
| Quotas.StartUploadKeepsIff | node/src/public/service/file_access_service.rs:227-238 | starting an upload keeps the bucket within its quota exactly when the exact sum is below 2^63, or the file it overwrites frees what it lacks |
| Quotas.FinishUploadKeepsIff | node/src/public/service/file_access_service.rs:499-515 | finishing keeps the quota exactly when the session is still there or there is room without it |
| Quotas.CreateBucketKeepsIff | dashboard/src/public/service/bucket_service.rs:40-71 | creating a bucket keeps the application quota exactly when the exact sum is below 2^63 |
| Quotas.EditBucketKeepsIff | dashboard/src/public/service/bucket_service.rs:129-151 | editing a bucket quota keeps both quotas exactly when the exact sum is below 2^63 or the request is refused as negative |
| Quotas.StepKeepsQuotaIff | dashboard/src/public/service/application_service.rs:57-70 | every request keeps all quotas exactly under its stated bound, editing the application always |
| Quotas.QuotasHold | dashboard/src/public/service/bucket_service.rs:40-151 | over every run of in-bounds requests bucket quotas stay within the application's, and files plus sessions within the bucket's |
| Quotas.UploadIsGrantedIff | node/src/public/service/file_access_service.rs:227-238 | an upload is granted exactly when it fits beside files and unexpired sessions or the sum reaches 2^63; expired sessions and the overwritten file go in any case |
| Quotas.BucketStepEffect | node/src/public/service/file_access_service.rs:499-515 | finishing, ending, deleting and renaming change exactly the session and the files they name |
| Quotas.BucketIsCreatedIff | dashboard/src/public/service/bucket_service.rs:40-71 | a bucket is created exactly when its quota fits or the sum reaches 2^63, and it is empty |
| Quotas.BucketIsEditedIff | dashboard/src/public/service/bucket_service.rs:129-151 | a bucket quota is changed exactly when it covers what the bucket holds and fits or makes the sum reach 2^63 |
| Quotas.AppIsEditedIff | dashboard/src/public/service/application_service.rs:57-70 | an application quota is changed exactly when it exceeds what its buckets were given and fits the user's quota, or makes that sum reach 2^63 |
| Quotas.OtherBucketsAreKept | dashboard/src/public/service/bucket_service.rs:40-151 | a request touches no bucket but its own |
| Quotas.HugeUploadIsGranted | node/src/public/service/file_access_service.rs:227-238 | 2^63 bytes are granted in a bucket of ten |
| Quotas.ExpiredUploadExceedsQuota | node/src/public/service/durable_transfer_session_manager.rs:112-148 | two uploads of ten bytes end up in a bucket of ten when the first one's session expires while it runs |
| Quotas.Application.UsedQuota | dashboard/src/public/service/application_service.rs:224-234 | the summing loop over the buckets, without wrap-around |
| Quotas.Application.CreateBucket | dashboard/src/public/service/bucket_service.rs:40-71 | the listing loop and the check are exactly the atomic request |
| Quotas.Application.EditBucket | dashboard/src/public/service/bucket_service.rs:129-151 | both checks and the assignment are exactly the atomic request, and the answer says whether it was granted |
| Quotas.Application.GetReservedSpace | node/src/public/service/durable_transfer_session_manager.rs:129-148 | expired sessions are removed, the others summed without wrap-around |
| Quotas.Application.StartUpload | node/src/public/service/file_access_service.rs:227-275 | the check and the session insert are exactly the atomic request |
| LockTables.StepKeepsInv | node/src/locking/file_lock_table.rs:51-163 | every lock attempt, drop and removal keeps held plus available permits of each lock object at the maximum |
| LockTables.ObjectExclusion | node/src/locking/file_write_guard.rs:15-41 | in every run a writer excludes everyone else on the same lock object |
| LockTables.TryLockAdmitsIff | node/src/locking/file_read_guard.rs:15-37 | counting guards: a writer is let in exactly when the lock object has no guard, a reader exactly when it has no writer and fewer than the maximum of readers; refused, nothing changes |
| LockTables.DropSpawnsRemovalIff | node/src/locking/file_lock_table.rs:137-163 | dropping a guard spawns the removal exactly when the table still holds its lock object and no other guard is on it |
| LockTables.StepKeepsSharedIff | node/src/locking/file_lock_table.rs:137-163 | the guards of a key stop sharing one lock object exactly when a spawned removal runs while the key is in use |
| LockTables.SplitKeyAdmitsWriter | node/src/locking/file_lock_table.rs:75-85 | after such a removal a writer gets in beside the guard that is still there |
| LockTables.QuietRunsExclude | node/src/locking/file_lock_table.rs:51-163 | in every run without an acquisition between a release and its removal, a writer of a key excludes everyone |
| LockTables.LateRemovalBreaksExclusion | node/src/locking/file_lock_table.rs:137-163 | after any run that leaves the key unused, five further steps put a reader beside a writer |
| LockTables.FileLockTable.constructor | node/src/locking/file_lock_table.rs:44-49 | an empty table |
| LockTables.FileLockTable.TryLock | node/src/locking/file_lock_table.rs:51-85 | entry, lock object, permits and guard are exactly the atomic attempt, and it succeeds exactly when the guards that are there admit it |
| LockTables.FileLockTable.Drop | node/src/locking/file_read_guard.rs:40-46 | spawn decision and returned permits are exactly the atomic drop |
| LockTables.FileLockTable.RunRemoval | node/src/locking/file_lock_table.rs:144-147 | the spawned task removes whatever the table then holds for the key |
| Directories.DirectoryTable.TryMkdir | node/src/public/service/file_access_service.rs:522-571 | terminates, returns the row the path splits to, keeps every existing row, adds only rows of its lineage, keeps parents findable, keeps a tree exactly when the row is new and proper or was there, and makes a row for the root exactly when the path begins with a dot component |
| Directories.DirectoryTable.MissingAncestors | node/src/public/service/file_access_service.rs:537-549 | the climb over split parents terminates and collects exactly the missing rows up to the nearest existing ancestor |
| Directories.DirectoryTable.CreateAll | node/src/public/service/file_access_service.rs:553-568 | inserting the collected rows changes nothing else |
| Directories.DirectoryTable.Descendants | data/src/access/file_access.rs:56-101 | from a directory whose full path is not empty the breadth-first iterator terminates and yields each row below it exactly once, nothing else, by depth |
| Directories.RowOfPathIff | data/src/access/file_access.rs:104-125 | the row found for a normal path is proper and has that full path exactly when no component is a dot |
| Directories.IteratorEndsIff | data/src/access/file_access.rs:56-101 | started from a row of the table, with children listed in any order, the iterator ends exactly when the full path of the row is not empty |
| Directories.FullPathIsInjective | data/src/model/file_model.rs:62-66 | rows with the same full path are the same row |
| Directories.BelowInTree | data/src/access/file_access.rs:56-101 | in a tree the rows below a directory are exactly those whose full path goes on from its own |
| Directories.MkdirMakesRootIff | node/src/public/service/file_access_service.rs:537-563 | making a directory gives the root a row exactly when its path begins with a dot component |
| Directories.DotDotIsRoot | data/src/pathlib.rs:16-30 | the path ".." is accepted and its row is that of the root |
| Directories.DotDotNeverEnds | node/src/public/service/directory_action_service.rs:21-29 | once ".." has been made, listing what is below it never ends |
| Paths.NormalizeSplitsAndJoins | data/src/pathlib.rs:55-60 | normalising equals splitting on both separators, dropping empty names and joining with a slash |
| Paths.NormalizeIsIdempotent | data/src/pathlib.rs:44-60 | normalising twice is normalising once, with the same names |
| Paths.NormalizeGivesNormalForm | data/src/pathlib.rs:55-60 | a normalised path has no backslash, no slash at either end and no two slashes in a row |
| Paths.PathIsAcceptedIff | data/src/pathlib.rs:81-95 | a path shorter than 2^32 is accepted exactly when it, and what its names make, are not too long and it has no more names than the depth allows |
| Paths.PreparedPath | data/src/pathlib.rs:81-95 | a prepared path is normalised, prepares to itself, and meets both limits exactly when it is shorter than 2^32 |
| Paths.SplitThenJoinIff | data/src/pathlib.rs:16-38 | split then join gives a normalised path back exactly when its name is a real one and is not preceded by an inner dot |
| Paths.DotNamesTheSameFile | node/src/public/service/file_action_service.rs:66-72 | two different prepared paths with the same parent and name, so the equality test before a rename does not rule out a rename to the same key |

## Left out

- LedgerDisk.RunOnDisk: assumes that callers write only to reservations, release with the size on disk and commit only completed chunks, and that renaming or deleting a stored chunk's file does not fail; after such a failure the file and the maps do disagree.
- LedgerDisk.RunFits: assumes of callers what `RunOnDisk` does, because a restart trusts the disk; `RunFitsBetweenRestarts` assumes nothing of them.
- UploadOnLedger.LedgerUploadIsCorrect: no sweep, cancel or delete of the session's own chunks comes in between; `AliveProtects` says for how long a keep-alive prevents the sweeps.
- DurableUploads.UploadIsCorrect: says nothing of a run after an interrupted round that broke the layout; `RoundKeepsLayoutIff` says exactly which rounds do.
- Directories.DirectoryTable.TryMkdir: a failing database call is not told apart from a missing row.
- UploadSessions.HolderKeepsSession: assumes that no check goes by a copy older than its validity, because a check removes the row without looking at it again.
- ClusterReservation.Cluster.ReserveChunks: a peer that reserves but whose answer is lost is not modelled; the coordinator sees an error and does not cancel there.
- Paths.PreparedPath: the configured maximum length plus 32 is taken to fit 32 bits, as any configuration's does.
- Paths.SplitThenJoinIff: splitting is modelled on prepared (relative, slash-separated) paths, by the documented component rules of the standard library's paths.
- SchemaCodec.DispatchRecoversIff: a string field is its bytes; a trailing string does not compile, and floating-point and `usize` fields have no length rule, so neither is a schema here.
- LockTables.FileLockTable.TryLock: the waiting variants `read` and `write` are left out; dropping a guard is one step, so two readers that leave at the same instant and both skip the removal are not seen.
- BucketCounters.NothingIsLost: an answer to the conditional update that carries no row at all is not modelled.
- Lock order and deadlock of the ledger's asynchronous locks: operations are atomic here.
- Which call waits for which answer on an MDSFTP channel, channel opening and closing, and the connection pool.
- The removal of orphaned fragments and the metadata repair at start-up (both walk the database).
- User quotas over applications: the same shape as application quotas over buckets.
- Directory rename, recursive directory delete, chunk migration and pagination: what their code computes does not support the property one would state.
- Heartbeats, reconnects, certificates, permissions, HTTP routes, configuration: libraries, clocks or plumbing.
