# Diwan: verified models of its protocol engines

Diwan is a self-hosted office suite. Several of its back-end components are small protocol engines whose whole behaviour is visible in the code. This project models them in Dafny and proves what they are for.

| files | component |
|---|---|
| `Canonical`, `Rendezvous`, `RendezvousAdmission`, `RendezvousReplay`, `RendezvousBounds`, `RendezvousOutcomes`, `RendezvousWaiters`, `RendezvousProvenance`, `RendezvousService` | the in-memory signalling service: signed requests, replay cache, presence, capped queues, long-polling |
| `UpdateLog`, `Convergence`, `UpdateClients` | the compacting log of CRDT updates, on files and in PostgreSQL, and the clients that compact it |
| `DocText`, `Diff` | text extraction from document JSON, and the line diff |
| `TokenBucket` | the per-key rate limiter |
| `ShareLinks` | the share-link directory and its crash-safe conversion |
| `ProtectedRanges` | the gate on spreadsheet writes |
| `PdfSearch`, `PdfFallback`, `Seal`, `SealPrinter`, `SealOffsets` | sealing a PDF with an audit manifest and finding the manifest again |
| `Folders` | the folder tree |
| `Quota` | storage reservations |
| `AuditChain` | the audit hash chain |

The shape is the same throughout. The operations are stated once as functions on a state value. A class or a method carries the imperative code (loops, maps and fields that change) and its contract equates the new state with such a function. The theorems are lemmas about the functions, most of them over whole runs: sequences of events in any order, with a clock that does not go back, and with crashes where the code can crash. `dafny verify dfyconfig.toml` checks everything.

Results that a reader of the code's comments may not expect:

* A used envelope becomes acceptable a second time at one single instant: when its timestamp lay exactly one clock skew ahead of its first acceptance, and exactly two skews have passed (`RendezvousReplay.ReplayWindow`).
* Compaction can drop a peer's unmerged work, although the comment at backend/updatelog/updatelog.go:25-27 says it never can. The clients take the seq of their own append for covered (web/src/lib/collab/updateLog.ts:189, and opLogSync.ts:188 alike), frames of others below it included, and post it as the floor of their snapshots: two clients suffice (`UpdateClients.OverclaimLosesWork`). Over disjoint updates an accepted compaction serves every client if and only if its poster had merged what it claims, and a claim survives an append if and only if nothing unmerged lies below the new seq (`UpdateClients.CompactionServesIff`, `UpdateClients.FlushCoversIff`). Runs of clients that merge before they append lose nothing (`UpdateClients.CarefulRunLosesNothing`).
* The database log converges like the file log only when its load is one atomic read. Its three statements can straddle a compaction, and then frames are missing (`Convergence.SplitLoadMissesExactly`, `Convergence.SplitLoadCanLose`). The client still converges when every update pruned in between is in what it holds or in the snapshot it was sent, and over disjoint sets only then (`Convergence.SplitLoadConverges`, `Convergence.SplitLoadConvergesIff`). A further load from the head that it was answered repairs the loss exactly when the floor has passed that head by then (`Convergence.NextLoadRepairsIff`).
* The token bucket keeps its rate bound exactly when its capacity is at least one, and exactly then no caller can tell that idle buckets are dropped (`TokenBucket.RateBoundNeedsCapacity`, `TokenBucket.PruningNeedsCapacity`).
* The embedded manifest of a sealed file is recovered if and only if neither the source nor the certificate text holds an embedded-file dictionary, or what the first search reads in the certified bytes is no manifest, no quoted `envelope_id` stands there, and counting the manifest's braces ends at its last one; otherwise just that is found which the certified bytes alone show (`Seal.ManifestRecovered`). With a recovered manifest the digest check passes exactly when neither input holds a line that opens object 10101 (`Seal.SealThenVerify`).
* The comment at backend/handlers/verify.go:177-179 says that any change in front of the manifest is noticed. It is not: bytes inserted right behind the certified bytes pass as long as they begin with the line that opens object 10101. Among replacements of everything in front of the attached section, with the manifest still found, that is the only one that passes, short of a digest collision (`Seal.AlteredFrontVerifies`, `Seal.InsertionUnnoticed`). Behind the section nothing is looked at: a later incremental update never changes the verdict (`Seal.AppendedUnnoticed`).
* When the folder listing fails, `isDescendant` answers "no", so a reparent can then close a cycle; the contract of `Folders.FolderStore.Reparent` says exactly when.
* An audit event appended while the listing fails breaks the chain unless it is the first one (`AuditChain.AppendKeepsIntact`).
* The storage gate compares an int64 sum, so it is exact precisely as long as that sum is an int64 (`Quota.GateExactUnlessWrapped`). The amount in `Quota.WrapExample` can be passed only at the boundary of the function itself: the handlers pass the length of a body held in memory (such as backend/handlers/files.go:160 and backend/handlers/upload.go:98).
* The decimal formatter gives "-" for the least int64 (`Canonical.ItoaParsesBack`).

Modelling decisions: times are integers in nanoseconds (seconds as reals in `TokenBucket`); Go strings are Dafny strings with one character per byte, or per code point in `DocText` and `SealPrinter.PdfStr`; tables and directories are maps; int64 wrap-around is written out where it can matter (`Common.Wrap64`). Ed25519, SHA-256, JSON and base64 are function parameters. Where a theorem needs one of them to be collision-free or to round-trip, it is a precondition of that theorem about the values in play only: the events of the two chains in `AuditChain.LastHashFixesChain`, the certified bytes and the bytes hashed again in `Seal.SealThenVerify`, the manifest of one digest in `Seal.Codec.Sound`. A client's document is an element of a join semilattice; where a converse needs to tell updates apart it is a set, and updates are disjoint.

## Model

| member | source | states |
|---|---|---|
| `Canonical.Be32` | backend/rendezvous/rendezvous.go:215-221 | a length prefix is four bytes, and read big-endian they are the length modulo 2^32 |
| `Canonical.PrefixReadsBack` | backend/rendezvous/rendezvous.go:215-221 | a big-endian length below 2^32 is recovered from its prefix |
| `Canonical.DecodeInvertsSegments` | backend/rendezvous/rendezvous.go:207-224 | a decoder inverts the length-prefixed encoding on every list of fields shorter than 2^32 bytes |
| `Canonical.EncodeInjective` | backend/rendezvous/rendezvous.go:207-224 | equal canonical messages have equal domain tags and equal field lists, of any lengths |
| `Canonical.LongFieldLosesItsLength` | backend/rendezvous/rendezvous.go:215-221 | a field of 2^32 bytes has the prefix of the empty one, so the length bound is needed |
| `Canonical.Put` | backend/rendezvous/rendezvous.go:214-221 | writes one prefixed segment at an offset and leaves what is before it |
| `Canonical.TotalLength` | backend/rendezvous/rendezvous.go:208-213 | the size computed for the buffer is the length of the message |
| `Canonical.CanonicalMessage` | backend/rendezvous/rendezvous.go:207-224 | filling the preallocated buffer by offset yields the encoding |
| `Canonical.ItoaParsesBack` | backend/rendezvous/service.go:486-507 | base-10 parsing inverts itoa on exactly the int64 values other than the least, which gives "-" |
| `Canonical.ItoaInjective` | backend/rendezvous/service.go:486-507 | no two int64 values share a spelling |
| `Canonical.NineteenDigits` | backend/rendezvous/service.go:486-507 | the 20-byte buffer always has room for digits and sign |
| `Canonical.WriteDigits` | backend/rendezvous/service.go:495-501 | the backward digit loop leaves the decimal digits at the end of the buffer |
| `Canonical.FormatInt` | backend/rendezvous/service.go:486-507 | the in-place formatter is itoa |
| `Rendezvous.WithDefaults` | backend/rendezvous/rendezvous.go:304-364 | New leaves every limit positive, keeps each limit that was, and replaces each of the others by its default |
| `RendezvousAdmission.AnnounceAdmitted` | backend/rendezvous/service.go:46-75 | which announces pass their checks and which error each fault gets: key, meta and endpoint limits, and the signature over the fields in order |
| `RendezvousAdmission.WithdrawAdmitted` | backend/rendezvous/service.go:108-120 | which withdrawals pass: a key that signed its own fields |
| `RendezvousAdmission.DepositAdmitted` | backend/rendezvous/service.go:188-221 | which deposits pass, and the error of each fault, in the order of the checks: path, keys, decoding, size, the sender's signature under the domain of the kind |
| `RendezvousAdmission.PollAdmitted` | backend/rendezvous/service.go:296-325 | which polls pass: the path names the key, and it signed them under the domain of the kind |
| `RendezvousAdmission.AckAdmitted` | backend/rendezvous/service.go:422-447 | which acks pass: as polls, with at most the allowed number of ids, each of them signed |
| `RendezvousAdmission.FreshAdmitted` | backend/rendezvous/rendezvous.go:388-414 | an envelope is fresh if and only if its nonce has 1 to 128 bytes, its timestamp is within one skew either way, its name is not remembered, and the cache has room or gets it by forgetting expired nonces; otherwise which error it gets |
| `RendezvousAdmission.RoomAdmits` | backend/rendezvous/rendezvous.go:484-503 | a checked request is refused if and only if it needs a new key while MaxKeys are in use after the sweep, and then for want of capacity |
| `RendezvousAdmission.ServedInOrder` | backend/rendezvous/service.go:46-91 | the first check that fails decides the answer, and a malformed request changes nothing |
| `RendezvousAdmission.ParkAdmits` | backend/rendezvous/service.go:364-380 | park adds the caller if and only if the queue has no unexpired blob and its key is in use or finds room |
| `RendezvousAdmission.SweepLeavesNothingExpired` | backend/rendezvous/rendezvous.go:429-466 | after a due sweep no expired record, blob or nonce is left, and every key still in use holds state |
| `RendezvousAdmission.EarlySweepDoesNothing` | backend/rendezvous/rendezvous.go:429-436 | a sweep within thirty seconds of the last changes nothing |
| `RendezvousReplay.SameBytesSameOperation` | backend/rendezvous/rendezvous.go:207-224 | requests with equal signed bytes are the same operation with the same signed fields |
| `RendezvousReplay.NonceIdInjective` | backend/rendezvous/rendezvous.go:388-414 | one envelope is never refused because of another one's nonce: cache names fix domain, signer and nonce |
| `RendezvousReplay.StepTreatsNonces` | backend/rendezvous/rendezvous.go:388-422 | no operation, refusal or sweep forgets a nonce before its expiry, and no nonce outlives twice the skew |
| `RendezvousReplay.RunTreatsNonces` | backend/rendezvous/rendezvous.go:388-422 | the same over every run |
| `RendezvousReplay.AcceptedAgainOnlyAtTheEdge` | backend/rendezvous/rendezvous.go:388-414 | whatever happens in between, a second acceptance implies timestamp T+skew and instant T+2*skew exactly |
| `RendezvousReplay.ReplayWindow` | backend/rendezvous/rendezvous.go:388-422 | in every reachable state, an accepted envelope is acceptable again in some continuation if and only if its timestamp is exactly one skew ahead |
| `RendezvousBounds.LiveIsExact` | backend/rendezvous/rendezvous.go:429-466 | a prune keeps a blob exactly when it has not expired |
| `RendezvousBounds.EvictKeepsLongestSuffix` | backend/rendezvous/service.go:231-254 | oldest-first eviction leaves a suffix within both caps, and no longer one fits |
| `RendezvousBounds.NewestSurvives` | backend/rendezvous/service.go:231-254 | the new blob survives its own deposit if and only if it is within the byte cap |
| `RendezvousBounds.DepositOutcome` | backend/rendezvous/service.go:188-254 | after a deposit the queue is the longest suffix of old ++ [new] that meets both caps, and every other queue is untouched |
| `RendezvousBounds.AckOfConcat` | backend/rendezvous/service.go:447-468 | an ack acts blob by blob, so order is kept |
| `RendezvousBounds.AckIsExact` | backend/rendezvous/service.go:447-468 | an ack removes exactly the named ids, and the reported count is the number removed |
| `RendezvousBounds.GcInvisible` | backend/rendezvous/rendezvous.go:429-466 | running gc changes no answer of Read or Resolve, then or at any later time |
| `RendezvousBounds.GcKeepsWaiters` | backend/rendezvous/rendezvous.go:429-466 | gc removes no queue that someone waits on |
| `RendezvousBounds.LifetimeBounded` | backend/rendezvous/service.go:474-482 | a lifetime is positive and at most the larger of default and maximum, even when the int64 multiplication wraps |
| `RendezvousBounds.GcBounded` | backend/rendezvous/rendezvous.go:429-466 | a sweep keeps every bound and takes no new key into use |
| `RendezvousBounds.StepBounded` | backend/rendezvous/rendezvous.go:429-503 | every operation keeps byte counters exact, both queue caps, MaxKeys, MaxNonces and the expiry bounds |
| `RendezvousBounds.RunBounded` | backend/rendezvous/rendezvous.go:429-503 | so does every run |
| `RendezvousBounds.InitiallyBounded` | backend/rendezvous/rendezvous.go:304-364 | the state New makes is within the bounds |
| `RendezvousBounds.RefusalStoresNothing` | backend/rendezvous/service.go:46-254 | a refused request removes at most expired entries, wakes nobody, and no reader can tell it happened |
| `RendezvousBounds.CapacityRefusesOnlyNewcomers` | backend/rendezvous/rendezvous.go:484-503 | past the freshness check MaxKeys is the only ground for refusal, and a key that holds state is never refused |
| `RendezvousOutcomes.AcceptedShows` | backend/rendezvous/service.go:46-469 | what Resolve and Read answer at any later time after an accepted request: an announce shows until it expires, a withdrawal shows nothing, a deposit and an ack change only their own queue, a poll changes nothing |
| `RendezvousOutcomes.LifetimeHonoured` | backend/rendezvous/service.go:474-482 | a requested lifetime without overflow is honoured up to the maximum, and zero asks for the default |
| `RendezvousOutcomes.TTLIsGranted` | backend/rendezvous/service.go:474-482 | for every int64 of seconds: cut to the maximum, the default for none or less, and positive and bounded when the multiplication wraps |
| `RendezvousOutcomes.DepositShown` | backend/rendezvous/service.go:188-254 | after an answered deposit there is a blob with this id, the sender, the payload, its decoded size, the present instant and the granted lifetime; within the byte cap every read before its expiry ends with it, past the cap the queue is left empty, and the answer gives that expiry in seconds |
| `RendezvousOutcomes.AnnounceShown` | backend/rendezvous/service.go:46-91 | after an answered announce the key resolves to exactly these endpoints and this meta until the instant of the granted lifetime, which the answer gives in seconds |
| `RendezvousOutcomes.PollShown` | backend/rendezvous/service.go:296-325 | a wait of at most the maximum is honoured, a longer one cut to it, and a negative one is no wait |
| `RendezvousProvenance.StepRecords` | backend/rendezvous/service.go:46-125 | a presence record that a step adds is the announce of that step, accepted and signed under its key |
| `RendezvousProvenance.StepBlobs` | backend/rendezvous/service.go:188-254 | a blob that a step adds holds, field by field, what the deposit of that step sent: accepted, signed under its sender and addressed to that queue |
| `RendezvousProvenance.RecordsAreAnnounced` | backend/rendezvous/service.go:46-125 | in every reachable state a presence record is what its own key announced in an accepted signed request |
| `RendezvousProvenance.BlobsAreDeposited` | backend/rendezvous/service.go:188-254 | in every reachable state a blob holds, field by field, what its sender deposited for that very queue in an accepted signed request |
| `RendezvousProvenance.RunKeepsRecord` | backend/rendezvous/service.go:101-125 | no third party can take presence down: a record resolves until it expires, in any run in which its own key neither announces nor withdraws |
| `RendezvousWaiters.StepWaiters` | backend/rendezvous/service.go:256-399 | an operation closes no channel twice, never reopens one, and ends a wait only by unparking it or by a deposit to its queue |
| `RendezvousWaiters.RunChannelsOk` | backend/rendezvous/service.go:256-399 | over every run a channel waits in at most one place and is closed at most once |
| `RendezvousWaiters.ReachableChannelsOk` | backend/rendezvous/service.go:256-399 | in particular in every state reachable from the one New makes |
| `RendezvousWaiters.WaiterStaysUntilWoken` | backend/rendezvous/service.go:364-399 | no lost wake-up: a parked waiter keeps its place through any run until it is unparked or a deposit to that very queue closes it |
| `RendezvousWaiters.NextDepositWakes` | backend/rendezvous/service.go:231-262 | the next authentic, fresh deposit is accepted whatever the capacity and closes the channel of everyone parked there |
| `RendezvousWaiters.ParkJoins` | backend/rendezvous/service.go:364-380 | park either refuses and changes nothing a reader sees, or adds the caller on a channel of its own |
| `RendezvousWaiters.UnparkWaiters` | backend/rendezvous/service.go:385-399 | unpark removes exactly the named waiter |
| `RendezvousWaiters.RunKeepsLiveBlob` | backend/rendezvous/service.go:336-421 | an unexpired blob stays through any run without an ack signed by its owner or another signed deposit to its queue |
| `RendezvousWaiters.ParkRefusesAfterDeposit` | backend/rendezvous/service.go:364-380 | a deposit that lands between authPoll and park makes park refuse to block |
| `RendezvousService.Service.GcNonces` | backend/rendezvous/rendezvous.go:416-422 | deletes exactly the expired nonces |
| `RendezvousService.Service.CheckNonce` | backend/rendezvous/rendezvous.go:388-414 | the freshness check: skew, replay, full cache, remember, in that order |
| `RendezvousService.Service.GcPresence` | backend/rendezvous/rendezvous.go:436-441 | deletes exactly the expired presence records |
| `RendezvousService.Service.GcQueues` | backend/rendezvous/rendezvous.go:442-465 | prunes every queue and drops queues with neither blob nor waiter |
| `RendezvousService.Service.RunGc` | backend/rendezvous/rendezvous.go:429-466 | the lazy sweep, at most every thirty seconds |
| `RendezvousService.Service.KeyCount` | backend/rendezvous/rendezvous.go:470-478 | counts the union of keys with presence and keys with queues |
| `RendezvousService.Service.QueueFor` | backend/rendezvous/rendezvous.go:484-503 | refuses exactly when a new key finds MaxKeys in use, and otherwise opens the queue |
| `RendezvousService.Service.Announce` | backend/rendezvous/service.go:46-91 | the in-place operation is the announce transition, refusals included, and keeps the counters |
| `RendezvousService.Service.Withdraw` | backend/rendezvous/service.go:108-125 | the in-place operation is the withdraw transition |
| `RendezvousService.Service.ResolveKey` | backend/rendezvous/service.go:140-155 | answers the unexpired record, or says bad key or not found |
| `RendezvousService.Service.EvictOldest` | backend/rendezvous/service.go:231-254 | the eviction loop leaves what oldest-first eviction prescribes, with its byte total |
| `RendezvousService.Service.Wake` | backend/rendezvous/service.go:257-262 | closes every parked channel once, in order |
| `RendezvousService.Service.Deposit` | backend/rendezvous/service.go:188-254 | the in-place operation is the deposit transition, refusals included, and what it answered as deposited is queued as asked: sender, payload, decoded size and granted lifetime |
| `RendezvousService.Service.AuthPoll` | backend/rendezvous/service.go:296-325 | the in-place operation is the poll transition: the envelope is used up and the wait clamped |
| `RendezvousService.Service.ReadQueue` | backend/rendezvous/service.go:336-359 | returns the unexpired blobs in deposit order and changes nothing |
| `RendezvousService.Service.ParkPoller` | backend/rendezvous/service.go:364-380 | the in-place operation is the park transition |
| `RendezvousService.Service.UnparkPoller` | backend/rendezvous/service.go:385-399 | the in-place operation is the unpark transition |
| `RendezvousService.Service.Ack` | backend/rendezvous/service.go:422-469 | the in-place operation is the ack transition, refusals included |
| `UpdateLog.AppendedIsWellFormed` | backend/updatelog/updatelog.go:220-279 | in every history of appends a snapshot's floor is not negative and at most the number of entries before it |
| `UpdateLog.FloorsNeverFall` | backend/updatelog/updatelog.go:243-260 | the floor of a history of appends never falls, because a stale snapshot is refused |
| `UpdateLog.SnapshotTaken` | backend/updatelog/updatelog.go:243-272 | a snapshot is refused if and only if its claimed floor, cut to the seqs there are, is below that of the latest one; an equal floor is taken |
| `UpdateLog.OthersTaken` | backend/updatelog/updatelog.go:220-279 | every update and the first snapshot are taken, and no other kind is |
| `UpdateLog.LoadSends` | backend/updatelog/updatelog.go:281-316 | a load holds the latest snapshot if and only if the caller is below its floor, and in seq order exactly the updates past that floor or past what the caller has |
| `UpdateLog.PendingCounts` | backend/updatelog/updatelog.go:329-351 | what is pending is the number of updates past the latest snapshot's floor, and all of them before the first snapshot |
| `UpdateLog.HeadCountsAppends` | backend/updatelog/updatelog.go:199-218 | head equals the number of successful appends, whatever was pruned, so no seq is ever reused |
| `UpdateLog.LeftoversUnobservable` | backend/updatelog/updatelog.go:281-351 | with any leftovers at or below the floor, Load, Head and Pending answer as if the prune had finished |
| `UpdateLog.SnapshotKeepsRepresentation` | backend/updatelog/updatelog.go:262-272 | a snapshot written before a prune that removes any subset still stands for the whole history |
| `UpdateLog.UpdateKeepsRepresentation` | backend/updatelog/updatelog.go:273-279 | an update frame extends the history by one |
| `UpdateLog.LocalStore.HeadLocked` | backend/updatelog/updatelog.go:199-218 | the scan returns the highest seq on disk |
| `UpdateLog.LocalStore.Append` | backend/updatelog/updatelog.go:220-279 | appends exactly one entry with the next seq and the clamped floor, or refuses and writes nothing, with removals that may fail or be cut off by a crash |
| `UpdateLog.LocalStore.Prune` | backend/updatelog/updatelog.go:262-272 | removes the frames at or below the floor except those whose removal failed |
| `UpdateLog.LocalStore.Load` | backend/updatelog/updatelog.go:281-316 | answers as a function of what was ever appended: the snapshot only for a caller below the floor, and every update above the bound |
| `UpdateLog.LocalStore.Head` | backend/updatelog/updatelog.go:318-327 | answers the number of appends |
| `UpdateLog.LocalStore.Pending` | backend/updatelog/updatelog.go:329-351 | counts the updates above the floor |
| `Convergence.CompleteLoadConverges` | backend/updatelog/updatelog.go:281-316 | a client that merges a load which lacks nothing and holds only what was appended, in any order and with repeats, holds the join of every update |
| `Convergence.LoadLosesNothing` | backend/updatelog/updatelog.go:281-316 | whatever else it holds, a client that includes the updates up to since ends with every update, if the snapshot it may be sent includes what its floor claims |
| `Convergence.LoadConverges` | backend/updatelog/updatelog.go:281-316 | with nothing unappended in the client and in that one snapshot it ends with exactly the join of every update; earlier snapshots do not matter |
| `Convergence.NoClientLosesIff` | backend/updatelog/updatelog.go:220-316 | over disjoint updates every client is served every update if and only if a positive floor is one that the latest snapshot includes |
| `Convergence.EveryClientConvergesIff` | backend/updatelog/updatelog.go:220-316 | over disjoint updates every client ends with exactly the document if and only if that snapshot also holds nothing else |
| `Convergence.AtomicLoadRefines` | backend/updatelog/postgres.go:214-270 | read atomically, the database load is the load of the same abstract log |
| `Convergence.SplitLoadMissesExactly` | backend/updatelog/postgres.go:214-270 | spread over three states it is complete if and only if no update above the chosen bound was pruned in between |
| `Convergence.SplitLoadConverges` | backend/updatelog/postgres.go:214-270 | the client converges all the same when every update pruned in between is in what it holds or in the snapshot it was sent |
| `Convergence.SplitLoadConvergesIff` | backend/updatelog/postgres.go:214-270 | over sets with disjoint updates the client converges if and only if that is so |
| `Convergence.SplitLoadCanLose` | backend/updatelog/postgres.go:214-270 | a concrete compaction between the statements that loses an update, which the next load from the returned head does not bring either |
| `Convergence.NextLoadRepairsIff` | backend/updatelog/postgres.go:214-270 | over disjoint updates, a further load from the head that a split one answered leaves the client with the document if and only if that head is below the floor by then or nothing was missed |
| `Convergence.PostgresStore.Append` | backend/updatelog/postgres.go:97-187 | the transaction appends the same entry as the file store and returns its seq, data and clamped floor, with an exact prune, or refuses and leaves the tables alone |
| `Convergence.PostgresStore.Load` | backend/updatelog/postgres.go:214-270 | with no commit in between, answers as the file store does |
| `UpdateClients.HydrateSafe` | web/src/lib/collab/updateLog.ts:128-153 | after loading, a client has merged all it takes for covered, if the snapshot includes what its floor claims |
| `UpdateClients.FlushCoversIff` | web/src/lib/collab/updateLog.ts:180-189 | an append keeps the client's claim true if and only if every frame that came in between is in its document |
| `UpdateClients.CompactClaimsIff` | web/src/lib/collab/updateLog.ts:211-225 | an accepted snapshot includes what its floor claims if and only if its poster's claim was true |
| `UpdateClients.RunSafe` | web/src/lib/collab/updateLog.ts:128-226 | in every run of clients that merge before they append or compact, every claim and the latest snapshot's floor are true |
| `UpdateClients.CarefulRunLosesNothing` | web/src/lib/collab/updateLog.ts:128-226 | in such a run no load lacks an update |
| `UpdateClients.CompactionServesIff` | web/src/lib/collab/updateLog.ts:211-225 | over disjoint updates an accepted compaction leaves every client served if and only if its poster's claim was true |
| `UpdateClients.OverclaimLosesWork` | web/src/lib/collab/updateLog.ts:180-225 | a run of two clients that drops the first one's update for everyone who loads later |
| `Diff.WalkTurns` | backend/docindex/diff.go:108-130 | from any cell the walk is a script for the rest, with as many equal lines as the table says |
| `Diff.NoLongerSubsequence` | backend/docindex/diff.go:90-107 | no common subsequence is longer than the table entry |
| `Diff.DiffIsOptimal` | backend/docindex/diff.go:90-130 | dropping inserts gives a, dropping deletes gives b, the equal lines are a longest common subsequence, and no script has fewer changes |
| `Diff.UnchangedIff` | backend/docindex/diff.go:43-65 | no change is reported if and only if both sides are equal |
| `Diff.InsertNeverBeforeDelete` | backend/docindex/diff.go:108-122 | the tie-break never puts a delete directly after an insert |
| `Diff.FillRow` | backend/docindex/diff.go:90-107 | the inner loop fills one row of the table in place and leaves the others |
| `Diff.FillTable` | backend/docindex/diff.go:90-107 | the table holds the subsequence length of every pair of tails |
| `Diff.FlushTails` | backend/docindex/diff.go:123-130 | what is left is deleted or inserted |
| `Diff.DiffLines` | backend/docindex/diff.go:90-130 | table and walk together produce the script the theorems are about |
| `Diff.CountChanges` | backend/docindex/diff.go:48-56 | counts inserts and deletes |
| `DocText.Run` | backend/docindex/docindex.go:142-146 | a field is a maximal run without white space |
| `DocText.FieldsSplit` | backend/docindex/docindex.go:142-146 | splitting into fields does not look across a white-space character |
| `DocText.WalkWords` | backend/docindex/docindex.go:71-92 | the text walk collects exactly the words of the visible leaves, in order |
| `DocText.LinesWords` | backend/docindex/docindex.go:96-123 | the line walk collects the same words, whether blocks collapse or leaves stand alone |
| `DocText.WalksAgree` | backend/docindex/docindex.go:48-146 | for every document its lines joined by single spaces are its text |
| `DocText.NormalizeIdempotent` | backend/docindex/docindex.go:142-146 | normalizing twice is normalizing once, for every string |
| `DocText.ExtractTextIsNormal` | backend/docindex/docindex.go:48-52 | extracted text is a fixed point of normalizeSpaces |
| `DocText.KeptLinesAreNormal` | backend/docindex/docindex.go:57-69 | every extracted line is normalized and not empty |
| `DocText.SpaceCodePoints` | backend/docindex/docindex.go:142-146 | the code points that separate words |
| `DocText.FieldShows` | backend/docindex/docindex.go:22-92 | one more field adds exactly its value's words to an object's text, unless its key is one of the metadata keys |
| `DocText.BlocksAreLines` | backend/docindex/docindex.go:96-131 | an object whose type is one of the five block types is one line, its text, or none without text; any other object's lines are those of its fields |
| `DocText.FieldLinesShow` | backend/docindex/docindex.go:96-123 | one more field adds exactly its value's lines, unless its key is one of the metadata keys |
| `DocText.DropEmpty` | backend/docindex/docindex.go:57-69 | the loop keeps the normalized lines that are not empty, in order |
| `DocText.ExtractLines` | backend/docindex/docindex.go:57-69 | applies it to the lines of the walk |
| `DocText.DiffContent` | backend/docindex/diff.go:43-86 | diffs the extracted lines, counts the changes, and labels them: kind by file type, headline from the counts |
| `DocText.SummaryTellsChanges` | backend/docindex/diff.go:67-86 | the headline says that nothing changed if and only if nothing was inserted or deleted |
| `DocText.HeadlineCounts` | backend/docindex/diff.go:67-86 | otherwise it counts what was added and then what was removed, in the unit of the file type, in the plural unless it is one |
| `DocText.UnchangedDocuments` | backend/docindex/diff.go:43-65 | no change is reported if and only if the extracted lines are equal, and then the text is |
| `TokenBucket.PruneKeepsLevels` | backend/middleware/tokenbucket.go:58-92 | dropping an idle bucket changes no key's level, now or later |
| `TokenBucket.AllowByLevel` | backend/middleware/tokenbucket.go:58-92 | a call is admitted exactly when the level is at least one, and takes one token |
| `TokenBucket.PruningInvisible` | backend/middleware/tokenbucket.go:58-92 | from sound states with equal levels, a limiter that prunes answers every call of every run as one that never does |
| `TokenBucket.PruningNeedsCapacity` | backend/middleware/tokenbucket.go:47-92 | no run of calls to a new limiter shows whether it prunes if and only if its capacity is at least one |
| `TokenBucket.AdmittedAgainstLevel` | backend/middleware/tokenbucket.go:58-92 | admissions of a key never exceed its level plus what is refilled |
| `TokenBucket.SoundIsRateBounded` | backend/middleware/tokenbucket.go:58-92 | at most cap + rate*(t2-t1) admissions of a key in any interval |
| `TokenBucket.AdmittedWithin` | backend/middleware/tokenbucket.go:58-92 | the same with the bound written out, from any sound state |
| `TokenBucket.BurstIsCapacity` | backend/middleware/tokenbucket.go:47-92 | a new limiter admits as many calls at one instant as its capacity holds whole tokens, and no more |
| `TokenBucket.RateBoundNeedsCapacity` | backend/middleware/tokenbucket.go:47-92 | a new limiter has that bound if and only if its capacity is at least one |
| `TokenBucket.RunStaysSound` | backend/middleware/tokenbucket.go:58-92 | the bound holds from any instant of any run |
| `TokenBucket.RetryAfterSuffices` | backend/middleware/tokenbucket.go:58-92 | after waiting the returned time with nothing else admitted for the key, the next call is allowed |
| `TokenBucket.WaitIsTight` | backend/middleware/tokenbucket.go:82-88 | the returned time brings in the missing tokens and at most a millisecond's tokens besides |
| `TokenBucket.RetryTooEarly` | backend/middleware/tokenbucket.go:58-92 | a denied caller that comes back more than a millisecond before the returned time, with nothing else admitted for its key, is denied again |
| `TokenBucket.Limiter.PruneIdle` | backend/middleware/tokenbucket.go:58-70 | the loop deletes exactly the buckets idle for longer than cap/rate |
| `TokenBucket.Limiter.AllowCall` | backend/middleware/tokenbucket.go:58-92 | the in-place operation is prune, then decide; a denial's wait is the time the missing tokens take, and at most a millisecond more |
| `ShareLinks.LegacyDirectoryIsOk` | backend/storage/local_sharelinks.go:220-291 | any directory of readable records from before the conversion stands for its links |
| `ShareLinks.ConversionKeeps` | backend/storage/local_sharelinks.go:260-287 | neither the write nor the removal of one conversion loses or alters a link |
| `ShareLinks.PassKeepsLinks` | backend/storage/local_sharelinks.go:220-291 | wherever a pass stops, torn write included, the directory stands for the same links, so a revocation is never overwritten |
| `ShareLinks.PassConvertsExactly` | backend/storage/local_sharelinks.go:220-291 | wherever a pass over a legacy directory stops, each record is still there untouched or converted, and a readable record under the hash of its token has its id, file, rest, revocation flag and creation time, that hash, and no token |
| `ShareLinks.CompletedPassIsClean` | backend/storage/local_sharelinks.go:220-291 | a completed pass leaves only hash-named records |
| `ShareLinks.FaultlessPassCompletes` | backend/storage/local_sharelinks.go:242-287 | without faults a pass completes if and only if every legacy record is readable |
| `ShareLinks.StepKeeps` | backend/storage/local_sharelinks.go:84-291 | every pass, creation, revocation and restart does to the directory what the ideal store does to its links |
| `ShareLinks.RunResolvesExactly` | backend/storage/local_sharelinks.go:84-291 | across any run, a token presented after a completed pass resolves to exactly its link |
| `ShareLinks.RevokedStaysRevoked` | backend/storage/local_sharelinks.go:165-291 | a revoked link never answers as live again |
| `ShareLinks.LegacyResolves` | backend/storage/local_sharelinks.go:84-291 | from a legacy directory of distinct links, over any run: after a completed pass a token finds its own link, field by field, or a record that a torn write destroyed, and one that was revoked is never found live |
| `ShareLinks.CreatedAsGiven` | backend/storage/local_sharelinks.go:84-103 | a created link is found under its token's hash, field by field as given, and no other file changes |
| `ShareLinks.RevokedAsFound` | backend/storage/local_sharelinks.go:165-186 | a revocation sets the flag of the record it found, keeps its other fields, and changes no other file |
| `ShareLinks.LiveStaysLive` | backend/storage/local_sharelinks.go:108-291 | a link nobody revoked keeps resolving to its own record |
| `ShareLinks.LinkStore.MigrateShareLinks` | backend/storage/local_sharelinks.go:220-291 | the loop is the pass over the listing, and remembers completion only at its end; from a legacy directory it carries over every record field by field, wherever it stops |
| `ShareLinks.LinkStore.CreateShareLink` | backend/storage/local_sharelinks.go:84-103 | stores the record, field by field, under its token's hash without the token, and refuses an empty token |
| `ShareLinks.LinkStore.GetShareLinkByToken` | backend/storage/local_sharelinks.go:108-132 | answers only after a completed pass, by the token's hash |
| `ShareLinks.LinkStore.FindLink` | backend/storage/local_sharelinks.go:134-170 | finds the link of a file by id if there is one, the newest when several match |
| `ShareLinks.LinkStore.RevokeShareLink` | backend/storage/local_sharelinks.go:165-186 | rewrites the found record as revoked, and only after a completed pass |
| `ProtectedRanges.ProtectedIsLast` | backend/handlers/protected_ranges.go:109-120 | what is protected under an id is the last range of that id over all sheets, and nothing under the empty id |
| `ProtectedRanges.LastCellWins` | backend/handlers/protected_ranges.go:142-152 | a position's signature is that of the last cell there |
| `ProtectedRanges.CollectProtected` | backend/handlers/protected_ranges.go:109-120 | ranges by id over all sheets, the last one winning, ranges without id ignored |
| `ProtectedRanges.CellMap` | backend/handlers/protected_ranges.go:142-152 | signatures by position, the last cell winning |
| `ProtectedRanges.SameEditorSet` | backend/handlers/protected_ranges.go:154-169 | true if and only if the two lists are equal as multisets |
| `ProtectedRanges.ContainsIsBetween` | backend/handlers/protected_ranges.go:50-61 | a rectangle covers the cells whose row and column lie between its corners, inclusive, in either order of the corners |
| `ProtectedRanges.MayEditIsRight` | backend/handlers/protected_ranges.go:171-187 | who is no admin, not the owner where there is one, and no listed editor has no right, and everyone else does |
| `ProtectedRanges.PermittedIsStanding` | backend/handlers/protected_ranges.go:196-275 | a write is permitted if and only if every range that restricts the requester keeps its corners, sheet and editors, and every cell between its corners, inclusive, reads the same |
| `ProtectedRanges.CellsUnchanged` | backend/handlers/protected_ranges.go:236-271 | walking the union of stored cells decides equality over every cell between the corners, inclusive, missing cells included |
| `ProtectedRanges.CheckRange` | backend/handlers/protected_ranges.go:226-271 | accepts if and only if the range survives with its editors and every cell in it |
| `ProtectedRanges.Enforce` | backend/handlers/protected_ranges.go:196-275 | the gate accepts if and only if it is off, or every range that restricts the requester keeps its corners, sheet and editors, and every cell between its corners, inclusive, reads the same |
| `ProtectedRanges.ProtectionHoldsOverWrites` | backend/handlers/protected_ranges.go:196-275 | over any sequence of accepted writes by people without the right, the range and all its cells end as they began |
| `ProtectedRanges.ProtectedCellHolds` | backend/handlers/protected_ranges.go:196-275 | cell by cell: no sequence of accepted writes by people without the right changes the signature of a cell between the corners |
| `PdfSearch.Index` | backend/handlers/verify.go:324-354 | the first occurrence from a position, or that there is none |
| `PdfSearch.Find` | backend/handlers/verify.go:324-354 | the search loop returns that position |
| `PdfSearch.LastIndex` | backend/handlers/seal.go:415-419 | the last occurrence, or that there is none |
| `PdfSearch.AbsentJoin` | backend/handlers/seal.go:571-608 | no marker spans a join that begins with a line feed |
| `PdfSearch.BodyIsUpToLastMark` | backend/handlers/seal.go:414-423 | an update keeps the source up to its last end-of-file marker, or all of it |
| `PdfSearch.ScanLands` | backend/handlers/verify.go:324-350 | behind any front, the scanner returns the manifest's range if and only if no dictionary in the front is followed there by a stream line |
| `PdfSearch.RehashesBase` | backend/handlers/verify.go:169-195 | the prefix hashed again is the front if and only if the front is not empty and holds no attachment marker |
| `PdfSearch.RehashesFront` | backend/handlers/verify.go:169-195 | behind any front, the prefix hashed again is the base if and only if the front is the base, or begins with it and an attachment marker |
| `PdfSearch.ScanBehind` | backend/handlers/verify.go:324-347 | behind a front that does not let strategy A land, it scans what it scans in the front alone, or a range that runs past the first marker behind it |
| `PdfSearch.SamePrefix` | backend/handlers/verify.go:169-195 | what is hashed again does not depend on anything appended behind the manifest |
| `PdfFallback.WalkBack` | backend/handlers/verify.go:355-365 | the backward loop finds the last opening brace, or none |
| `PdfFallback.WalkForward` | backend/handlers/verify.go:366-386 | the forward loop ends behind the brace that takes the depth to zero, or nowhere |
| `PdfFallback.FindBare` | backend/handlers/verify.go:349-386 | the fallback returns the object around the first quoted envelope_id |
| `PdfFallback.BareFound` | backend/handlers/verify.go:349-386 | behind a front without a quoted envelope_id the fallback starts at the manifest and takes exactly it if and only if its braces close |
| `PdfFallback.ScanBareBehind` | backend/handlers/verify.go:349-386 | behind a front with one it takes what it takes in the front alone, or a range that runs past the first marker behind it |
| `Seal.SourceVerbatim` | backend/handlers/seal.go:414-423 | the source's body opens the certified bytes unchanged, and these open the sealed file |
| `Seal.MarkersComeFromInputs` | backend/handlers/seal.go:414-458 | a marker in the certified bytes is one in the source's body or in the certificate's text |
| `Seal.CertificateEndsStream` | backend/handlers/seal.go:436-441 | any dictionary in the certified bytes is followed there by a stream line |
| `Seal.ExtractManifestJSON` | backend/handlers/verify.go:324-392 | the imperative search is the two strategies in order |
| `Seal.VerifyPDFBytes` | backend/handlers/verify.go:151-201 | the imperative check answers whether the digest of the bytes hashed again is the recorded one |
| `Seal.StreamedBehind` | backend/handlers/verify.go:324-347 | behind a front that does not let it land, whatever update follows, strategy A reads exactly what it reads in the front alone |
| `Seal.ExtractBehind` | backend/handlers/verify.go:324-392 | behind any front, extraction returns the manifest if and only if strategy A lands, or it reads nothing in the front and the fallback's conditions hold; otherwise exactly what the front alone yields |
| `Seal.ManifestRecovered` | backend/handlers/verify.go:324-392 | for all inputs of a seal, and whatever is appended later, extraction returns exactly the embedded manifest if and only if the inputs are recoverable; otherwise what the certified bytes alone yield |
| `Seal.RehashRecoversBase` | backend/handlers/verify.go:169-195 | verification hashes exactly what sealing hashed if and only if neither input holds an attachment marker |
| `Seal.SealThenVerify` | backend/handlers/verify.go:151-201 | for all inputs, and whatever is appended later: with a recoverable manifest the check passes if and only if no input holds an attachment marker; otherwise the verdict is that on the certified bytes alone |
| `Seal.AlteredFrontVerifies` | backend/handlers/verify.go:169-201 | for any replaced front: where the manifest is found the check passes if and only if the front is untouched or is the certified bytes and an attachment marker with anything behind it; where it is not, the verdict is that on the front alone |
| `Seal.InsertionUnnoticed` | backend/handlers/verify.go:169-201 | bytes inserted behind the certified bytes pass when they begin with the attachment marker and the manifest is still found |
| `Seal.AppendedUnnoticed` | backend/handlers/verify.go:169-201 | bytes appended behind the section change no verdict, whatever stands in front of it |
| `SealPrinter.PrintedIsClean` | backend/handlers/seal.go:414-608 | the printer's own text brings in no marker, whatever lengths and offsets are printed in it |
| `SealPrinter.PrintXref` | backend/handlers/seal.go:448-455 | prints the cross-reference section both updates end with |
| `SealPrinter.AppendCertificatePage` | backend/handlers/seal.go:414-458 | appends the content object, the page object and the cross-reference section with the offsets they really have |
| `SealPrinter.PrintSection` | backend/handlers/seal.go:584-608 | prints the section that attaching adds, with the offsets its objects really have |
| `SealPrinter.AttachManifest` | backend/handlers/seal.go:571-608 | appends the embedded file, its specification and the cross-reference section |
| `SealPrinter.BuildSealed` | backend/handlers/seal.go:249-303 | seals the digest of exactly the bytes that attaching preserves |
| `SealPrinter.PrintedSealVerifies` | backend/handlers/verify.go:151-201 | the file so built verifies whenever its manifest is recoverable and the inputs hold no attachment marker |
| `SealOffsets.OffsetReadsBack` | backend/handlers/seal.go:447-449 | a printed offset reads back as the number it was, and has ten digits if and only if it is below 10^10 |
| `SealOffsets.EntriesLead` | backend/handlers/seal.go:446-452 | the two entries of the cross-reference section and the number behind startxref are the offsets of the line feeds that open the two objects and the section |
| `SealOffsets.CertificateIndexed` | backend/handlers/seal.go:411-455 | the certificate's update is, behind what it keeps, its content stream with its own length, its page, and the section with their offsets |
| `SealOffsets.AttachIndexed` | backend/handlers/seal.go:571-610 | the manifest's update is, behind what it keeps, the embedded file with its own length, its specification, and the section with their offsets |
| `SealPrinter.PdfStr` | backend/handlers/seal.go:550-567 | the loop escapes parentheses and backslashes and replaces characters past 126 |
| `SealPrinter.LiteralReadsBack` | backend/handlers/seal.go:550-567 | a reader of PDF string literals gets back exactly the text, with question marks for the characters past 126, so no name can end its literal |
| `Folders.WalkIsExact` | backend/handlers/folders.go:231-252 | in any store, corrupt ones included, the walk bounded by one more than the number of folders decides proper ancestry |
| `Folders.ReachedWithinSize` | backend/handlers/folders.go:231-252 | an ancestor that is reached at all is reached within as many steps as there are folders |
| `Folders.ReparentAcyclicIff` | backend/handlers/folders.go:131-147 | a new parent link keeps the tree acyclic if and only if it is the root, or neither the folder nor below it |
| `Folders.CreateStaysAcyclic` | backend/handlers/folders.go:75-109 | a folder under a fresh id closes no cycle |
| `Folders.DeleteStaysAcyclic` | backend/handlers/folders.go:195-218 | removing a folder closes no cycle |
| `Folders.RunStaysAcyclic` | backend/handlers/folders.go:75-218 | the tree is acyclic after every run of creates with fresh ids, reparents and deletes |
| `Folders.FolderStore.IsDescendant` | backend/handlers/folders.go:231-252 | the loop answers proper ancestry when the listing succeeds, and no when it fails |
| `Folders.FolderStore.Create` | backend/handlers/folders.go:75-109 | adds exactly the new folder or refuses, undoes it when its owner cannot be recorded and the removal succeeds, and keeps an acyclic tree acyclic |
| `Folders.FolderStore.Reparent` | backend/handlers/folders.go:112-157 | with a successful listing accepts exactly the moves that keep the tree acyclic and are stored; with a failed one closes a cycle exactly when the folder is above its new parent |
| `Folders.FolderStore.Delete` | backend/handlers/folders.go:195-218 | removes exactly the folder, or changes nothing when refused or not stored, and keeps an acyclic tree acyclic |
| `Quota.RunBalanced` | backend/billing/enforce.go:199-286 | in every interleaving reserved bytes are those of the open reservations, committed bytes those of committed and metered writes, and reports match both |
| `Quota.FirstCallSettles` | backend/billing/enforce.go:225-266 | over calls that do not overlap a reservation takes effect once, however often it is committed or released |
| `Quota.GateExactUnlessWrapped` | backend/billing/enforce.go:199-221 | the gate decides by the exact sum if and only if the sum is an int64 |
| `Quota.SuspendedHoldsNothing` | backend/billing/enforce.go:199-252 | a suspended account's write is neither reserved nor ever reported |
| `Quota.UncappedReportsAll` | backend/billing/enforce.go:199-247 | without a cap nothing is reserved, and the commit reports exactly the bytes written |
| `Quota.NothingToHold` | backend/billing/enforce.go:199-252 | under a cap an amount that is not positive reserves and reports nothing |
| `Quota.CappedHoldsWhatFits` | backend/billing/enforce.go:199-247 | under a cap a write that fits is reserved in full, and its commit turns just that into committed bytes and reports it; one that does not fit reserves and reports nothing |
| `Quota.WrapExample` | backend/billing/enforce.go:199-221 | at the function's boundary a request can wrap the sum and is then allowed over the cap |
| `Quota.RunWithinCap` | backend/billing/enforce.go:199-266 | under one positive cap and without metered writes committed plus reserved never exceeds the cap |
| `Quota.StorageReservation.constructor` | backend/billing/enforce.go:181-186 | a reservation starts unsettled |
| `Quota.Ledger.constructor` | backend/billing/enforce.go:82-95 | a configured ledger is empty |
| `Quota.Ledger.GateStorage` | backend/billing/enforce.go:199-221 | refuses a suspended account and nobody else for that reason; allows without a cap or a positive amount; otherwise refuses if and only if committed, reserved and new bytes exceed the cap, while the sums are int64s; the reservation is the one that goes with the decision |
| `Quota.Ledger.CommitReservation` | backend/billing/enforce.go:225-247 | moves held bytes to committed and reports them, once |
| `Quota.Ledger.ReleaseReservation` | backend/billing/enforce.go:252-266 | drops held bytes, once |
| `Quota.Ledger.MeterStorage` | backend/billing/enforce.go:273-286 | adds and reports positive amounts only |
| `AuditChain.VerifyChain` | backend/signing/crypto.go:210-224 | accepts exactly the intact chains, and otherwise names the first event at fault and why |
| `AuditChain.IntactAppend` | backend/signing/crypto.go:210-233 | a longer chain is intact if and only if the shorter one is and the new event links to its latest hash and hashes |
| `AuditChain.LastHashFixesChain` | backend/signing/crypto.go:197-233 | two accepted chains with the same last hash are equal event by event, unless two different events in them collide |
| `AuditChain.AppendKeepsIntact` | backend/handlers/signing.go:431-461 | an append keeps every chain intact if and only if nothing is stored, or the event hashes and the listing succeeded or had nothing to list |
| `AuditChain.UnlistedAppendBreaks` | backend/handlers/signing.go:432-435 | a second event appended under failed listings breaks the chain |
| `AuditChain.RunIsIntact` | backend/handlers/signing.go:431-461 | any run of appends with successful listings leaves chains that verify |
| `AuditChain.RunKeepsEveryEvent` | backend/handlers/signing.go:431-461 | such a run leaves in a chain exactly the events stored for its envelope, in order |
| `AuditChain.AuditStore.AppendChainedAuditEvent` | backend/handlers/signing.go:431-461 | succeeds if and only if the event is stored and the last listed event hashes; then exactly that event is appended, linked to that hash, and otherwise nothing changes |

## Left out

- HTTP handlers, status codes, JSON binding, SQL text, configuration, and the frontend but for the bookkeeping of its update logs: input and output around the engines.
- Ed25519, SHA-256, base64 and JSON are parameters; nothing is claimed about keys that decode to the same bytes, because the non-strict decoder ignores trailing bits (section 3.5 of RFC 4648).
- Concurrency inside one engine is a sequence of operations under its mutex or transaction; the clock is read once per operation.
- RendezvousService.Service.QueueFor: models the call with create = true, the only one there is.
- RendezvousService.Service.ParkPoller: a channel is a number, and closing one appends it to a list; the goroutine that blocks on it is not part of this model.
- UpdateLog.LocalStore.Append: does not model unreadable or half-written frame files, which listFrames skips, nor peer ids, timestamps and file-id validation.
- UpdateClients.CarefulRunLosesNothing: takes a client's loads, appends and snapshots as single steps that reach the server; a transport failure, the disabled state and a frame that fails to apply (web/src/lib/collab/updateLog.ts:147-149) are not modelled, nor is the whole-document save that runs beside the log.
- Convergence.PostgresStore.Load: states the answer with no commit between the three statements; what happens otherwise is in SplitLoadMissesExactly.
- TokenBucket.Limiter.AllowCall: uses exact reals; float64 rounding and time.Duration overflow are not modelled.
- DocText.WalkWords: an object's fields are given in the order sortedKeys produces; sorting itself is not modelled.
- ShareLinks.LiveStaysLive: a revocation or creation whose own write is torn leaves an unreadable record; such a link counts as damaged, never as live.
- ProtectedRanges.Enforce: begins after parseSheets and cellSig; content that is not a sheet array is the empty content, and writes that bypass the gate are outside it.
- Seal.SealThenVerify: covers the digest check of verifyPDFBytes; the chain check is AuditChain, and the signers' tokens are not part of this model.
- Seal.ManifestRecovered: JSON is a parameter. What the library grants about the manifest of one digest is assumed in Seal.Codec.Sound: its layout and first key, that it is read back, and that no part of it, nothing longer, and no text with a line "10101 0 obj" is read.
- SealPrinter.AppendCertificatePage: takes the certificate's text as given; of its composition only the string escaping is modelled.
- Folders.FolderStore.Reparent: states sequential updates; two concurrent ones can interleave their check and their write. Access checks are arguments.
- Quota.Ledger.GateStorage: takes the entitlement as given; the cache and its fail-open rule are left out, and so is a second Configure while reservations are open.
- Quota.FirstCallSettles: the flag that marks a reservation settled is read and set outside the mutex (backend/billing/enforce.go:225-228 and 252-255), so two concurrent calls on one reservation are not modelled.
- Quota.RunBalanced: holds as long as each account's total is an int64; past that the counters wrap.
- AuditChain.AuditStore.AppendChainedAuditEvent: a listing returns events in the order they were appended; two concurrent appends are not modelled.
- The envelope lifecycle (Send, Complete, Decline, Cancel), invites, comments, notifications, search snippets and exporters.
