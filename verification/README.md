# A verified model of Syncthing's stateful components

Syncthing is mostly plumbing around a few components whose correctness is about whole runs: a
replicated database, a session protocol, an event bus, caches that stand for something simpler.
This project models those components in Dafny and proves what their documentation, tests and
callers rely on, for all inputs, all runs and all interleavings.

`dafny verify dfyconfig.toml` checks everything.

Each component comes in two layers. The value layer (datatypes, functions, lemmas) says what an
operation means and proves properties of every run. The imperative layer (classes, loops,
arrays) follows the Go code statement by statement and is proved equal to the value layer.

| modules | component |
|---|---|
| `Bytes`, `Sorting`, `Wrappers`, `Ints` | Go strings as byte sequences with their order; `slices.Sort` and `slices.Compact`; optional values; machine integers |
| `DiscoRecords`, `DiscoReplica`, `DiscoStore`, `DiscoSlices`, `DiscoServer`, `DiscoFile`, `DiscoNetwork` | the discovery server's replicated address store: merging on the heap, the backing arrays, announcements, the database file, and convergence of a whole network |
| `Relay`, `RelayRegistry` | the relay's session protocol as interleaved steps, and its global tables |
| `Events`, `EventBuffer` | the event logger and the ring buffer behind the events API |
| `FakeFile` | reads of generated files from a cached random stream |
| `ConfigLists`, `Config`, `ConfigPreparation`, `ConfigConservation` | configuration normalisation |
| `ConfigCommit`, `Limiter`, `LimiterCommit` | committing changes to subscribers, and the rate limiter that follows them |
| `DialRegistry`, `ConnectionID` | forced redials with a cool-down; sortable connection IDs |
| `Lookup`, `Folding`, `CaseCache`, `Tokens` | the discovery lookup cache, case folding and the case-resolution cache, the token set |
| `RotatedLog` | the rotating log file |

## Where the code does something else than it says

Each of these is a theorem: the code is modelled as it is, and the exact condition is proved.

- `Seen` does not converge between discovery replicas, although addresses do: a sweep can forget a device (`DiscoReplica.SeenExact`, `DiscoReplica.SeenDiverges`).
- Merging keeps the newer of two expiries, loading a file the older: they agree exactly if no address is there twice with different expiries (`DiscoFile.LoadedFacts`, `DiscoFile.LoadingKeepsNewestIff`).
- `Since` with a negative ID returns events that never happened while the buffer has unfilled slots (`EventBuffer.SinceExact`, `EventBuffer.NegativeSince`).
- Preparing a configuration twice is sure to be preparing it once exactly if no device has two ignored folders with the same time; all but the order of those is always kept (`Config.PrepareIdempotentIff`, `Config.PreparedStays`, `Config.TieExample`).
- The limiter subscribes, copies the configuration and commits the copy. If a change is committed in between, the stale copy replaces it; the limits then follow exactly if the copy is harmless (`LimiterCommit.LimitsFollowIff`, `LimiterCommit.OvertakenBreaks`). In general a commit leaves the right limits exactly if the options are not taken for unchanged, or are in force already, and nobody outside both configurations is limited (`Limiter.CommitReflectsIff`).
- The redial that ends a cool-down interval is forced but not counted, so up to four can be forced at once and five within less than an interval (`DialRegistry.UncountedIff`, `DialRegistry.FourAtOnceIff`, `DialRegistry.FiveWithinASecond`). Over time there are three per interval begun, and that many are reached (`DialRegistry.ForcedBounded`, `DialRegistry.BoundReached`). Resetting `attempts` in the cleanup changes a copy and only matters for deletion (`DialRegistry.NextDialRegistry.SleepDurationAndCleanup`).
- Connection IDs sort chronologically exactly if the timestamp sums do not lie on both sides of zero, or are more than 2^64 apart (`ConnectionID.ChronologicalIff`); a remote timestamp can bring that about (`ConnectionID.NegativeSumsBreak`).
- An error's `CacheFor` is documented to override the negative cache time, but only ever prolongs it (`Lookup.CacheForOverridesIff`).
- Directory listings that failed are documented to be removed from the case cache, but are served until they expire like all others, and exactly so long (`CaseCache.ListingsStayIff`).
- Eviction takes tokens that never expire for the oldest ones; it is fair exactly if they are not mixed with others (`Tokens.FairIff`), which a change of the lifetime brings about (`Tokens.MixedRun`). A new token can be evicted before it is handed out (`Tokens.FreshMayGo`).
- Where `int` has 32 bits, eviction is sure to keep the tokens that expire last exactly if their expiries are less than about two seconds apart; of two that are three seconds apart the later is evicted (`Tokens.EvictsRightIff`, `Tokens.NarrowEvictsLater`). With 64 bits it always is (`Tokens.WideSavedBounds`).
- With `maxFiles` below one, a rotated log file is kept all the same (`RotatedLog.WithinMaxIff`).

Two results the code does not mention:

- A relay client that joins before its session's goroutine waits, or while the other connection is being taken over, is refused and its key is used up, so the session never gets its two connections (`Relay.HandOverRefusedIff`, `Relay.RefusedBeforeServe`, `Relay.NeverFull`).
- Of several entries for one device in a folder, which is kept depends on their order; the share is sure to stay exactly if all of them allow it (`ConfigConservation.ShareKeptIff`).

One oddity turns out to do no harm: `newCaseNode` compares the folded name with the last real name, not the last folded one. All listings are covered exactly if folding is idempotent (`CaseCache.CoversIff`), and listings of ASCII names always are (`CaseCache.ASCIICovers`).

## Model

| member | source | states |
|---|---|---|
| `DiscoRecords.MergeSorted` | cmd/stdiscosrv/database.go:394-422 | merging strictly sorted address lists gives a strictly sorted list |
| `DiscoRecords.MergeNewest` | cmd/stdiscosrv/database.go:390-422 | an entry is in the merged list exactly if it is in one of the lists and no entry for the same address expires later |
| `DiscoRecords.MergeCommutative` | cmd/stdiscosrv/database.go:394-422 | the order of merging does not matter |
| `DiscoRecords.MergeAssociative` | cmd/stdiscosrv/database.go:394-422 | nor does the grouping |
| `DiscoRecords.MergeIdempotent` | cmd/stdiscosrv/database.go:394-422 | merging a list with itself changes nothing |
| `DiscoRecords.MergeAbsorbs` | cmd/stdiscosrv/database.go:394-422 | merging what is already there changes nothing |
| `DiscoRecords.LiveMember` | cmd/stdiscosrv/database.go:427-451 | expiry keeps exactly the entries that expire at or after the given time |
| `DiscoRecords.LiveLater` | cmd/stdiscosrv/database.go:427-451 | an earlier sweep is invisible at every later time |
| `DiscoRecords.LiveDistributes` | cmd/stdiscosrv/database.go:394-451 | expiry distributes over merging |
| `DiscoReplica.RunWellFormed` | cmd/stdiscosrv/database.go:107-147 | every run keeps all stored lists strictly sorted |
| `DiscoReplica.GetIsBest` | cmd/stdiscosrv/database.go:107-147 | after any run of merges and earlier sweeps, `get` returns exactly the announced entries that no announcement of the same address outlives and that have not expired |
| `DiscoReplica.Convergence` | cmd/stdiscosrv/database.go:107-147 | replicas that merged the same set of records, in any order, with repetition and sweeps in between, return the same list at every later time |
| `DiscoReplica.SameBestConverges` | cmd/stdiscosrv/database.go:107-147 | replicas that were told the same best entries return the same list, even if the records they were told differ |
| `DiscoReplica.StoreIsRun` | cmd/stdiscosrv/database.go:107-124 | a store is what merging its own records into an empty one leaves |
| `DiscoReplica.ConvergenceFrom` | cmd/stdiscosrv/database.go:59-147 | convergence of replicas that start from stores they have loaded |
| `DiscoReplica.SeenExact` | cmd/stdiscosrv/database.go:180-240 | the latest `Seen` is stored exactly if no sweep has forgotten it: a week old, no address live, and not announced again since |
| `DiscoReplica.SeenDiverges` | cmd/stdiscosrv/database.go:180-240 | two replicas with the same records can disagree on `Seen` |
| `DiscoStore.Step` | cmd/stdiscosrv/database.go:400-416 | one round of the loop in place keeps the list the loop is heading for |
| `DiscoStore.MergeAddresses` | cmd/stdiscosrv/database.go:399-419 | merging in place ends with the merged list, although objects are shared; no object of the second list changes |
| `DiscoStore.MergeRecords` | cmd/stdiscosrv/database.go:394-422 | the same for records, with the later `Seen`; the second record is unchanged |
| `DiscoSlices.Append` | cmd/stdiscosrv/database.go:413-413 | appending to the first slots of a slice writes its array exactly if the capacity suffices, else a new one |
| `DiscoSlices.MergeSlices` | cmd/stdiscosrv/database.go:390-422 | on slices: only the first list's array is written, and only while the result fits; the second's array and objects are not; without spare capacity (apisrv.go:315) no slot of the first list changes either, so the record queued for replication keeps its addresses |
| `DiscoSlices.Announce` | cmd/stdiscosrv/apisrv.go:315-328 | an announcement on slices: what is queued stays the list of the announced names, each as stored, the stored list is only read, and every announced address is stored with the announced expiry or a later one it had |
| `DiscoSlices.SpareCapacityOverwrites` | cmd/stdiscosrv/database.go:412-414 | with spare capacity a shared slot is overwritten |
| `DiscoStore.Expire` | cmd/stdiscosrv/database.go:427-451 | returns the live addresses, says whether any had expired, and returns the same list if not |
| `DiscoStore.InMemoryStore.Put` | cmd/stdiscosrv/database.go:99-105 | stores the record under the device, keeps the others and the sharing invariant |
| `DiscoStore.InMemoryStore.Merge` | cmd/stdiscosrv/database.go:107-124 | the store's contents become the value-level merge |
| `DiscoStore.InMemoryStore.Get` | cmd/stdiscosrv/database.go:126-147 | returns the live addresses, or an empty record for an unknown device, without changing the store |
| `DiscoStore.InMemoryStore.ExpireAndCalculateStatistics` | cmd/stdiscosrv/database.go:180-240 | sweeps every device once, in any order of visits |
| `DiscoStore.InMemoryStore.SweepKey` | cmd/stdiscosrv/database.go:193-238 | a device is kept, with its live addresses, if it has one or was seen within a week, else dropped |
| `DiscoServer.ApiServer.Send` | cmd/stdiscosrv/amqp.go:119-133 | queues the record unless the outbox is full, and never waits |
| `DiscoServer.ApiServer.HandleAnnounce` | cmd/stdiscosrv/apisrv.go:306-328 | every announced address is stored with the announced expiry, or a later one it had, and the other addresses and devices are as they were; what is queued for replication is a sorted list of the same addresses, each as stored |
| `DiscoServer.AnnouncingMerges` | cmd/stdiscosrv/apisrv.go:306-328 | merging an announcement does just that to the stored list |
| `DiscoServer.AnnouncedLives` | cmd/stdiscosrv/apisrv.go:306-328 | an announced address is answered exactly until its expiry, or for as long as it would have been anyway |
| `DiscoServer.ApiServer.Receive` | cmd/stdiscosrv/amqp.go:154-190 | a message of another replica is merged, an own or undecodable one changes nothing |
| `DiscoServer.SharedEntries` | cmd/stdiscosrv/apisrv.go:315-328 | objects shared with the stored record stand for entries that are stored |
| `Bytes.SortedStringsAscending` | cmd/stdiscosrv/apisrv.go:312-313 | sorting and compacting gives the strictly ascending list of the same strings |
| `DiscoFile.Uint32RoundTrip` | cmd/stdiscosrv/database.go:295-295 | a big-endian length reads back |
| `DiscoFile.Write` | cmd/stdiscosrv/database.go:267-306 | the reused buffer yields exactly the frames of the recently seen records, in the order visited |
| `DiscoFile.Read` | cmd/stdiscosrv/database.go:349-387 | reading by position agrees with reading frame after frame, errors included |
| `DiscoFile.LoadedFacts` | cmd/stdiscosrv/database.go:379-384 | whatever a record holds, what is loaded is strictly sorted, and is of each address the entry that expires first, unless that has expired |
| `DiscoFile.LoadingKeepsNewestIff` | cmd/stdiscosrv/database.go:379-380 | loading keeps the entry that merging would exactly if no address has two expiries |
| `DiscoFile.ReadWellFormed` | cmd/stdiscosrv/database.go:349-387 | every file, valid or not, leaves a store of strictly sorted lists |
| `DiscoFile.LoadedSorted` | cmd/stdiscosrv/database.go:379-384 | sorting and compacting a list from the store only removes what has expired |
| `DiscoFile.ReadBack` | cmd/stdiscosrv/database.go:349-387 | reading adds the restored records to whatever was read before |
| `DiscoFile.FileRoundTrip` | cmd/stdiscosrv/database.go:267-387 | reading a written file restores exactly the records seen within the week, with addresses filtered at reading, for any contents and order |
| `DiscoFile.ReadCut` | cmd/stdiscosrv/database.go:349-387 | a written file cut off anywhere restores exactly the records whose frames are complete, counts them, and is an error exactly if the cut is inside a frame |
| `DiscoFile.ReadBadFrame` | cmd/stdiscosrv/database.go:366-377 | a frame that does not decode ends reading with an error, one with a bad device ID is skipped |
| `DiscoNetwork.KnowsBest` | cmd/stdiscosrv/apisrv.go:306-328 | a server that was told every announcement of a device that is still live, possibly with raised expiries, knows the best of them |
| `DiscoNetwork.NetworkConverges` | cmd/stdiscosrv/amqp.go:119-190 | in every run of announcing, sending, losing, delivering, sweeping and restarting, any two such servers return the same addresses: the best of all announced |
| `DiscoNetwork.HeardConverges` | cmd/stdiscosrv/amqp.go:119-190 | so do servers that have made or received every announcement since they were started |
| `DiscoNetwork.QueuedMayBeSent` | cmd/stdiscosrv/apisrv.go:323-328 | what an announcement queues is a message of the network model, whenever it is read during the merge |
| `DiscoNetwork.ReachedTold` | cmd/stdiscosrv/amqp.go:154-190 | what was announced at or delivered to a server that has not restarted, it has been told |
| `DiscoNetwork.DeliveredConverges` | cmd/stdiscosrv/amqp.go:119-190 | so any two servers converge that each announcement was made at or delivered to |
| `DiscoNetwork.RestartFromFile` | cmd/stdiscosrv/database.go:251-388 | a server restarted from the file it wrote knows as much of every device it had seen within the week |
| `Relay.StepKeepsInv` | cmd/strelaysrv/session.go:123-213 | every enabled step of a handler, session goroutine, timer or disconnect keeps the protocol invariant |
| `Relay.Reachable` | cmd/strelaysrv/session.go:62-213 | every state of every interleaving satisfies the invariant |
| `Relay.Safety` | cmd/strelaysrv/session.go:123-204 | never a send on a closed channel nor a second close, at most two connections per session, each session active once at most and only with two; after cleanup neither pending nor active |
| `Relay.HolderMeansOpen` | cmd/strelaysrv/listener.go:321-341 | a handler that has found a session finds its channel open |
| `Relay.FullUsesBothKeys` | cmd/strelaysrv/session.go:136-166 | a session with two connections has had both keys redeemed and handed over |
| `Relay.OverForever` | cmd/strelaysrv/session.go:192-204 | a session that was cleaned up stays so in every continuation |
| `Relay.RedeemedOnce` | cmd/strelaysrv/session.go:70-79 | over every run each session key is redeemed at most once |
| `Relay.ConnectionsAccounted` | cmd/strelaysrv/listener.go:321-341 | a refused connection is closed, an accepted one belongs to its session and is closed when that stops |
| `Relay.GoodKeys` | cmd/strelaysrv/session.go:62-79 | in every interleaving a key that was made and not used leads to its session until that is over |
| `Relay.FindRefusedIff` | cmd/strelaysrv/listener.go:321-331 | in every reachable state a client is refused at the lookup exactly if its key was never made, is used already, or its session is over; else it gets the session of the key |
| `Relay.ClientsMeet` | cmd/strelaysrv/session.go:136-172 | from every reachable state in which a session waits with both keys good, two clients that bring them one after the other end up in an active session with each other |
| `Relay.NewSessionMeets` | cmd/strelaysrv/session.go:62-172 | so it is with every new session whose goroutine has started |
| `Relay.CanEnd` | cmd/strelaysrv/session.go:136-213 | no session gets stuck: from every reachable state its own steps end it, with all its connections closed and no key pending |
| `Relay.DropCloses` | cmd/strelaysrv/session.go:81-93 | dropping an active session closes both its connections and nothing else |
| `Relay.HandOverRefusedIff` | cmd/strelaysrv/session.go:123-134 | a client with a good key is refused exactly if the session is not waiting just then |
| `Relay.NeverFull` | cmd/strelaysrv/session.go:70-79 | the session of such a client never gets two connections and never becomes active, in any continuation |
| `Relay.RefusedBeforeServe` | cmd/strelaysrv/listener.go:321-341 | a run in which the client is faster than the session's goroutine |
| `Relay.SwapRemoveKeepsOthers` | cmd/strelaysrv/session.go:196-203 | swap-removal removes one session and keeps all others once |
| `RelayRegistry.Registry.Register` | cmd/strelaysrv/session.go:62-65 | both keys lead to the session, nothing else changes; the tables are those of the protocol's step |
| `RelayRegistry.Registry.FindSession` | cmd/strelaysrv/session.go:70-79 | looking a key up uses it up, and finds what the protocol's step finds |
| `RelayRegistry.Registry.Activate` | cmd/strelaysrv/session.go:168-170 | the session is appended to the active ones, as in the protocol |
| `RelayRegistry.Registry.CleanUp` | cmd/strelaysrv/session.go:192-204 | removing while iterating over the old slice removes both keys and exactly this session, as the protocol's step does |
| `Events.RunAgrees` | lib/events/events.go:337-422 | over every run a live subscription's next ID is one plus the matching events since it subscribed, and it received exactly those it took, numbered by their place |
| `Events.DeliveredIDs` | lib/events/events.go:337-368 | delivered IDs are positive and strictly increasing |
| `Events.GapsAreDrops` | lib/events/events.go:344-366 | an ID is missing exactly if that event was dropped |
| `Events.SwapRemovePaired` | lib/events/events.go:404-422 | swap-removal from both arrays keeps every other subscription with its own counter |
| `Events.Logger.SendTo` | lib/events/events.go:344-366 | a matching event uses up an ID whether or not it gets through |
| `Events.Logger.SendEvent` | lib/events/events.go:337-368 | the loop over the parallel arrays offers the event to every live subscription once |
| `Events.Logger.Subscribe` | lib/events/events.go:370-402 | a new subscription starts at ID 1 with an empty channel |
| `Events.Logger.Unsubscribe` | lib/events/events.go:404-422 | exactly this subscription goes, whatever its position; a subscription removed before changes nothing but closes its channel again, which panics |
| `EventBuffer.BufferedSubscription.Receive` | lib/events/events.go:499-508 | the ring then holds the last events received, this one included |
| `EventBuffer.BufferedSubscription.Since` | lib/events/events.go:510-539 | waits for a newer event through broadcasts and arrivals until the timeout; then appends the newer events of the ring to `into`, oldest first, or returns `into` if it timed out |
| `EventBuffer.WaitEnds` | lib/events/events.go:514-525 | the wait ends after the first broadcast at which there is a newer event, or times out if there is none before the timeout |
| `EventBuffer.LoggerToClient` | lib/events/events.go:337-539 | over every run of the logger and of a polling client, the client gets logged events it took, with increasing IDs, none twice, and all of them if it is never overrun |
| `EventBuffer.SinceExact` | lib/events/events.go:510-539 | the answer is the newer ones of the last `len(buf)` events exactly if the ID is not negative or the buffer is full |
| `EventBuffer.NegativeSince` | lib/events/events.go:510-539 | an empty buffer asked with -1 answers with a zero event |
| `EventBuffer.RingSlides` | lib/events/events.go:499-508 | overwriting the oldest slot drops the oldest event and appends the new one |
| `EventBuffer.PollingIncreases` | lib/events/events.go:510-539 | over every run a polling client gets received events with strictly increasing IDs, none twice |
| `EventBuffer.PollingComplete` | lib/events/events.go:510-539 | a client that is never overrun misses nothing |
| `FakeFile.ContentSplit` | lib/fs/fakefs.go:767-788 | reading in parts gives the bytes of reading at once |
| `FakeFile.ByteOfBlock` | lib/fs/fakefs.go:838-843 | byte i of block b of 2^14 bytes is number i of the stream seeded with the main seed plus b, as an int64 |
| `FakeFile.SameBlock` | lib/fs/fakefs.go:828-870 | consecutive bytes of a block come from one generator |
| `FakeFile.FakeFile.ReadShortAt` | lib/fs/fakefs.go:790-871 | fills up to the end of file or block with the bytes fixed by seed and offset, whatever was read before |
| `FakeFile.FakeFile.Locate` | lib/fs/fakefs.go:828-855 | the cached or new generator stands at the requested offset of its block |
| `FakeFile.FakeFile.Pull` | lib/fs/fakefs.go:857-870 | the generator's next bytes are those of the file |
| `FakeFile.FakeFile.Read` | lib/fs/fakefs.go:761-765 | reads from the current offset to the end of the buffer, file or block, advances by as much, and reports the end of file exactly at it |
| `FakeFile.FakeFile.ReadAt` | lib/fs/fakefs.go:767-788 | terminates and returns exactly min(len, size - offset) bytes fixed by seed and offset; EOF exactly if the buffer was not filled |
| `FakeFile.FakeFile.Seek` | lib/fs/fakefs.go:873-900 | moves the offset, refuses positions before the start, and keeps the stream consistent |
| `FakeFile.FakeFile.WriteAt` | lib/fs/fakefs.go:909-932 | the size grows to cover the write, and later reads stay consistent |
| `FakeFile.FakeFile.Truncate` | lib/fs/fakefs.go:943-962 | sets the size, pulls the offset back, and later reads stay consistent |
| `ConfigLists.SwapDropFacts` | lib/config/config.go:537-586 | swap-removal leaves a clean part of the list, and whatever is missing was bad |
| `ConfigLists.SwapDropFixed` | lib/config/config.go:537-586 | a clean list is left alone, order included |
| `Config.FolderDevicesGood` | lib/config/folderconfiguration.go:289-302 | a folder's devices end up sorted, unique, configured, not shared untrusted without password, and include ourselves unless we are untrusted |
| `Config.FolderDevicesFixed` | lib/config/folderconfiguration.go:289-302 | good folder devices are left alone |
| `Config.DeviceListGood` | lib/config/config.go:302-349 | the device list ends up sorted, unique, without the empty ID and with ourselves |
| `Config.DeviceListFixed` | lib/config/config.go:302-349 | a good device list is left alone |
| `Config.FoldersFromFacts` | lib/config/config.go:351-386 | preparation succeeds exactly if all folders have an ID and a path and no ID repeats, and then prepares each |
| `Config.PrepareDelivers` | lib/config/config.go:275-407 | preparation succeeds exactly for acceptable folders and then delivers all cross-list promises |
| `Config.PreparedTrust` | lib/config/config.go:588-602 | in the devices' own settings: a plain folder is shared with an untrusted device only with a password |
| `Config.NormalizedMeans` | lib/config/folderconfiguration.go:304-335 | sensible folder settings are left alone and the others are made sensible, clamped to the nearest sensible number or set to the default |
| `Config.PreparedStays` | lib/config/config.go:275-407 | whatever the order of Go maps, preparing a prepared configuration leaves devices, folders, memberships, ignored devices and each device's set of ignored folders unchanged |
| `Config.PreparedFixedIff` | lib/config/deviceconfiguration.go:53-120 | a prepared configuration is sure to be a fixed point exactly if no device has two ignored folders with equal times |
| `Config.PrepareIdempotentIff` | lib/config/config.go:275-407 | preparing twice is sure to be preparing once exactly if the input has no such tie among the newest, unshared entries of a device |
| `Config.TieExample` | lib/config/deviceconfiguration.go:100-109 | a prepared configuration that preparation may change |
| `ConfigConservation.DeviceListKeeps` | lib/config/config.go:302-349 | the device IDs are the configured ones and our own, and the other devices are as configured |
| `ConfigConservation.FolderDevicesKeep` | lib/config/config.go:537-602 | a folder stays shared with a configured device if each of its entries allows it |
| `ConfigConservation.ShareKeptIff` | lib/config/config.go:537-602 | in whatever order the entries come, exactly then |
| `ConfigConservation.FolderDevicesPart` | lib/config/config.go:520-602 | a folder gets shared with nobody new but ourselves |
| `ConfigConservation.SharesKept` | lib/config/config.go:537-602 | a folder stays shared with a configured device that is trusted, or with passwords, or if it is stored encrypted |
| `ConfigConservation.OurselvesShared` | lib/config/config.go:520-535 | every folder includes ourselves, unless we are configured as untrusted |
| `ConfigConservation.DeviceSettingsKept` | lib/config/deviceconfiguration.go:53-78 | device settings stay, except that untrusted devices neither introduce nor accept folders; the device added for ourselves is trusted and unlimited |
| `ConfigConservation.IgnoredFoldersKept` | lib/config/deviceconfiguration.go:53-120 | a device's ignored folders are exactly the newest entries of those not shared |
| `ConfigConservation.PrepareKeeps` | lib/config/config.go:275-407 | preparation loses no device and no folder, and drops exactly the ignored devices that are configured |
| `ConfigPreparation.EnsureExistingDevices` | lib/config/config.go:537-550 | the swap-remove loop removes the unknown devices |
| `ConfigPreparation.EnsureNoDuplicateFolderDevices` | lib/config/config.go:552-568 | the swap-remove loop with a seen set removes repeated IDs |
| `ConfigPreparation.EnsureNoDuplicateOrEmptyIDDevices` | lib/config/config.go:570-586 | and empty ones from the device list |
| `ConfigPreparation.EnsureNoUntrustedTrustingSharing` | lib/config/config.go:588-602 | the order-preserving loop removes password-less shares with untrusted devices |
| `ConfigPreparation.PrepareFolder` | lib/config/folderconfiguration.go:289-336 | the unchecked map lookup is safe, and the folder is prepared |
| `ConfigPreparation.PrepareFolders` | lib/config/config.go:351-386 | the loop stops at the first bad folder with its error, else prepares all |
| `ConfigPreparation.PrepareDevices` | lib/config/config.go:388-392 | every device is prepared against the folders shared with it |
| `ConfigPreparation.PrepareDevice` | lib/config/deviceconfiguration.go:53-78 | the steps on the Go map yield one of the allowed outcomes |
| `ConfigPreparation.DeduplicateObservedFoldersToMap` | lib/config/deviceconfiguration.go:111-120 | the map has the newest entry of each folder |
| `ConfigPreparation.SortedObservedFolderSlice` | lib/config/deviceconfiguration.go:100-109 | visiting the map in any order, the entries come out ordered by time, each once |
| `ConfigPreparation.PrepareIgnoredDevices` | lib/config/config.go:394-407 | exactly the configured ones go |
| `ConfigPreparation.PrepareConfiguration` | lib/config/config.go:275-300 | the whole imperative preparation yields one of the outcomes proved about, and no plain folder shared with an untrusted device without password |
| `Limiter.CommitReflects` | lib/connections/limiter.go:89-172 | if the limits reflect the old configuration, they reflect the new one after the commit, early returns included |
| `Limiter.CommitReflectsIff` | lib/connections/limiter.go:89-172 | exactly when a commit leaves the right limits, whatever the limiter had and was told |
| `Limiter.ReflectsMeans` | lib/connections/limiter.go:62-172 | in the configured numbers: sending to a device is limited by its send rate and receiving by its receive rate, all traffic by those of the options, and nobody else is limited |
| `Limiter.CommitMeans` | lib/connections/limiter.go:89-172 | after every commit each remote device has its configured rates in each direction, and so has all traffic if the options changed |
| `Limiter.NewLimiterReflects` | lib/connections/limiter.go:54-57 | committing from the made-up configuration makes an untouched limiter reflect the real one |
| `Limiter.StaleFromBreaks` | lib/connections/limiter.go:131-135 | a limiter told that nothing changes keeps a wrong limit |
| `Limiter.LimiterMap.Get` | lib/connections/limiter.go:217-224 | returns the device's one limiter, a new unlimited one if there was none |
| `Limiter.ConnectionLimiter.GetLimiters` | lib/connections/limiter.go:179-215 | both limiters of a device exist afterwards, existing ones stay the same objects |
| `Limiter.ConnectionLimiter.SetLimits` | lib/connections/limiter.go:62-87 | both limiters have the configured rates, each in its direction, although nothing is written if they had |
| `Limiter.ConnectionLimiter.AssignAll` | lib/connections/limiter.go:89-112 | all remote devices have their rates |
| `Limiter.ConnectionLimiter.DeleteGone` | lib/connections/limiter.go:113-121 | exactly the limiters of devices no longer configured go |
| `Limiter.ConnectionLimiter.CommitConfiguration` | lib/connections/limiter.go:123-172 | the limits become those of the commit function, the limiter objects have the configured rates in each direction, and devices that stay keep their objects |
| `ConfigCommit.RunChains` | lib/config/wrapper.go:257-346 | over every run each subscriber's (from, to) pairs form a chain that ends at the active configuration |
| `ConfigCommit.RejectedUnchanged` | lib/config/wrapper.go:304-328 | a change is taken over exactly if it is one, prepares and nobody objects; else nothing changes at all |
| `ConfigCommit.UnsubscribedSilent` | lib/config/wrapper.go:199-209 | over every continuation, one that has unsubscribed gets nothing more |
| `LimiterCommit.LimitsFollowIff` | lib/connections/limiter.go:45-172 | with the limiter as a subscriber that subscribes, copies and commits in separate steps, in every interleaving: whenever it has committed all its changes, the limits are those of the active configuration exactly if the copy was not overtaken or does no harm |
| `LimiterCommit.ExecKeepsInv` | lib/config/wrapper.go:257-346 | every interleaving keeps the exact account of the limits in terms of the limiter's chain of changes |
| `LimiterCommit.ConnectLimits` | lib/connections/limiter.go:179-224 | a device that connects has limiters, with the limits it had, or none |
| `LimiterCommit.OvertakenReflects` | lib/connections/limiter.go:54-57 | when exactly a stale first commit does no harm, device by device and for the overall limits |
| `LimiterCommit.OvertakenRun` | lib/connections/limiter.go:54-57 | the interleaving in which the copy is overtaken, for any two configurations |
| `LimiterCommit.OvertakenBreaks` | lib/connections/limiter.go:54-57 | after it, the limit of the old configuration can stay in force |
| `ConfigCommit.Wrapper.ServeModify` | lib/config/wrapper.go:257-328 | one modification is prepared, verified, committed and notified, or leaves everything as it was; success is reported exactly if there was nothing to change or nothing against it |
| `ConfigCommit.Wrapper.NotifyListeners` | lib/config/wrapper.go:330-346 | every subscriber gets the change once |
| `ConfigCommit.Wrapper.Subscribe` | lib/config/wrapper.go:189-194 | the subscriber is given the active configuration, where its chain starts |
| `ConfigCommit.Wrapper.Unsubscribe` | lib/config/wrapper.go:199-213 | this subscriber gets nothing more, the others are unaffected |
| `ConfigCommit.RemoveFirst` | lib/config/wrapper.go:203-209 | the first occurrence goes, the order stays |
| `DialRegistry.RefusedIff` | lib/connections/service.go:1219-1246 | a redial is refused exactly while the device cools down, else the device is dialled at once |
| `DialRegistry.AttemptsBounded` | lib/connections/service.go:1219-1282 | over every run the counted attempts never exceed the maximum |
| `DialRegistry.CoolDownHolds` | lib/connections/service.go:1219-1282 | once the maximum is reached, nothing forces a redial or forgets the device until the delay after the interval start has passed |
| `DialRegistry.NextSet` | lib/connections/service.go:1248-1253 | setting a dial time sets this one only, and neither counts nor forgets an attempt |
| `DialRegistry.CleanedMeans` | lib/connections/service.go:1255-1282 | the cleanup drops passed dials, keeps attempts, and forgets a device exactly if no dial is due and no attempt counts any more |
| `DialRegistry.DialTimesExact` | lib/connections/service.go:1204-1282 | over every run an address is to be dialled as it was set last, unless that has passed and been cleaned up or a redial has been forced since |
| `DialRegistry.ForcedBounded` | lib/connections/service.go:1214-1282 | in nondecreasing time at most three redials are forced per cool-down interval begun |
| `DialRegistry.BoundReached` | lib/connections/service.go:1219-1246 | runs over any number of intervals that reach the bound |
| `DialRegistry.WindowBounded` | lib/connections/service.go:1219-1282 | from any registry, how many redials can be forced within less than an interval: never more than five |
| `DialRegistry.WindowReached` | lib/connections/service.go:1219-1246 | for every registry and window, calls that force as many |
| `DialRegistry.FiveWithinASecond` | lib/connections/service.go:1214-1218 | calls within two seconds that force five redials of a device redialled once before |
| `DialRegistry.UncountedIff` | lib/connections/service.go:1242-1245 | exactly when a redial is forced without being counted |
| `DialRegistry.FourAtOnceIff` | lib/connections/service.go:1214-1218 | at one instant at most four can be forced, and four exactly when the first ends an interval |
| `DialRegistry.NextDialRegistry.RedialDevice` | lib/connections/service.go:1219-1246 | the registry becomes that of the redial function |
| `DialRegistry.NextDialRegistry.Set` | lib/connections/service.go:1248-1253 | sets the address's next dial time, keeping all others, attempts and the other devices |
| `DialRegistry.NextDialRegistry.SleepDurationAndCleanup` | lib/connections/service.go:1255-1282 | forgets passed dials and finished devices, and returns the time until the soonest dial left, at most a minute |
| `DialRegistry.Prune` | lib/connections/service.go:1258-1267 | the pending dials are left and the soonest of them bounds the sleep |
| `ConnectionID.ValueOrder` | lib/connections/service.go:1425-1425 | big-endian digits of equal length sort like the numbers |
| `ConnectionID.Alphabet` | lib/connections/service.go:1427-1433 | the characters are the extended hex alphabet |
| `ConnectionID.CharactersOrder` | lib/connections/service.go:1427-1433 | grouping bits into characters of the extended hex alphabet keeps their order |
| `ConnectionID.HexEncodingOrder` | lib/connections/service.go:1427-1433 | the encoding keeps the order of strings of equal length and tells them apart |
| `ConnectionID.IDOrder` | lib/connections/service.go:1423-1434 | IDs have 26 characters and compare by the wrapped sum, then by the random part |
| `ConnectionID.ChronologicalIff` | lib/connections/service.go:1416-1434 | IDs sort chronologically for all random parts exactly if the sums do not lie on both sides of zero or are more than 2^64 apart |
| `ConnectionID.NegativeSumsBreak` | lib/connections/service.go:1416-1434 | an ID whose sum a remote timestamp makes negative does not sort before a later one |
| `Lookup.ReplayIsLastAsk` | lib/discover/manager.go:113-157 | a finder's cache entry for a device is its last answer in the run |
| `Lookup.AsksIff` | lib/discover/manager.go:116-138 | exactly when a finder is asked: never before, or the last answer is out of date |
| `Lookup.ContributionExact` | lib/discover/manager.go:113-157 | an address is returned exactly if the finder answers it now or its last answer, less than the cache time ago, had it |
| `Lookup.NotAskedEarly` | lib/discover/manager.go:126-156 | after a negative answer a finder is not asked before its negative cache time and the error's validity have passed, after a positive one not before its cache time |
| `Lookup.CacheForOverridesIff` | lib/discover/cache.go:27-31 | an error's own cache time overrides the default exactly if it is not shorter |
| `Lookup.TrimMeans` | lib/stringutil/stringutil.go:17-30 | trimming cuts off the spaces at both ends and nothing else |
| `Lookup.UniqueTrimmedStrings` | lib/stringutil/stringutil.go:17-30 | the trimmed strings, each once |
| `Lookup.VisitFinder` | lib/discover/manager.go:115-157 | one round contributes and caches what the history says, and touches no other device |
| `Lookup.Manager.Lookup` | lib/discover/manager.go:113-166 | the result is the ascending list of exactly what the finders contribute; every cache remains the replay of its history |
| `Lookup.Manager.Add` | lib/discover/manager.go:80-94 | a finder starts with an empty cache |
| `Lookup.Manager.Remove` | lib/discover/manager.go:96-109 | only this finder and its cache go |
| `Folding.IsASCII` | lib/fs/folding.go:30-41 | both answers are right for ASCII strings, the first for all |
| `Folding.ToLowerASCII` | lib/fs/folding.go:43-63 | the span-copying loop lower-cases byte by byte |
| `Folding.FoldMeans` | lib/fs/folding.go:19-63 | folding makes the capitals of a seven-bit string small and leaves its other bytes alone; other strings are left to the Unicode part |
| `Folding.FoldASCII` | lib/fs/folding.go:19-28 | on ASCII, folding is idempotent and identifies exactly the strings that agree up to case |
| `Folding.FoldIdempotentIff` | lib/fs/folding.go:19-28 | folding is idempotent exactly if what the Unicode part yields folds to itself |
| `CaseCache.NewCaseNode` | lib/fs/casefs.go:482-507 | the loop builds the node of the listing |
| `CaseCache.ScanSound` | lib/fs/casefs.go:496-504 | the map leads from folded names to listed names that fold like that |
| `CaseCache.CoversIff` | lib/fs/casefs.go:496-504 | no listing has a name the map misses exactly if folding is idempotent |
| `CaseCache.ASCIICovers` | lib/fs/casefs.go:496-504 | listings of ASCII names are covered by the code's folding, whatever its Unicode part does |
| `CaseCache.UnicodeCovers` | lib/fs/casefs.go:496-504 | all listings are, if what the Unicode part yields folds to itself |
| `CaseCache.ResolveSound` | lib/fs/casefs.go:419-444 | every resolved component is a real child with the folded name asked for |
| `CaseCache.ResolveExisting` | lib/fs/casefs.go:432-438 | a path that exists as written resolves to itself |
| `CaseCache.ResolveComplete` | lib/fs/casefs.go:419-444 | if folding the listed names again changes nothing, resolution fails only where a listing fails or has no name that folds like the next component |
| `CaseCache.ResolveASCII` | lib/fs/casefs.go:419-444 | so it does with the code's folding in every tree of ASCII names, for every path |
| `CaseCache.ListingsStayIff` | lib/fs/casefs.go:452-491 | a listing, also one that failed or refreshes an expired one, is served until it expires: the cache agrees with the directory, whatever becomes of it, exactly once more than a second has passed |
| `CaseCache.CaseFilesystem.GetExpireAdd` | lib/fs/casefs.go:452-466 | the node is of the current listing or of one not yet expired, whatever the cache evicts, and stays in the cache |
| `CaseCache.CaseFilesystem.RealCase` | lib/fs/casefs.go:419-444 | with a current cache the result is that of resolving without one; with an outdated one every component was listed within the timeout; what it caches expires a second after it was read |
| `CaseCache.CaseFilesystem.DropCache` | lib/fs/casefs.go:446-448 | makes the cache current |
| `CaseCache.VerdictMeans` | lib/fs/casefs.go:378-395 | a name that is there as written is no conflict; a conflict is a real path that matches up to folding and is written differently also when normalised |
| `CaseCache.CaseFilesystem.CheckCaseExisting` | lib/fs/casefs.go:378-395 | reports the conflicts of the current tree, never a name that is there as written, and never an existing name as missing because of an outdated cache |
| `CaseCache.CaseFilesystem.CheckCase` | lib/fs/casefs.go:360-374 | an absent name is no conflict, a present one is judged as above |
| `CaseCache.CaseFilesystem.Mutate` | lib/fs/casefs.go:177-197 | a checked, successful operation changes the tree and leaves the cache current; any failure changes nothing; on a name that is absent or there as written it succeeds exactly if the operation does |
| `CaseCache.CaseFilesystem.Rename` | lib/fs/casefs.go:236-252 | the same of two names, where a conflict of the new name with the old one is allowed |
| `Tokens.KeptAllowed` | lib/api/tokenmanager.go:61-137 | over every run a kept token has the expiry it got when it was last loaded, issued or successfully checked, and was not deleted since |
| `Tokens.CheckSound` | lib/api/tokenmanager.go:61-79 | a check succeeds only for such a token whose expiry has not passed |
| `Tokens.AllowanceMeans` | lib/api/tokenmanager.go:61-108 | which event of the run a token's expiry comes from |
| `Tokens.CheckRecent` | lib/api/tokenmanager.go:61-108 | a check succeeds only for a token issued or successfully checked at most one lifetime ago, or with lifetimes disabled, and not deleted since; or for a loaded one that has not expired |
| `Tokens.CheckExact` | lib/api/tokenmanager.go:61-79 | without a limit, a check succeeds exactly for such a token |
| `Tokens.SavedBounds` | lib/api/tokenmanager.go:110-137 | after a save at most `maxItems` tokens remain, none expired, and, if the differences of expiries fit an `int`, none evicted has a larger expiry than one kept |
| `Tokens.FairIff` | lib/api/tokenmanager.go:119-137 | no evicted token outlives a kept one exactly if never-expiring tokens are not mixed with others |
| `Tokens.SurvivesIff` | lib/api/tokenmanager.go:119-137 | a token is sure to survive a save exactly if fewer than `maxItems` others live as long, whatever the map order |
| `Tokens.FreshMayGo` | lib/api/tokenmanager.go:82-99 | a token that never expires can be evicted by its own creation |
| `Tokens.MixedRun` | lib/api/tokenmanager.go:41-99 | a run in which a loaded token that never expires makes room for one that does |
| `Tokens.ComparesIff` | lib/api/tokenmanager.go:130-132 | for expiries up to a distance apart the comparison is right exactly if that distance fits an `int` |
| `Tokens.NarrowSortsLaterFirst` | lib/api/tokenmanager.go:130-132 | with 32 bits, of two tokens three seconds apart the later is sorted first, in either order |
| `Tokens.EvictsRightIff` | lib/api/tokenmanager.go:120-137 | sorting and deleting keeps the tokens that expire last, for all sets of a given spread and all their listings, exactly if the spread fits an `int` |
| `Tokens.NarrowEvictsLater` | lib/api/tokenmanager.go:120-137 | with 32 bits, of two tokens three seconds apart the later is evicted, in whichever order the map yields them |
| `Tokens.WideSavedBounds` | lib/api/tokenmanager.go:110-137 | with 64 bits, after every save no token gone for space expires later than one kept |
| `Tokens.Evict` | lib/api/tokenmanager.go:120-137 | sorting by the cut difference and deleting the first ones keeps `maxItems` tokens, and those with the largest expiries if all differences fit |
| `Tokens.TokenManager.SaveLocked` | lib/api/tokenmanager.go:110-137 | expired tokens go, then the oldest above the limit |
| `Tokens.TokenManager.Check` | lib/api/tokenmanager.go:61-79 | a checking step of the run: success renews the token before the save, an expired token is swept, an unknown one changes nothing |
| `Tokens.TokenManager.New` | lib/api/tokenmanager.go:82-92 | an issuing step of the run: one lifetime for the new token, then the save |
| `Tokens.TokenManager.Delete` | lib/api/tokenmanager.go:102-108 | a deleting step of the run: the token goes, then the save |
| `RotatedLog.RunKeeps` | cmd/syncthing/monitor.go:357-394 | over every run the files within the limit stay within it, each is within the size or a single chunk, and their chunks, oldest first, are a suffix of all chunks; something is lost only once all files are in use |
| `RotatedLog.BytesKept` | cmd/syncthing/monitor.go:357-394 | the bytes in those files, oldest first, are a suffix of all bytes written |
| `RotatedLog.RunPacked` | cmd/syncthing/monitor.go:357-374 | over every run a file is ended only when the next chunk would not have fitted |
| `RotatedLog.WithinMaxIff` | cmd/syncthing/monitor.go:320-321 | a rotation leaves at most `maxFiles` numbered files exactly if that is at least one |
| `RotatedLog.AnyStart` | cmd/syncthing/monitor.go:357-394 | from any start, with gaps and more files than the limit, the disk has the run's own files as if there were no others, none ended too early |
| `RotatedLog.FoundMoves` | cmd/syncthing/monitor.go:376-394 | what was found before: files beyond the limit stay for good, the others move up by the number of rotations, gaps included, and the last is only lost for another |
| `RotatedLog.ContiguousStart` | cmd/syncthing/monitor.go:357-394 | from contiguous files within the limit, the numbered files remain exactly those of the run, contiguous from 0 |
| `RotatedLog.DiskRunHolds` | cmd/syncthing/monitor.go:357-394 | the disk simulates the run of any contiguous files it starts with |
| `RotatedLog.RotatedFile.Rotate` | cmd/syncthing/monitor.go:376-394 | the descending renames, on any disk: each file below the last moves up by one, the last is replaced if there is one to replace it, those beyond stay |
| `RotatedLog.RotatedFile.Write` | cmd/syncthing/monitor.go:357-374 | one step of the run on disk, on whatever was found, and the remembered size stays the real one |

## Left out

- Concurrent calls of the discovery store's `merge`, whose load and store are separate; concurrent lookups of one device; the check-then-insert of relay outboxes: operations are sequential steps.
- `DiscoServer.ApiServer.Receive`: messages of other replicas are taken to be strictly sorted, as `HandleAnnounce` makes them and `DiscoNetwork.ExecKeepsInv` shows of all that servers send each other; the receiver does not sort what others send.
- The statistics counters of the discovery store's sweep, its blob uploads, and the I/O errors of reading and writing the database file.
- The backing arrays of Go slices, except for the discovery server's merge and the relay's cleanup: elsewhere lists are values.
- Codecs: records are encoded by an opaque function with a round-trip assumption, and frames are shorter than 2^32 bytes.
- The relay's proxying, rate limiting (`take`) and message outboxes; random keys never repeat.
- `EventBuffer.BufferedSubscription.Since`: what wakes it and which events arrive meanwhile is given; the timer itself is not modelled.
- `FakeFile.FakeFile.WriteAt`: only files without saved content; with content, reads copy from a byte slice.
- The fake filesystem's directory operations.
- Configuration migrations, defaults, device addresses and deprecated protocols in `prepare`; options other than the bandwidth limits.
- `Limiter.ConnectionLimiter.GetLimiters`: does not model the limited readers and writers, which wait for tokens in chunks.
- Saving the configuration. Other subscribers than the limiter take a change at once; the limiter takes it at any time before the next one is served.
- `Lookup.VisitFinder`: does not model context cancellation; what a finder answers is given.
- Lower-casing and normalising of other than ASCII names is an opaque function; canonicalising and splitting path strings is not modelled, paths are lists of components.
- `CaseCache.CaseFilesystem.Mutate`: the underlying operation is an opaque function that either fails without effect or yields a new tree; Walk, Watch and reading operations are not modelled.
- `Tokens.Evict`: what a sort does with a comparison that is no order is left open, as the library leaves it; clocks show times between 1970 and 2262.
- Saving tokens to the database after a second.
- `RotatedLog.RotatedFile.Write`: does not model I/O errors.
- `DialRegistry.ForcedBounded`: counts calls that reset a device's dial times; the dialling itself is not modelled.
