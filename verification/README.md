# A verified model of LinkSelf's synchronisation layers

LinkSelf keeps data in step between the devices of one user and between the members of a group,
without a server. This project models the layers above its transport as Dafny state machines and
proves what they promise, for all inputs, all runs and all interleavings. Wherever the Go original
and the TypeScript port say the same thing, one model stands for both.

The form is the same throughout. A pure step function (`Exec`, `Serve`, `Next`, ...) says what one
operation does, error cases included. A class with the source's fields performs it in place, and each
of its methods is proved to compute exactly that step. The main results are lemmas over the step
functions, mostly over runs of arbitrary length.

| file | models |
|---|---|
| `DeviceStore.dfy` | the record map and change log of one device |
| `Replication.dfy` | local writes, retention, last-write-wins, catch-up sync |
| `Convergence.dfy` | any number of devices exchanging broadcasts |
| `MyDb.dfy` | dump and restore of the device database |
| `GroupShare.dfy` | shared records with expiry and purge |
| `RoleDag.dfy` | the role hierarchy and its three-colour search |
| `GroupStore.dfy`, `GroupService.dfy` | groups, the inverted index, ownership rules |
| `Networks.dfy` | networks gated by an admin role |
| `Join.dfy` | invitations with single-use nonces |
| `NetworkMeta.dfy` | membership snapshots ordered by epoch |
| `StoreForward.dfy` | queues flushed while others queue and flush |
| `Presence.dfy` | the directory with lazy expiry |
| `Framing.dfy`, `MutualAuth.dfy` | frames over chunked streams, the authentication exchange |
| `Roster.dfy` | the signed device list |
| `Common.dfy` | shared vocabulary |

## What turned out conditional

Several properties one would expect hold only under a condition; each is proved as an equivalence,
or with a lemma giving an input that fails without it.

- Catch-up leaves a peer behind when a write was not stamped above the record it replaced, as two writes
  of one key in the same millisecond are (`Replication.CatchUpIsExact`). The peer skips the write, and its
  number falls short of ours.
- The gap test is documented as detecting a gap but is one too strict, for exactly the peers one short of
  the first stored entry (`Replication.GapTestIsOneTooStrict`); so a fresh peer is sent a dump even when
  the whole history is still stored (`FreshPeerIsDumped`). A dump carries no deletions
  (`MyDb.DumpReproducesIff`).
- Sequence numbers count a device's own log. Two devices exchange nothing exactly if their numbers are
  equal, whatever they hold (`Replication.EqualNumbersHideDifferences`).
- Device convergence needs distinct timestamps per key and clocks ahead of what is stored. With deletes
  it needs one thing more, and exactly that: that no put arrives after a newer delete of an absent key
  (`Convergence.StaysNewestIff`), since the stores keep no tombstone.
- A purge is visible, with a clock that does not go back, in one place only: the count that a restore
  reports, and exactly if the list hands a purged key a record no newer than the purged one
  (`GroupShare.PurgesShowInCountsIff`, `PurgeShowsInCountIff`). If the clock does go back, it shows in a
  read exactly for the records that the purge took and the read still wants
  (`GroupShare.PurgeShowsInGetIff`).
- A local delete of a shared record checks only that the channel is registered, although a delete
  permission is defined (`GroupShare.RemovedIff`).
- Outsiders are powerless only if the empty role does not satisfy the admin role. It is not enough
  that the admin role is neither `members` nor empty, since a role named "" may include it
  (`Networks.OutsidersPowerlessIff`).
- Role lookup is transitive only if no role named `members` includes anything
  (`RoleDag.HasRoleIsTransitiveIff`).
- A consumed nonce stops exactly the acceptances that have yet to check it; any that are past their
  check by then can still be accepted (`Join.OverlappingAcceptancesShareNonceIff`). And an invitee
  stays, unless somebody removes it, exactly if no acceptance writes back a copy fetched before it was
  added (`Join.InviteeStaysIff`). Overlapping management operations undo one another in the same way
  (`Networks.RemovedComesBackIff`, `AddedIsLostIff`).
- Snapshot convergence needs an untied top epoch (`NetworkMeta.ConvergenceIff`), and through the
  client also that some sender of the newest snapshot keeps its standing along every chain of the others
  (`NetworkMeta.NewestAlwaysWinsIff`; for two snapshots one check, `TwoSnapshotsAgreeIff`).
- Flushes that overlap keep the order exactly if what the new one sends comes next anyway
  (`StoreForward.FlushKeepsOrderIff`).
- The authentication exchange ties a returned DID to a signature over the side's own challenge and to
  nothing else (`MutualAuth.ReturnsIff`); that DID may be the side's own (`OwnBytesReturnIff`).

## What is a parameter

Clocks are arguments (`now`), and runs state what they assume of them. Fresh identifiers are
arguments required to be unused, as the generator's are. Role resolvers, access policies, schema
validators, peer lists, send outcomes and what arrives during a send are arguments or function
values, so every result holds for all of them. Signatures and the roster's encoder are ideal: a
signature verifies exactly if it is the one that key makes over those bytes, and the roster's results
that need it assume that different documents and different bytes stay different. Map iteration
order is arbitrary: every loop over a map picks its next key freely, and listings are specified as
sets listed once.

## Model

| member | source | states |
|---|---|---|
| Replication.RetentionForgetsOnlyHistory | core/internal/devicesync/replication.go:64-127 | over every run of puts, deletes, incoming changes and restores, under any policy: records and latest number are those of an engine that never prunes, the stored log is a gap-free suffix of that engine's full history ending in the same entry, it is never emptied once written, and the records replay the full history |
| Replication.PutTrimsExactly | core/internal/devicesync/replication.go:64-108 | a put drops a prefix only: a count limit leaves at most the limit and, if anything went, exactly the limit; an age limit drops exactly the longest prefix older than the cutoff, or nothing if all is older |
| Replication.PutTrimsByAge | core/internal/devicesync/replication.go:68-88 | with a nonnegative age the log after a put always starts with an entry at or after the cutoff |
| Replication.PutKeepsCount | core/internal/devicesync/replication.go:90-106 | under a count policy a put leaves the last entries up to the policy's own limit, 10000 for 0, and the limit modulo 2^64 when it is negative |
| Replication.PutKeepsRecent | core/internal/devicesync/replication.go:68-88 | under an age policy, in the policy's own nanoseconds and 30 days for 0, a put drops the longest prefix that is too old, or nothing if everything is |
| Replication.OnlyPutsTrim | core/internal/devicesync/replication.go:111-153 | deletes, arrivals and restores only add to the log, whatever the policy |
| Common.MillisecondsTruncates | core/internal/devicesync/replication.go:73 | a duration's whole milliseconds, truncated toward zero |
| Replication.TruncateByAge | core/internal/devicesync/replication.go:73-88 | truncating below the number of the first recent entry is dropping the old prefix |
| Replication.TruncateByCount | core/internal/devicesync/replication.go:102-106 | truncating below `latest - max + 1` leaves exactly the last `max` entries |
| Replication.IncrementIsComplete | core/internal/devicesync/replication.go:169-196 | the incremental branch is taken exactly when the peer is up to date or not behind the first stored entry, and it then carries exactly the history entries the peer misses, none lost to pruning |
| Replication.CatchUpIsExact | core/internal/devicesync/replication.go:136-197 | applying an increment to a peer that mirrors our first writes gives it our number, and then also our records, deletes included, with nothing left to send, if and only if each missing write was stamped above the record it replaced |
| Replication.GapTestIsOneTooStrict | core/internal/devicesync/replication.go:183-189 | a peer that is behind is sent a dump although nothing it misses was pruned if and only if it is one short of the first stored entry |
| Replication.FreshPeerIsDumped | core/internal/devicesync/replication.go:183-189 | a fresh peer is always sent a dump, and needlessly if and only if nothing has been pruned |
| Replication.EqualNumbersHideDifferences | core/internal/devicesync/replication.go:169-196 | why the mirror condition is needed: any two devices exchange nothing, whatever they hold, if and only if their numbers are equal |
| Replication.OneWriteEachIff | core/internal/devicesync/replication.go:169-175 | two devices that wrote once have equal numbers, and equal records if and only if the writes agree |
| Replication.FirstRecent | core/internal/devicesync/replication.go:79-85 | the search loop finds the number of the first entry at or after the cutoff, 0 if none |
| Replication.ReplicationEngine.Put | core/internal/devicesync/replication.go:38-56 | new store state; to every peer of the list, in order, the new entry under the number it was given, and nothing else new is sent; an error exactly when the peer list cannot be had |
| Replication.ReplicationEngine.EnforceRetention | core/internal/devicesync/replication.go:64-108 | the log is trimmed as the retention specification says and nothing else changes |
| Replication.ReplicationEngine.EnforceAge | core/internal/devicesync/replication.go:68-88 | the age branch leaves what the retention specification says |
| Replication.ReplicationEngine.EnforceCount | core/internal/devicesync/replication.go:89-107 | so does the count branch |
| Replication.ReplicationEngine.Delete | core/internal/devicesync/replication.go:111-127 | the record goes, a delete entry with the next number is logged and sent to every peer of the list, in order, and nothing is trimmed |
| Replication.ReplicationEngine.HandleIncoming | core/internal/devicesync/replication.go:136-153 | only a strictly newer change is applied, and logged under the receiver's own next number; unknown operations are ignored |
| Replication.ReplicationEngine.SyncWith | core/internal/devicesync/replication.go:158-197 | which of increment, dump, error or nil call a peer gets, with exactly which entries or records, for every answer and set of handlers of the peer; what is sent ends well exactly if the send succeeds |
| Replication.ReplicationEngine.Broadcast | core/internal/devicesync/replication.go:217-242 | exactly one attempt per peer of the list, in order, whatever fails, and none without a list; an error only if the list cannot be had |
| Replication.CollectRecords | core/internal/devicesync/replication.go:200-214 | table by table, every record is collected exactly once |
| DeviceStore.MemStorage.Put | core/internal/devicesync/mem_storage.go:34-59 | the record is stored and a put entry with the next number appended |
| DeviceStore.MemStorage.Delete | core/internal/devicesync/mem_storage.go:72-88 | the record is removed and a delete entry appended, with no tombstone in the records |
| DeviceStore.MemStorage.List | core/internal/devicesync/mem_storage.go:90-101 | every record of the table exactly once, order unspecified |
| DeviceStore.MemStorage.ChangesSince | core/internal/devicesync/mem_storage.go:125-136 | exactly the entries above the number, in order |
| DeviceStore.MemStorage.TruncateChangeLog | core/internal/devicesync/mem_storage.go:154-164 | the index loop drops exactly the leading entries below the number |
| DeviceStore.MemStorage.ListTables | core/internal/devicesync/mem_storage.go:166-179 | every table in use exactly once |
| DeviceStore.DropBelowSlices | core/internal/devicesync/mem_storage.go:154-164 | on an unbroken numbering, truncation is the slice the number points to |
| DeviceStore.AfterSlices | core/internal/devicesync/mem_storage.go:125-136 | on an unbroken numbering, the changes since a number are the slice behind it |
| Convergence.DevicesConverge | core/internal/devicesync/replication.go:38-197 | any number of devices that write, delete, receive broadcasts late, reordered, repeated or never, catch up with one another by increment or dump, and prune as they like: if no old put comes after a newer delete of an absent key, every device is for every key on the newest entry it has written or received, a newest delete meaning absence, so devices that have seen the same entries have equal records |
| Convergence.StaysNewestIff | core/internal/devicesync/replication.go:38-197 | that delivery condition is exact: in a run whose local writes are well stamped the acting device is on newest entries at every moment, even between two entries of one sync, if and only if no put older than a seen delete of an absent key is written or received |
| Convergence.AnnouncedMayArrive | core/internal/devicesync/replication.go:217-242 | what the engine sends to each peer for a write is an entry that may then, and because of the write alone, be delivered to any device |
| Convergence.AnnouncedIsLogged | core/internal/devicesync/replication.go:38-56 | it carries the number under which the writer logs it |
| Convergence.WritesFollowOwnPolicy | core/internal/devicesync/replication.go:64-107 | each device prunes by its own policy, and one without a policy not at all |
| Convergence.SyncDelivers | core/internal/devicesync/replication.go:169-196 | after a sync the device has seen the peer's log beyond its number, or all the peer's records |
| Convergence.ReceiveKeepsNewestIff | core/internal/devicesync/replication.go:136-153 | exactly when receiving keeps a device on newest entries: always for a delete or a stored key; for a put of an absent key if and only if no newer delete was seen, or, stamped at most 0, if a delete at least as new was |
| Convergence.WriteKeepsNewestIff | core/internal/devicesync/replication.go:38-43 | a local write keeps it if and only if its clock is not behind the stored record or, if none is stored, the deletes seen |
| Convergence.DeleteKeepsNewestIff | core/internal/devicesync/replication.go:111-116 | a local delete keeps it if and only if its clock is not behind the record, or a seen delete already was not |
| Convergence.PutDeleteCommuteIff | core/internal/devicesync/mem_storage.go:72-88 | a put and a delete commute, from any state, if and only if the keys differ, the delete is no newer than what is stored, or the put is stamped above 0 exactly if it is at least as new as the delete |
| Convergence.DeleteDoesNotConverge | core/internal/devicesync/mem_storage.go:72-88 | so an older put stamped above 0 that comes after the delete is back for good |
| Convergence.DumpIsPuts | core/pkg/linkself/api.go:80-95 | restoring a dump is receiving its records as puts |
| Convergence.PutsNeverRevive | core/internal/devicesync/replication.go:136-153 | without deletes the delivery condition always holds |
| Convergence.NewestIsFixedIff | core/internal/devicesync/replication.go:142-144 | what was seen determines the records if and only if no key has two different entries at its highest timestamp |
| Convergence.PutsCommuteIff | core/internal/devicesync/replication.go:136-153 | two puts of one key commute, from any state, if and only if their stamps differ, they are alike, or neither is newer than what is stored |
| Convergence.TieDiverges | core/internal/devicesync/replication.go:142-144 | two different writes in the same millisecond leave two devices different, whatever they held |
| Convergence.SlowClockDivergesIff | core/internal/devicesync/replication.go:38-43 | a device that overwrites a received record is followed by the sender if and only if its stamp is later or the write the same |
| MyDb.Database.Dump | core/pkg/linkself/api.go:57-78 | every record exactly once |
| MyDb.Database.Restore | core/pkg/linkself/api.go:80-95 | the store after last-write-wins over the list, and the number applied; nothing is broadcast or pruned |
| MyDb.RestoreIsNewest | core/pkg/linkself/api.go:80-95 | per key the result is the newest of store and list, no key is lost, and 0 are applied exactly when the list holds nothing newer |
| MyDb.RestoreTwiceIsOnce | core/pkg/linkself/api.go:80-95 | restoring the same list again changes nothing |
| MyDb.RestoreDumpIsJoin | core/pkg/linkself/api.go:57-95 | restoring any dump, in whatever order it lists, is the per-key join with the dumped store |
| MyDb.ExchangeAgreesIff | core/pkg/linkself/api.go:57-95 | two stores that restore each other's dump become equal if and only if equal timestamps mean equal records and one-sided records are stamped above 0 |
| MyDb.DumpReproducesIff | core/pkg/linkself/api.go:57-95 | restoring a dump reproduces the dumped store if and only if everything already there is in the dump, the same or newer, and the rest is stamped above 0; so a dump carries no deletions |
| MyDb.JoinIsAssociativeIff | core/pkg/linkself/api.go:80-95 | restores may be grouped in any way if and only if no key is stored left, absent in the middle, and newer but stamped at most 0 on the right; so always with positive timestamps |
| GroupShare.PurgeIsUnobservable | core/internal/groupshare/layer.go:144-330 | dropping all purges from a run with a nonnegative, nondecreasing clock changes no output, error or broadcast, except what a restore counts, and not even that if no restore hands in an expired record |
| GroupShare.VisibleMeans | core/internal/groupshare/layer.go:249-265 | what is compared there is every output but a restore's count |
| GroupShare.ObserveAppend | core/internal/groupshare/layer.go:144-330 | outputs come in the order of the calls, each from the state the earlier calls left |
| GroupShare.AcceptanceIsBlindIff | core/internal/groupshare/layer.go:249-265 | a last-write-wins decision is the same on all stores that agree on unexpired records if and only if the record is unexpired or stamped at most 0; which is why a restore's count is the exception |
| GroupShare.PurgesShowInCountsIff | core/internal/groupshare/layer.go:249-281 | over the same runs no output at all changes, restore counts included, if and only if no restore along the way hands in a record that is new to the purged store, not new to the unpurged one, and stamped above all earlier ones of its key in the list |
| GroupShare.RestoreCountsDifferIff | core/internal/groupshare/layer.go:249-265 | of two stores one of which is nowhere stamped higher, that one never counts less, and counts more if and only if the list holds such a record |
| GroupShare.PurgeShowsInCountIff | core/internal/groupshare/layer.go:249-281 | a restore after a purge counts more if and only if it hands in, for a purged key, a record stamped above 0 and not above the purged one, and above the earlier ones of that key in the list; it never counts less |
| GroupShare.ExecAlike | core/internal/groupshare/layer.go:144-330 | each operation keeps two stores equal on unexpired records and answers alike on them |
| GroupShare.PurgeKeepsSimilar | core/internal/groupshare/layer.go:270-281 | a purge changes no unexpired record |
| GroupShare.RegisterAlike | core/internal/groupshare/layer.go:47-53 | registering a channel keeps two stores equal on unexpired records, although it can make more records expire |
| GroupShare.PurgeShowsInGetIff | core/internal/groupshare/layer.go:177-186 | a get after a purge differs from one without it if and only if the record was stored, had expired by the purge, and had not by the read: only if the clock went back |
| GroupShare.PurgeShowsInListIff | core/internal/groupshare/layer.go:214-227 | a list differs if and only if there is such a record in the channel |
| GroupShare.PurgeShowsInDumpIff | core/internal/groupshare/layer.go:231-244 | a dump differs if and only if there is such a record of the group in the channel |
| GroupShare.BackwardClockShowsPurge | core/internal/groupshare/layer.go:270-281 | what the two reads return then |
| GroupShare.PurgeFlipsAcceptanceIff | core/internal/groupshare/layer.go:316-323 | a purge flips a last-write-wins decision if and only if it removes the stored record and 0 lies on the other side of the arriving stamp |
| GroupShare.NegativeClockShowsPurge | core/internal/groupshare/layer.go:311-323 | for an unexpired record if and only if the stored one is purged and the arriving one is stamped at most 0, and then an acceptance becomes a refusal |
| GroupShare.RemovedIff | core/internal/groupshare/layer.go:189-330 | an unexpired record is removed if and only if it is deleted locally, which nothing forbids, or a newer deletion arrives and passes access, role and expiry checks; never by a purge |
| GroupShare.PutReaches | core/internal/groupshare/layer.go:144-330 | what a successful put broadcasts, a layer that welcomes it and holds nothing as new returns from its next get, with the channel, id, topic, body and stamp that were put; and so does the writer while it is in time |
| GroupShare.DeleteReaches | core/internal/groupshare/layer.go:189-330 | what a delete broadcasts removes the key wherever it is welcome and newer |
| GroupShare.IncomingMeansIff | core/internal/groupshare/layer.go:285-330 | after an arrival its key holds the record if and only if it did before, or the record is no deletion, passes channel, access, role, schema and expiry, and is newer; the key is empty if and only if a welcome newer deletion came or it was; nothing else changes |
| GroupShare.IncomingObjectionIff | core/internal/groupshare/layer.go:291-313 | which error an arrival meets, per code if and only if |
| GroupShare.PutMeans | core/internal/groupshare/layer.go:144-173 | which error a put meets, per code if and only if; without one the record as given, by us, stamped now, is stored and broadcast, and no other key changes |
| GroupShare.DeleteMeans | core/internal/groupshare/layer.go:189-211 | a delete needs a registered channel only; it removes the key and broadcasts a deletion stamped now |
| GroupShare.GetFindsIff | core/internal/groupshare/layer.go:135-186 | a get returns the record stored under the key if and only if its channel is unknown or permanent or its retention, in nanoseconds, has not run out |
| GroupShare.ListsAreGets | core/internal/groupshare/layer.go:214-244 | a list holds exactly what gets find in the channel, a dump exactly what they find of the group |
| GroupShare.RegisterMeans | core/internal/groupshare/layer.go:47-53 | a name is registered once, and nothing registered changes |
| GroupShare.PurgeMeans | core/internal/groupshare/layer.go:270-281 | a purge reports how many records went; in a permanent channel none goes, an unknown one is an error |
| GroupShare.RestoreIsNewest | core/internal/groupshare/layer.go:249-265 | per key the newest of store and list |
| GroupShare.RestoreCountsNothingIff | core/internal/groupshare/layer.go:249-265 | 0 is reported if and only if the list has nothing newer |
| GroupShare.RestoreAppend | core/internal/groupshare/layer.go:249-265 | each record counts if and only if it is newer than what those before it left |
| GroupShare.StoreIsVetted | core/internal/groupshare/layer.go:144-173 | over any run without restores, every stored record was written here by someone allowed to write or passed the channel's access and schema checks, and none is a deletion |
| GroupShare.RestoreIsUnchecked | core/internal/groupshare/layer.go:246-265 | a restore stores an accepted record whatever the channel's access and schema say: the store stays vetted exactly when that record would have passed |
| GroupShare.GroupShareLayer.RegisterChannel | core/internal/groupshare/layer.go:47-53 | a name can be registered once |
| GroupShare.GroupShareLayer.Put | core/internal/groupshare/layer.go:144-173 | checks in order, then the stamped record is stored and broadcast |
| GroupShare.GroupShareLayer.Get | core/internal/groupshare/layer.go:177-186 | the record unless expired |
| GroupShare.GroupShareLayer.Delete | core/internal/groupshare/layer.go:189-211 | the record is removed and a deletion broadcast |
| GroupShare.GroupShareLayer.List | core/internal/groupshare/layer.go:214-227 | the channel's unexpired records, each once |
| GroupShare.GroupShareLayer.Dump | core/internal/groupshare/layer.go:231-244 | the group's unexpired records, each once |
| GroupShare.GroupShareLayer.Restore | core/internal/groupshare/layer.go:249-265 | last-write-wins over the list, and the number applied |
| GroupShare.GroupShareLayer.Purge | core/internal/groupshare/layer.go:270-281 | the records stamped before the cutoff go, and their number is reported |
| GroupShare.GroupShareLayer.HandleIncoming | core/internal/groupshare/layer.go:285-330 | unknown channels are skipped; access, role, schema, expiry and last-write-wins are checked in that order |
| GroupShare.MemSharedStorage.ListByChannel | core/internal/groupshare/mem_storage.go:68-79 | each record of the channel once |
| GroupShare.MemSharedStorage.ListByGroup | core/internal/groupshare/mem_storage.go:81-92 | each record of the group once |
| GroupShare.MemSharedStorage.DeleteExpired | core/internal/groupshare/mem_storage.go:107-119 | deleting while iterating removes exactly the channel's older records and counts them |
| RoleDag.NewDAG | core/internal/role/role.go:25-50 | succeeds if and only if every include is defined and no role reaches itself, whatever order the definitions are visited in; the table then maps each role to exactly the roles it reaches over one or more includes, and an error names a genuine culprit |
| RoleDag.Builder.Resolve | core/internal/role/role.go:52-76 | the depth-first search terminates, keeps every finished row exact, and a role met while in progress lies on a cycle |
| RoleDag.FindUndefined | core/internal/role/role.go:31-38 | an undefined include is reported exactly when there is one |
| RoleDag.HasRoleMeaning | core/internal/role/role.go:85-99 | on a built table: the role everyone has, the same role, or a reached one |
| RoleDag.HasRoleTransitive | core/internal/role/role.go:85-99 | transitive when the middle role is not "members" |
| RoleDag.HasRoleIsTransitiveIff | ts/linkself/src/role.ts:73-77 | transitive altogether if and only if a role named "members" includes nothing |
| GroupStore.CreateAgreesIff | core/internal/group/memstore.go:27-44 | creating keeps the index in agreement with a scan if and only if the identifier is new or no former member is dropped |
| GroupStore.UpdateAgrees | core/internal/group/memstore.go:73-98 | updating keeps the index in agreement with a scan and leaves no empty bucket |
| GroupStore.DeleteAgrees | core/internal/group/memstore.go:101-118 | so does deleting |
| GroupStore.MemStore.CreateGroup | core/internal/group/memstore.go:27-44 | the group is stored and indexed |
| GroupStore.MemStore.UpdateGroup | core/internal/group/memstore.go:73-98 | replaces members and owners, or fails for an unknown group |
| GroupStore.MemStore.DeleteGroup | core/internal/group/memstore.go:101-118 | removes the group, or fails for an unknown one |
| GroupStore.MemStore.ListGroupIDsForMember | ts/linkself/src/group.ts:194-202 | the index lookup lists exactly the groups that the scanning store would, each once |
| GroupService.OwnedUntilDissolved | core/internal/group/group.go:34-192 | over whole runs members stay distinct and at least two with owners among them, and a group with an owner has one until it is dissolved |
| GroupService.RunAppend | core/internal/group/group.go:34-163 | a run executes its calls one after the other |
| GroupService.ExecIsGood | core/internal/group/group.go:34-163 | each operation keeps that, touches no other group, changes nothing when it fails, and leaves an owner after every removal |
| GroupService.CreateIsGoodIff | core/internal/group/group.go:26-31 | creation gives such a group if and only if the caller's members are distinct and its owners are among them; the service checks only their number |
| GroupService.ChangesAreAuthorised | core/internal/group/group.go:34-163 | who can end or start a membership or ownership: leaving, an owner's kick, one's own demotion, an owner's appointment, or promotion when no owner is left |
| GroupService.RemovalMeans | core/internal/group/group.go:34-80 | leaving or being kicked dissolves a good group if and only if it had two members; otherwise the others stay in order, with the other owners, or else the first remaining member as the only owner |
| GroupService.DemotionMeans | core/internal/group/group.go:106-143 | giving up ownership leaves the members, and the other owners or else the first other member |
| GroupService.AdditionMeans | core/internal/group/group.go:83-163 | what a successful creation, appointment or addition adds, and nothing else |
| GroupService.ObjectionIff | core/internal/group/group.go:26-163 | which error a call meets, per code if and only if |
| GroupService.AutoPromoteIsFirst | core/internal/group/group.go:185-192 | the first member that is not excluded is promoted |
| GroupService.SomebodyToPromote | core/internal/group/group.go:185-192 | two distinct members always leave somebody to promote |
| GroupService.AutoPromoteOneExcluding | core/internal/group/group.go:185-192 | the first member other than the excluded one |
| GroupService.FilterOut | core/internal/group/group.go:174-182 | all but the given DID, in order |
| GroupService.Service.CreateGroup | core/internal/group/group.go:26-31 | at least two members, then stored; new store and error as the specification says |
| GroupService.Service.Leave | core/internal/group/group.go:34-54 | dissolves below two members, promotes if no owner is left; new store and error as the specification says |
| GroupService.Service.Kick | core/internal/group/group.go:57-80 | only an owner, only a member; new store and error as the specification says |
| GroupService.Service.AppointOwner | core/internal/group/group.go:83-103 | only an owner, only a member, once; new store and error as the specification says |
| GroupService.Service.SelfDemote | core/internal/group/group.go:106-122 | promotes another if no owner is left; new store and error as the specification says |
| GroupService.Service.DemoteOwner | core/internal/group/group.go:125-143 | only oneself; new store and error as the specification says |
| GroupService.Service.AddMember | core/internal/group/group.go:146-163 | only while there is an owner, nobody twice; new store and error as the specification says |
| Networks.RunIsGood | ts/linkself/src/network.ts:67-157 | over whole runs members stay duplicate-free and nonempty, and exactly the members have a role entry |
| Networks.RunAppend | ts/linkself/src/network.ts:67-157 | a run executes its calls one after the other |
| Networks.ExecIsGood | ts/linkself/src/network.ts:67-157 | each operation keeps that, and a failing one changes nothing |
| Networks.OutsidersPowerlessIff | ts/linkself/src/network.ts:144-157 | outsiders have no authority if and only if the empty role does not satisfy the admin role |
| Networks.ChangesAreAuthorised | ts/linkself/src/network.ts:77-157 | every add, kick and role change is made by somebody whose role reaches the admin role beforehand, and each change affects the named member only; a network vanishes only with its last member |
| Networks.LeaderlessOnlyShrinks | ts/linkself/src/network.ts:77-157 | from a network without an admin, any run behind a closed gate only removes members and changes no role |
| Networks.CreatorIsAdmin | ts/linkself/src/network.ts:67-75 | the creator is the only member and an admin, whatever the hierarchy |
| Networks.SuccessMeans | ts/linkself/src/network.ts:77-142 | a success deletes the network if and only if it removed the only member; otherwise exactly the members asked for are there, in order, the role given is held, nobody else's changed, and no other network |
| Networks.ObjectionIff | ts/linkself/src/network.ts:77-157 | which error a call meets, per code if and only if |
| Networks.PlanThenCommitIsExec | ts/linkself/src/network.ts:77-157 | each operation is a fetch with its checks followed by a write-back of the amended copy |
| Networks.RemovedComesBackIff | ts/linkself/src/network.ts:77-142 | an operation that fetched before somebody left or was kicked and writes back afterwards makes that one a member again, with the former role or the one it sets, if and only if the network is still stored and it does not remove the same member |
| Networks.AddedIsLostIff | ts/linkself/src/network.ts:77-142 | it loses a member added meanwhile unless it adds the same one |
| Networks.NetworkService.Create | ts/linkself/src/network.ts:67-75 | the creator is the only member, with the admin role |
| Networks.NetworkService.AddMember | ts/linkself/src/network.ts:77-91 | an admin adds somebody new with a role |
| Networks.NetworkService.Leave | ts/linkself/src/network.ts:93-109 | the last member's leaving deletes the network |
| Networks.NetworkService.Kick | ts/linkself/src/network.ts:111-128 | an admin removes a member |
| Networks.NetworkService.SetMemberRole | ts/linkself/src/network.ts:130-142 | an admin changes a member's role |
| Networks.NetworkService.GetAndCheck | ts/linkself/src/network.ts:144-157 | missing network before missing permission |
| Join.AcceptIsAllOrNothing | ts/linkself/src/join.ts:91-155 | success if and only if the invite is valid, unconsumed and between admins for somebody new; it adds exactly the invitee with the invited role and consumes exactly the nonce, any other outcome changes nothing, and no error is ever rethrown |
| Join.RejectionIff | ts/linkself/src/join.ts:91-140 | which code a rejection carries, per code if and only if |
| Join.NonceIsSingleUse | ts/linkself/src/join.ts:122-141 | over any run of atomic acceptances mixed with any management and snapshots, a nonce succeeds at most once |
| Join.SuccessesAppend | ts/linkself/src/join.ts:91-155 | each acceptance with the nonce counts once if and only if it succeeds where it stands in the run |
| Join.AloneIsAtomic | ts/linkself/src/join.ts:91-155 | vetted, checked for its nonce, fetched, written, consumed and answered without interruption, an acceptance has the atomic outcome |
| Join.OverlappingAcceptancesShareNonceIff | ts/linkself/src/join.ts:122-141 | when an acceptance consumes its nonce, another one with the same nonce can still be accepted, in some continuation, if and only if it is past its own check of the nonce; and going on alone it is, if and only if moreover nothing is in its way |
| Join.TooLateStaysOut | ts/linkself/src/join.ts:122-125 | an acceptance that has not checked the nonce when it is consumed is never accepted, whatever other acceptances and the networks do |
| Join.PassesAloneIff | ts/linkself/src/join.ts:127-155 | what an acceptance past its nonce check needs to get through alone: before the fetch, standing and a new invitee; before the write, a stored network; then nothing |
| Join.MemberStaysIff | ts/linkself/src/network.ts:77-91 | any number of acceptances with management and stored networks in between: a member whom nothing takes out stays one throughout if and only if no acceptance goes on that holds a copy of the network without it |
| Join.InviteeStaysIff | ts/linkself/src/network.ts:77-91 | so an invitee stays from its write on if and only if no acceptance goes on that had fetched its copy before |
| Join.FirstInviteeSurvivesIff | ts/linkself/src/network.ts:77-91 | of two acceptances to one network that both get through, the second invitee is a member, and the first if and only if the second had not fetched its copy when the first wrote |
| Join.OverlapLosesInvitee | ts/linkself/src/network.ts:77-91 | two acceptances that both fetch before either writes are both answered ok, and only the later invitee is a member |
| Join.JoinService.Accept | ts/linkself/src/join.ts:91-155 | the sequence of checks and writes computes that outcome |
| NetworkMeta.SnapshotsConverge | ts/linkself/src/network-meta.ts:100-112 | the same snapshots in any order with any repetition leave a network at its highest-epoch snapshot, or where it was if none is newer, and so at the same state |
| NetworkMeta.ConvergenceIff | ts/linkself/src/network-meta.ts:100-103 | all arrangements of given snapshots agree on a network if and only if no two different ones tie at a new top epoch |
| NetworkMeta.EpochNeverFalls | ts/linkself/src/network-meta.ts:80-112 | under any mix of applied and noted epochs the last epoch is the highest of the one at the start and those that came, so it never falls |
| NetworkMeta.UnknownEpochIsZero | ts/linkself/src/network-meta.ts:80-112 | of an unknown network a snapshot or epoch counts if and only if it is above 0 |
| NetworkMeta.HandleIsMerge | ts/linkself/src/client.ts:550-564 | if every sender is an admin now and in every snapshot, the admin check never bites |
| NetworkMeta.HandledSnapshotsConverge | ts/linkself/src/client.ts:550-564 | if nothing is news, or the sender of the newest snapshot is an admin at the start and in every snapshot, whoever sent the rest, all arrangements of the messages end alike, at the newest |
| NetworkMeta.TopSnapshotWins | ts/linkself/src/client.ts:550-564 | that newest snapshot wins from any position in the list |
| NetworkMeta.NewestAlwaysWinsIff | ts/linkself/src/client.ts:550-564 | the newest snapshot, by whichever senders, wins in every arrangement if and only if the network is known and, along every chain of the other snapshots (ascending epochs, each by an admin of the state before), some sender of the newest stays an admin |
| NetworkMeta.TwoSnapshotsAgreeIff | ts/linkself/src/client.ts:550-564 | two newer snapshots by admins end alike in both orders if and only if the sender of the newer one is an admin in the older one |
| NetworkMeta.RemovedAdminsSnapshotDiverges | ts/linkself/src/client.ts:550-564 | so a snapshot that removes an admin and a later one by that admin leave two receivers different for good |
| NetworkMeta.PublishReachesIff | ts/linkself/src/client.ts:531-564 | a peer that counts the publisher as an admin ends with the published state if and only if the epoch is news to it or it had that state; the publisher ignores every snapshot up to its own epoch |
| NetworkMeta.PublishedToMembers | ts/linkself/src/client.ts:478-564 | every other member that counts the publisher as an admin and knows no epoch as new is sent the published network, as often as it is listed, and ends with it |
| NetworkMeta.SentAsListed | ts/linkself/src/client.ts:478-490 | a recipient is sent the snapshot if and only if it is a member other than ourselves |
| NetworkMeta.NetworkMetaTracker.NoteEpoch | ts/linkself/src/network-meta.ts:89-93 | raises the epoch, never lowers it |
| NetworkMeta.NetworkMetaTracker.Apply | ts/linkself/src/network-meta.ts:100-112 | stores a newer snapshot with its epoch, and reports whether it did |
| NetworkMeta.Client.PublishMembership | ts/linkself/src/client.ts:531-542 | notes the epoch; of what is then sent, a pair occurs if and only if it is the stored network at that epoch, to a member other than ourselves, in member order and as often as listed |
| NetworkMeta.Client.SendToGroup | ts/linkself/src/client.ts:478-490 | after what was sent before, one message to each listed member but ourselves, in order |
| NetworkMeta.Client.HandleNetworkMeta | ts/linkself/src/client.ts:550-564 | applies a snapshot of a known network from one of its admins, ignores any other |
| StoreForward.MessagesAreConserved | core/internal/storeforward/storeforward.go:28-55 | under any interleaving of queueing, any number of concurrent flushes and any failures, the messages queued for a DID are those sent, held by flushes and pending, with multiplicity |
| StoreForward.SentInOrder | core/internal/storeforward/storeforward.go:28-55 | if flushes of one DID never overlap, what was sent is a prefix of what was queued |
| StoreForward.FlushKeepsOrderIff | core/internal/storeforward/storeforward.go:39-55 | one more flush, from any state in order, has sent a prefix of what was queued after its first n messages if and only if those are the next n overall, counting what other flushes still hold |
| StoreForward.OverlapKeepsOrderIff | ts/linkself/src/storeforward.ts:28-43 | its first send keeps the order if and only if no other flush holds anything for the DID or holds the same message first |
| StoreForward.OverlapReorders | ts/linkself/src/storeforward.ts:28-43 | otherwise the order is lost |
| StoreForward.OverlapArises | ts/linkself/src/storeforward.ts:13-43 | queue, flush and queue again lead to such a state |
| StoreForward.FlushIsRun | core/internal/storeforward/storeforward.go:39-55 | a call of the flush method is a run of the step system, whatever other callers queue and flush between its sends: it begins, sends, and finishes or fails, and leaves the queues as the method says |
| StoreForward.Queues.Queue | core/internal/storeforward/storeforward.go:28-35 | appended to the DID's queue |
| StoreForward.Queues.FlushForDID | core/internal/storeforward/storeforward.go:39-55 | how many and which messages were handed over, and exactly what is pending afterwards, whatever others made of the queues during the sends: on a failure the unsent messages stand in front of what is pending by then |
| Presence.QueryFindsExactlyTheReachable | core/internal/presence/directory.go:43-110 | for any run with nondecreasing times, a query finds exactly the devices whose last action was a registration not yet expired, with its addresses, whichever queries and prunes ran before; no bucket is left empty |
| Presence.StoredIff | core/internal/presence/directory.go:43-110 | for any run, whatever the clock does: an entry is stored if and only if some call registered it, nothing registered or unregistered the device since, and every later prune, and query of that user, came before its expiry |
| Presence.ClockLosesIff | core/internal/presence/directory.go:57-110 | so a read misses a device it should find if and only if such a call came since |
| Presence.BackwardClockLosesIff | core/internal/presence/directory.go:57-82 | in the shortest such run, if and only if the device expires between the two times |
| Presence.Directory.Register | core/internal/presence/directory.go:43-53 | the entry is added or replaced |
| Presence.Directory.Query | core/internal/presence/directory.go:57-82 | the live devices, each once, and the expired ones dropped while iterating |
| Presence.Directory.Unregister | core/internal/presence/directory.go:85-94 | the device goes, and an empty bucket with it |
| Presence.Directory.Prune | core/internal/presence/directory.go:97-110 | exactly the expired entries and emptied buckets go |
| Presence.Directory.DropExpired | core/internal/presence/directory.go:101-105 | the inner loop keeps exactly the live devices |
| Framing.FramesRoundTrip | ts/linkself/src/framing.ts:16-66 | reading k frames off the concatenated encodings of k payloads within the limit, whatever follows, gives the payloads in order and leaves exactly what follows |
| Framing.ReadBack | ts/linkself/src/framing.ts:36-66 | the same through the reader: for any split of those bytes into chunks, reading as many frames gives the payloads and leaves what follows |
| Framing.StreamReader.ReadFrames | ts/linkself/src/framing.ts:60-66 | frames in a row, decided by the bytes available alone |
| Framing.FlatAppend | ts/linkself/src/framing.ts:36-47 | a further chunk adds its bytes at the end |
| Framing.FrameLayout | ts/linkself/src/framing.ts:16-21 | the payload's length in four bytes, most significant first, and then the payload |
| Framing.ParseFrameIff | ts/linkself/src/framing.ts:36-66 | on any bytes: the frame, the stream's end in prefix or payload, or a length over 1048576 |
| Framing.FrameRoundTripIff | ts/linkself/src/framing.ts:16-66 | a frame of any length reads back if and only if it is within the limit; the encoder itself does not check |
| Framing.EncodingIsInjective | ts/linkself/src/framing.ts:16-21 | different payload lists have different encodings |
| Framing.U32RoundTrip | ts/linkself/src/framing.ts:53-57 | the four-byte prefix reads back as the number modulo 2^32 |
| Framing.EncodeFrame | ts/linkself/src/framing.ts:16-21 | the array is prefix then payload |
| Framing.StreamReader.Read | ts/linkself/src/framing.ts:36-51 | the next n bytes or the stream-ended error, decided by the bytes available and not by their split into chunks, empty chunks included |
| Framing.StreamReader.ReadUint32 | ts/linkself/src/framing.ts:54-57 | the next four bytes as a number |
| Framing.StreamReader.ReadFrame | ts/linkself/src/framing.ts:60-66 | the frame at the front of the available bytes, or which error, and what is left |
| MutualAuth.ExchangeCompletes | ts/linkself/src/auth.ts:164-206 | two honest sides that accept each other, any interleaving of their steps and any chunking: nobody fails, somebody can move until both have returned, every step lowers a nonnegative measure, and a side that returned has the other's DID |
| MutualAuth.BothReturnOnlyIfAcceptable | ts/linkself/src/auth.ts:121-206 | both can return only if each is acceptable to the other: DID and signature within their limits, and any expected DID met |
| MutualAuth.AfterAppend | ts/linkself/src/auth.ts:164-206 | a run takes its steps one after the other, each possible where it stands |
| MutualAuth.SomebodyCanMove | ts/linkself/src/auth.ts:175-199 | no deadlock: while nobody has failed and somebody has not returned, a step is possible |
| MutualAuth.RemainingFalls | ts/linkself/src/auth.ts:164-206 | the measure: instructions left and bytes not yet arrived |
| MutualAuth.RunKeepsInv | ts/linkself/src/auth.ts:111-206 | in every reachable state each side has read a prefix of what its peer sent, parsed the peer's own values, and fails only for cause |
| MutualAuth.HonestPeerIff | ts/linkself/src/auth.ts:164-206 | one side as a program, given an honest peer's bytes, returns the peer's DID if and only if the peer is acceptable, having sent its own intro and signature, and otherwise fails over its first objection |
| MutualAuth.StepsRefineProgram | ts/linkself/src/auth.ts:164-206 | the step system refines the program: in every run, a side that has returned or failed has the result the program computes from its peer's stream, and has sent what the program sends |
| MutualAuth.ReturnsIff | ts/linkself/src/auth.ts:164-206 | against any peer: a side returns a DID if and only if it is admissible and the bytes received start with its intro and its signature over this side's own challenge |
| MutualAuth.FailsIff | ts/linkself/src/auth.ts:121-204 | on any bytes: which objection a side comes to, per kind if and only if |
| MutualAuth.NotHeardIff | ts/linkself/src/auth.ts:121-131 | an intro is not heard if and only if its DID is announced over 4096 bytes or the stream ends in it |
| MutualAuth.NotSignedIff | ts/linkself/src/auth.ts:142-148 | a signature is not read if and only if it is announced over 1048576 bytes or the stream ends in it |
| MutualAuth.SpeaksInTurn | ts/linkself/src/auth.ts:175-199 | on any bytes: the initiator speaks first, the responder once it has heard; each signs the challenge it heard once the DID is acceptable, the responder only once it has the initiator's signature |
| MutualAuth.HonestPeerIsSent | ts/linkself/src/auth.ts:175-199 | what a side sends to an honest peer, by its first objection |
| MutualAuth.OwnBytesReturnIff | ts/linkself/src/auth.ts:177-205 | an initiator given its own bytes accepts them if and only if it expects no particular DID, or its own |
| MutualAuth.ReadIntro | ts/linkself/src/auth.ts:121-131 | the intro at the front of the stream, or which error, and what is left |
| MutualAuth.ReadSigFrame | ts/linkself/src/auth.ts:142-148 | the signature frame at the front of the stream, or which error, and what is left |
| MutualAuth.Authenticate | ts/linkself/src/auth.ts:164-206 | what a side returns and sends is a function of the bytes it receives, for any peer, honest or not |
| Roster.DedupeByDeviceDID | core/internal/roster/roster.go:139-151 | de-duplication through an index into the output equals the insertion-ordered map |
| Roster.DedupeMeaning | ts/linkself/src/roster.ts:119-123 | distinct DIDs, every listed device, each with its last label, in the order of first listing |
| Roster.SignedBytesAreTheMappingIff | core/internal/roster/roster.go:42-52 | two lists sign the same bytes if and only if they map the same DIDs to the same labels |
| Roster.SignatureVouchesIff | core/internal/roster/roster.go:56-81 | a built roster is the user's, of the de-duplicated list, and verifies, and its signature holds for another list if and only if that is a rearrangement of the built one |
| Roster.WithDeviceSetsOneLabel | core/internal/roster/roster.go:103-112 | the amended roster verifies, sets the device's label and nobody else's |
| Roster.WithoutDeviceRemovesOneLabel | core/internal/roster/roster.go:115-123 | the amended roster verifies, lacks the device and nothing else |
| Roster.LessIff | core/internal/roster/roster.go:44-46 | dictionary order: the smaller character at the first difference comes first, and a prefix before what extends it |
| Roster.SortedIsUnique | core/internal/roster/roster.go:43-46 | sorted lists of the same devices are the same list, so the choice of sorting algorithm does not matter |
| Roster.Build | core/internal/roster/roster.go:56-67 | the signature is over the sorted de-duplicated list |
| Roster.WithDevice | core/internal/roster/roster.go:103-112 | the former entry is replaced by the new one at the end |
| Roster.WithoutDevice | core/internal/roster/roster.go:115-123 | the device's entries are left out |
| Roster.FilterOut | core/internal/roster/roster.go:103-112 | all entries but the device's, in order |

## Left out

- Replication.ReplicationEngine.SyncWith: what an error says is not modelled, only that there is one; errors of the device's own storage are left out.
- Replication.CatchUpIsExact: is about increments; what a full dump achieves at the receiver, whose handler the Go sources do not show, is stated as a restore in MyDb.DumpReproducesIff.
- Convergence.DevicesConverge: timestamps above 0 and distinct per key are assumed of local writes; what ties and slow clocks do is stated beside it.
- GroupShare.GroupShareLayer.HandleIncoming: the answer of the role check is a parameter; how a member's role is resolved and compared is not modelled.
- GroupShare.GroupShareLayer.Put: the broadcast is the record handed over; the selection of recipients by subscription and the topic matching are not modelled.
- GroupShare.GroupShareLayer.Delete: the same holds for the deletion it broadcasts.
- GroupShare.StoreIsVetted: the role check of a stored record is not part of what is kept, since its answer is a parameter of the call.
- GroupStore.MemStore.DeleteGroup: follows the Go store, which reports an unknown group; the TypeScript store ignores it.
- Networks.NetworkService.Leave: networks are values fetched and written back, as the copying TypeScript store does; the in-place changes of the Go service to what its store returns are not modelled.
- Join.NonceIsSingleUse: treats an acceptance as one step; what happens when acceptances overlap is stated beside it.
- Join.MemberStaysIff: management operations between the steps of acceptances are single steps; a write-back of an operation's own stale copy is a stored network there.
- MutualAuth.ExchangeCompletes: a failing side stops in place; the closing of the stream, timeouts and what the other side then reads are not modelled in the step system (Authenticate covers an ended stream).
- MutualAuth.ReadIntro: DIDs are byte strings, so their UTF-8 decoding is not modelled.
- MutualAuth.Authenticate: a DID that does not decode as UTF-8 or does not parse to a key is not told apart from one whose signature fails.
- Roster.Build: which of two entries with the same DID a sort puts first is the model's choice; after de-duplication there are none.
- Integer widths: timestamps, sequence numbers and durations are unbounded, except that the count limit is converted to 64 unsigned bits as the source does.
- The envelope, JSON and base64 codecs of records, snapshots, invites and rosters.
- The transport: hosts, addresses, relays, the DHT, stream opening, and retries after a send fails.
- Storage that can fail, the SQLite backends, and the replication methods that only pass a call on.
- `AppendChange` of the device store, which the Go engine does not call.
- The one-way challenge protocol, pairing tokens, the message router, permission helpers and topic matching, each settled by reading one branch.
- Listing the networks of a member, and the roster's lookups and codecs.
- Channel objects changed by their owner after registration, and JavaScript's inherited property names as role names.
