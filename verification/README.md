# epicurus: what keeps two things in agreement

A Dafny model of the parts of epicurus that keep a copy in step with its original under failure, and of
the text and calendar arithmetic they rest on. Nothing here executes the original program.

| component | files |
|---|---|
| calendar reconcile: passes over a collection, cache and cursor as separate commits, crashes between any two | `SyncStore.dfy`, `Reconcile.dfy`, `ReconcileProofs.dfy`, `ReconcileRuns.dfy`, `CachedRows.dfy`, `AnnouncedOnce.dfy`, `DeletedOccurrence.dfy`, `SeriesGone.dfy` |
| announcements: folding per series, self-write suppression, the ceiling, what the log takes | `Spine.dfy`, `Announce.dfy`, `Emission.dfy`, `PassNews.dfy`, `NewsOrder.dfy`, `MarkersUsed.dfy`, `SpineLog.dfy` |
| durable intake: an at-least-once stream, store before ack, a live feed | `Envelope.dfy`, `Intake.dfy`, `IntakeDrain.dfy`, `EventLog.dfy`, `Feed.dfy` |
| file scan: depth-first walk, batched index, fused purge, escaped LIKE | `Like.dfy`, `FileIndex.dfy`, `FileTree.dfy`, `FileScan.dfy`, `FileScanProofs.dfy` |
| recurring series: rule text, splitting, overrides and their ids, the commits of a following-edit | `Timestamps.dfy`, `Recurrence.dfy`, `EventStore.dfy`, `FollowingEdit.dfy` |
| portability: line reassembly, column codec, additive import | `NdJson.dfy`, `PortableColumns.dfy`, `CalendarPortability.dfy`, `PortabilityProofs.dfy`, `PortabilityCounts.dfy` |
| object-store move and delete | `ObjectStore.dfy` |
| lead-time scheduler | `Scheduler.dfy`, `Reminders.dfy` |
| secret client re-authentication | `SecretStore.dfy` |
| maintenance batches and their schedule | `Maintenance.dfy`, `MaintenanceSchedule.dfy` |
| shared | `Basics.dfy`, `Text.dfy` |

`dafny verify dfyconfig.toml` checks the whole project.

Stores and orchestrators that change their fields are classes whose methods are proved against pure
functions of the old state; lemmas then state what those functions, or whole runs of them, guarantee.
Concurrency (crashes, threads, interleaved drivers) is a step relation over explicit states. The outside
world is a contract: the provider is a history of snapshots whose deltas mention every id touched since
the cursor, each id once, and whose full listings are truthful; the hash, UTF-8, the date spellings and
base64 are uninterpreted functions with their round-trip laws; clocks, publish outcomes and the refusals of the
token server are parameters.

## Where the code falls short of its documentation

- A recurring event that lasts longer than the lookback is never announced as ended: the local provider
  lists occurrences by start, plain events by overlap (`Scheduler.OccurrenceEndedIff`,
  `Scheduler.LongOccurrenceNeverEnds`).
- A "this and following" edit that names a start of its own, or is made at an occurrence that had itself been
  moved, anchors the new series there. For rules of a fixed period the later overrides stay on its occurrences
  if and only if the move is by whole periods, passes none of them and leaves COUNT enough occurrences
  (`FollowingEdit.MovedSplitKeepsOverridesIff`, with a failing edit in `FollowingEdit.MovingByAnHourOrphans`).
- That edit is several commits: a crash right after the first loses every occurrence from the split on, and
  later ones leave overrides behind (`FollowingEdit.CrashLosesTheTailOnce`, `FollowingEdit.OverridesLagBehind`).
- A maintenance start while a shutdown waits for a driver it cancelled inside its job loop lets two batches
  overlap; no other cancellation does (`Maintenance.OverlapIffStartedDuringShutdown`, reached in
  `Maintenance.ShutdownInsideTheLoop`).
- Re-importing a stream reports only skipped records if and only if each is in export's own spelling, and a date
  with another offset is an update every time (`PortabilityProofs.SecondApplySkipsIff`,
  `PortabilityProofs.OffUtcUpdatesEveryTime`).
- Imported into SQLite, a date with an offset other than UTC's becomes another instant
  (`PortableColumns.StoredInstantIff`).
- A dry run overstates what would be created exactly when two records name one row that is not there yet
  (`PortabilityCounts.DryRunCreatesIff`, `PortabilityProofs.RepeatedSlotMisreports`), and for a row that is there
  its updates can differ either way (`PortabilityCounts.OccupiedSlotNamedTwice`).
- An event's creation and its cancellation have one dedup key, so the cancellation is dropped by a log that
  still holds the creation, as is an update back to an earlier content (`SpineLog.ReachesIff`,
  `SpineLog.CancellationOfCreatedIsDropped`, `SpineLog.UpdateBackIsDropped`).
- A file scan fails exactly when the tree's rows, in walk order and cut into batches, name in one batch a path
  that the store lists both as a file and as a directory (`FileScan.Scan`; a bucket holding `a` and `a/b` in
  `FileScanProofs.FileAndFolderFails`).
- A full listing carries tombstones, and a resync computes the same removals again: an event deleted while the
  cursor was lapsed is cancelled twice if and only if it was cached and ends after the anchor, and an occurrence
  is then announced as the cancellation of its whole series (`ReconcileProofs.ResyncDecidesOnceIff`,
  `DeletedOccurrence.DeletedOccurrenceCancelsItsSeries`).
- A resync whose walk ran out of pages cancels every cached event inside the window that it did not reach
  (`AnnouncedOnce.CutListingCancelsIff`), and the next listing that has one creates it again
  (`AnnouncedOnce.NothingDecidedTwice`).
- The planned maintenance run is not due exactly when it is planned for later on a day the batch has already
  fired (`MaintenanceSchedule.PlannedRunIsDueIff`).

## Model

| member | source | states |
|---|---|---|
| `ReconcileRuns.CompletedPassMatchesSnapshot` | services/calendar/src/epicurus_calendar/sync.py:213-393 | After any run of passes (silent prime, deltas, expired or missing cursors, a crash between any two commits) a pass that completes with a cursor leaves, within the window, exactly the cache a full listing of the provider's snapshot at that cursor gives; cap, ledger and bus play no part |
| `CachedRows.CompletedPassTellsEachEvent` | services/calendar/src/epicurus_calendar/sync.py:473-484 | And field by field: after any run, a pass that completes with a cursor has, for each event of that snapshot inside the window and no other, a row with its id, start, end and all-day flag, the first 512 characters of its title, the provider's series id or else the event's own, and the digest of its six tracked fields |
| `CachedRows.FullSyncTellsEachEvent` | services/calendar/src/epicurus_calendar/sync.py:247-328 | So does a full sync that completes, with or without a cursor, for each event its listing shows |
| `ReconcileRuns.RunsAreSound` | services/calendar/src/epicurus_calendar/sync.py:213-328 | Every state a run of passes can reach, crashes included, is sound: what the cache shows is right for every id the stored cursor has not yet been asked about |
| `ReconcileRuns.PassKeepsSound` | services/calendar/src/epicurus_calendar/sync.py:237-245 | One pass stopped after any number of commits keeps soundness, and one that completes leaves the cache showing the snapshot at the new cursor |
| `ReconcileRuns.FullSyncKeepsCursor` | services/calendar/src/epicurus_calendar/sync.py:267-320 | A full sync touches the cursor row only with its last commit |
| `ReconcileRuns.ResyncLeaves` | services/calendar/src/epicurus_calendar/sync.py:283-313 | The cache after a resync has each listed event as observed and nothing the listing does not show |
| `ReconcileProofs.ResyncDecidesTheDiff` | services/calendar/src/epicurus_calendar/sync.py:282-313 | After a lapsed cursor, whatever the listing holds, the decisions are exactly the diff of cache against listing (created for new ids, updated when and only when the hash moved, cancelled when cached, not listed live and ending after the anchor, aged-out rows silent) and, besides, a cancellation for each listed tombstone of a cached event |
| `ReconcileProofs.ResyncDecidesOnceIff` | services/calendar/src/epicurus_calendar/sync.py:291-298 | A resync decides once per event if and only if no listed tombstone names a cached event ending after the anchor |
| `DeletedOccurrence.DeletedOccurrenceCancelsItsSeries` | services/calendar/src/epicurus_calendar/sync.py:291-298 | An occurrence deleted while the cursor was lapsed and listed as a tombstone is cancelled twice, and the two fold into a cancellation of its whole series, flagged as collapsed |
| `DeletedOccurrence.OneOccurrenceDeleted` | services/calendar/src/epicurus_calendar/sync.py:537-571 | One cached occurrence and its tombstone: two equal decisions, and all that is announced is the cancellation of the series |
| `SeriesGone.GoneTogetherIsAnnouncedOnce` | services/calendar/src/epicurus_calendar/sync.py:283-313 | Two or more occurrences of a series that a completed pass showed, gone from the listing that answers its lapsed cursor, yield one announcement, the series cancelled and flagged as collapsed, and no other cancellation under it; given room, a bus that takes it and no live marker of the series |
| `SeriesGone.ListedThenGoneIsAnnouncedOnce` | services/calendar/src/epicurus_calendar/sync.py:283-313 | The same after a full sync without a cursor, a first one included |
| `ReconcileProofs.DeltaDecidesTheNews` | services/calendar/src/epicurus_calendar/sync.py:487-534 | A delta decides a creation for each live event not cached, an update for each cached one whose hash moved (and whether its times did), a cancellation for each tombstone of a cached event, and nothing else |
| `ReconcileProofs.ReplayDecidesNothingNew` | services/calendar/src/epicurus_calendar/sync.py:345-372 | A delta replayed after a pass that stopped after any commit decides nothing new, and nothing at all once the cache was written in full |
| `AnnouncedOnce.NothingDecidedTwice` | services/calendar/src/epicurus_calendar/sync.py:213-393 | In any run, crashes included: once a pass answered at b has made the commits that precede its announcements, a later pass, by delta or resync, answered at b', decides no update of an event untouched from b to b'; a creation exactly when its row is missing and the answer lists it; a cancellation exactly when its row is there and the provider reports a tombstone of an event merely outside the window or answers with a listing silent about one inside |
| `AnnouncedOnce.DeletedStaysSilent` | services/calendar/src/epicurus_calendar/sync.py:213-393 | And of an event that was gone at b nothing at all is decided again |
| `AnnouncedOnce.SeenIsDecidedOnce` | services/calendar/src/epicurus_calendar/sync.py:213-393 | An event inside the window of every pass from the settling one on, and in every full listing among them, is not decided about again while untouched |
| `AnnouncedOnce.NewsIsAccounted` | services/calendar/src/epicurus_calendar/sync.py:282-313 | Every event a pass decides something about is one these results cover, even when it stops before dropping the aged-out rows |
| `AnnouncedOnce.CutListingCancelsIff` | services/calendar/src/epicurus_calendar/providers/google.py:590-606 | A resync answered without a cursor cancels a cached event that is there and inside the window if and only if the listing does not mention it |
| `AnnouncedOnce.PassSettles` | services/calendar/src/epicurus_calendar/sync.py:237-328 | A pass that got as far as announcing leaves the row of every event it accounts for as the snapshot it was answered at shows it, and one inside its window present |
| `AnnouncedOnce.PassKeepsCurrent` | services/calendar/src/epicurus_calendar/sync.py:213-328 | A pass answered at a snapshot where the event is as it was, stopped after any commit, keeps its row so |
| `ReconcileProofs.ReplayLeavesCache` | services/calendar/src/epicurus_calendar/sync.py:345-371 | Replaying a delta already in the cache leaves the cache unchanged |
| `ReconcileProofs.ApplyLeaves` | services/calendar/src/epicurus_calendar/sync.py:351-371 | What a list of changes leaves in the cache for each id: the live one's observation, nothing for a cancelled one, the old row otherwise; the cursor row is untouched |
| `ReconcileProofs.OneDecisionPerId` | services/calendar/src/epicurus_calendar/sync.py:354-362 | Changes with distinct ids give at most one decision per event |
| `Reconcile.CalendarReconciler.SyncCollection` | services/calendar/src/epicurus_calendar/sync.py:213-245 | The pass does, commit by commit and in this collection alone, what the pass function says for the three branches (no row, no cursor, delta or expired cursor), and announces what the decisions fold to |
| `Reconcile.CalendarReconciler.FullSync` | services/calendar/src/epicurus_calendar/sync.py:247-328 | Prime in silence when never synced, otherwise diff, prune aged-out rows and store the cursor last |
| `Reconcile.CalendarReconciler.ApplyChanges` | services/calendar/src/epicurus_calendar/sync.py:332-372 | Upserts, then removals, then announcements; a refused batch stops it before anything is announced |
| `SyncStore.CalendarSyncStore.CommitState` | services/calendar/src/epicurus_calendar/sync_store.py:207-237 | The cursor row is replaced in one commit of its own, other collections untouched |
| `SyncStore.CalendarSyncStore.UpsertEvents` | services/calendar/src/epicurus_calendar/sync_store.py:270-302 | Deletes and inserts a batch in one commit; a repeated id breaks the unique key and nothing is committed |
| `SyncStore.CalendarSyncStore.RemoveEvents` | services/calendar/src/epicurus_calendar/sync_store.py:304-320 | Removes the ids in one commit, none for an empty list |
| `SyncStore.CalendarSyncStore.ReplaceEvents` | services/calendar/src/epicurus_calendar/sync_store.py:322-337 | The collection's cache becomes exactly the batch, in two commits with an empty cache between; a batch that repeats an id leaves it empty |
| `SyncStore.UpsertedAt` | services/calendar/src/epicurus_calendar/sync_store.py:286-301 | After an upsert an id holds the batch's row for it, or its old row |
| `Emission.SeriesMarkerSilencesSeries` | services/calendar/src/epicurus_calendar/sync.py:395-432 | Until it expires a series-wide marker suppresses every change of its kind to any occurrence in that tenant's calendars at that provider, however they are split over deltas and passes, with other tenants' and providers' passes, writes and prunes in between, and is still there after; provided no delta names the series id as an occurrence |
| `Emission.ExactMarkerHoldsBackOnce` | services/calendar/src/epicurus_calendar/sync.py:419-428 | Over any run of passes of any tenants and providers, writes and prunes, an exact marker suppresses at most one uncollapsed decision per time it is recorded |
| `MarkersUsed.PassUsesUp` | services/calendar/src/epicurus_calendar/sync.py:419-432 | A pass with room for every group takes from the ledger exactly the markers of the lone decisions it judged, and leaves every other as it was |
| `PassNews.AnnouncedExactly` | services/calendar/src/epicurus_calendar/sync.py:374-432 | A pass under its ceiling announces exactly the folded decisions that no live marker answers for and whose publish goes through: no group's suppression depends on another's, or on their order; given one decision per event, no series id reported as an occurrence, and no marker running out meanwhile |
| `PassNews.AnnouncesTheFirst` | services/calendar/src/epicurus_calendar/sync.py:374-393 | Whatever its ceiling, a pass announces the first folded decisions in order that no live marker answers for and whose publish goes through, as many as the ceiling allows |
| `Emission.EmitWithinCap` | services/calendar/src/epicurus_calendar/sync.py:374-393 | A pass announces at most its ceiling, and only groups it folded |
| `Emission.Emitter.Suppressed` | services/calendar/src/epicurus_calendar/sync.py:395-432 | Peek for a collapsed group, consume for an exact match, peek the series marker as a fallback, the clock read anew at each ledger call; the ledger afterwards and which marker was used up |
| `Emission.Emitter.EmitAll` | services/calendar/src/epicurus_calendar/sync.py:374-393 | The loop announces, in order, exactly what the recursive account of folding, suppression, lost publishes and the ceiling says |
| `Emission.FoldedShape` | services/calendar/src/epicurus_calendar/sync.py:551-554 | A folded decision carries the series id only when it was re-keyed and flagged |
| `Announce.CollapseFoldsGroups` | services/calendar/src/epicurus_calendar/sync.py:537-571 | What is announced is exactly the folded groups of decisions, by (series or id, type) |
| `Announce.CollapsedIsOrdered` | services/calendar/src/epicurus_calendar/sync.py:562-571 | One result per group, each group once, in order of start and then id |
| `NewsOrder.AnnouncesInOrder` | services/calendar/src/epicurus_calendar/sync.py:570-571 | Whatever is suppressed or cut off, each announcement starts no later than the next, and of equal starts has the id that comes first, at the first differing character or as a prefix |
| `NewsOrder.CeilingKeepsTheEarliest` | services/calendar/src/epicurus_calendar/sync.py:380-389 | What would go and is left out by the ceiling starts no earlier than anything announced, and the ceiling is then full |
| `NewsOrder.AnnouncesOneEach` | services/calendar/src/epicurus_calendar/sync.py:556-571 | No two announcements of a pass are of one kind and one series, or one lone event |
| `Announce.GroupsPartition` | services/calendar/src/epicurus_calendar/sync.py:556-559 | Group sizes add up to the number of decisions |
| `Announce.SortSorts` | services/calendar/src/epicurus_calendar/sync.py:570-571 | The final order is a permutation in which no later decision precedes an earlier one |
| `Announce.GroupUp` | services/calendar/src/epicurus_calendar/sync.py:556-559 | The loop builds the groups, each with its members in order, and the keys in first-met order |
| `Announce.FoldedMeans` | services/calendar/src/epicurus_calendar/sync.py:562-569 | A group folds to the first of its earliest members: unchanged when alone, otherwise re-keyed onto the group and flagged exactly when some member's series is the group's key |
| `Announce.Collapse` | services/calendar/src/epicurus_calendar/sync.py:537-571 | The two loops compute the folded, sorted groups |
| `Announce.SelfWriteLedger.Record` | services/calendar/src/epicurus_calendar/sync_store.py:403-425 | All non-empty keys get the new expiry, or none do when a key is repeated |
| `Announce.SelfWriteLedger.Consume` | services/calendar/src/epicurus_calendar/sync_store.py:427-442 | Deletes the marker and says whether it was live |
| `Announce.SelfWriteLedger.Peek` | services/calendar/src/epicurus_calendar/sync_store.py:444-454 | Says whether the marker is live and changes nothing |
| `Announce.SelfWriteLedger.Prune` | services/calendar/src/epicurus_calendar/sync_store.py:456-467 | A marker stays exactly when it is another tenant's or has yet to expire, and keeps its expiry |
| `Announce.RecordedMarkers` | services/calendar/src/epicurus_calendar/sync_store.py:403-425 | After recording, a marker is there when it was or was recorded, with the new expiry if recorded |
| `Announce.WantedMembers` | services/calendar/src/epicurus_calendar/sync_store.py:403-425 | A recording leaves out the empty keys and no others |
| `Spine.SelfWriteKeyInjective` | services/calendar/src/epicurus_calendar/spine.py:89-98 | For one provider two ledger keys are equal exactly when both the kind and the id are |
| `Spine.SelfWriteKeyNamesProvider` | services/calendar/src/epicurus_calendar/spine.py:89-98 | Equal ledger keys name one provider, when provider names hold no colon |
| `Spine.HashMovesIff` | services/calendar/src/epicurus_calendar/spine.py:49-70 | As far as the digest has no collisions the hash moves exactly when title, start, end, description, location or all-day does |
| `SpineLog.DedupKeysMeet` | services/calendar/src/epicurus_calendar/spine.py:73-86 | Two announcements of one provider share a dedup key exactly when they are updates of one event to one content, or neither is an update and the event is the same |
| `SpineLog.ReachesIff` | services/core-app/src/epicurus_core_app/event_log.py:243-280 | Among any deliveries, an announcement's row is added exactly when its key was not on file and no earlier announcement is the same to the log |
| `SpineLog.CancellationOfCreatedIsDropped` | services/calendar/src/epicurus_calendar/sync.py:434-447 | An event's cancellation after its creation, or creation after its cancellation, adds no row |
| `SpineLog.UpdateBackIsDropped` | services/calendar/src/epicurus_calendar/sync.py:441-444 | An update to a content already announced as an update adds no row |
| `Intake.Safety` | services/core-app/src/epicurus_core_app/event_log.py:466-563 | In every reachable state an acked message's key is on file, a terminated one was malformed or named two tenants, keys are unique, stored rows never change, and no listener is called twice for one key |
| `Intake.RowsAreUnderTheirTenant` | services/core-app/src/epicurus_core_app/event_log.py:474-493 | In every run each row added is, field for field, the valid envelope of a message whose subject is the row's tenant or begins with it and a dot |
| `Intake.AnsweredAsOwned` | services/core-app/src/epicurus_core_app/event_log.py:474-513 | A message is acknowledged only if it is valid, under its own tenant's subject and on file by tenant, module and dedup key, and terminated only if it is not its own tenant's or not valid |
| `Intake.OneRowAKey` | services/core-app/src/epicurus_core_app/event_log.py:176-178 | No two rows have the same tenant, module and dedup key |
| `Intake.EmittedIsNeverTerminated` | services/core-app/src/epicurus_core_app/event_log.py:474-493 | Nothing published by emit_event is ever terminated |
| `Intake.RunKeepsInv` | services/core-app/src/epicurus_core_app/event_log.py:446-535 | The machine's invariant holds through every run of deliveries, refusals, stores, failures, acks, calls and crashes |
| `IntakeDrain.DrainedKeys` | services/core-app/src/epicurus_core_app/event_log.py:446-535 | A complete drain has on file the keys it began with and those of the valid messages, no others |
| `IntakeDrain.DrainsAgree` | services/core-app/src/epicurus_core_app/event_log.py:446-535 | Any two complete drains of one stream end with the same set of keys, whatever the redeliveries, lost acks, store failures and crashes |
| `IntakeDrain.MovesLowerRank` | services/core-app/src/epicurus_core_app/event_log.py:446-563 | Every move but a publication lowers a rank, a fault by spending one of the faults allowed |
| `IntakeDrain.DrainIsBounded` | services/core-app/src/epicurus_core_app/event_log.py:446-535 | A drain with boundedly many faults is no longer than its rank |
| `IntakeDrain.CanDrain` | services/core-app/src/epicurus_core_app/event_log.py:446-535 | From every reachable state some fault-free drain empties the stream |
| `EventLog.EventLogStore.Append` | services/core-app/src/epicurus_core_app/event_log.py:243-280 | The row is appended and its id returned, or nothing changes and None is returned when the key is on file |
| `EventLog.EventIntake.Consume` | services/core-app/src/epicurus_core_app/event_log.py:466-535 | One delivery is a run of the machine's moves. A message that is malformed, or whose subject is not its envelope's tenant and does not begin with it and a dot, leaves rows and calls as they were and is terminated unless the reply is lost; any other is appended, acknowledged and told to each listener when its row is new; a failing store leaves it open |
| `EventLog.Delivered` | services/core-app/src/epicurus_core_app/event_log.py:495-535 | A delivery that reaches the log ends with the row stored or already there, the message acked unless the reply was lost, and each listener told once, only when this delivery stored the row |
| `EventLog.ToldAt` | services/core-app/src/epicurus_core_app/event_log.py:525-535 | Each listener is told of a new row, in order and once |
| `Envelope.EmittedIsAcceptable` | libs/epicurus-core/src/epicurus_core/module_events.py:321-377 | Whatever emit_event publishes parses, names one tenant, and carries the emitter's key |
| `Envelope.AcceptableIffOwn` | services/core-app/src/epicurus_core_app/event_log.py:484-493 | A message is acceptable exactly when its envelope is valid and its subject is the envelope's tenant or begins with it and a dot |
| `Envelope.ValidIff` | libs/epicurus-core/src/epicurus_core/module_events.py:241-315 | What a valid envelope is, letter by letter: tenant, module, dotted type, zoned time, dedup key, and a payload without secrets of at most 4096 bytes |
| `Envelope.EmittedOnItsSubject` | libs/epicurus-core/src/epicurus_core/module_events.py:321-377 | What is emitted goes out on the tenant, events, and the type, with dots between |
| `Envelope.TypeNamesItsModule` | libs/epicurus-core/src/epicurus_core/module_events.py:256-292 | A valid event type has the module as its first token and no wildcard |
| `Feed.FeedMissesNothing` | services/core-app/src/epicurus_core_app/event_log.py:571-618 | However stores, publishes and opening interleave, a feed that has drained its queue yielded the newest history oldest first and then every matching event published since it opened: each at least once and at most twice |
| `Feed.FeedShowsWhatWasAskedFor` | services/core-app/src/epicurus_core_app/event_log.py:571-618 | It shows only rows of the subscriber's tenant, and of the module and type it named, and every such row published since it opened, after at most 200 of history |
| `Feed.HistoryIsNewest` | services/core-app/src/epicurus_core_app/event_log.py:282-303 | The replayed history is the newest matching rows: anything left out is older, and then the history is full |
| `FileScan.Scan` | services/core-app/src/epicurus_core_app/file_scan.py:194-279 | For any finite tree and exclude predicate the walk terminates. It fails if and only if the tree's rows, in the order of the walk and cut into batches, name a path twice in one batch, which is then listed both as file and as directory; the batches before it stand and nothing is purged. Otherwise the index is the upsert of those rows, the later of the two where a path is listed as both; the purge happens exactly when the fuse does not refuse the real counts; the trip table says which |
| `FileScan.Walk` | services/core-app/src/epicurus_core_app/file_scan.py:222-250 | The depth-first loop visits exactly the entries reachable through unexcluded directories, writing them batch by batch until a batch is refused |
| `FileScan.VisitDirectory` | services/core-app/src/epicurus_core_app/file_scan.py:228-247 | One directory's unexcluded children are noted, pushed and written in full batches, up to one that names a path twice |
| `FileScan.WeighAndPurge` | services/core-app/src/epicurus_core_app/file_scan.py:252-279 | Count, judge, then purge and clear, or trip and delete nothing |
| `FileScan.FinishedWalk` | services/core-app/src/epicurus_core_app/file_scan.py:226-250 | An empty frontier means the visited paths are exactly those the tree has to show |
| `FileScanProofs.ScanMirrorsTree` | services/core-app/src/epicurus_core_app/file_scan.py:194-279 | After a purge that went ahead the tenant's rows under a prefix equal the reachable entries with their metadata, one of the two where a path is listed as both file and directory; rows elsewhere and of other tenants are unchanged |
| `FileScanProofs.RowsTellTheirEntries` | services/core-app/src/epicurus_core_app/file_scan.py:233-241 | Field by field: after a scan that did not fail every entry the walk lists has a row with the name, size, modification time and kind of an entry listed at its path, which on an unambiguous tree is that entry; after a purge no other row is left under the prefix |
| `FileScanProofs.ReachedIsAChain` | services/core-app/src/epicurus_core_app/file_scan.py:224-250 | The walk comes to a directory by a chain from the root of directories each listed in the one before, none excluded |
| `FileScanProofs.ChainIsReached` | services/core-app/src/epicurus_core_app/file_scan.py:224-250 | And to every directory such a chain leads to |
| `FileScanProofs.SyncIsDetermined` | services/core-app/src/epicurus_core_app/file_scan.py:222-250 | Where no path is listed as both, the result depends on the tree and the starting index only, not on batch size or the order of the walk |
| `FileScanProofs.RescanChangesNothing` | services/core-app/src/epicurus_core_app/file_scan.py:194-279 | A second scan of an unchanged tree changes no row |
| `FileScanProofs.RescanOfAnyTree` | services/core-app/src/epicurus_core_app/file_scan.py:194-279 | Nor where a path is listed as file and as directory: writing the same rows in the same order again, purge or not, leaves every row |
| `FileScanProofs.CountsAddUp` | services/core-app/src/epicurus_core_app/file_scan.py:252-264 | After the upserts, indexed rows equal entries seen plus rows a purge would delete |
| `FileScanProofs.FuseLimitsLoss` | services/core-app/src/epicurus_core_app/file_scan.py:127-164 | With an armed, unforced fuse a store that lists nothing costs no row; a purge goes ahead exactly when it deletes nothing, or something was listed and it deletes fewer than the floor or less than the ratio; a trip loses no indexed path |
| `FileScanProofs.ForcedScanPurges` | services/core-app/src/epicurus_core_app/file_scan.py:127-164 | Forced, or with no fuse or one that is off, a scan purges exactly the rows under the prefix it did not see |
| `FileScanProofs.RefusalSaysWhy` | services/core-app/src/epicurus_core_app/file_scan.py:127-164 | A refusal keeps every row, and says the source was empty exactly when nothing was listed |
| `FileScanProofs.RescanRepeatsVerdict` | services/core-app/src/epicurus_core_app/file_scan.py:252-277 | Scanning an unchanged tree again gives the same verdict and the same index |
| `FileScanProofs.FileAndFolderFails` | services/core-app/src/epicurus_core_app/file_scan.py:226-250 | Scanning a bucket that holds a and a/b fails, unless every row is a batch of its own |
| `Like.PrefixPatternIsPrefix` | services/core-app/src/epicurus_core_app/file_index.py:40-52 | For all p and s the three chained replacements plus a percent sign match s under LIKE with a backslash escape exactly when p is a prefix of s |
| `Like.SubtreePatternIsSubtree` | services/core-app/src/epicurus_core_app/file_index.py:245-249 | The subtree pattern matches exactly the paths below the node |
| `Like.EscapedThenPattern` | services/core-app/src/epicurus_core_app/file_index.py:40-52 | The escaped text followed by any pattern matches what starts with the text and goes on as the pattern says |
| `FileIndex.FileIndex.UpsertBatch` | services/core-app/src/epicurus_core_app/file_index.py:119-146 | The batch's rows replace the old ones in one transaction; a repeated path changes nothing |
| `FileIndex.UpsertedAt` | services/core-app/src/epicurus_core_app/file_index.py:119-146 | After upserts a path holds what the last entry naming it says, or its old row when none does |
| `FileIndex.FileIndex.CountRows` | services/core-app/src/epicurus_core_app/file_index.py:160-172 | Returns the number of the tenant's rows whose path begins with the prefix, read as it stands: the SQL counts by the escaped pattern |
| `FileIndex.FileIndex.CountStale` | services/core-app/src/epicurus_core_app/file_index.py:174-188 | Counts the rows in scope that were not seen |
| `FileIndex.FileIndex.PurgeStale` | services/core-app/src/epicurus_core_app/file_index.py:190-205 | Deletes exactly the tenant's rows whose path begins with the prefix and was not seen, keeps the others as they are, and returns how many went |
| `FileIndex.FileIndex.RemovePrefix` | services/core-app/src/epicurus_core_app/file_index.py:207-227 | Deletes exactly the tenant's paths starting with a nonempty prefix |
| `FileIndex.FileIndex.RemoveSubtree` | services/core-app/src/epicurus_core_app/file_index.py:229-251 | Deletes exactly the node and its descendants, never a sibling; the root is refused |
| `FileIndex.ScopeIsPrefix` | services/core-app/src/epicurus_core_app/file_index.py:160-172 | A row is in scope exactly when it is the tenant's and its path starts with the prefix |
| `FileIndex.NodePathSlashes` | services/core-app/src/epicurus_core_app/file_index.py:229-251 | A node is named alike with slashes of either kind, whatever slashes follow |
| `Recurrence.SplitPartitions` | services/calendar/src/epicurus_calendar/recurrence.py:34-66 | Splitting at a non-first occurrence partitions the series: the truncated rule has exactly the occurrences before it, the continued rule started there exactly those from it on; for COUNT-bound, UNTIL-bound and unbounded rules |
| `Recurrence.HeadOccurrences` | services/calendar/src/epicurus_calendar/recurrence.py:34-50 | A rule with the same pattern, no COUNT and UNTIL at the last occurrence before the split has exactly the occurrences before it |
| `Recurrence.TailOccurrences` | services/calendar/src/epicurus_calendar/recurrence.py:53-66 | A rule anchored at the j-th occurrence with its COUNT less j has exactly the occurrences from it on |
| `Recurrence.NothingBefore` | services/calendar/src/epicurus_calendar/recurrence.py:34-44 | Truncation declines exactly when no occurrence precedes the split |
| `Recurrence.TruncateBefore` | services/calendar/src/epicurus_calendar/recurrence.py:34-50 | Declines or returns the text without COUNT, with UNTIL at the last occurrence before the split |
| `Recurrence.ContinueFrom` | services/calendar/src/epicurus_calendar/recurrence.py:53-66 | Returns the text with COUNT lessened by the occurrences before the split, which never exceed it |
| `Recurrence.ReadParts` | services/calendar/src/epicurus_calendar/recurrence.py:21-27 | The loop over the semicolon-separated pieces builds the dictionary, a repeated name keeping its place and taking the later value |
| `Recurrence.PartsRoundTrip` | services/calendar/src/epicurus_calendar/recurrence.py:21-31 | Joining parts and reading them back gives the same parts |
| `Recurrence.PartsOfClean` | services/calendar/src/epicurus_calendar/recurrence.py:21-27 | Whatever the text, the parts read have distinct names free of both separators |
| `Recurrence.PrecedesIffLeading` | services/calendar/src/epicurus_calendar/recurrence.py:34-66 | What precedes the split is exactly the first so many occurrences |
| `Recurrence.ProgressionIsRegular` | services/calendar/src/epicurus_calendar/recurrence.py:34-66 | The concrete family FREQ plus INTERVAL, seconds to weeks, strictly increases and restarts consistently, so the split theorem applies to it |
| `Recurrence.BoundsMean` | services/calendar/src/epicurus_calendar/recurrence.py:34-66 | COUNT is the number of occurrences from the start and UNTIL the last instant one may fall on |
| `Recurrence.ProgressionMeans` | services/calendar/src/epicurus_calendar/recurrence.py:34-66 | The k-th occurrence of such a rule comes k intervals of its period after the start |
| `Recurrence.PeriodsMean` | services/calendar/src/epicurus_calendar/recurrence.py:34-66 | The seconds of each frequency with a fixed period |
| `Recurrence.UntilReadsBoth` | services/calendar/src/epicurus_calendar/recurrence.py:34-50 | UNTIL reads as an instant, or as a date alone, which is its midnight |
| `Timestamps.StampRoundTrip` | services/calendar/src/epicurus_calendar/db.py:42-57 | An instant printed in the compact UTC form parses back to itself, for the years printed on four digits |
| `Timestamps.DayNumberOfDateOf` | services/calendar/src/epicurus_calendar/db.py:42-57 | Counting days to a proleptic Gregorian date and back is the identity |
| `Timestamps.MonthsEnd` | services/calendar/src/epicurus_calendar/db.py:42-57 | Where each month ends, leap years and all, and the day the count starts from |
| `EventStore.InstanceIdRoundTrip` | services/calendar/src/epicurus_calendar/db.py:42-57 | An instance id parses back to its series and original start, whatever characters the series id holds |
| `EventStore.RehomingMovesExactlyTheLater` | services/calendar/src/epicurus_calendar/db.py:293-321 | Re-homing moves exactly the overrides strictly after the split, each under an id that parses to the new series and its old start; every other row is untouched |
| `EventStore.RehomingKeepsIdsUnique` | services/calendar/src/epicurus_calendar/db.py:293-321 | With a fresh series id the re-homed table keeps its unique key |
| `EventStore.SplitKeepsOverridesAnchored` | services/calendar/src/epicurus_calendar/providers/local.py:351-403 | After a following-edit that keeps the rule and the start, every override of either half sits on an occurrence of that half |
| `EventStore.SplitDropsOnlyTheSplitOverride` | services/calendar/src/epicurus_calendar/providers/local.py:396-402 | The only override the edit drops is the split occurrence's own |
| `EventStore.OwnAreJudgedByStart` | services/calendar/src/epicurus_calendar/db.py:293-344 | An override of the series is re-homed when its original start is after the split and deleted when it is on or after the date |
| `EventStore.OthersAreUntouched` | services/calendar/src/epicurus_calendar/db.py:293-344 | Rows of other tenants and series are left alone |
| `EventStore.DeleteKeepsOverridesAnchored` | services/calendar/src/epicurus_calendar/providers/local.py:405-430 | A "this and following" delete leaves exactly the overrides before the split, each on an occurrence of the truncated rule; where no occurrence precedes the split every one goes |
| `FollowingEdit.MovedSplitKeepsOverridesIff` | services/calendar/src/epicurus_calendar/providers/local.py:368-395 | When the new master starts anywhere but at the split, earlier or later, the overrides the edit moves sit on occurrences of the new series if and only if the move is by whole periods, passes none of them, and leaves COUNT enough occurrences to reach them; with COUNT, UNTIL or neither, for rules of a fixed period |
| `FollowingEdit.MovingByAnHourOrphans` | services/calendar/src/epicurus_calendar/providers/local.py:368-395 | A daily series edited from its second day on and moved an hour later: the renamed third day is moved to the new series and is on no occurrence of it |
| `FollowingEdit.CrashLosesTheTailOnce` | services/calendar/src/epicurus_calendar/providers/local.py:381-402 | Stopped after any of its commits the edit has lost no occurrence and made none, but that after the truncation alone every occurrence from the split on is gone |
| `FollowingEdit.OverridesLagBehind` | services/calendar/src/epicurus_calendar/providers/local.py:381-402 | In between, the truncated series holds only overrides on its own occurrences exactly when it had none from the split on, and after the re-homing none at the split |
| `EventStore.LocalEventStore.RepointExceptions` | services/calendar/src/epicurus_calendar/db.py:293-321 | All matching rows are re-keyed in one commit, or none when two would collide |
| `EventStore.LocalEventStore.DeleteExceptionsOnOrAfter` | services/calendar/src/epicurus_calendar/db.py:323-344 | The loop deletes the series' overrides from the date on |
| `EventStore.WithoutFromMembers` | services/calendar/src/epicurus_calendar/db.py:323-344 | Exactly the overrides with an original start on or after the date are gone |
| `EventStore.LocalEventStore.DeleteEvent` | services/calendar/src/epicurus_calendar/db.py:479-489 | The row with the id is deleted |
| `EventStore.WithoutIdMembers` | services/calendar/src/epicurus_calendar/db.py:479-489 | Exactly the tenant's rows with that id are gone |
| `PortabilityProofs.ExportImportExport` | services/calendar/src/epicurus_calendar/portability.py:131-239 | An export imported into a tenant with no rows, on either database dialect, reports every record created without a complaint and exports as the same stream when every null is fillable; importing it again reports only skipped and changes no row |
| `PortabilityProofs.SecondApplySkipsIff` | services/calendar/src/epicurus_calendar/portability.py:149-189 | A stream whose records name different rows, once applied, is reported all skipped when applied again if and only if each record is in export's own spelling or always skipped; and then no row changes |
| `PortabilityProofs.ReapplyIffSpelled` | services/calendar/src/epicurus_calendar/portability.py:205-239 | A record just applied is skipped on a second apply if and only if its values are in export's spelling or it is one that is always skipped |
| `PortabilityProofs.OffUtcUpdatesEveryTime` | libs/epicurus-core/src/epicurus_core/portability_columns.py:104-130 | A fillable record with a date that has no offset or another than UTC's is an update each time it is applied again, whatever the rows were before |
| `PortabilityProofs.RepeatedSlotMisreports` | services/calendar/src/epicurus_calendar/portability.py:224-239 | A record sent twice into a free slot: the dry run reports two created where the import reports one created and one skipped |
| `PortabilityCounts.DryRunCreatesIff` | services/calendar/src/epicurus_calendar/portability.py:149-239 | For every stream whose import succeeds the dry run succeeds with as many records of each kind; it reports as many created if and only if no two fillable records of the kind name one row the tenant lacks, and otherwise more |
| `PortabilityCounts.OccupiedSlotNamedTwice` | services/calendar/src/epicurus_calendar/portability.py:224-239 | Two records for a row the tenant has: neither run creates, and their updates differ exactly as the second matches the row as it was or as the first left it |
| `PortabilityProofs.EncodedRoundTrip` | libs/epicurus-core/src/epicurus_core/portability_columns.py:165-203 | An encoded row needs no filling, keeps its natural key, and lands as a row that encodes the same |
| `PortabilityProofs.LandedMeansTheSame` | libs/epicurus-core/src/epicurus_core/portability_columns.py:90-130 | A row exported and imported means the same in every one of its columns, a null staying one or becoming its own column's default |
| `PortabilityProofs.ExportedAt` | services/calendar/src/epicurus_calendar/portability.py:131-147 | The i-th record of an export is the i-th listed row's |
| `CalendarPortability.DryRunAgrees` | services/calendar/src/epicurus_calendar/portability.py:149-189 | When no two records name one row, a dry run of an import that succeeds gives the same report, counts and warnings |
| `CalendarPortability.ImportIsAdditive` | services/calendar/src/epicurus_calendar/portability.py:149-239 | An import deletes nothing and changes or adds only rows of its tenant that some record names; a dry run changes nothing |
| `CalendarPortability.OutcomeTellsEffect` | services/calendar/src/epicurus_calendar/portability.py:224-239 | Created means a row where there was none, its columns the record's, or else their default, what the insert supplies, or null; updated, the same rows with the record's columns written and the row's other columns kept; skipped, no change |
| `CalendarPortability.StepTouchesItsSlot` | services/calendar/src/epicurus_calendar/portability.py:205-239 | One record touches at most the row its natural key names |
| `CalendarPortability.StepReports` | services/calendar/src/epicurus_calendar/portability.py:192-239 | A record warns of its unknown kind, of exactly its unknown fields, and of exactly the fields nothing fills |
| `CalendarPortability.StepKeepsOk` | services/calendar/src/epicurus_calendar/portability.py:205-239 | Stored rows stay typed and filed under their own key |
| `CalendarPortability.CalendarPortability.Export` | services/calendar/src/epicurus_calendar/portability.py:131-147 | The loop yields one record per row of the tenant, in the listed order |
| `CalendarPortability.CalendarPortability.Import` | services/calendar/src/epicurus_calendar/portability.py:149-189 | The loop applies the stream record by record in one transaction: the report and the rows of the whole stream, or an error and no change |
| `CalendarPortability.CalendarPortability.Upsert` | services/calendar/src/epicurus_calendar/portability.py:192-239 | Created, updated, skipped or an error, and the row written, as the record's verdict says; nothing written on a dry run |
| `PortableColumns.ValueRoundTrip` | libs/epicurus-core/src/epicurus_core/portability_columns.py:90-130 | A stored value encoded, decoded and stored again under either dialect means the same and encodes the same; a null stays null exactly in a nullable column and otherwise becomes the default |
| `PortableColumns.ReadsBackIffSpelled` | libs/epicurus-core/src/epicurus_core/portability_columns.py:104-130 | A JSON value stored once encodes back to an equal value exactly when it was in the spelling export uses for its column |
| `PortableColumns.StoredInstantIff` | libs/epicurus-core/src/epicurus_core/portability_columns.py:104-130 | A datetime keeps its instant in the database, except that SQLite keeps the wall clock alone, so that one with an offset other than UTC's becomes another instant there |
| `PortableColumns.IdentitiesMean` | libs/epicurus-core/src/epicurus_core/portability_columns.py:158-163 | A record is named by its kind, its one key's value, or all of them joined by bars |
| `PortableColumns.Normalize` | libs/epicurus-core/src/epicurus_core/portability_columns.py:182-203 | The loop fills every fillable null and names exactly the NOT NULL columns left without a value |
| `NdJson.IterLines` | libs/epicurus-core/src/epicurus_core/portability.py:346-366 | The reader yields the decoded, stripped, non-blank lines of the concatenated bytes up to the first that does not decode; it ends well exactly when every remainder fits the cap and every line decodes, and otherwise says which stopped it and after which chunk, having yielded the whole lines before |
| `NdJson.StripTakesTheEnds` | libs/epicurus-core/src/epicurus_core/portability.py:353-361 | A line loses the blanks at its two ends, all of them and nothing else |
| `NdJson.CutAnywhere` | libs/epicurus-core/src/epicurus_core/portability.py:346-366 | Reading two byte strings one after the other is reading their concatenation, wherever the cut |
| `NdJson.ShortLinesReadAlways` | libs/epicurus-core/src/epicurus_core/portability.py:353-361 | For any cap (8 MiB there) a stream whose lines fit it is read to its end under every chunking |
| `NdJson.LongLineCanFail` | libs/epicurus-core/src/epicurus_core/portability.py:353-361 | And only such a stream: a longer line has a chunking that fails |
| `NdJson.RecordsSurviveChunking` | libs/epicurus-core/src/epicurus_core/portability.py:346-371 | Records encoded and written one per line come back in order under every chunking when each fits the cap and decodes to itself |
| `ObjectStore.Move` | libs/epicurus-core/src/epicurus_core/files.py:462-511 | Refused exactly for a climbing path, a root, a move into itself, a missing source or an occupied destination, leaving the bucket as it was; otherwise the bucket ends as the simultaneous rename of every key at or under src, and no content is missing at any step |
| `ObjectStore.MovedKeyByKey` | libs/epicurus-core/src/epicurus_core/files.py:480-505 | Key by key: src goes to dst and what follows src and a slash goes behind dst and a slash, as it was; every other key stays |
| `ObjectStore.RefusalSaysWhy` | libs/epicurus-core/src/epicurus_core/files.py:466-489 | Which refusal is given when, a move into itself or below itself among them |
| `ObjectStore.RenameAll` | libs/epicurus-core/src/epicurus_core/files.py:501-505 | The key-by-key loop equals one rename of all keys, and every intermediate bucket still holds every object |
| `ObjectStore.RenameIsDetermined` | libs/epicurus-core/src/epicurus_core/files.py:501-505 | The final bucket does not depend on the order the keys are taken in |
| `ObjectStore.MoveBackRestores` | libs/epicurus-core/src/epicurus_core/files.py:462-505 | Moving a tree and moving it back restores the bucket when nothing lay under the target |
| `ObjectStore.DestInjective` | libs/epicurus-core/src/epicurus_core/files.py:484-488 | Two keys under src never map to one destination |
| `ObjectStore.CopyThenDelete` | libs/epicurus-core/src/epicurus_core/files.py:501-505 | One copy and delete extends the rename by one key and loses nothing in between |
| `ObjectStore.DeleteTree` | libs/epicurus-core/src/epicurus_core/files.py:434-454 | Deletes exactly the object and the keys under it, and says whether there were any |
| `ObjectStore.NormalizeRel` | libs/epicurus-core/src/epicurus_core/files.py:73-87 | The loop drops empty and dot segments and refuses a path that climbs |
| `ObjectStore.NormalizedIsProper` | libs/epicurus-core/src/epicurus_core/files.py:73-87 | A normalised path has only proper segments, so it cannot climb, and normalises to itself |
| `ObjectStore.ProperIsFixed` | libs/epicurus-core/src/epicurus_core/files.py:73-87 | A path of proper segments is returned as it is |
| `ObjectStore.NormalizedSegments` | libs/epicurus-core/src/epicurus_core/files.py:73-87 | A path written with slashes of either kind normalises to its segments in order, or is refused when one climbs |
| `ObjectStore.SegmentsDropOnly` | libs/epicurus-core/src/epicurus_core/files.py:73-87 | An empty or dot segment is dropped wherever it stands, any other kept in its place |
| `Scheduler.FiresOnce` | services/calendar/src/epicurus_calendar/scheduler.py:99-118 | Over any ticks and restarts, each with whatever calendar it lists, no marker fires twice, and what fires is exactly what some tick wanted and nobody had claimed |
| `Scheduler.StartingSoonCovered` | services/calendar/src/epicurus_calendar/scheduler.py:175-217 | With ticks no further apart than the lead, every event that stands still and starts between the first and last tick is announced as starting soon exactly once, whatever else the calendar does |
| `Scheduler.EndedCovered` | services/calendar/src/epicurus_calendar/scheduler.py:175-217 | With ticks no further apart than the lookback, every plain event that stands still and ends between them is announced as ended exactly once |
| `Reminders.EveryStartIsAnnounced` | services/calendar/src/epicurus_calendar/scheduler.py:136-217 | With ticks no further apart than the lead, any n events that stand still, differ in provider or id, and start between the first and last tick are announced as starting soon by n different claims, each made once |
| `Reminders.EveryEndIsAnnounced` | services/calendar/src/epicurus_calendar/scheduler.py:136-217 | The same of plain events that end, with ticks no further apart than the lookback |
| `Reminders.EveryShortOccurrenceEnds` | services/calendar/src/epicurus_calendar/scheduler.py:136-217 | And of occurrences short enough for the lookback and the gap between ticks |
| `Reminders.EveryClaimIsAnEvents` | services/calendar/src/epicurus_calendar/scheduler.py:136-217 | Every claim that fires is that of an event some tick listed and had due |
| `Reminders.MarkerKeyNamesEvent` | services/calendar/src/epicurus_calendar/scheduler.py:134-137 | Keys of providers whose names hold no colon are equal only for one provider and one id |
| `Scheduler.OccurrenceEndedIff` | services/calendar/src/epicurus_calendar/providers/local.py:112-153 | An expanded occurrence, no other event sharing its id, is announced as ended exactly when a tick that lists it falls between its end and a lookback after its start, so never when it lasts longer than the lookback |
| `Scheduler.ShortOccurrenceCovered` | services/calendar/src/epicurus_calendar/scheduler.py:175-217 | A stationary occurrence whose length and the gap between ticks together fit the lookback is announced as ended exactly once |
| `Scheduler.LongerCanBeMissed` | services/calendar/src/epicurus_calendar/scheduler.py:175-217 | And that is sharp: one that is any longer is missed by some ticks no further apart |
| `Scheduler.LongOccurrenceNeverEnds` | services/calendar/src/epicurus_calendar/providers/local.py:131-142 | With the default hour of lookback a two-hour occurrence is never announced as ended |
| `Scheduler.SoonDueIff` | services/calendar/src/epicurus_calendar/scheduler.py:175-217 | A tick wants starting-soon exactly when the start lies from now to strictly before the lead |
| `Scheduler.EndedDueIff` | services/calendar/src/epicurus_calendar/db.py:172-193 | When a tick wants ended, for a plain event by overlap and for an occurrence by start |
| `Scheduler.FiredMarkerStore.TryClaim` | services/calendar/src/epicurus_calendar/scheduler.py:99-118 | True exactly for the attempt that finds the marker free; it is taken afterwards |
| `Scheduler.LeadTimeScheduler.FireOnce` | services/calendar/src/epicurus_calendar/scheduler.py:139-172 | Claims, and announces only when the claim was won |
| `Scheduler.LeadTimeScheduler.RunTick` | services/calendar/src/epicurus_calendar/scheduler.py:175-217 | The loop over the events claims what the tick wants and announces, in order, the claims it won |
| `SecretStore.ReauthIsBounded` | libs/epicurus-core/src/epicurus_core/secret_store.py:132-171 | In every interleaving of threads a call runs its operation at most twice, the second time with a strictly newer client, each client is invalidated at most once, and clients built never exceed one plus the distinct clients refused |
| `SecretStore.RefusedCallRunsAgain` | libs/epicurus-core/src/epicurus_core/secret_store.py:156-171 | In every reachable state a call whose first run is refused goes on to run the client another thread has put in place, or a newly built one, and ends only when none is to be had |
| `SecretStore.SecretStore.ClientSync` | libs/epicurus-core/src/epicurus_core/secret_store.py:132-147 | The cached client, or a new one when the token is accepted, or an error with nothing cached |
| `SecretStore.SecretStore.Invalidate` | libs/epicurus-core/src/epicurus_core/secret_store.py:149-154 | Drops the client only if it is still the cached one |
| `SecretStore.SecretStore.Call` | libs/epicurus-core/src/epicurus_core/secret_store.py:156-171 | At most two runs: the first with the cached client or a new one, the second exactly when the first is refused and a client is to be had, with that newer client, which is then the cached one; the outcome is that of the last |
| `Maintenance.SingleFlight` | services/core-app/src/epicurus_core_app/maintenance.py:211-388 | Over every interleaving of starts, drivers' first steps, job steps, completions, shutdowns and landings at most one batch is in flight, a finished one has one result per selected job in registry order, and a cancelled one has no job pending or running; given no start while a shutdown waits for a driver it cancelled inside its job loop |
| `Maintenance.OverlapIffStartedDuringShutdown` | services/core-app/src/epicurus_core_app/maintenance.py:297-303 | That condition is exact: one start from an idle orchestrator can be followed by two batches in flight if and only if a shutdown is still waiting for a driver it cancelled inside its job loop, whose handler clears the newer batch's pointer; one cancelled before its first step or while recording clears nothing |
| `Maintenance.ShutdownInsideTheLoop` | services/core-app/src/epicurus_core_app/maintenance.py:360-371 | Such a state is reached: a start, the driver's first step, a shutdown |
| `Maintenance.ShutdownSettles` | services/core-app/src/epicurus_core_app/maintenance.py:360-371 | Right after a shutdown nothing is pending or running |
| `Maintenance.ShutdownOnJobs` | services/core-app/src/epicurus_core_app/maintenance.py:360-371 | A shutdown interrupts the current batch's unfinished jobs, keeps the results it has, and touches no other batch |
| `Maintenance.SelectedExactly` | services/core-app/src/epicurus_core_app/maintenance.py:233-234 | The selection is the registered jobs in scope, each as often as registered |
| `Maintenance.SelectedInOrder` | services/core-app/src/epicurus_core_app/maintenance.py:233-234 | And in the registry's order |
| `Maintenance.StartedJobs` | services/core-app/src/epicurus_core_app/maintenance.py:233-241 | A new batch has the selected jobs' keys in their order, all pending, and is the current one |
| `Maintenance.MaintenanceOrchestrator.StartRun` | services/core-app/src/epicurus_core_app/maintenance.py:211-241 | A new batch of fresh jobs, or the batch already in flight |
| `Maintenance.MaintenanceOrchestrator.Drive` | services/core-app/src/epicurus_core_app/maintenance.py:261-339 | The loop gives each job its outcome in turn, then the batch is finished and the pointer cleared; cancelled inside a job, the handler marks what was unfinished, clears the pointer and records nothing |
| `Maintenance.DriveIsARun` | services/core-app/src/epicurus_core_app/maintenance.py:281-318 | Driving a batch to its end, or to a cancellation inside any job, is a run of the step relation |
| `Maintenance.DrivenJobs` | services/core-app/src/epicurus_core_app/maintenance.py:281-318 | Driven to its end each job has its own outcome; cancelled inside one, it and those after it are interrupted; other batches are left alone |
| `Maintenance.MaintenanceOrchestrator.ShutDown` | services/core-app/src/epicurus_core_app/maintenance.py:360-371 | Cancels a live driver, marks what was unfinished, points at nothing |
| `MaintenanceSchedule.NextRunIsTheNextDueWindow` | services/core-app/src/epicurus_core_app/maintenance_schedule_prefs.py:54-73 | The planned time is after now, starts a due window, and no whole hour before it does |
| `MaintenanceSchedule.PlannedRunIsDueIff` | services/core-app/src/epicurus_core_app/maintenance_schedule_prefs.py:54-100 | The planned run will be due if and only if it is not planned for later on a day the batch has already fired |
| `MaintenanceSchedule.OwnFiringLeavesThePlan` | services/core-app/src/epicurus_core_app/maintenance_schedule_prefs.py:54-100 | A firing made by the schedule as it stands never spoils the plan |
| `MaintenanceSchedule.FiresOncePerWindow` | services/core-app/src/epicurus_core_app/maintenance_schedule_prefs.py:76-100 | Scheduled batches start at most once per local window, and only in due ones |
| `MaintenanceSchedule.DueOnTheClock` | services/core-app/src/epicurus_core_app/maintenance_schedule_prefs.py:76-100 | On the clock: due at every hour, at its hour, or at its hour of its weekday counted from Monday, unless fired in that hour or on that day |

## Left out

- The web shell, FastAPI routes, start-up wiring, logging, tracing and metrics.
- NATS, Postgres and SQLite engines, OpenBao, Google, boto and dateutil: each is a contract as described above.
- A provider whose lapsed cursor becomes valid again: the contract says a lapsed cursor stays lapsed, without which a crash in the middle of a resync could hide a removal.
- SpineLog.ReachesIff: takes event ids without a colon, since with one an update's key could be that of another event, and a log that forgets nothing.
- SHA-256 and JSON serialisation: the change hash is an uninterpreted function of the event's fields.
- Time zones and daylight saving: instants are UTC integers, and schedules use one fixed offset.
- Recurrence.SplitPartitions: needs the last occurrence before the split to fall in the years 1000 to 9999, which UNTIL's text prints on four digits, and takes monthly, yearly and BY-part rules as any strictly increasing pattern that restarts consistently.
- RRULE part names in lower or mixed case, which dateutil accepts and the dictionary here does not read; UNTIL in forms other than a date or a UTC date-time.
- Timestamps.StampRoundTrip: covers the years printed on four digits; strptime's leniency about unpadded text is not modelled.
- EventStore.SplitKeepsOverridesAnchored: is the edit that keeps the rule and starts at the split; FollowingEdit.MovedSplitKeepsOverridesIff covers any other start.
- An edit that brings a rule of its own, for which no override need be anchored.
- FollowingEdit.MovedSplitKeepsOverridesIff: is about rules of a fixed period; monthly, yearly and BY-part rules have no step to measure a move by.
- Attendees, titles and the other columns a split only carries along.
- Event retention (a pruned key can be stored again), stream limits that discard old messages, and a feed whose queue fills.
- What listeners do, and exceptions they raise: a call is only counted.
- FileIndex browsing and search; the case-insensitive LIKE of SQLite; a scan with an empty prefix covers the whole tenant, mounts included.
- Symbolic links and the local file store; paging of bucket listings; failures of the object store in the middle of a move.
- FileScanProofs.RescanRepeatsVerdict: is for trees that list no path as both file and directory, as are SyncIsDetermined and RescanChangesNothing, which are about any order of the walk; FileScanProofs.RescanOfAnyTree is about the walk's own.
- The surrogate id column and the order of fields within a record; JSON lists and objects as column values; the text of warnings.
- PortableColumns.ValueRoundTrip: takes scalar defaults on boolean and plain columns only, as both travelling tables have.
- Blob transfer with its digest check, and schema verdicts.
- NdJson.IterLines: takes UTF-8 decoding as a function of one line's bytes.
- Scheduler.StartingSoonCovered: is about an event listed alike at every tick; one edited between ticks is another event here, under the same marker.
- Reminders.EveryStartIsAnnounced: takes providers without a colon in their names, as all here are, since the marker puts one between provider and id.
- Token renewal in the background; only the client cache under its lock is modelled.
- Maintenance run history, whose record a cancellation during the write can hand over twice, and the completion event.
