# Proxy pool: a verified model

The program keeps a pool of upstream proxies. Scraped declarations go into a
candidate catalog, candidates are checked under leases, nodes that answer are
promoted into a routing pool, and both are cached on disk. Its state lives in
sorted flat arrays that are merged, reconciled and compacted in place, and in
transactions that work without the lock and publish only if a revision or a
generation did not move. This project models those parts and proves what they
promise. `dafny verify dfyconfig.toml` checks it.

## The parts

* **Routing**: `Proxies`, `Selection`, `Pool`, `OptimisticPick`, `ProxyPool`
  (module `LivePool`). `Pool` gives every mutator as a function on the pool
  state and `Step` as their union; `ProxyPool` is the class whose methods
  compute them. What other goroutines do while a lock is released is a
  parameter `env`, an arbitrary sequence of operations, so results hold for
  every interleaving. `SelectionMeaning` and `StickyPicks` say which node a
  caller gets.
* **Persistence and health**: `Persistence` adds the cache file, snapshots in
  flight and writes that fail before or after becoming visible; `CursorMoves`
  says when group cursors survive a publication; `Health` is about all runs
  from the empty pool. `Transactions` and `HealthOutcomes` say what one
  transaction and one result do, node by node and field by field.
* **Rings**: `Circular` does the modular scan once, on ranks instead of
  indices; `Rotation`, `Leases` and `Sampler` use it, and `RotationMeaning`
  says which nodes and records a turn takes.
* **Catalog**: `CatalogModel` has the interned representation and its meaning,
  a list of entries with sources and credentials. `CatalogMerge` and
  `CatalogReconcile` define refresh and reconciliation on entries and prove
  what they mean per key. `CatalogTables`, `CatalogParts`, `CatalogBuilder`,
  `CatalogRefresh` and `CatalogBegin` are the imperative form and its
  refinement proofs. `CatalogViews`, `CatalogSteps` and `CatalogRuns` are the
  operations on the published catalog and its runs, `CatalogDisk` and
  `CatalogCommits` relate it to its file, and `CatalogWitnesses` has the runs
  that break what one would expect; `CatalogOutcomes` and `CatalogVerdicts` say
  what each operation makes of each key. `Leases` is the lease table and the
  runs of its calls.
* **Cache file**: `Wire` has fields, rows and tables and the string budget,
  `CacheFormat` the record layout, `CacheCodec` the file and its round trip,
  `CacheLayout` the bytes themselves, `CacheMigration` the legacy migration,
  `CacheStream` the encoder and decoder objects.
* **Lists**: `Sorting`, `Lexicographic`, `Credentials` and `Paging`, and the
  batch algorithms `SamplerPhase`, `SamplerSelect`, `Dedupe`,
  `CredentialRetry`.

Each imperative method is proved equal to a function of its inputs or of the
old state, and the properties are lemmas about that function. Those that say
what a function means for its caller do not name the function or its parts.
Statements of the form `hide X;` only keep the solver from looking into
definitions a proof does not need.

## Where the code and the obvious statement differ

* Publishing a delete or recheck plan puts older group cursors back
  (`PublicationDropsCursorMoves`). They survive an operation in between iff it
  does not change what the publication leaves of its group's cursor
  (`CursorsSurviveStep`, `CursorsSurviveRun`).
* The comment on `RemoveKeys` (pool.go:1500) says each key is reported exactly
  once; a missing key that is asked for twice is reported twice
  (`ReportedOnce`).
* The validator of the cache file accepts a resource recorded as a failure.
  From such a snapshot `begin` can publish one the validator rejects
  (`ResourceFailure`). `begin` keeps the stronger invariant that
  failures are no resources, which it and the other operations establish
  themselves (`ReconcileOk`, `RunKeeps`).
* Source keys of a sorted list of names leave the strict order iff a labelled
  name stands beside an unlabelled one and the legacy key falls on the other
  side (`SourceOrderExact`, `UnlabelledBreaksOrder`). The program's two calls
  of `begin` are in order: main.go:812 passes names it has labels for, and
  main.go:995 declarations of one name (`UniformInOrder`).
* A declaration without a user name that a partial refresh merges with a
  retained one that has a user name gives up its own blank credential
  (`SeenAgainCredentials`).
* A time that equals the Unix epoch is written like a time that was never set
  (`EpochExact`).
* A declaration that is not merged and names a source outside its own list
  loses that source (`SettledSources`, `SingleMayLoseItsSource`).
* Budgets of credential attempts that end early are passed on to later ones, so
  together they can exceed the timeout although the run never does
  (`AddsUpExactlyWhen`, `FairShares`).
* A commit that lands between a removal's write and its publication is skipped
  by the stale-image guard although it is reported committed. The removal then
  loses its guard and restores the live image; if that restoration fails, the
  commit is not on disk (`SkippedCommit`). A commit whose failed write became
  visible leaves an image on disk that was never published (`VisibleFailure`).
  The contracts of `CommitLeaseOutcomes`, `RestoreLive` and `RemoveKeys` say
  exactly when the file is the live catalog.
* `complete` does not take the publication lock, so it may fall between a
  commit's validation and its swap. The commit then restores the live image,
  and `restoreLiveSnapshot` asks for the read side of the publication lock
  (candidatecache.go:165) that the commit holds for writing
  (candidate_catalog.go:624): it never returns, unless the restoring write
  fails (`CompletionBlocksCommit`, result `Blocked`). `CommitLeaseOutcomes`
  says exactly when this happens.
* The reader of an unknown status or failure-kind byte stops in the model at
  that byte; in the code the validator rejects it right after the read.

## Model

| member | source | states |
|---|---|---|
| `Selection.SelectProxyLocked` | `pool.go:2230-2299` | the allocation-free double scan returns a selection of the filtered list in its sense: best value, pointed node, n-th or random eligible node, available nodes first, and sticky's pin flag exactly when the pinned node is missing; nothing iff the list is empty |
| `Selection.SelectionUnique` | `pool.go:2230-2299` | two selections of one pool view name the same node, so the list meaning fixes the scan's answer |
| `Selection.BestBy` | `pool.go:2305-2319` | the list walk returns the first best element, where a zero metric counts as unknown and any known value beats it |
| `Selection.EffectiveCurrentFromSnapshot` | `status_views.go:189-229` | the list search returns the current node in the list's sense, for every strategy |
| `Selection.CaptureCompact` | `status_snapshot.go:129-204` | one pass with two running selections per group gives, for every group, the count and current node of the resolved and filtered list, for ANY its size, current node and pin flag, and the number of available nodes of the three forwarding protocols |
| `Selection.ObserveAll` | `status_snapshot.go:158-175` | one node shown to every group: each running pair tracks the prefix extended by it, the score computed once and only if needed |
| `Selection.ObserveGroupTracks` | `status_snapshot.go:32-110` | one step of a group's two accumulators keeps both in agreement with their lists |
| `Selection.PickAgreesWithDashboard` | `status_views.go:157-229` | for sticky, latency, speed and score the displayed node is the node an unexcluded pick returns |
| `Selection.ThreeSelectionsAgree` | `status_snapshot.go:32-110` | the streaming row, the list search and an unexcluded pick name the same node; the first two for every strategy |
| `SelectionMeaning.PickMeans` | `pool.go:2230-2299` | in terms of the nodes alone: a pick returns a node of the group that is not retired, invalidated, excluded or unavailable beside an available one, and none iff there is none; for latency and country groups no such node is faster, for speed and score groups none better, measured before unmeasured; the sticky node as long as it is such a node, and the pin kept exactly while it is not |
| `SelectionMeaning.AnyMayBeDrawn` | `pool.go:2248-2273` | a random group can draw every node that competes for the connection |
| `SelectionMeaning.CurrentMeans` | `status_views.go:189-229` | the same of the node shown as current, and the node last picked for a group that changes with every connection |
| `SelectionMeaning.ScoreOrders` | `pool.go:565-590` | of two nodes that differ in one measurement, the faster answer, the higher speed up to the cap, or the larger share of successes has the higher score |
| `SelectionMeaning.ForwardingAre` | `status_snapshot.go:129-204` | the nodes counted as available are the available ones of the three forwarding protocols that nothing rules out |
| `StickyPicks.StickyStays` | `pool.go:2087-2120` | after a pick that kept no pin the next pick of a sticky group returns the same node while it may serve |
| `StickyPicks.SwitchHolds` | `pool.go:2343-2368` | after a manual switch to a node of the group, picks return it and keep the pin |
| `StickyPicks.PinOutlivesAbsence` | `pool.go:2087-2120` | while a pinned node may not serve, picks go elsewhere without moving the pin |
| `StickyPicks.AutomaticMoves` | `pool.go:2370-2402` | set back to automatic, a pick away from a missing node moves the group to the node picked |
| `Pool.StepSorted` | `pool.go:1217-1371` | every pool mutator keeps the address order of the nodes, and with it unique keys |
| `OptimisticPick.StepGuards` | `pool.go:672-687` | no mutator changes what routing sees without moving the routing revision, or scores without moving one of the two revisions |
| `OptimisticPick.SelectionTransfers` | `pool.go:2082-2107` | a choice made in the scanned state is a choice in the commit-time state whenever the commit guard holds, whatever ran in between |
| `OptimisticPick.RecheckIsRedundant` | `pool.go:2164-2177` | the defensive re-check of a commit is true of every selection, so under the guard it never fails |
| `LivePool.ProxyPool.PickAttempt` | `pool.go:2068-2123` | one optimistic attempt either commits one locked selection of the commit-time state, finds no node, or leaves only the others' effects |
| `LivePool.ProxyPool.Pick` | `pool.go:2055-2162` | for every interleaving of mutators between its scans and commits the call is one locked selection in the state of some moment of the call, followed by the cursor update |
| `LivePool.ProxyPool.ObserveHealthOutcome` | `pool.go:514-555` | the method's new state is the specified observation; it reports success exactly when generation, node and terminal-failure guards allow it |
| `LivePool.ProxyPool.Invalidate` | `pool.go:751-782` | a new health generation, every node invalidated and every streak reset, in place; returns how many were available |
| `LivePool.ProxyPool.ApplySources` | `pool.go:954-1021` | retiring nodes of disabled sources is the specified operation on the whole state, and the result counts the nodes without an enabled source that were not yet retired or still available |
| `Persistence.PoolCache.SaveWithHealthState` | `poolcache.go:219-243` | a save changes the file only under a newer generation, and may fail before or after becoming visible |
| `LivePool.ProxyPool.BuildDeletePlanLocked` | `pool.go:1564-1611` | the loop builds exactly the nodes, statistics and cursors that remain |
| `LivePool.ProxyPool.BuildFullHealthCommitPlanLocked` | `pool.go:383-500` | the loop over detached copies builds the specified plan of a full cycle |
| `Persistence.StepCounted` | `pool.go:1027-1047` | an operation that changes nodes or statistics takes a new cache generation |
| `Persistence.ReservedStaysQuiet` | `pool.go:1531-1552` | while the reserved generation is the newest, memory has not moved and nobody can overwrite what is written under it, over every run of others |
| `Persistence.NoStaleOverwrite` | `poolcache.go:219-243` | once every snapshot in flight is older than the file, the file only ever changes to a picture of the pool taken afterwards |
| `Persistence.Store.PersistThenPublish` | `pool.go:1533-1552` | write and publish under a reserved generation: published implies the step took effect on the live pool and on disk, otherwise memory shows only the others' steps |
| `Persistence.Store.Transact` | `pool.go:305-379` | RemoveKeys, ClearUnavailable and the full-recheck commit: a reported success took effect in memory and, with a cache, durably on disk; a reported failure left no trace of its own in nodes and statistics; no change means there was nothing to do at a moment of the call; the keys reported missing are those missing then |
| `Transactions.ClearMeans` | `pool.go:1423-1473` | a reported ClearUnavailable leaves exactly the available nodes of the moment it took effect, with their statistics, and reports exactly the keys of the others |
| `Transactions.ClearIdle` | `pool.go:1423-1473` | it reports nothing to do iff every node is available |
| `Transactions.RemoveMeans` | `pool.go:1497-1562` | a reported removal leaves exactly the nodes not asked for, with their statistics; it reports the keys asked for that were there, and those that were not as missing |
| `Transactions.RemoveIdle` | `pool.go:1497-1562` | it has nothing to do iff no node was asked for |
| `Transactions.RecheckMeans` | `pool.go:383-500` | a reported full recheck makes of every node what its first observation says, leaves the unobserved ones, and removes and reports those unreachable for the third time |
| `Transactions.RecheckIdle` | `pool.go:383-500` | it has nothing to do iff it observed no node of the pool |
| `Transactions.DurableMeans` | `pool.go:1533-1552` | with a cache, the file of a reported transaction holds the nodes and statistics left in memory |
| `Transactions.CursorsPointAtNodes` | `pool.go:1475-1494` | a published plan's group cursors point only at nodes that are left, keep what they point at of them, and a cursor that points at none is forgotten |
| `Persistence.EveryKeyReported` | `pool.go:1497-1562` | every key asked for is reported removed or missing, and none is both |
| `Persistence.ReportedOnce` | `pool.go:1497-1562` | the report names every key exactly once, as its comment says, iff no missing key was asked for twice |
| `Persistence.DurableStays` | `pool.go:1423-1473` | after a successful transaction the file changes only to later pictures of the live pool |
| `CursorMoves.CursorsSurviveStep` | `pool.go:1475-1494` | one operation between plan and publication: the published cursors are those of a plan made afterwards iff the operation does not change the cleaned cursor of its group, which can be told before publication |
| `CursorMoves.CursorsSurviveRun` | `pool.go:1613-1620` | over every run that takes no cache generation: the same iff for each group's cleaned cursor, and it holds whenever no operation of the run touches one |
| `CursorMoves.OnlyWritten` | `pool.go:2331-2402` | while no cache generation is taken, a group's cursor changes only by a pick, a manual choice, a return to automatic or a rotation, and only as that writes it |
| `CursorMoves.RepeatedPickTouchesNothing` | `pool.go:2087-2120` | a pick of the node the group picked last and points at touches nothing unless it counts rounds |
| `CursorMoves.RoundRobinTouches` | `pool.go:2087-2120` | a round-robin pick of a node that stays always touches its group |
| `CursorMoves.PublicationDropsCursorMoves` | `pool.go:1613-1620` | a concrete run in which publishing a plan loses a manual group switch |
| `Health.AvailabilityOnRuns` | `pool.go:703-749` | in every pool reachable by production operations a node is available iff no hard exclusion is set, and a terminal failure is never routable |
| `Health.AvailableWasAccepted` | `pool.go:1217-1363` | every available node was accepted by a result measured under the health generation that is still current |
| `Health.UpExactlyWhen` | `pool.go:703-749` | the converse over every production run: a node is available iff its last event that admits or excludes it admitted it, under the generation that is still current |
| `Health.FailedStaysOut` | `pool.go:514-555` | over every production run a node that failed for good stays out until an allowed manual check, a full recheck or a promotion clears it |
| `Health.CounterCountsTrailingFailures` | `pool.go:383-500` | over every run the full-recheck counter is the number of trailing unreachable full cycles and stays below three |
| `Health.RemovedAtThree` | `pool.go:457-487` | a full cycle removes a node iff it is current, its first observation of the node is unreachable, and that is the third in a row |
| `Health.CycleOfKey` | `pool.go:407-466` | a cycle does to one key exactly what its first observation says; later duplicates change nothing |
| `Health.DuplicateObservationIgnored` | `pool.go:407-466` | a second observation of a key in one cycle changes neither the nodes nor the counters |
| `Health.StaleCycleIgnored` | `pool.go:305-330` | a cycle measured under an older health generation changes nothing |
| `Health.StepEffect` | `pool.go:514-555` | every production step keeps the health invariants of every key and moves its counter as specified |
| `HealthOutcomes.CheckDecides` | `pool.go:514-555` | a check that counts makes a node available iff it was reachable and allowed, its sources are enabled, and it was manual or the node had not failed for good; excluded iff reachable and not allowed; failed for good iff unreachable or still so; latency, streak and success time are the outcome's; no other node changes |
| `HealthOutcomes.CheckIgnored` | `pool.go:514-555` | a check of another generation, of an unknown node, or an automatic success of a node that failed for good changes nothing |
| `HealthOutcomes.RecheckDecides` | `pool.go:407-487` | a full recheck decides on every field of a node by its first observation, and removes it iff that is its third unreachable one |
| `HealthOutcomes.InvalidationResets` | `pool.go:751-782` | a new criterion takes every node out of service, resets streaks and success times, and keeps terminal failures and traffic counts |
| `HealthOutcomes.RefreshRenews` | `pool.go:1217-1363` | a node found alive takes over the new declaration, keeps its speed and, where the declaration is blank, credential and address, and is available iff neither the policy nor a disabled source excludes it |
| `HealthOutcomes.RefreshLeaves` | `pool.go:1217-1363` | a node not found is removed iff its check failed, and otherwise only excluded or retired as filter and sources say |
| `HealthOutcomes.PromotionAdmits` | `pool.go:1836-1883` | a promotion puts the node in service with the measured speed, whatever it was before, and touches no other |
| `HealthOutcomes.TrafficCounts` | `pool.go:153-180` | a traffic result counts as success or failure and decides nothing about availability |
| `HealthOutcomes.FlagWritten` | `pool.go:699-721` | the soft flag puts a node in service unless a hard exclusion stands, and clears no terminal failure |
| `HealthOutcomes.PolicyWritten` | `pool.go:723-749` | a policy verdict of the current generation takes an excluded node out and leaves an admitted one as available as it was, unless it failed for good |
| `HealthOutcomes.SourcesRetire` | `pool.go:954-1021` | exactly the nodes with a disabled source are retired and taken out of service, and nothing else changes |
| `Circular.MetDistinct` | `pool.go:2404-2497` | any P consecutive meetings of a ring scan with P eligible slots differ |
| `Circular.WindowStep` | `pool.go:2459-2465` | the slot a modular scan looks at next is the next meeting iff it is eligible |
| `LivePool.ProxyPool.RotateSticky` | `pool.go:2404-2497` | a rotation moves to the next landing node behind the sticky one and writes just that cursor, or does nothing when pinned, empty or without a landing node |
| `Rotation.RotationVisitsEachOnce` | `pool.go:2404-2497` | with m landing nodes any m consecutive forced rotations visit each exactly once, indices always in range |
| `RotationMeaning.RotationMeans` | `pool.go:2404-2497` | in terms of the nodes: a rotation lands on the next node behind the sticky one that nothing rules out, for the default group an available one if there is any; there is one iff any node may be landed on |
| `Rotation.RoundRobinVisitsEachOnce` | `pool.go:2247-2273` | n consecutive round-robin picks over n eligible nodes return each exactly once |
| `LivePool.ProxyPool.RecheckCandidates` | `pool.go:1715-1745` | a batch is the first min(limit, due) due nodes behind the cursor, which moves so that the next batch continues there |
| `Rotation.BatchesCoverEverySlot` | `pool.go:1715-1745` | with P eligible slots any ceil(P / limit) consecutive batches contain every one of them |
| `Rotation.BatchDistinct` | `pool.go:1715-1745` | no batch takes a slot twice |
| `RotationMeaning.RecheckMeans` | `pool.go:1715-1745` | a batch takes only nodes that are not retired, did not fail for good and were not found well within the cooldown, the next from the start first, none twice, and all of them if they are fewer than the limit |
| `Leases.LeaseTable.LeasePending` | `candidate_catalog.go:343-381` | a batch leases the first min(limit, leasable) leasable records behind the cursor, each under its own token newer than every one issued before, and leaves earlier leases alone |
| `Leases.LeaseTable.LeasePendingKeys` | `candidate_catalog.go:383-421` | exactly the named records that are pending, connectable and not leased get a lease, under fresh tokens |
| `Leases.LeaseTable.LeaseFailed` | `candidate_catalog.go:519-574` | all named failures are leased under fresh tokens, or none is and exactly the missing and the leased ones are reported |
| `Leases.Undo` | `candidate_catalog.go:576-588` | releasing exactly the leases just issued gives back the old table |
| `Leases.LeaseTable.ReleaseLeases` | `candidate_catalog.go:576-588` | a release removes exactly the entries whose current token it holds |
| `Leases.NeverCurrentAgain` | `candidate_catalog.go:330-341` | over every run of lease and release calls a token that was issued and is not current never becomes current again |
| `Leases.ReleasedForGood` | `candidate_catalog.go:576-588` | a released lease is current at no later moment of any run, so its second release changes nothing |
| `Leases.CurrentUntilReleased` | `candidate_catalog.go:576-588` | a lease stays current over every run until it is itself released |
| `Leases.LiveLeasesExclusive` | `candidate_catalog.go:330-341` | over every run from empty tables two current leases of one kind have the same key iff they have the same token |
| `Leases.OneLeaseAKey` | `candidate_catalog.go:343-381` | no call leases a key whose lease is current, and a current lease survives it |
| `Leases.LeaseTable.Sweep` | `candidate_catalog.go:343-381` | calls of LeasePending, each batch released before the next, leave the table as it was, and when they ask for enough in all, every leasable record is offered |
| `Leases.LeaseSweepCoversCatalog` | `candidate_catalog.go:343-381` | the ring argument behind the sweep: a chain of batches long enough contains every leasable index |
| `Leases.LeaseCursorLinks` | `candidate_catalog.go:343-381` | one call's cursor update is one link of such a chain of calls |
| `RotationMeaning.LeaseMeans` | `candidate_catalog.go:343-381` | a batch leases only records that are pending, connectable and not leased, and all of them if they are fewer than asked for |
| `CatalogMerge.MergeIsMap` | `candidate_catalog.go:1785-1857` | looking a key up in the merged list gives what the key-by-key definition of a partial refresh gives, for every key |
| `CatalogMerge.SurvivingAttribution` | `candidate_catalog.go:1785-1857` | a key survives iff declared now or owned by a failed source; its sources are the current ones together with the previous ones that failed |
| `CatalogMerge.SeenAgainFields` | `candidate_catalog.go:1785-1857` | field by field, of a key declared before and now: status and check time of the previous declaration, seen time of the new one, place of the new one unless blank and the previous one is retained |
| `CatalogMerge.SeenAgainCredentials` | `candidate_catalog.go:1697-1716` | retained, its credential, its alternates and the new alternates are all among the merged ones while at most sixteen others are distinct; none is foreign, none is the previous declaration's when that is not retained; the credential is the new one unless that has no user name and the retained one has |
| `CatalogMerge.OnlyOneSide` | `candidate_catalog.go:1809-1847` | a key declared only now is its declaration; one declared only before that survives keeps everything but its sources |
| `CatalogMerge.MergeKeepsCredentials` | `candidate_catalog.go:1552-1571` | with at most sixteen distinct others, merging alternates loses no credential |
| `CatalogBuilder.Builder.AppendFilteredRecord` | `candidate_catalog.go:1666-1695` | the interned copy denotes the entry cut down to the failed sources, or nothing is appended when none is left |
| `CatalogBuilder.Builder.MergeSources` | `candidate_catalog.go:1718-1757` | the two-index loop writes exactly the sorted union of retained and current source keys |
| `CatalogBuilder.Builder.AppendSeenAgain` | `candidate_catalog.go:1809-1847` | a key seen again denotes the merged entry: new declaration, previous outcome, united sources, credentials of both |
| `CatalogBuilder.Builder.FinalizeCredentialAlternates` | `candidate_catalog.go:1582-1599` | after binding, every record's range of the one flat table still denotes its own alternates |
| `CatalogBuilder.Builder.Finish` | `candidate_catalog.go:1582-1599` | the finished flat snapshot means what the builder was given, alternates cut to sixteen |
| `CatalogBuilder.Builder.AppendRediscovered` | `candidate_catalog.go:1167-1205` | the in-place form of a rediscovered failure denotes the specified entry: joined sources, both declarations' credentials, kept conclusion |
| `CatalogBuilder.Builder.SortSegment` | `candidate_catalog.go:1196-1200` | sorting the segment of the shared reference array gives the sorted union and touches nothing before it |
| `CatalogBuilder.Builder.SortFailures` | `candidate_catalog.go:1224-1239` | the permutation sort moves failures with their alternates: same failures, strictly sorted |
| `CatalogBuilder.Builder.SortRecords` | `candidate_catalog.go:1371-1400` | the parallel sort of records and alternates is the stable sort of their meanings |
| `CatalogRefresh.MergeCandidateSnapshots` | `candidate_catalog.go:1785-1857` | the interned merge of two snapshots means exactly the merged entries |
| `CatalogRefresh.CandidateMergedSize` | `candidate_catalog.go:1859-1884` | the counting pass returns the length of the merge it does not build |
| `CatalogRefresh.CarryCandidateHistory` | `candidate_catalog.go:1125-1148` | the in-place walk copies outcomes onto exactly the records of the same key |
| `CatalogReconcile.CarryPerKey` | `candidate_catalog.go:1125-1148` | for every key, the carried entry is the new declaration, sources and credentials included, with status and check time of the previous entry of the key |
| `CatalogReconcile.CarryKeeps` | `candidate_catalog.go:1125-1148` | carrying keeps order, the set of keys and the validator's entry clauses |
| `CatalogRefresh.ReconcileCandidateFailures` | `candidate_catalog.go:1150-1245` | the interned reconciliation means exactly the reconciled collections |
| `CatalogReconcile.ReconcileKeys` | `candidate_catalog.go:1150-1245` | no failed key is lost or added, pending is the inventory minus the failed keys, both orders are strict |
| `CatalogReconcile.RediscoveredIs` | `candidate_catalog.go:1167-1205` | a rediscovered failure keeps its conclusion, owns the sorted union of both source lists and at most sixteen distinct alternates |
| `CatalogReconcile.ReconciledByKey` | `candidate_catalog.go:1150-1245` | for every key: a failure keeps verdict, error and check time, and takes over a new declaration of its key with place, seen time, united sources and the credentials of both while they are at most seventeen; a failure not declared again stays as it is, and every other key is pending as declared |
| `CatalogReconcile.FailedStatusExact` | `candidatecache.go:998-1000` | all reconciled failures are deferred iff every rediscovered declaration is |
| `CatalogReconcile.ValidatorTooWeakForReconcile` | `candidatecache.go:863-1010` | entries the validator accepts whose reconciled failure it rejects |
| `CatalogWitnesses.ResourceFailure` | `candidate_catalog.go:1071-1123` | a whole snapshot the validator accepts, run through begin, gives one it rejects |
| `CatalogReconcile.ReconcileOk` | `candidatecache.go:863-1010` | with failures that are no resources, reconciliation meets every entry clause of the validator again |
| `CatalogTables.SourceCountBound` | `candidatecache.go:957-969` | strictly sorted sources are no more than the dictionary holds, as the validator demands |
| `CatalogBegin.BuildCandidateSnapshot` | `candidate_catalog.go:1247-1403` | the built snapshot means the declarations sorted by key, alternates cut to sixteen, in a well-formed representation |
| `CatalogBegin.SourceOrderExact` | `candidate_catalog.go:1336-1364` | the source keys of a declaration come out in strict order iff no labelled name stands beside an unlabelled one whose legacy key falls on the other side |
| `CatalogBegin.UniformInOrder` | `candidate_catalog.go:1336-1364` | all names labelled, or none, is always in order |
| `CatalogBegin.FreshExactlyWhen` | `candidate_catalog.go:1247-1403` | without a previous snapshot, the entries of a deduplicated scrape meet the validator iff every declaration is in order |
| `CatalogBegin.FreshDeclares` | `candidate_catalog.go:1247-1403` | field by field, the first scrape files every declaration under its key: place, credential, its first sixteen alternates, its sources under their labelled or legacy keys, deferred unless it is a resource, and never checked |
| `CatalogBegin.UnlabelledBreaksOrder` | `candidate_catalog.go:1336-1364` | an input of begin alone, with sorted names and one label, whose source keys are not in order |
| `CatalogBegin.Begin` | `candidate_catalog.go:1071-1123` | from a snapshot in order and an inventory whose names come out in order, labelled or not, the new snapshot meets every structural clause of the validator and means merge or carry followed by reconcile |
| `CatalogVerdicts.ScrapeMeans` | `candidate_catalog.go:1071-1123` | after a partial scrape a failure is still a failure with its verdict; any other key is pending iff it was declared, or a source that failed to load still stands for it |
| `CatalogBegin.InvariantFrom` | `candidatecache.go:863-1010` | entries in order with disjoint keys make the representation meet the validator's structural clauses |
| `CatalogViews.RunKeeps` | `candidate_catalog.go:1071-1123` | over every run of begin, complete, commit and remove, pending and failed stay disjoint, strictly sorted and valid |
| `CatalogViews.FailedKeysLeaveOnlyRevived` | `candidate_catalog.go:694-711` | a failed key leaves a run only through a commit holding a failed lease for it with outcome alive |
| `CatalogViews.CommitConserves` | `candidate_catalog.go:668-712` | a commit conserves the keys of both collections together, except those it revives |
| `CatalogViews.CompleteKeeps` | `candidate_catalog.go:1888-1947` | complete moves failed checks between the collections and loses no key |
| `CatalogViews.MoveKeeps` | `candidate_catalog.go:673-693` | no key is lost by a candidate's verdict, and the collections stay disjoint and in order |
| `CatalogOutcomes.OneVerdict` | `candidate_catalog.go:664-712` | what one verdict does to any key: a pending candidate found unreachable or filtered becomes a failure of that kind, with time and shortened error and every other field as it was; a failure that answered leaves; one checked in vain keeps its place with the new verdict; every other key's entries are unchanged |
| `CatalogOutcomes.AnsweredStays` | `candidate_catalog.go:668-672` | a candidate that answered, or was not checked, leaves the catalog equal |
| `CatalogOutcomes.CommitByKey` | `candidate_catalog.go:664-712` | a commit of one verdict a key does to every key what its own verdict does, and nothing to the others |
| `CatalogOutcomes.FailuresAfter` | `candidate_catalog.go:664-712` | a key enters the failures iff it was pending and its candidate verdict is unreachable or filtered, and leaves them iff its failed verdict is alive |
| `CatalogVerdicts.CommitMeans` | `candidate_catalog.go:619-740` | the same in terms of the leases and outcomes the caller hands in |
| `CatalogVerdicts.CurrentMeans` | `candidate_catalog.go:628-662` | a lease passes iff its token is the one that is out on its key and the declaration is the one it was given for |
| `CatalogVerdicts.FingerprintExact` | `candidate_catalog.go:314-328` | equal fingerprints mean the same node, credential and alternates in the same order, for texts without the separator |
| `CatalogVerdicts.FinishMeans` | `candidate_catalog.go:1888-1941` | a finished cycle makes a checked pending node that is not alive a failure, of the kind the policy filter says, and changes no other key |
| `CatalogVerdicts.RemovalMeans` | `candidate_catalog.go:773-903` | a removal takes exactly the keys asked for out of the pending ones and leaves the failures |
| `CatalogViews.RetryKeeps` | `candidate_catalog.go:694-711` | a failure checked again leaves iff it answered |
| `CatalogViews.RemoveKeeps` | `candidate_catalog.go:773-903` | a removal takes pending keys only and keeps every failed one |
| `CatalogSteps.FindRecord` | `candidate_catalog.go:1949-1962` | the binary search finds the record of the key, or reports that there is none |
| `CatalogSteps.FindFailure` | `candidate_catalog.go:1964-1977` | the same for failures |
| `CatalogSteps.MoveFailures` | `candidate_catalog.go:1893-1941` | complete's compaction and sort denote the specified step |
| `CatalogSteps.CommitVerdicts` | `candidate_catalog.go:664-712` | the loop over a private copy denotes all verdicts applied in order, and reports no change only if there is none |
| `CatalogSteps.RebuildWithout` | `candidate_catalog.go:806-820` | the rebuilt snapshot is the catalog without the wanted pending keys, and the found keys are exactly the wanted pending ones |
| `CatalogRuns.Catalog.Persist` | `candidatecache.go:121-144` | a stale image is skipped, a newer one written; generation and revision of the file move only on success |
| `CatalogRuns.Catalog.Begin` | `candidate_catalog.go:1071-1123` | publishing a scrape is one step of the abstract catalog, under the next generation, with its phase, times and source errors and the invariant |
| `CatalogRuns.Catalog.Complete` | `candidate_catalog.go:1888-1941` | completing the current generation is one step on memory, with phase, time and revision; any other generation changes nothing; the write is left for later and will write what the snapshot holds then |
| `CatalogRuns.Catalog.WriteFinished` | `candidatecache.go:82-119` | the late write of a completed snapshot, whenever it comes, never puts an older image over a newer file |
| `CatalogRuns.Catalog.CommitLeaseOutcomes` | `candidate_catalog.go:619-740` | all tokens and fingerprints are current and every verdict is applied, or nothing is, with completions between the steps; a changed and written commit is published iff none of them completes the live generation; published, it is on disk iff the file was older or held the same image already; failed, its proposal is on disk iff its write failed visibly; the leases are released iff the call returns |
| `CatalogRuns.Catalog.WriteAndSwap` | `candidate_catalog.go:715-740` | write, look and swap: published exactly when no completion of the live generation came in between; otherwise the call returns exactly when the restoration's write fails |
| `CatalogCommits.CommitLanded` | `candidate_catalog.go:728-733` | an unmoved snapshot makes the written proposal the live one, its metadata unchanged but for the revision, and exactly then the file holds it as said |
| `CatalogCommits.CommitConflicts` | `candidate_catalog.go:733-738` | after a conflict the restored copy is the live image iff no further completion came before its write, and others only see a later snapshot |
| `CatalogWitnesses.CompletionBlocksCommit` | `candidatecache.go:163-170` | a run in which a completion between validation and publication makes the commit wait for the lock it holds, its lease still out |
| `CatalogWitnesses.VisibleFailure` | `candidate_catalog.go:728-730` | a run in which a commit reported as failed leaves its proposal on disk |
| `CatalogWitnesses.SkippedCommit` | `candidatecache.go:135-137` | a run in which a commit reported as successful is not on disk, because the file was ahead by an unpublished removal whose restoration failed |
| `CatalogDisk.ProposalWritten` | `candidatecache.go:121-144` | a proposal written after others ran either is one ahead of an unmoved catalog or leaves the file behind it |
| `CatalogDisk.RestoredExactly` | `candidatecache.go:146-175` | while the restored snapshot is live, it is on disk iff no proposal's write failed visibly since |
| `CatalogDisk.ImageIsFinished` | `candidatecache.go:82-119` | what is written is the snapshot itself, except that an unfinished phase is written as the finished one its source errors call for |
| `CatalogRuns.Catalog.RestoreLive` | `candidatecache.go:146-175` | whatever others do between copy, write and check: on success the live snapshot is on disk iff no commit's write failed visibly behind the last forced write |
| `CatalogRuns.Catalog.WriteAndPublish` | `candidate_catalog.go:851-896` | a removal published after its write is on disk, whatever others did before, during and after the write |
| `CatalogRuns.Catalog.RemoveKeys` | `candidate_catalog.go:773-903` | whatever others do while no lock is held, a reported removal is one step on the live catalog of some moment, reports exactly the keys pending then and is on disk; otherwise only the others' steps show, and the file holds the last restored snapshot while that is live, iff no commit's write failed visibly since |
| `Wire.ReadTextBack` | `candidatecache.go:489-502` | writer and reader of a string agree on length limit and running budget at every step |
| `CacheFormat.RecordOfRow` | `candidatecache.go:429-465` | the fields written for a record read back as that record, up to what an old version does not keep |
| `CacheCodec.DecodeOfEncode` | `candidatecache.go:348-427` | decoding the bytes of a snapshot followed by any tail gives its persisted fields and exactly that tail iff the strings are within budget |
| `CacheCodec.EpochExact` | `candidatecache.go:370-378` | decoding the bytes of a snapshot gives the very fields it had iff no recorded time is the epoch |
| `CacheCodec.EncodeOfDecode` | `candidatecache.go:537-653` | a version 4 file that decodes is, byte for byte, the encoding of the snapshot it gave, which the encoder accepts |
| `CacheLayout.FileIsLayout` | `candidatecache.go:348-427` | byte for byte: magic, version and flags, little-endian numbers in their widths, signed ones in two's complement, texts and lists behind their lengths, in the order of the format |
| `CacheLayout.RecordWritten` | `candidatecache.go:429-465` | a record's bytes, field by field, with the byte of each status |
| `CacheStream.CacheEncoder.String` | `candidatecache.go:489-502` | a string is refused exactly over its limit or over the budget |
| `CacheStream.CacheEncoder.Encode` | `candidatecache.go:348-427` | the streaming encoder succeeds exactly on short snapshots within budget, and then has written their bytes |
| `CacheStream.CacheDecoder.String` | `candidatecache.go:746-760` | the streaming read of a string is the specified one, budget included |
| `CacheStream.CacheDecoder.Decode` | `candidatecache.go:537-653` | the streaming decoder computes exactly the decoding function, migration of old versions included |
| `CacheMigration.MigrateInPlace` | `candidatecache.go:712-730` | the in-place compaction is the stable partition, written over the same array |
| `CacheMigration.HalvesConserveKeys` | `candidatecache.go:712-730` | every key ends up in one half, as often as it was there |
| `CacheMigration.HalvesAre` | `candidatecache.go:712-730` | exactly the records of a failure status move, deferred: checked in vain as unreachable, filtered as rejected by policy |
| `CacheMigration.MigrationKeepsOrder` | `candidatecache.go:712-730` | a strictly sorted legacy inventory becomes two strictly sorted collections sharing its keys out |
| `Paging.BoundedCollector.Add` | `status_util.go:689-711` | after any additions the buffer holds the first k of the sorted additions |
| `Paging.PageWindowExact` | `status_util.go:574-587` | the overflow guard keeps the product iff it is below the largest Go integer |
| `Paging.PagesCoverEverything` | `status_util.go:589-602` | pages 1 to pageCount joined are the full sorted list |
| `Paging.WindowOfCollector` | `status_util.go:604-611` | either direction of the collector yields the same window of the sorted rows |
| `Paging.PageOf` | `status_node_page.go:249-304` | count, then collect from the smaller side: the rows are exactly the page of the sorted filtered list, and at most min(end, total - start) are retained |
| `Paging.NodeOrder` | `status_node_page.go:34-62` | every sort key of the node page is a strict total order on rows of distinct keys |
| `Paging.SortedReads` | `status_node_page.go:34-62` | in the sorted rows nothing slower stands above, unmeasured rows come last; nothing with less speed or score; countries and keys ascend |
| `Paging.BuildNodePage` | `status_node_page.go:125-304` | the node page clamps the page number and shows exactly that slice, its rows matching and in the reader's order |
| `Paging.HandleV1Proxies` | `status_v1_proxy_handlers.go:93-143` | the API page is exact, its rows match and ascend by key, and a page past the end is an error |
| `Sampler.JoinedOrder` | `sampler.go:186-193` | comparing joined cursor texts is comparing address and port, for addresses without the separator |
| `Sampler.StartsBehind` | `sampler.go:217-230` | a cursor at an entry starts the next scan just behind it |
| `Sampler.NextIsPick` | `sampler.go:217-237` | the entry a scan finds is the pick of the ring of unselected entries, so sequences of scans are covered by the rotation theorem |
| `Sampler.CandidateSampler.NextMatching` | `sampler.go:217-237` | the scan returns the next matching entry behind the cursor; a fruitless scan leaves the next start unchanged; other buckets' cursors stay |
| `Sampler.DiscoveryRotates` | `sampler.go:217-237` | m consecutive discovery picks from a bucket of m unseen entries are distinct |
| `SamplerPhase.FairStep` | `sampler.go:156-184` | one more pick keeps every two open buckets' counts in the same round |
| `SamplerPhase.SelectPhase` | `sampler.go:156-184` | a phase fills up to the limit or until nothing of its kind is left, fairly over the buckets |
| `SamplerSelect.BuildBuckets` | `sampler.go:103-137` | buckets in key order, each in cursor order, hold exactly the eligible entries |
| `SamplerSelect.SelectCandidatesWhere` | `sampler.go:98-154` | min(limit, eligible) distinct eligible members; no protocol, address and port twice, a known one only if every unseen one is chosen; of two sources and protocols with unseen entries left, neither gave more than one entry more |
| `SamplerSelect.BucketIsFeed` | `sampler.go:186-215` | two entries share a bucket iff they share source and protocol, a blank source read as unknown |
| `Dedupe.CompactIdents` | `main.go:1294-1322` | the compacted prefix has each identity of the input once, in strict order |
| `Dedupe.MergedIs` | `main.go:1301-1321` | a merge has the sources of both, tidy alternates, no foreign credential, and all of them when there are at most nine |
| `Dedupe.CompactHolds` | `main.go:1294-1322` | any fact that survives other identities and merging holds of every compacted entry, in particular the union of its group's sources and credentials, whatever was declared |
| `Dedupe.SettledSources` | `main.go:1323-1329` | the final loop keeps a declaration's attribution iff its source is missing or listed among its sources |
| `Dedupe.SingleMayLoseItsSource` | `main.go:1323-1329` | a single declaration that loses the source it names |
| `Dedupe.DedupeCandidates` | `main.go:1264-1334` | in place, for every input: one entry per protocol, address and port, in strict order; no foreign source, and all sources of its group iff the group is no single declaration naming a source outside its own list; if the group's declarations are tidy, its credentials, none lost up to nine; the place is known iff one of them knows it; the primary source is the least; of declarations of one source each the first by source and credential gives source, credential and the place it knows; alternates ascend; the tail is cleared |
| `CredentialRetry.OrderIs` | `proxy.go:219-237` | every credential of the node has exactly one place in the order, the primary the first |
| `CredentialRetry.CredentialCandidates` | `proxy.go:219-237` | the loop with its seen set returns the node once for each credential in that order |
| `CredentialRetry.PromoteCredential` | `proxy.go:239-260` | the loop that searches its own list builds the specified alternates |
| `CredentialRetry.PromotionKeepsCredentials` | `proxy.go:239-260` | promotion makes the credential primary and loses none iff there are at most nine |
| `CredentialRetry.DialCandidates` | `dial.go:107-146` | the calls made, their budgets and the result are the ones the specification allows for the world met; a timeout that is not positive is an error before any call |
| `CredentialRetry.DialMeans` | `dial.go:107-146` | the dial connects iff its last attempt came up, with that credential promoted; it goes on only after a rejection, and otherwise returns the last attempt's error or that of the context |
| `CredentialRetry.RanOnce` | `dial.go:107-146` | the world decides the calls and the result |
| `CredentialRetry.TriedOnce` | `dial.go:107-146` | each credential is tried at most once, none is foreign, and success promotes the one tried last |
| `CredentialRetry.FairShares` | `dial.go:107-146` | if attempts stay within their budgets, budgets never shrink, each is at least the first fair share, and time spent plus the next budget never passes the deadline |
| `CredentialRetry.NoneStarved` | `dial.go:92-103` | with a unit of time for each and a live context, only an answer other than a rejection ends the dial before every credential was tried |
| `CredentialRetry.StalledTotal` | `dial.go:107-146` | attempts that use up their budgets are given no more, together, than there was |
| `CredentialRetry.AddsUpExactlyWhen` | `dial.go:107-146` | the budgets of every run within budgets add up to at most the time iff there is one credential or not a unit of time for each |

## Left out

- The aliasing of the caller's slice by `resolveGroup`, which filters into it: every group is resolved on a fresh list.
- Selection.CaptureCompact: for groups that resolve to themselves; the rows' labels are not part of it, nor is the node page's own rule for the active row, which ignores the sticky key when nothing is available.
- Persistence.Store.Transact: the guarantee is about nodes and statistics; what happens to group cursors is in `CursorMoves`. Several caches attached in turn are modelled as one.
- CatalogBegin.Begin: size caps, the snapshot phase and the syntax of addresses are no clauses of the invariant; a previous snapshot that records a resource as a failure, or has the empty value twice in a dictionary, is outside its precondition; display names and source facets are not part of a record's meaning.
- CatalogRuns.Catalog.CommitLeaseOutcomes: completions fall between its steps; a removal's write that falls there is taken to fall right before or after the commit, which leaves the same file. A catalog without a cache file is not modelled.
- CatalogRuns.Catalog.RemoveKeys: when another goroutine's commit is stuck, the removal would wait for it; the model lets the removal go on.
- CatalogRuns.Catalog.Begin: the retry when the live snapshot was replaced while the new one was built is not modelled; a begin is one step, so neither is a completion of the previous generation that falls after `begin` has read it, which the new snapshot does not show.
- CatalogRuns.Catalog.Complete: `reconcileFullRefreshCatalog`, which rebuilds from pending records only and drops the failures, is not a step of the runs.
- CatalogSteps.MoveFailures: the compaction is modelled on sequences, so the reuse of the record array under it is not captured.
- Leases.LeaseTable.LeasePending: owned and known nodes enter as a flag of each record; the promotion leases use the same table and are not modelled.
- SamplerSelect.SelectCandidatesWhere: asks for distinct keys and protocols without the separator, as deduplication and normalisation leave them.
- SamplerSelect.BuildBuckets: the same.
- CacheCodec.DecodeOfEncode: gzip, temporary files and the final validation of address syntax are outside; strings are sequences of bytes.
- CacheStream.CacheEncoder.Encode: the fields of a record are walked as a list in the code's order instead of one call each.
- CacheStream.CacheDecoder.Decode: an unknown status or failure-kind byte is an error at that byte, where the code reads on and the validator rejects the result.
- Dedupe.DedupeCandidates: of a group with an untidy declaration, such as one listing a credential twice, nothing is said about credentials; which declaration gives credential and place is said of groups whose declarations list no further sources, as scrapes make them; the library sort is any sort by the code's order.
- CredentialRetry.DialCandidates: an attempt is its outcome and the time it takes; contexts are a flag and a deadline.
- Trimming and lower-casing of keys, countries and addresses, and legacy source keys derived from trimmed names: keys are taken as normalised.
- Informational proxyip nodes of the pool, facets, totals, views and their JSON; network I/O, HTTP handlers, authentication, routing rules, source parsers.
- Scores are reals instead of floats, durations and times integers, and counters do not wrap around.
- `ResetHealthOutcomes`, the pool's load path and the cached-node filters of the pool cache, which only set flags.
