# Verification of the NetLanvas polling engine

NetLanvas discovers the devices of a network, learns how to talk SNMP to them, follows who is present,
and keeps an inventory. Its state lives in module-level dicts and SQLite tables that many passes rewrite
every tick, some of them as asyncio tasks that interleave at every `await`. This project models those
passes and proves what they keep.

How the parts are modelled:

* **Tasks** are small-step machines (`V3Upgrade`, `CredentialSearch`): a step is the code between two
  awaits of one task, a run is any sequence of steps, and what the network or the database answers is a
  parameter of the step. asyncio's lock is the fair one: a released lock with waiters goes to the first.
* **Tables** are maps by primary key, held in the fields of a class; the passes are methods on it, each
  proved against a function or relation of the old and the new table. Iteration over a set or dict is
  iteration in any order.
* **Transactions** (`AlertStore.Connection`): any statement may raise; only a sound table may be committed,
  so the invariants hold at every commit point, those inside `create_alert` and of the daily pruning included.
  Rows that pruning deletes stay in the model as history, marked as not stored; no query sees them.
* **Time** is a tick or a clock value handed to the step that reads it.
* **Bytes and text**: octets are numbers below 256, strings are character sequences. Unicode tables and
  decoders are function parameters (`Text.Unicode`).

The modules: `Common` and `SnmpCredential` (vocabulary), `V3Upgrade`, `CredentialSearch`, `V3Cascade` (the
credential engine); `AlertStore`, `DeviceState`, `Findings` (presence and findings); `ArpWeld`,
`SnapshotSync`, `SiteMerge`, `Ledger` (identity and inventory); `ArpWalk`, `ArpPurge`, `FdbEdges`,
`LldpCrawl` (topology); `Decimal`, `Text`, `Octets`, `Capability`, `Dhcp`, `Nsdp`, `PseudoAddress`, `HostnameRegistry`
(supporting cores). `dafny verify dfyconfig.toml` checks everything.

## Where the code differs from what is written about it

The model follows the code.

* `hostname_registry.py:15` says ties keep the old name; line 80 lets an equal priority overwrite
  (`HostnameRegistry.TiesOverwrite`).
* `snmp_adapter.py:238` says a completed upgrade check is a no-op; the guard at line 241 never looks at the
  attempted set (`V3Upgrade.CompletedCheckRepeats`), and the await between it and the write at line 248 lets two
  probes both write (`V3Upgrade.OverlappingProbesOverwrite`).
* "One cascade per node" needs that node's lookup to be stable and readable while upgrades run
  (`V3Upgrade.EverTwoIff` and `V3Upgrade.EverOverlapIff` say exactly when a run breaks it;
  `V3Upgrade.ReweldLetsTwoCascade` and `V3Upgrade.UnreadableNodeLetsTwoCascade` show it).
* `snmp_adapter.py:366` looks the node up before the `try`: an exception other than `sqlite3.OperationalError`
  there leaves the address in flight without a task for as long as the process runs (`V3Upgrade.LostForGood`).
* `snmp_adapter.py:802` writes the do-not-call marker without looking at the entry it overwrites, so a
  search that began before a credential was stored can destroy it
  (`CredentialSearch.WorkingLostIff` says exactly when; `CredentialSearch.OverlapLosesCredential` and
  `CredentialSearch.BlindSearchOverWorking` show it).
* `snmp_adapter.py:129` assumes ticks restart only with the process; `main.py:1304` and `main.py:1361` reset
  them while it runs, so the machines and the presence histories let the tick take any value at any time.
* `main.py:764` may pick a replacement that is itself being retired (`ArpPurge.RetiredTogetherLoseTheLink`), and
  `main.py:947` repoints for every flagged IP although lines 950-953 delete only those learned from the router, so
  links can be led from a row that stays to one that goes (`ArpPurge.FlaggedButKeptLosesTheLinks`).
  `ArpPurge.AlwaysHandsOverIff` says exactly when links survive every loop order, `ArpPurge.HandedOverIff` for one.
* `snmp_default_community_detector.py:190` compares a cache value with the bare string `"UNRESPONSIVE"`, but
  the cache holds a tuple, so unresponsive addresses are probed too.
* `unification.py:639` back-fills the two "human" identity columns; later runs cannot tell them from entered
  values (`SnapshotSync.BackFillSticks`).
* The ledger marks primary addresses before it drops stale rows of a subnet, and pseudo MACs repeat every 256
  ports, so a placeholder with a legal and a synthetic address can lose the legal one
  (`Ledger.PlaceholderLosesAddress`). A device without synthetic addresses cannot (`Ledger.DeviceKeepsPrimary`).
* A non-empty DHCP option 12 that decodes to blanks hides a usable option 81 (`Dhcp.OptionTwelveWins`).

## Model

| member | source | states |
|---|---|---|
| `V3Upgrade.FlightIsExact` | src/engine/snmp_adapter.py:252-404 | over every interleaving, whatever raises, an address is in flight exactly while it has a live upgrade task or once its task died in the node lookup; it never has two tasks, and in-flight addresses stay scheduled |
| `V3Upgrade.LostForGood` | src/engine/snmp_adapter.py:252-368 | an address whose task died in the node lookup, before its try, is at every later point in flight without a task, still scheduled, and neither triggered nor probed again |
| `V3Upgrade.FaultEnds` | src/engine/snmp_adapter.py:365-404 | any other exception ends an upgrade as if nothing had been found: on record, neither scheduled nor in flight, its lock free, nothing cached |
| `V3Upgrade.OneCascadePerNode` | src/engine/snmp_adapter.py:323-404 | over every interleaving that leaves one node alone and readable, whatever is welded, re-welded or unreadable elsewhere, at most one of its addresses ever enters the v3 cascade and no two cascades of it overlap |
| `V3Upgrade.EverTwoIff` | src/engine/snmp_adapter.py:323-404 | exactly when "one cascade per node" fails, over every run with any re-welding, failed lookup and exception: at some point two addresses of one node have entered a cascade if and only if some step of the run is granted a lock, finds its rows untried and misses a sibling that ran, or is a re-welding that joins two addresses that ran |
| `V3Upgrade.EverOverlapIff` | src/engine/snmp_adapter.py:323-404 | two cascades of one node overlap at some point if and only if some step is granted a lock, finds its rows untried and a sibling cascading, or is a re-welding that joins two cascading addresses |
| `V3Upgrade.SecondCascadeIff` | src/engine/snmp_adapter.py:323-404 | for the steps that grant a lock, in every reachable state: the task enters a second cascade of its node if and only if its rows are untried and a sibling is cascading at that moment, then under another key, or a sibling that ran is missing from its rows |
| `V3Upgrade.SecondCascadeTruthful` | src/engine/snmp_adapter.py:323-404 | with rows that tell the node as it is, only a sibling cascading under another key lets it happen |
| `V3Upgrade.DueMeansInFlight` | src/engine/snmp_adapter.py:267-289 | after the due sweep, in any order of the dict, exactly the due addresses and those in flight before are in flight, and nothing was rescheduled |
| `V3Upgrade.NeverStuck` | src/engine/snmp_adapter.py:359-404 | in every reachable state with a live upgrade task some task moves by its own step: the node locks never deadlock |
| `V3Upgrade.StepKeeps` | src/engine/snmp_adapter.py:229-404 | every step keeps: one task per in-flight address, locks held exactly by cascading tasks, queues holding exactly the waiting ones |
| `V3Upgrade.StepAccounted` | src/engine/snmp_adapter.py:229-404 | every step, re-welding included, keeps the record: a cascading address has entered a cascade, and one that ever entered is attempted or still cascading |
| `V3Upgrade.StableStepOnePerNode` | src/engine/snmp_adapter.py:365-404 | a step that leaves the node alone keeps the account of which of its addresses have tried |
| `V3Upgrade.SameKey` | src/engine/snmp_adapter.py:325-343 | two addresses take the same lock exactly when they are one address or belong to one node |
| `V3Upgrade.ReweldLetsTwoCascade` | src/engine/snmp_adapter.py:325-343 | a run in which a re-welding puts two cascading addresses on one node |
| `V3Upgrade.UnreadableNodeLetsTwoCascade` | src/engine/snmp_adapter.py:325-343 | a run in which the node lookup fails and two addresses of one node cascade at once |
| `V3Upgrade.ProbeWritesIff` | src/engine/snmp_adapter.py:229-249 | a probe writes the schedule exactly when its address was neither scheduled nor in flight as it started and an engine answered, whatever ran during its await, and then 3 ticks past the tick of the answer |
| `V3Upgrade.OverlappingProbesOverwrite` | src/engine/snmp_adapter.py:229-249 | two probes of one address that overlap both write, and the later answer moves the due tick |
| `V3Upgrade.CompletedCheckRepeats` | src/engine/snmp_adapter.py:229-404 | from any state with a finished check: an address still scheduled is left alone by the probe; one that is not, welded or not, can be scheduled and started again, and then cascades at once exactly when its lock is free and its rows are untried, and queues exactly when its lock is taken |
| `V3Upgrade.GrantCascadesIff` | src/engine/snmp_adapter.py:359-404 | whenever a task gets its lock, at once or from the queue, it cascades exactly when no row decides; whether its own address was attempted before plays no part |
| `V3Upgrade.GrantDecides` | src/engine/snmp_adapter.py:365-404 | what decides, read off the record and the cache: a granted task enters the cascade if and only if no row is on record as attempted and none has a working v3 credential; v2c credentials of siblings count for nothing |
| `V3Upgrade.GrantCaches` | src/engine/snmp_adapter.py:365-404 | a grant caches at most for its own address, and there exactly the v3 credential of the row before which none is attempted and none has one |
| `V3Upgrade.OthersCache` | src/engine/snmp_adapter.py:199-249 | every other step of an upgrade leaves the cache alone, except that an answered trial caches the very credential it asked with |
| `V3Upgrade.CascadeAsksInTurn` | src/engine/snmp_adapter.py:199-226 | a cascade asks with its trials in turn until one is answered; after misses with all of them it has cached nothing and its address is on record |
| `V3Upgrade.SnmpAdapter.MaybeTriggerDeferredV3Upgrade` | src/engine/snmp_adapter.py:252-264 | a due address is in flight afterwards and every other is as before; an address gains a task exactly if it was due, had none and lost none to its node lookup; the machine's invariant is kept and nothing but tasks and in-flight set changes |
| `V3Upgrade.SnmpAdapter.CheckDueV3Upgrades` | src/engine/snmp_adapter.py:267-289 | the loop is the machine's sweep over some listing of the scheduled addresses |
| `V3Upgrade.SnmpAdapter.ConsultSiblings` | src/engine/snmp_adapter.py:365-404 | the sibling loop cascades exactly when no sibling is on record or has a working v3 credential, and otherwise reuses the v3 credential of the first sibling that decides or, if that one is only on record, skips |
| `V3Upgrade.SnmpAdapter.FinishUpgrade` | src/engine/snmp_adapter.py:365-404 | the finished address is on record, neither scheduled nor in flight, and has no task left; its lock is free with its queue as it was; no other address, task, lock or credential changes; the machine's invariant is kept |
| `CredentialSearch.SingleFlight` | src/engine/snmp_adapter.py:420-423 | over every interleaving at most one call is in the full search, it holds the lock, and a call that saw the lock held never searches |
| `CredentialSearch.ResearchNeedsThreeFailures` | src/engine/snmp_adapter.py:716-734 | over every interleaving with a monotone clock: a call that re-searches, or waits to, despite a cached credential was sent there by three steps of the run, each an unanswered query with it, at least 30 s apart by the clock, with no recorded success from the first until the call gave up |
| `CredentialSearch.EvidenceIsTheStreak` | src/engine/snmp_adapter.py:698-734 | what a re-searching call relies on is the streak at the moment of its own failed query, whether it still waits for the lock or holds it |
| `CredentialSearch.StepKeeps` | src/engine/snmp_adapter.py:698-804 | every step keeps the lock discipline, the streak as history of counted failures, and the evidence of pending re-searches |
| `CredentialSearch.EntryAfter` | src/engine/snmp_adapter.py:698-804 | the exact entry after every step: a success stores the credential that succeeded, a search without a cached credential that runs dry stamps the marker with the current tick, nothing else touches it |
| `CredentialSearch.CachedCredentialSucceeded` | src/engine/snmp_adapter.py:512-560 | over every interleaving a cached credential was put there by a step that reported the success of exactly this credential, and has been the entry ever since |
| `CredentialSearch.MarkerWasStamped` | src/engine/snmp_adapter.py:799-804 | over every interleaving a marker was stamped by a search that ran dry at that very tick, and has been the entry ever since |
| `CredentialSearch.AsksWithTheEntry` | src/engine/snmp_adapter.py:698-745 | a call asks with the credential of the entry as it stood when the call looked, and verifies the very credential its sibling query found |
| `CredentialSearch.QueryLooks` | src/engine/snmp_adapter.py:698-745 | what a look at the cache leads to: ask with the credential, give up on a marker less than 5 ticks old, follow the search under way, queue behind a released lock, or search the whole list |
| `CredentialSearch.GetLooks` | src/engine/snmp_adapter.py:512-560 | get_working_credential decides a cached credential and a young marker at once; else it verifies a sibling credential if there is one and queries if there is none |
| `CredentialSearch.FailureResearchesIff` | src/engine/snmp_adapter.py:716-734 | an unanswered query with the cached credential counts exactly if the last count is at least 30 s back, and the call goes on to search exactly with three counted since the last recorded success |
| `CredentialSearch.SearchAsksInTurn` | src/engine/snmp_adapter.py:746-804 | a search asks with its list in turn; the first answer caches the credential asked with, clears the streak, releases the lock and, for v2c, starts the engine probe |
| `CredentialSearch.WokenSearchesAll` | src/engine/snmp_adapter.py:736-745 | a call that waited for the lock searches the whole list as configured when it resumes |
| `CredentialSearch.UpgradeAfter` | src/engine/snmp_adapter.py:229-289 | step by step: a v2c success of a search starts a probe, a probe that finds an engine schedules the upgrade, a scheduled upgrade can begin, one at a time, and its end takes it off the schedule |
| `CredentialSearch.UpgradeWasProbed` | src/engine/snmp_adapter.py:229-289 | over every interleaving an upgrade runs only for an address that answered a search with a v2c community and after that a probe with an engine |
| `CredentialSearch.WorkingIsForever` | src/engine/snmp_adapter.py:698-804 | when calls for one address do not overlap, a working entry works at every later point of the run |
| `CredentialSearch.SearchesHaveAReason` | src/engine/snmp_adapter.py:133-148 | when calls do not overlap, a full search starts only for a never-cached address, a marker at least 5 ticks old, or three counted failures |
| `CredentialSearch.WorkingLostIff` | src/engine/snmp_adapter.py:799-804 | under any overlap a working entry becomes the marker exactly when a search that never saw it runs dry |
| `CredentialSearch.OverlapLosesCredential` | src/engine/snmp_adapter.py:512-560 | a run in which that happens: a sibling's credential is stored while a first search is still waiting |
| `CredentialSearch.BlindWaitIff` | src/engine/snmp_adapter.py:736-745 | exactly when a call comes to wait for a search without having seen a working entry: it looks at the cache after a search released the lock and before the first waiter runs, and finds a marker at least 5 ticks old |
| `CredentialSearch.BlindSearchNeedsTicks` | src/engine/snmp_adapter.py:698-745 | under any overlap, a search that begins over a working entry is the re-search of a call that saw it fail three times, unless at some point before the tick stood 5 or more past a marker while a released lock waited for its next waiter |
| `CredentialSearch.BlindSearchOverWorking` | src/engine/snmp_adapter.py:698-804 | a run with such a tick in which a search that never saw the working entry begins over it and loses it |
| `V3Cascade.OrderIsComplete` | src/engine/snmp_adapter.py:199-226 | whatever pairing is remembered, the same pairings are tried, each once, the remembered one first |
| `V3Cascade.OrderExactly` | src/engine/snmp_adapter.py:199-226 | the remembered pairing moves to the front and the others keep their order |
| `V3Cascade.AllPairingsElements` | src/engine/snmp_adapter.py:199-226 | the pairings are every combination of the two strength lists, each once |
| `V3Cascade.StrengthDescends` | src/engine/snmp_credential.py:11-12 | the order is by strength: the six authentication protocols from SHA-512 to MD5, and for each of them the four privacy protocols from AES-256 to DES |
| `V3Cascade.RememberingOnlyReorders` | src/engine/snmp_adapter.py:199-226 | the cascade finds a credential exactly when some pairing of some identity answers, whatever is remembered |
| `V3Cascade.IdentitiesInTurn` | src/engine/snmp_adapter.py:199-226 | the identity that answered did so with the first of its pairings, in its own order, that answers, and no identity before it answers to any pairing |
| `V3Cascade.Adapter.TryV3Cascade` | src/engine/snmp_adapter.py:199-226 | the two loops find the first answering trial, record it in the cache and as remembered pairing, clear the streak, and change nothing otherwise |
| `AlertStore.MoveKeepsSound` | src/pollers/device_state_tracker.py:291-295 | moving a device along an edge and logging it keeps every log a connected path that ends in the stored status |
| `AlertStore.OutagesBalance` | src/pollers/device_state_tracker.py:351-409 | on a connected log, outages minus recoveries is 1 exactly while the device is offline |
| `AlertStore.PruneKeepsSound` | src/engine/alerting.py:41-75 | pruning keeps every log, with the deleted rows as history, a connected path that ends in the stored status, and the alerts accounted for |
| `AlertStore.PruneKeepsTail` | src/engine/alerting.py:41-75 | where the stored rows are the youngest, as with a clock that never runs backwards (`AlertStore.PruneTakesOldest`), the stored part of a device's path, if any, ends in its stored status and each stored entry continues the stored one before |
| `AlertStore.PrunedQuery` | src/pollers/device_state_tracker.py:304-309 | after a pruning the outage query sees exactly what it would have seen before had it asked since the cutoff |
| `AlertStore.QueryIsExactIff` | src/pollers/device_state_tracker.py:304-309 | the query counts every outage of the device since then if and only if none of them is deleted |
| `AlertStore.QueryCounts` | src/pollers/device_state_tracker.py:304-309 | what the query counts: the stored rows of the device that went offline since then |
| `AlertStore.PruningHidesNoOutage` | src/engine/alerting.py:31-54 | over every history of entries and prunings, however the clock moved: if no pruning came more than a day after the start of a window, the query over the window counts every outage there was |
| `AlertStore.Connection.CreateAlert` | src/engine/alerting.py:85-114 | inserts and commits, or leaves the saved tables alone or at the one with the alert; what is saved stays sound |
| `AlertStore.Connection.PruneAlertingHistory` | src/engine/alerting.py:41-75 | all three deletions are saved or none: exactly the log rows of the last day, the alerts not found old, and the findings that are active or not found old stay; what is saved stays sound |
| `DeviceState.DeviceStateTracker.RunDeviceStateTracker` | src/pollers/device_state_tracker.py:324-418 | on success every device moved on as its presence says, present ones to new or online with this tick, stale ones to offline, with exactly the alerts due outside the quiet times; after any exception the saved tables are sound, the devices committed so far moved one cycle on, and every other is at most re-baselined |
| `DeviceState.DeviceStateTracker.SeePresent` | src/pollers/device_state_tracker.py:351-386 | one present device: inserted as new, promoted or brought back online, in each case with its log entry and its alert unless quiet, and at most its flapping finding; all else untouched |
| `DeviceState.DeviceStateTracker.DeclareOffline` | src/pollers/device_state_tracker.py:398-411 | one stale device: set offline, logged, alerted unless quiet, all else untouched |
| `DeviceState.DeviceStateTracker.CheckFlapping` | src/pollers/device_state_tracker.py:298-321 | opens the flapping finding exactly when the stored outages of the last 30 minutes reach the threshold; an existing finding keeps its state |
| `DeviceState.TrackedExtends` | src/pollers/device_state_tracker.py:324-418 | one more cycle of the tracker, completed or broken off, extends the history the offline theorems are about |
| `DeviceState.OfflineExactly` | src/pollers/device_state_tracker.py:392-411 | for ticks that move in any way and cycles that raise anywhere: a device turns offline in a cycle if and only if the cycle reaches it, it is absent, and the tick is at least 3 past its last sighting or re-baseline; no cycle since that reached it was so far past |
| `DeviceState.RowExactly` | src/pollers/device_state_tracker.py:351-411 | the row after any history, cycle by cycle: a cycle that reaches a present device makes it new if never seen before and online otherwise, however long it was offline, with that cycle's tick; any other cycle changes its status at most to offline, by the rule of `DeviceState.OfflineExactly` |
| `DeviceState.ThreeMissedTicks` | src/pollers/device_state_tracker.py:392-411 | when cycles complete and ticks grow by one or are reset, a device declared offline was absent in three cycles with distinct consecutive ticks and in every cycle since its mark |
| `DeviceState.MarkIsLastSeen` | src/pollers/device_state_tracker.py:114-143 | the stored tick is that of the last cycle whose sighting or re-baseline of the device was committed, through any reset and any failed cycle |
| `Findings.CanonicalIsIdentity` | src/pollers/snmp_default_community_detector.py:83-104 | the canonical MAC is the lowest of its device, idempotent, and equal for two MACs exactly when they are one device |
| `Findings.ChangeKeepsSound` | src/pollers/snmp_default_community_detector.py:138-165 | opening or resolving a finding together with its alert keeps opened minus resolved equal to 1 for active findings and 0 for others, and touches one finding type |
| `Findings.VerdictIsLastReport` | src/pollers/snmp_default_community_detector.py:107-168 | the verdict on a device is the last report about it and a device nobody reports on keeps its state |
| `Findings.Detector.RunSnmpDefaultCommunityDetector` | src/pollers/snmp_default_community_detector.py:107-168 | a device's finding is active afterwards exactly if the last cached v2c community located at one of its MACs is "public" or "private" up to case; without such an item it is as before; at every commit point the accounts hold and only this finding type differs |
| `Findings.Detector.RunSnmpPublicSecurityScan` | src/pollers/snmp_default_community_detector.py:171-247 | the same for the active probe: active exactly if the last probed address of the device answered "public"; addresses cached with a default community are not probed; the passive finding never changes |
| `Findings.Detector.RunSnmpV3AvailableDetector` | src/pollers/snmp_v3_available_detector.py:65-122 | the same for v3: active exactly if the last v3-capable address of the device with a credential is used with v2c |
| `ArpWeld.FixpointIsClosure` | src/engine/unification.py:95-128 | at a fixpoint two MACs share a node if and only if a chain of shared-before or confirmed-and-near steps links them |
| `ArpWeld.MergeCoarsens` | src/engine/unification.py:104-126 | a merge of two near nodes, the smaller id kept, is one more coarsening: no MAC lost, nothing split, only chains joined |
| `ArpWeld.CascadeLosesNothing` | src/engine/unification.py:104-126 | the cascading delete after the re-pointing update deletes no interface |
| `ArpWeld.NodeTable.RunArpConfirmedWeldPass` | src/engine/unification.py:47-128 | at most 5 merges, each removing one node; the result coarsens the start; fewer than 5 merges means a fixpoint, for MACs at most 16 apart (`ArpWeld.NearMeans`) |
| `SnapshotSync.Inventory.RunInventorySnapshotSync` | src/engine/unification.py:508-700 | every group ends as one row under its lowest MAC with folded human cells and the group's snapshot; rows of undiscovered MACs are untouched |
| `SnapshotSync.NothingEnteredIsLost` | src/engine/unification.py:639-699 | a column filled in any row of the device is filled in its one remaining row: own value first, else a stray's, and discovery's only if no row had one |
| `SnapshotSync.CellsExactly` | src/engine/unification.py:608-699 | cell by cell: the row stands under the lowest MAC of the group; a filled cell keeps its value, an empty one takes that of some other row of the group, and where no row has one the name takes the discovered host name and the type the discovered device type |
| `SnapshotSync.SecondRunChangesNothing` | src/engine/unification.py:639-699 | a second run over the same interfaces adds, removes and changes no row |
| `SnapshotSync.BackFillSticks` | src/engine/unification.py:633-638 | a back-filled value survives later runs that offer another one |
| `SnapshotSync.BestIsFirstAddressed` | src/engine/unification.py:613-620 | the snapshot of a group is its first row with an address, or its first row if none has one |
| `SnapshotSync.Inventory.FoldGroup` | src/engine/unification.py:659-688 | the clean-up of one group folds and removes its stray rows and touches no other row |
| `SiteMerge.MergedCell` | src/api/server.py:3157-3193 | for every column and whatever the devices leave out: each cell shows its first value, from the local row or the inserted one with its database defaults, else the first non-empty value of the remote rows in order |
| `SiteMerge.MergedWithoutDefault` | src/api/server.py:3157-3193 | where no default is taken: the first non-empty value of the local row, then the remote rows in order |
| `SiteMerge.FirstOfferIsFirst` | src/api/server.py:3176-3185 | what "first non-empty" means: offered by some device with no earlier one offering anything, absent only if nobody offers |
| `SiteMerge.AbsorbExactly` | src/api/server.py:3157-3193 | what one device does: it adds its row with its values and the column defaults if there is none, else fills the empty cells it has values for, and nothing else |
| `SiteMerge.WritesExactly` | src/api/server.py:3157-3193 | a device counts exactly if it changes the table |
| `SiteMerge.IncomingIsForeign` | src/api/server.py:3132-3156 | a pull takes in every device of the blobs of other instances and no other |
| `SiteMerge.RepeatIsNoOp` | src/api/server.py:3132-3196 | a repeated pull changes nothing and reports 0 |
| `SiteMerge.TwoPullsAreOne` | src/api/server.py:3132-3196 | two pulls leave the table and the summed counts of one pull of all blobs |
| `SiteMerge.ExchangeAgrees` | src/api/server.py:3123-3196 | after two sites pull each other's full table the same cells are non-empty on both, and a cell shows the same on both exactly when they did not disagree before |
| `SiteMerge.Inventory.MergePulledDevices` | src/api/server.py:3132-3196 | the loops are the fold over every foreign blob's devices, and the count is the number of rows written |
| `ArpWalk.Step35Arp` | src/engine/snmp_pipeline.py:58-143 | reports the last counting row of each MAC, and as stale exactly the addresses seen with no row of type dynamic or static |
| `ArpWalk.CountsMeans` | src/engine/snmp_pipeline.py:79-125 | a row counts for a local address and a well-formed MAC unless its own interface lists it with a type other than dynamic and static |
| `ArpWalk.GhostHidesNothing` | src/engine/snmp_pipeline.py:79-111 | a stale entry on one interface never hides a confirmed one on another nor retires its address |
| `ArpWalk.RetiredAndReportedIff` | src/engine/snmp_pipeline.py:98-143 | exactly when one walk both retires and reports an address: the two walks list different interfaces for it |
| `ArpPurge.AgePurgeLinkSafety` | src/main.py:994-1008 | after the age purge a link end that named a retired IP of a device with a newer binding names a surviving IP of that device; other ends are unchanged |
| `ArpPurge.AlwaysHandsOverIff` | src/main.py:724-771 | whatever of the repointed IPs is deleted: in every loop order every repointed IP of a device hands its links to a row of the device that stays, if and only if no repointed IP of it has a deleted one among its freshest others; read off the tables before the loop, ties in last_seen included |
| `ArpPurge.FreshestSurvives` | src/main.py:724-771 | for a device whose kept row is fresher than every other repointed one: always, if that row is not repointed itself; if it is, exactly when none of its own possible replacements is deleted |
| `ArpPurge.HandedOverIff` | src/main.py:724-771 | for one loop order and any set of deleted rows: a repointed IP's links end on a row that stays exactly when following the replacements forward in loop order ends outside the deleted rows |
| `ArpPurge.HandedOverWithFreshest` | src/main.py:724-771 | for a device with one freshest IP, in one loop order: all its links end on that IP, unless it is repointed, not before this IP, and its replacement not after it; then they end on the replacement; and whether that row is deleted decides |
| `ArpPurge.RetiredTogetherLoseTheLink` | src/main.py:764-771 | two IPs retired together swap their links back and forth although a third IP of the device survives |
| `ArpPurge.FlaggedButKeptLosesTheLinks` | src/main.py:945-953 | two flagged IPs of a device, the fresher one kept because a local sweep was its source: repointed last, it leads both links to the row that is deleted; in the other order both end on it |
| `ArpPurge.RepointingCollidesIff` | src/main.py:724-771 | one repointing meets a taken (switch, port) key exactly when the two IPs have links on one port |
| `ArpPurge.RepointingKeepsApart` | src/main.py:724-771 | if no two links of one device share a port, a repointing never collides and the next one will not either |
| `ArpPurge.Topology.RepointBeforePurge` | src/main.py:724-771 | every link end moves by the chosen replacements in loop order, or the unique key aborts the stage, which takes two links of one device on one port |
| `ArpPurge.Topology.PurgeAged` | src/main.py:994-1008 | deletes exactly the router-learned bindings older than the cutoff; every link end that named one of a surviving device names a survivor, every other is unchanged |
| `ArpPurge.Topology.RetireFlagged` | src/main.py:945-962 | deletes exactly the flagged bindings the router's cache was the source of; every link end stays on its device, moves only if flagged, and names a row that stays if no possible replacement of its device is deleted |
| `ArpPurge.Topology.StageArpScrape` | src/main.py:836-1008 | binds every reported address of a known subnet, as seen now, to a MAC reported at it, and changes or adds no other row; deletes exactly the router-learned rows not renewed in this cycle that are 3 hours old, or flagged inside a known subnet and listed for no MAC; a link end stays on its device through both retirements, moves only if its row is flagged or aged, and names a row left in the table if the device keeps a current one and the first retirement could give it no deleted replacement |
| `ArpPurge.ConfirmedDeviceKeepsLinks` | src/main.py:836-1008 | both conditions hold for every device the router confirmed in this cycle, unless a flagged row was learned in the same second |
| `Ledger.PrimaryShownIff` | src/api/server.py:82-232 | across the three transforms: exactly when a device is displayed with a primary address, namely when in the subnet of one of its primary rows the freshest row has a real address |
| `Ledger.DeviceKeepsPrimary` | src/api/server.py:82-232 | a device with a real address and no synthetic one is always displayed with a primary address, whatever Docker-bridge addresses, junk and stale bindings it has besides |
| `Ledger.AddressShownIff` | src/api/server.py:82-147 | exactly when a device is displayed with any address: when in one of its subnets the first of the freshest rows has a real one |
| `Ledger.ParsedPseudo` | src/engine/inference_engine.py:174-179 | how the ledger reads a port's pseudo IP: as a legal address exactly when the switch ends in .0 and the port fits an octet, else as a synthetic one in the switch's /24 |
| `Ledger.PlaceholderLosesAddress` | src/engine/inference_engine.py:174-211 | the placeholder of ports p <= 255 and p + 256 of a switch ending in .0 has one MAC; placed in one subnet, with the synthetic row seen last, its legal primary address is dropped and it is displayed with no address |
| `Ledger.SubnetDecidesVlan` | src/api/server.py:193-207 | two addresses placed in one subnet carry one VLAN, the /24 guess included |
| `Ledger.PlaceMeans` | src/api/server.py:150-207 | where a row is placed: a Docker-bridge address or junk nowhere; any other in the first confirmed network that holds it, with its VLAN, else untagged in its own /24; a synthetic address by the first host of its /24 |
| `Ledger.RealMeans` | src/api/server.py:82-107 | a real address is an IPv4 literal outside 172.16.0.0/12 |
| `Ledger.SubnetsKept` | src/api/server.py:82-147 | every subnet of a device is displayed exactly once and every displayed address is real |
| `Ledger.AnnotateSubnetAndPrimary` | src/api/server.py:150-232 | each row gets its subnet, and is primary exactly by the three rules: physical VLAN, else untagged, else latest |
| `Ledger.CollapseStaleSameSubnetBindings` | src/api/server.py:110-147 | one row per device and subnet, the first of the freshest, in the order the subnets first appear |
| `Ledger.FilterDisplayNoiseIps` | src/api/server.py:82-107 | hides exactly the addresses that are not real and keeps every row |
| `Ledger.EndpointLedger` | src/api/server.py:3007-3009 | the three in the order the dashboard runs them |
| `FdbEdges.RunMacTableScraper` | src/pollers/mac_table_scraper.py:184-271 | a MAC is purged exactly when every sighting weighs backbone; otherwise its edge is the first of its lightest sightings, among the non-router ones below backbone when there is one |
| `FdbEdges.WeightMeans` | src/pollers/mac_table_scraper.py:211-228 | what a port weighs: how many MACs were sighted on it, plus its prior penalty, or 10000 for a router port without one that hosts two or more |
| `FdbEdges.CountAndPenalise` | src/pollers/mac_table_scraper.py:211-224 | the penalties of the counting loop equal their batch definition in any order of the MACs |
| `FdbEdges.ResolveEdges` | src/pollers/mac_table_scraper.py:230-271 | every MAC is either purged or placed, never both |
| `FdbEdges.LocsOfOnePerSwitch` | src/pollers/mac_table_scraper.py:184-190 | each MAC keeps one sighting per switch and loses no switch |
| `FdbEdges.LocsOfAreFirst` | src/pollers/mac_table_scraper.py:184-190 | the kept sightings are the first ones of the MAC on each switch, all of them, in order of arrival |
| `FdbEdges.GetBasePhysicalPort` | src/pollers/mac_table_scraper.py:75-81 | the walk ends at a port stacked on nothing or at the first port met twice |
| `FdbEdges.BaseIsIdempotent` | src/pollers/mac_table_scraper.py:75-81 | a port has one base port and resolving it again changes nothing, cycles included |
| `LldpCrawl.RunLldpScraper` | src/pollers/lldp_scraper.py:400-474 | seen is exactly processed plus queued, disjoint; no IP and no node, as resolved in its layer, is polled twice; the cap of 500 and the 10 layers hold; drained below the cap, processed is closed under neighbours of polled qualified switches |
| `LldpCrawl.DrainedIsLeast` | src/pollers/lldp_scraper.py:413-474 | what was processed is contained in every set that holds the initial targets and is closed that way |
| `LldpCrawl.Enqueue` | src/pollers/lldp_scraper.py:446-471 | neighbours are queued once each until the cap; below the cap none is dropped |
| `LldpCrawl.PollBatch` | src/pollers/lldp_scraper.py:413-446 | every target of a layer is polled or belongs to a node that was |
| `Decimal.SplitOfJoin` | src/engine/snmp_pipeline.py:245-272 | splitting a joined list gives its fields back if none holds the separator |
| `Capability.StoredTextRoundTrips` | src/engine/snmp_pipeline.py:245-272 | the stored text reads back as exactly the stored steps, in order |
| `Capability.CachedIff` | src/engine/snmp_pipeline.py:242-272 | after any history of polls a step is cached exactly when some full poll found it and it, and the gate, answered ever since |
| `Capability.DeepPollRestores` | src/engine/snmp_pipeline.py:255-272 | one deep poll with the gate answering restores exactly the responding steps, whatever came before |
| `Capability.MissedUntilDeep` | src/engine/snmp_pipeline.py:255-272 | one missed answer on a fast poll hides a step until the next deep poll |
| `Capability.FastPollShrinks` | src/engine/snmp_pipeline.py:255-272 | between deep polls steps other than 10 and 20 only ever leave the cache |
| `Capability.SortedUnique` | src/engine/snmp_pipeline.py:255-259 | a strictly sorted list of a set of steps is unique |
| `Capability.Pipeline.RunSnmpPipeline` | src/engine/snmp_pipeline.py:227-289 | keeps, and stores as text, exactly the registered steps that answered, if the gate did, of those the tick and the stored text selected; other rows unchanged |
| `Capability.Pipeline.RunSteps` | src/engine/snmp_pipeline.py:262-271 | the step loop with its early stop keeps exactly the responding steps, and none if the gate is silent |
| `Dhcp.WalkInvertsPrinter` | src/pollers/dhcp_sniffer.py:84-97 | the option walk inverts the printer, whatever the padding and whatever follows the end option |
| `Dhcp.EveryInputIsAPrint` | src/pollers/dhcp_sniffer.py:84-97 | every byte string is a printed list of options and an end, and the walk yields what they say |
| `Dhcp.PacketRoundTrip` | src/pollers/dhcp_sniffer.py:65-111 | a packet of any hardware length gives back the first six octets of its address and the name its options carry, or nothing if the address is zero |
| `Dhcp.OptionMeans` | src/pollers/dhcp_sniffer.py:84-97 | with distinct codes an option means the value it was printed with, in any order |
| `Dhcp.OptionTwelveWins` | src/pollers/dhcp_sniffer.py:99-109 | a non-empty option 12 decides the name alone, and makes it absent if it is blank |
| `Dhcp.FqdnGivesFirstLabel` | src/pollers/dhcp_sniffer.py:99-109 | without a usable option 12 a name in option 81 gives its first label: past the three flag octets, without unprintable characters, up to the first dot |
| `Dhcp.NamesAreTidy` | src/pollers/dhcp_sniffer.py:99-109 | a name is never empty or padded; one from option 81 is a single label of printable characters |
| `Dhcp.ReadOptions` | src/pollers/dhcp_sniffer.py:84-97 | the index loop is the walk, on every byte string |
| `Dhcp.ParseBootpDhcp` | src/pollers/dhcp_sniffer.py:65-111 | total; a lease exactly for a packet of at least 240 bytes with the cookie and a non-zero octet in the hardware address, which has the stated length or, if that does not fit, six octets |
| `Octets.MacTextInjective` | src/pollers/dhcp_sniffer.py:76 | two hardware addresses print alike exactly when they are the same |
| `Octets.MacTextReads` | src/pollers/dhcp_sniffer.py:76 | the text has two hexadecimal digits for each octet, the high one first, with a colon between octets |
| `Nsdp.RequestAsksForTheFields` | src/engine/smart_switch_pipeline.py:446-462 | the request has a 32-byte header, its body walks to exactly the declared codes then the terminator, and it is not taken for a reply |
| `Nsdp.RequestHeaderBytes` | src/engine/smart_switch_pipeline.py:446-459 | the header byte by byte: version and opcode 1, the requester's MAC, the signature, zeros elsewhere |
| `Nsdp.BuildNsdpRequest` | src/engine/smart_switch_pipeline.py:446-462 | the built bytes are that header and the printed empty fields |
| `Nsdp.WalkInvertsPrinter` | src/engine/smart_switch_pipeline.py:473-488 | the field walk gives back what was printed up to the terminator, whatever follows |
| `Nsdp.ReplyRoundTrip` | src/engine/smart_switch_pipeline.py:465-497 | a printed reply gives back what its fields say in order, its header MAC standing in for a missing field |
| `Nsdp.FieldMeans` | src/engine/smart_switch_pipeline.py:473-488 | with distinct codes a known field of the right size means exactly its value, wherever it stands, and an absent or wrongly sized one says nothing |
| `Nsdp.ReplyGivesItsFields` | src/engine/smart_switch_pipeline.py:465-497 | with distinct codes a printed reply gives back MAC, model, name and address of the very fields with those codes |
| `Nsdp.ReplyReads` | src/engine/smart_switch_pipeline.py:465-497 | the same by the bytes: model and name are the labels of fields 1 and 3, the address that of a four-byte field 6, the MAC that of a six-byte field 4, else the header's |
| `Nsdp.OnlyHeededCount` | src/engine/smart_switch_pipeline.py:477-487 | unknown codes and fields of a wrong size are as if absent |
| `Nsdp.DottedMeans` | src/engine/smart_switch_pipeline.py:477-497 | an address of four octets reads as four decimal numbers between dots |
| `Nsdp.LabelMeans` | src/engine/smart_switch_pipeline.py:477-497 | a label is the decoded text without the NULs and blanks at its ends |
| `Nsdp.ParseNsdpResponse` | src/engine/smart_switch_pipeline.py:465-497 | total; a switch exactly for a signed read response |
| `PseudoAddress.PseudoIpInjective` | src/engine/inference_engine.py:174-179 | two pseudo IPs coincide exactly when the first three octets and 1000 times the last plus the port agree; below port 1000, only for the same port of the same switch |
| `PseudoAddress.PseudoIpReads` | src/engine/inference_engine.py:174-179 | the pseudo IP written out: three octets of the switch, then 1000 times the last one plus the port |
| `PseudoAddress.PseudoIpRaises` | src/engine/inference_engine.py:174-184 | building it raises exactly for four fields one of which is no number |
| `PseudoAddress.PseudoIpIsNoAddress` | src/engine/inference_engine.py:174-179 | a pseudo IP is a legal IPv4 literal exactly when the last octet is 0 and the port fits an octet |
| `PseudoAddress.ConsolidationAgrees` | src/engine/unification.py:747-754 | consolidation recomputes the same pseudo IP from the stored text |
| `PseudoAddress.FallbackAddress` | src/engine/inference_engine.py:181-184 | a switch that is no dotted quad shares the address of 127.0.0.1's port and is never looked up by consolidation |
| `PseudoAddress.PseudoMacCollides` | src/engine/inference_engine.py:174-178 | pseudo MACs coincide exactly when octets 2 to 4 agree and the ports agree modulo 256 |
| `PseudoAddress.PseudoMacReads` | src/engine/inference_engine.py:174-178 | the pseudo MAC written out: 02:ff, octets 2 to 4 of the switch, the port modulo 256 |
| `HostnameRegistry.RegistryHolds` | src/engine/hostname_registry.py:64-86 | after any writes the priority is the highest of the start and the usable writes, and the name the last usable write at it, else the start |
| `HostnameRegistry.OrderAcrossPrioritiesIsIrrelevant` | src/engine/hostname_registry.py:64-86 | two runs that agree priority by priority end alike however they interleave |
| `HostnameRegistry.TiesOverwrite` | src/engine/hostname_registry.py:80-85 | of two usable writes of one priority the later wins |
| `HostnameRegistry.StoredNamesAreTidy` | src/engine/hostname_registry.py:47-61 | every stored name is stripped, not junk, at most 253 characters and free of control characters |
| `HostnameRegistry.UsableMeans` | src/engine/hostname_registry.py:47-61 | what the gate lets through and what it stores: the text without the blanks at its ends, if that is not empty or junk up to case, at most 253 characters long and free of control characters |
| `HostnameRegistry.NodesAreIndependent` | src/engine/hostname_registry.py:64-112 | over any calls by node, MAC or IP each node ends as its own writes alone leave it |
| `HostnameRegistry.Registry.SetHostnameByNodeId` | src/engine/hostname_registry.py:64-86 | writes the cleaned name and the priority, and says so, exactly when the name is usable, the node exists and the priority is not lower than the stored one, NULL being 0; no other node changes |
| `HostnameRegistry.Registry.SetHostnameByMac` | src/engine/hostname_registry.py:89-97 | the same through the interface table |
| `HostnameRegistry.Registry.SetHostnameByIp` | src/engine/hostname_registry.py:100-112 | the same through bindings and interfaces |

## Left out

- Sockets, subprocesses, SNMP, HTTP, SMTP and webhook calls, mDNS and SSDP sweeps: their answers are parameters of the steps.
- SQL text and SQLite itself: tables are maps, with the keys and cascades the properties need.
- Auth, sessions, TLS, registration, telemetry, encryption of the sync, settings and UI routes: no part of the modelled state.
- Task cancellation, process kill and a wall clock that runs backwards: the machines do not have these steps.
- Regular-expression scraping of CLI and MIB text: rows start as parsed values.
- UTF-8 and ASCII decoding and Unicode character classes: parameters of the parsers and of the registry.
- IPv6 addresses in the ledger: the subnet guess of server.py assumes dotted quads.
- Tasks as methods: the two credential machines are step functions on a state value, since their calls interleave; the methods of `V3Upgrade.SnmpAdapter` and `V3Cascade.Adapter` cover the parts that run between two awaits.
- Writes to the bindings while a detector or a crawl runs: one detector run sees one snapshot, and a crawl sees a node lookup that may change per layer only.
- The hardware, heuristic and singleton weld passes, the inventory overlay and the rest of the consolidation pass: variations of the modelled weld and fold.
- The hysteresis purge of the dark-matter pass: only its addresses are modelled.
- How a port's prior penalty is read off the stored links' device types: it is an input of the edge resolution.
- The age of alerts and findings: which of them a pruning finds more than a year old is an input of it.
- The cascade's protocol order while it runs: a pairing remembered by another task during a cascade reorders only the identities not yet begun; `V3Cascade.Adapter` runs one cascade at a time.
- CredentialSearch.WorkingIsForever: needs calls for one address not to overlap, since the code does not keep it otherwise (`CredentialSearch.WorkingLostIff`).
- CredentialSearch.ResearchNeedsThreeFailures: the two answers that do not clear the streak in the code (a verified sibling credential, a reused answer) are not recorded successes.
- V3Upgrade.OneCascadePerNode: needs the one node it speaks of to stay the same and readable, since the code does not keep it otherwise (`V3Upgrade.EverTwoIff`).
- DeviceState.ThreeMissedTicks: needs completed cycles and ticks that grow by one or are reset, since after a failed cycle or a jump fewer cycles fit into 3 ticks (`DeviceState.OfflineExactly` needs neither).
- SnapshotSync.Inventory.RunInventorySnapshotSync: the other last_known columns are one opaque value, and site stamp and timestamps are not modelled.
- SnapshotSync.SecondRunChangesNothing: the sync timestamp, which every run renews, is not modelled.
