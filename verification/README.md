# Proofs about Nublado

Dafny models of the parts of Nublado that are hardest to get right by reading, and proofs of what they promise. Each module follows one component of the program and keeps its shape: records that the program updates in place are classes with those fields, dictionaries are maps, loops are loops, and pure code is functions. Where a class method is too long for one proof it is cut into the stretches between its branches, each with a contract that says what it leaves behind.

- `LabProtocol`, `LabProtocolInvariant`, `LabProtocolTheorems`, `LabProtocolRuns`, `LabMonitor`: the protocol by which creates, deletes, the reaper and the reconciler share one operation slot per user. One step is the code between two points where the program can be suspended. The lock is a queue that is served strictly in order, awaiting a finished task does not suspend, and the clock increases with every step. The theorems are about every run; `LabMonitors` shows that the code over its own fields takes exactly these steps. The step relation allows more than the event loop does: it lets others in between steps that the program takes without suspending. That is harmless for what holds in every run; the runs in `LabProtocolRuns`, which show that something fails, are also proved to be `Prompt`, which leaves such gaps out. A `cancel` may arrive before the task it cancels has taken its first step: such a task ends without signalling anybody, and the theorems cover that case.
- `LabReconcile`, `Progress`: what a reconcile makes of the records it knows and of those it discovers, and the progress values of spawns and deletes.
- `TagOrder`, `TagCollection`: image tags as parsed from the groups of the tag patterns, their order, and collections of tags with their filters.
- `Images`, `ImageLists`, `ImageFronts`, `ImageClashes`, `ImageIndex`, `ImageRuns`, `ImageService`: images that several collections share and that alias resolution rewrites in place, the three indexes of a collection, when resolution raises, and the per-node lists of the prepuller. A `Registry` holds the fixed digest of each tag name, whether images with that tag may be aliases, and which images are aliases of themselves; a `universe` is any set of images that contains the collections at hand; both exist in proofs only. Several objects may have one tag, as refreshes and the Docker source make them, and a list may repeat any of its images.
- `LabBuilder` (with `LabModels`): the environment, annotations and quota written for a lab, and the state read back from them after a restart.
- `Purger`: which policy every file is checked against.
- `WebSocketCodec`, `DockerReference`: two formats with a printer and a parser.

Some things the source says of itself are not so, and the lemmas show where:

- A caller that joins a delete in progress can find no operation to wait for and get `NoOperationError` (`JoinerCanMissItsDelete`). It does so if and only if, when it queued for the lock, somebody about to clear that operation held the lock or was ahead of it (`JoinerFindsIff`); a free lock with nobody queued is enough to be served (`FreeLockFinds`).
- A reconcile is meant to leave a lab alone whose spawn ended after it started. A lab can look untouched although its spawn did (`EndedSpawnCanBeMissed`): a spawn that swallows its cancellation and is taken out of its slot by that `cancel`, while a second delete is ahead in the queue. Whenever that happens a delete of the lab is queued or waited for (`MissedSpawnIsBeingDeleted`), so it cannot happen to a lab nobody is busy with (`QuietSpawnIsRecent`); both are about labs that still have a state, which the run gives along with the steps (`Recorded`).
- An alias that `add` puts into a collection before the image it names never gets a target when that image is added: nothing recorded that it waits (`AddedAliasStaysUnresolved`). `Add` says exactly when the aliases of a digest all have targets.
- `subset` lists an image twice that it picks by count and that is also included by name. Such an image becomes its own alias if and only if it is in front of its digest. The first time nothing else is lost but that none is listed twice (`ListedOnce`): for every set of included names, every digest of the result has a front that knows the others (`Subset`).
- But that image is its own alias in every collection that shares it, and then alias resolution can raise `RuntimeError`, because a set grows that is being walked. A second `subset` of the same collection does so (`SecondSubsetFails`), and so does adding an image of that digest after a first one (`AddAfterSubsetFails`). The exact condition is one on the list and on what its images knew before (`Clashes`): some image of it that is no alias is its own alias and the last listed under its tag, does not have the tag of the first such image of its digest, did not know that one, and was not known to any such image between the two in the list, from which it would have heard of it (the first one counts too, if it is listed again after an image with that tag). `ReplaceContents`, `Make` and `Subset` fail if and only if their list has such an image, and `Add` if the list does from which it builds the collection again or, when it does not, if the image in front is its own alias and does not know the new one. A collection none of whose images is its own alias beside another of its digest never fails (`LoneNeverClashes`).
- `add` of an image whose tag another object already has leaves both in the index by type, and makes both their own aliases if the other was in front (`Add`). The prepuller can get there when a refresh replaces a node's collection during a pull. A list with such objects, as the Docker source makes of a tag that is both picked and included, gives a collection that finds the last by tag and has the first in front; all of them are their own aliases, and of them marking their digest on a node reaches just those two (`TwinsAre`, with `CollectTwins` for two objects of any tag).
- A task of the prepuller that still works through a list from before a refresh marks image objects that the new collections do not have. That does no harm as long as no image is for one architecture: whatever has been marked, the next prepull leaves no node with anything missing (`PrepullAfterMarks`).
- A node that has a digest cached twice has its image listed twice, and that image becomes its own alias in every collection (`BuildNodes`).
- A file that the purger may not look at is meant to be skipped, but the handler falls through to a variable that was never set, so planning fails. `MakePlan` succeeds if and only if there is no such file under the policy directories.
- Decoding a message raises `IndexError`, where the documentation promises `KeyError` or `ValueError`, if and only if it announces fewer than six offsets and all parts up to the last offset can be read (`DecodeFails`, with `ShortFrameFails` for concrete frames).
- Without a digest, a newline at the end of a Docker reference becomes part of the tag or the repository; after a digest it is dropped (`NewlineIsSwallowed`, `ParseFits`).
- The filter policy's documentation says that unknown images are never displayed; the code has no filter for them and keeps every one of them under every policy (`UnfilteredAreKept`).
- A build number or a cutoff build of zero counts as none in a filter, and so do an age and a number of zero (`FilterMeans`).

## Model

| member | source | states |
|---|---|---|
| LabProtocolInvariant.StepKeeps | src/nublado/controller/services/lab.py:1308-1334 | every step of every caller and task keeps the invariant: at most one unfinished operation, each request's view of the slot at most one change old, owners ahead of all who saw their operation |
| LabProtocolInvariant.ClearHeld | src/nublado/controller/services/lab.py:1426-1434 | the holder of the lock at the end of a wait awaits a task that finished uncancelled |
| LabProtocolInvariant.CancelHoldsSpawn | src/nublado/controller/services/lab.py:1316-1334 | what a `cancel` holding the lock has in front of it is the spawn it was issued against |
| LabProtocolTheorems.RunKeeps | src/nublado/controller/services/lab.py:1308-1434 | the invariant holds in every state of every run |
| LabProtocolTheorems.CancelRemembers | src/nublado/controller/services/lab.py:420-424 | a delete that sees a spawn queues a `cancel` for that spawn |
| LabProtocolTheorems.CancelFindsWhatItSaw | src/nublado/controller/services/lab.py:1316-1334 | when a `cancel` gets the lock it finds nothing or the very spawn it was issued against, however long it queued |
| LabProtocolTheorems.DeletesAreNeverCancelled | src/nublado/controller/services/lab.py:422-448 | in no run is a delete operation cancelled, and every finished one has signalled its waiters |
| LabProtocolTheorems.UnfinishedIsCurrent | src/nublado/controller/services/lab.py:1383-1392 | the only unfinished task is that of the operation in the slot |
| LabProtocolTheorems.FinallySignalsItsOwn | src/nublado/controller/services/lab.py:1503-1508 | the `finally` block of an operation that ran sets its own `complete` and changes no other operation |
| LabProtocolTheorems.StepRemoves | src/nublado/controller/services/lab.py:1326-1334 | a step removes an operation only if its task has finished, for the `cancel` or the waiter that holds the lock because of it |
| LabProtocolTheorems.RemovalIsEarned | src/nublado/controller/services/lab.py:1413-1434 | an operation leaves the slot only after its own task finished, by a waiter of its own or the `cancel` issued against it; a late waiter never removes a newer one |
| LabProtocolTheorems.RemovedOnce | src/nublado/controller/services/lab.py:1433-1434 | an operation is removed at most once and is never in the slot again |
| LabProtocolTheorems.RememberedStep | src/nublado/controller/services/lab.py:427-453 | each step keeps, while the lab has a state: after a spawn that a `cancel` took out of its slot, the lab was stamped since, the slot is taken, or a delete is under way |
| LabProtocolTheorems.OwnerFindsItsDelete | src/nublado/controller/services/lab.py:448-449 | the delete that started an operation finds that operation when it begins to wait |
| LabProtocolTheorems.WaitersSeeACleanEnd | src/nublado/controller/services/lab.py:1425-1429 | nobody waits for a task whose end raises `CancelledError` at them |
| LabProtocolTheorems.JoinerFindsIff | src/nublado/controller/services/lab.py:420-421 | a delete that saw a deletion in progress finds it when its turn comes iff nobody about to clear it held the lock or was ahead of it when it queued, and finds nothing otherwise |
| LabProtocolTheorems.FreeLockFinds | src/nublado/controller/services/lab.py:420-421 | a delete that joins while the lock is free and nobody queues waits for that deletion |
| LabProtocolTheorems.StarterStartsIff | src/nublado/controller/services/lab.py:1383-1392 | a delete or a create that saw no operation in progress starts its own at its turn iff nobody ahead of it in the queue had asked for the slot; a delete then waits for its deletion; otherwise somebody else's operation is in the slot and stays |
| LabProtocolTheorems.IdleDeleteStarts | src/nublado/controller/services/lab.py:422-449 | a delete of an idle lab, with the lock free and nobody queued, has its deletion in the slot at its grant and waits for it |
| LabProtocolTheorems.StepWorks | src/nublado/controller/services/lab.py:1413-1434 | every step but an arrival uses up some of the finite work of the callers already there |
| LabProtocolTheorems.RunsDrain | src/nublado/controller/services/lab.py:1308-1434 | without new arrivals a run takes no more steps than the work there was at its start |
| LabProtocolTheorems.NoDeadlock | src/nublado/controller/services/lab.py:1316-1334 | while somebody is blocked, some caller or the task of the current operation can take a step |
| LabProtocolTheorems.BlockedOnlyOnTheTask | src/nublado/controller/services/lab.py:1413-1434 | when no caller can step, every wait ends at the task of the current operation and none at the lock |
| LabProtocolTheorems.MissedSpawnIsBeingDeleted | src/nublado/controller/services/lab.py:93-110 | after a spawn ended past a cutoff a lab that has a state counts as modified since, or a delete is queued to start or waited for |
| LabProtocolTheorems.QuietSpawnIsRecent | src/nublado/controller/services/lab.py:93-110 | a lab with a state where nobody holds the lock, queues or waits counts as modified since every cutoff before its last spawn ended |
| LabProtocolRuns.JoinerCanMissItsDelete | src/nublado/controller/services/lab.py:420-421 | a prompt run, with a deletion that takes several turns, in which a caller that saw it finds no operation to wait for |
| LabProtocolRuns.EndedSpawnCanBeMissed | src/nublado/controller/services/lab.py:1197-1201 | a prompt run in which a spawn that swallowed its cancellation ended after the cutoff and the lab, which still has a state, does not count as modified, with a delete queued |
| LabMonitors.OwnerFinds | src/nublado/controller/services/lab.py:448-449 | the owner's wait at the head of the queue finds its operation in the slot |
| LabMonitors.LabMonitor.constructor | src/nublado/controller/services/lab.py:1285-1301 | a new monitor has no operation and nobody waiting |
| LabMonitors.LabMonitor.InProgress | src/nublado/controller/services/lab.py:1303-1306 | the kind of the current operation, which is the one started last |
| LabMonitors.LabMonitor.IsDone | src/nublado/controller/services/lab.py:1336-1356 | an error without an operation, else true exactly when the reaper may go and wait |
| LabMonitors.LabMonitor.RequestSpawn | src/nublado/controller/services/lab.py:323-378 | a conflict if an operation is in progress, else an error if there is a lab that may not be deleted first, with nothing changed; else a spawn is queued for `monitor` and nothing else changes |
| LabMonitors.LabMonitor.RequestDelete | src/nublado/controller/services/lab.py:403-448 | an error and no change for a user without a lab; else at the end of the queue a deletion to start if nothing is in progress, a `cancel` if a spawn is, a wait if a deletion is, and nothing else changes |
| LabMonitors.LabMonitor.RequestReap | src/nublado/controller/services/lab.py:564-567 | the reaper queues to wait exactly for operations whose task has ended |
| LabMonitors.LabMonitor.EnterMonitor | src/nublado/controller/services/lab.py:1383-1392 | a conflict exactly if the slot is taken, else the operation asked for is in the slot, unstarted, and a delete queues to wait for it; nothing else changes |
| LabMonitors.LabMonitor.EnterWait | src/nublado/controller/services/lab.py:1413-1417 | the operation found, or `NoOperationError` exactly if there is none; the owner of a delete finds its own |
| LabMonitors.LabMonitor.EnterHeld | src/nublado/controller/services/lab.py:1316-1325 | the lock is held, and exactly an unfinished operation to be cancelled has been asked to; nothing else changes |
| LabMonitors.LabMonitor.FinishCancel | src/nublado/controller/services/lab.py:1326-1334 | the slot is empty, and the caller queues for its own deletion, or gets an error if the lab state is gone |
| LabMonitors.LabMonitor.FinishWait | src/nublado/controller/services/lab.py:1426-1434 | never raises, clears the slot only of the operation waited for, and stamps `last_modified` for owners and the reaper only |
| LabMonitors.LabMonitor.WakeSleeper | src/nublado/controller/services/lab.py:1425-1426 | a waiter whose operation is complete queues for the lock again |
| LabMonitors.LabMonitor.StartTask | src/nublado/controller/services/lab.py:1468-1470 | the task of an operation that has not been asked to cancel starts |
| LabMonitors.LabMonitor.FinishTask | src/nublado/controller/services/lab.py:1503-1508 | the task that ends is that of the operation in the slot, and that one is signalled if it ran |
| LabModels.RunningPhases | src/nublado/controller/models/v1/lab.py:78-106 | a lab counts as running exactly for pending and running pods, and no phase makes it terminating |
| LabModels.PhaseTells | src/nublado/controller/models/v1/lab.py:78-106 | pending iff the pod is pending, running iff it runs, terminated iff it succeeded or failed, failed iff its phase is unknown |
| LabReconcile.LabRecord.Reconcile | src/nublado/controller/services/lab.py:1018-1045 | one record after the pass: kept if there is no lab, it failed or it changed since the cutoff, else what was seen, or failed if nothing was; monitored iff newly found pending |
| LabReconcile.LabManager.ReconcileKnownUsers | src/nublado/controller/services/lab.py:984-1045 | every record and the set to monitor after the pass over known users |
| LabReconcile.LabManager.CreateMissing | src/nublado/controller/services/lab.py:613-628 | new records exactly for the users only Kubernetes knew, those pending to be monitored |
| LabReconcile.LabManager.ReconcileRecords | src/nublado/controller/services/lab.py:602-628 | both passes: exactly which known records are kept, failed or set to what was seen, unknown ones created, and who is to be monitored |
| LabReconcile.CorrectedAgrees | src/nublado/controller/services/lab.py:1018-1045 | an unmodified record is afterwards absent, failed or what was observed |
| LabReconcile.CorrectedIs | src/nublado/controller/services/lab.py:1018-1045 | which records a pass keeps, fails or sets to what was seen, and that exactly those newly found pending are to be monitored |
| LabReconcile.LabManager.GatherNamespace | src/nublado/controller/services/lab.py:774-790 | a namespace is deleted iff no state could be read from it and its lab is unknown, or idle and not modified since the cutoff |
| LabReconcile.CorrectedOnce | src/nublado/controller/services/lab.py:1018-1045 | a second pass over the same observations changes nothing and monitors nobody |
| LabReconcile.RecentSpawnIsLeftAlone | src/nublado/controller/services/lab.py:783-790 | a lab whose spawn ended after the cutoff keeps its record, and if it has a state its namespace, unless a delete is pending |
| Progress.DeleteLab | src/nublado/controller/services/lab.py:677-728 | the three values start and end as asked, with the middle rounded down between, and never decrease |
| Progress.DeleteAlone | src/nublado/controller/services/lab.py:684-685 | a delete by request reports 25, 62 and 100 |
| Progress.WatchedRises | src/nublado/controller/services/lab.py:1246-1249 | each pod event raises the value until it is 73 |
| Progress.WatchedSettles | src/nublado/controller/services/lab.py:1238-1249 | the values after the first eight numbers of pod events, and 73 exactly from the eighth event on |
| Progress.WatchSpawnEvents | src/nublado/controller/services/lab.py:1207-1249 | for any number of pod events the very values, which lie in 35 to 73 and rise strictly below 73 |
| Progress.SpawnLab | src/nublado/controller/services/lab.py:1114-1164 | all values of a spawn: 1, with a lab to delete first also 2, 5, 12 and 20, then 30 and those of the pod events; they never decrease |
| Progress.MonitorPendingSpawn | src/nublado/controller/services/lab.py:942-981 | the values of a spawn found pending: 1 and those of the pod events; they never decrease |
| TagOrder.FromMatchesWellParsed | src/nublado/models/images/_tag.py:246-329 | a parsed tag of a versioned series has a version and no base, any other tag a base and no version, also after `exp_` rewriting |
| TagOrder.ParsedTagsAreWellParsed | src/nublado/models/images/_tag.py:142-209 | whatever `from_str` and `alias` make is well parsed |
| TagOrder.LegalAtNewline | src/nublado/models/images/_tag.py:41-81 | the assumptions on the tag expressions leave room for a final newline after an experimental tag |
| TagOrder.MatchTells | src/nublado/models/images/_tag.py:247-329 | a match makes a tag iff its date is one; each group goes to its own field, weeklies get the date of their Thursday and dailies their day |
| TagOrder.FirstMatchWins | src/nublado/models/images/_tag.py:193-209 | the tag is that of the first match that can be turned into one, an experimental one that of its rest; without any it is unknown |
| TagOrder.LaterIsGreater | src/nublado/models/images/_tag.py:359-411 | of two parsed tags of one series the one of the later week, day or release compares greater, and of two candidates of one release the later |
| TagOrder.VersionDecides | src/nublado/models/images/_tag.py:433-438 | major, minor and patch numbers decide in this order, and a prerelease is less than its release |
| TagOrder.TiesAreBroken | src/nublado/models/images/_tag.py:440-457 | among tags of one version or base cycle, cycle build, build, rest and architecture decide in this order; what is missing is less, but no architecture is greatest |
| TagOrder.TextDecides | src/nublado/models/images/_tag.py:478-489 | texts are ordered by the first character that differs, and before their continuations |
| TagOrder.CompareChains | src/nublado/models/images/_tag.py:414-457 | the comparison is transitive on well-parsed tags of one type |
| TagOrder.CompareFlips | src/nublado/models/images/_tag.py:414-489 | swapping its arguments negates the comparison, so it is a total preorder |
| TagOrder.CompareNeedsParsing | src/nublado/models/images/_tag.py:433-438 | on records that no parser makes the comparison is not transitive |
| TagOrder.SortSorts | src/nublado/models/images/_tag.py:535-542 | sorting one series puts it in descending order |
| TagOrder.SortKeepsElements | src/nublado/models/images/_tag.py:541-542 | sorting is a permutation |
| TagOrder.SortIsStable | src/nublado/models/images/_tag.py:541-542 | tags that compare alike keep their order |
| TagOrder.ResortIsSort | src/nublado/models/images/_tag.py:544-554 | adding one tag and sorting again is the same as sorting all tags at once |
| TagCollections.TagCollection.constructor | src/nublado/models/images/_tag.py:535-542 | the indexes are those of the tags added, each series sorted |
| TagCollections.TagCollection.Add | src/nublado/models/images/_tag.py:544-554 | the collection is that of the tags added before and the new one |
| TagCollections.TagCollection.Latest | src/nublado/models/images/_tag.py:616-630 | the latest tag of a type is a maximum of its series, and missing exactly if there is none |
| TagCollections.TagCollection.AllTags | src/nublado/models/images/_tag.py:556-574 | all tags by type, newest first, without the architecture-specific ones if asked |
| TagCollections.EveryTagListed | src/nublado/models/images/_tag.py:556-574 | every tag is listed as often as it was added, unless it is hidden for its architecture |
| TagCollections.InMenuOrder | src/nublado/models/images/_tag.py:556-574 | aliases are listed first, then releases, weeklies, dailies, candidates, experimental and unknown tags |
| TagCollections.ListedNewestFirst | src/nublado/models/images/_tag.py:556-574 | those of one type are tags of that type, newest first |
| TagCollections.TagCollection.TagForTagName | src/nublado/models/images/_tag.py:678-691 | the tag added last under a name, missing exactly if there is none |
| TagCollections.TagCollection.Filter | src/nublado/models/images/_tag.py:576-614 | the tags that the policy of each type keeps or, inverted, prunes; `FilterMeans` and `InvertedIsRest` say which these are |
| TagCollections.FilterMeans | src/nublado/models/images/_tag.py:693-747 | of each type with its own policy: what is kept meets the cutoff date, the age, the cutoff build and the cutoff version that are set; a candidate that meets them all is pruned only if the number is limited and that many are kept, none of them older |
| TagCollections.InvertedIsRest | src/nublado/models/images/_tag.py:749-794 | the inverted filter of a collection yields exactly the candidates that the filter does not |
| TagCollections.TagCollection.SubsetOf | src/nublado/models/images/_tag.py:632-676 | a collection of the newest tags of three types and of the included ones |
| TagCollections.AppendedSeries | src/nublado/models/images/_tag.py:552-554 | adding a tag changes its own series only, and that one as a full sort would |
| TagCollections.LatestIsFirst | src/nublado/models/images/_tag.py:616-630 | no tag of the type compares greater than the first of its series |
| TagCollections.SeriesFilterPartitions | src/nublado/models/images/_tag.py:749-794 | filter and inverted filter split the candidates of a series into two without loss or repetition |
| TagCollections.FilterPartitions | src/nublado/models/images/_tag.py:576-614 | the same over all types of a collection with distinct names |
| TagCollections.KeptAreTheNewest | src/nublado/models/images/_tag.py:722-747 | no passing tag that was pruned is greater than a kept one |
| TagCollections.FilterKeepsTheNewest | src/nublado/models/images/_tag.py:576-614 | the same for the filter of a collection |
| TagCollections.FilterIsIdempotent | src/nublado/models/images/_tag.py:722-794 | filtering what was kept keeps all of it |
| TagCollections.FilteredOfType | src/nublado/models/images/_tag.py:607-614 | of each type the filter of a collection yields exactly what it yields of that series |
| TagCollections.UnfilteredAreKept | src/nublado/models/images/_filter.py:137-152 | every unknown or alias tag that is a candidate is kept under every policy, and no inverted filter yields it |
| TagCollections.RefilterKeepsAll | src/nublado/models/images/_tag.py:576-614 | a collection made of what a filter kept loses nothing to that filter, and the order stays |
| TagCollections.FirstAreTheGreatest | src/nublado/models/images/_tag.py:796-830 | a count takes candidates of its type only, no more than asked for; a candidate is left out only if as many are taken as asked for, none of them older |
| TagCollections.SubsetNames | src/nublado/models/images/_tag.py:652-676 | as names, a subset is the tags taken by count and those included |
| ImageLists.KeysOfFirst | src/nublado/models/images/_tag.py:796-830 | choosing among images is choosing among the tags they carry |
| ImageLists.FirstImagesAreTheGreatest | src/nublado/models/images/_tag.py:796-830 | the same for a sorted list of images |
| Images.RSPImage.constructor | src/nublado/models/images/_image.py:57-93 | a new image has no aliases, no target and no nodes |
| Images.RSPImage.ResolveAlias | src/nublado/models/images/_image.py:110-145 | an error and no change for images that cannot be aliases, else the new type, target, aliases, cycle, architecture and date of both images |
| Images.RSPImage.SeenOn | src/nublado/models/images/_image.py:364-367 | the node is added, the size replaced if one is given |
| ImageFronts.SpreadAlias | src/nublado/models/images/_image.py:558-562 | exactly the images held under an alias of the image in front learn the new tag; the set walked does not change, not even in the last turn |
| ImageFronts.AdoptAliases | src/nublado/models/images/_image.py:564-574 | who knows whom after one image took over another's aliases or its own, and that what targeted the one targets the other; it fails iff the other is its own alias and does not know the one yet, because then the set walked grows |
| ImageFronts.Outrank | src/nublado/models/images/_image.py:563-576 | it fails iff the old image is its own alias, found by tag, and does not know the new one; else the new image knows all that the old one knew and is known to those found under its aliases, targets move, other digests are untouched, and both become their own aliases iff they have one tag |
| ImageFronts.KeepCycle | src/nublado/models/images/_image.py:480-482 | the images of the cycle asked for, in their order |
| ImageFronts.StillStands | src/nublado/models/images/_image.py:518-576 | images may gain aliases through other collections without disturbing who is in front here |
| ImageClashes.ClashIs | src/nublado/models/images/_image.py:564-574 | for any list, at the image at hand the set walked grows iff the list says so, in terms of what its images knew before resolution began |
| ImageClashes.KnowsNext | src/nublado/models/images/_image.py:486-497 | for any list, one more image: an image of the list knows its front afterwards iff it did before, was listed up to here, or has heard of it from another one, and a front knows nothing but tags of the list besides |
| ImageIndex.RSPImageCollection.FollowOld | src/nublado/models/images/_image.py:551-562 | a possible alias follows the image in front, which may have its tag: resolved against it, or waiting if that one may be an alias too |
| ImageIndex.RSPImageCollection.ReplaceOld | src/nublado/models/images/_image.py:563-576 | an image that is no alias takes the place of the one in front, which may be itself, unless the walked set grows, which is exactly when it fails |
| ImageIndex.RSPImageCollection.FirstPass | src/nublado/models/images/_image.py:484-497 | for any list: fails iff it clashes; else the first image of each digest that is no alias is in front and knows the others, what every image knows is determined, possible aliases are set aside in order, and an image becomes its own alias iff it has the tag of the one in front and that tag is listed twice |
| ImageIndex.RSPImageCollection.SecondPass | src/nublado/models/images/_image.py:499-511 | possible aliases target the fronts of the first pass or wait behind one of themselves; no other type or target changes; which become their own aliases |
| ImageIndex.RSPImageCollection.ReplaceContents | src/nublado/models/images/_image.py:462-516 | for any list: fails iff the list of the cycle clashes; else fronts, aliases, types, indexes (by tag the last listed), untouched images and which images become their own aliases |
| ImageIndex.RSPImageCollection.Make | src/nublado/models/images/_image.py:183-193 | the same for a new collection, or the exception its construction ends with |
| ImageIndex.TwinsAre | src/nublado/models/images/_image.py:462-516 | images of any list with one tag: the first is in front if it is the first of its digest that is no alias, the last is found by tag, all are their own aliases, and of them marking the digest reaches just those two |
| ImageIndex.RSPImageCollection.Add | src/nublado/models/images/_image.py:195-225 | for any image and any collection: exactly when it fails, and what is left then; else the star is kept, who learns of the new image (everybody of the digest if its tag is new and no two members share one), who is in front, what the indexes have, which targets move, what a rebuild loses, exactly when all aliases of the digest have targets, and which images become their own aliases |
| ImageIndex.RSPImageCollection.MarkImageSeenOnNode | src/nublado/models/images/_image.py:345-372 | the node is added to exactly the members with the digest that are in front of it or found by their tag, which is all of them if no two share a tag |
| ImageIndex.RSPImageCollection.Subset | src/nublado/models/images/_image.py:374-411 | for every collection and every set of included names: fails iff its list clashes; each image is a member as often as the counts for releases, weeklies and dailies and the names take it; the star of both collections holds; which images become their own aliases (where no two members share a tag, those picked, included and in front); nothing that is no alias precedes a front in a menu |
| ImageIndex.CountTakes | src/nublado/models/images/_image.py:402-409 | of a collection whose lists are sorted, as a new one's are, a count takes shown members of its type only, no more than asked for, and leaves one out only if as many are taken as asked for, none of them older |
| ImageIndex.RSPImageCollection.Subtract | src/nublado/models/images/_image.py:413-437 | one image for each digest that the other collection has no generic image of, and no others, with no image changed |
| ImageIndex.RSPImageCollection.AllImages | src/nublado/models/images/_image.py:227-268 | the members by type, in order, each as often as it is listed, without those for one architecture, those that an alias in the collection targets and those whose own target is in it, as asked |
| ImageIndex.RSPImageCollection.IsImageAliased | src/nublado/models/images/_image.py:439-460 | whether an alias in the collection that the image knows targets it |
| ImageIndex.AliasedIsCovered | src/nublado/models/images/_image.py:227-268 | an image hidden because an alias stands for it: that alias has its digest and is not hidden |
| ImageIndex.AddedAliasStaysUnresolved | src/nublado/models/images/_image.py:212-225 | an alias added before its image has no target after the image was added |
| ImageIndex.StarMeans | src/nublado/models/images/_image.py:186-190 | every member has a front of its digest, which has its tag or knows it and is found by its own tag or is its own alias, and aliases and targets among members share their digest |
| ImageIndex.StarKept | src/nublado/models/images/_image.py:374-437 | a collection keeps its star whatever is done to its images through other collections |
| ImageIndex.KnowsItsDigest | src/nublado/models/images/_image.py:362-372 | the image in front and those that its aliases find by tag are exactly the members with its digest that are in front or found by their own tag |
| ImageIndex.LoneNeverClashes | src/nublado/models/images/_image.py:374-411 | no list of images clashes none of which is its own alias beside another of its digest |
| ImageIndex.ApartNeverClashes | src/nublado/models/images/_image.py:413-437 | no list clashes that has one image for each digest, so `subtract` never fails |
| ImageRuns.SecondSubsetFails | src/nublado/models/images/_image.py:374-411 | a candidate, a release and a weekly of one digest, collected in this order: the first subset that picks and includes the weekly succeeds, the second that picks the release and includes the weekly raises the error, whether or not images for one architecture are left out |
| ImageRuns.TwoSubsets | src/nublado/models/images/_image.py:374-411 | the same for any collection in which a weekly does not know the one release of its digest |
| ImageRuns.AddAfterSubsetFails | src/nublado/models/images/_image.py:195-225 | after such a first subset, adding an image of the digest that the weekly does not know raises the error |
| ImageRuns.CollectTwins | src/nublado/models/images/_image.py:462-516 | two new objects of any tag that names no alias: both are listed, the first is in front, the second is found by the tag, both are their own aliases, and marking reaches both |
| ImageServices.ImageService.constructor | src/nublado/controller/services/image.py:63-102 | nothing to prepull and no nodes before the first refresh |
| ImageServices.ImageService.Refresh | src/nublado/controller/services/image.py:309-325 | after a refresh every node misses exactly the digests to prepull that it has not cached, those of images for one architecture aside, nothing obstructs them, and exactly the fronts of digests cached twice become their own aliases |
| ImageServices.RefreshTells | src/nublado/controller/services/image.py:338-382 | after a refresh a node has an image in front of a digest to prepull iff it has the digest cached, as often as it is cached, and misses the digest iff it has it not and the image is generic |
| ImageServices.BuildNodes | src/nublado/controller/services/image.py:338-382 | a collection of its own for every node, with the cached digests among those to prepull, their fronts, and each image listed as often as its digest is cached; an image becomes its own alias iff some node has its digest cached twice |
| ImageServices.CachedCounts | src/nublado/controller/services/image.py:360-372 | the images of interest on a node are exactly those in front of a digest to prepull, each as often as its digest is cached |
| ImageServices.ImageService.MissingImagesByNode | src/nublado/controller/services/image.py:261-276 | exactly the nodes that miss something, each with one image for each digest it misses, where images for one architecture neither count as present nor are listed |
| ImageServices.MissingTells | src/nublado/controller/services/image.py:261-276 | a node misses a digest iff a generic image is in front of it in the prepull subset and the node has no generic image of it |
| ImageServices.ImageService.MarkPrepulled | src/nublado/controller/services/image.py:236-259 | for any image and any state: fails iff adding the image to the node does; the digest is recorded for that node and the images of it that marking reaches, also those in the prepull subset, and for no other node or digest; what the node's collection holds afterwards, and which images become their own aliases |
| ImageServices.ImageService.PrepullImagesForNode | src/nublado/controller/services/prepuller.py:79-94 | the images given are no longer missing on this node, no other node's list changes, and no image is changed but in the nodes it is on |
| ImageServices.ImageService.PrepullAll | src/nublado/controller/services/prepuller.py:65-77 | in whatever order the tasks of the nodes take their steps, in the end no node with a list misses anything, and the others miss what they did |
| ImageServices.ImageService.PrepullImages | src/nublado/controller/services/prepuller.py:65-77 | afterwards no node misses anything |
| ImageServices.GenericUnobstructed | src/nublado/controller/services/image.py:236-259 | in every state of the service in which no image is for one architecture, no member of a node's collection has a digest that the node misses, so the prepuller may run |
| ImageServices.PrepullAfterMarks | src/nublado/controller/background.py:102-108 | from any state without images for one architecture, after any marks of any image objects on any nodes none of which fails, prepulling leaves no node with anything missing |
| ImageServices.MarkCached | src/nublado/controller/services/source/gar.py:199-206 | every image in front or found by its tag, which is every image if no two share a tag, is recorded on exactly the nodes that have its digest cached, besides what was recorded before |
| LabBuilder.ParsePrinted | src/nublado/controller/services/builder/lab.py:364-365 | numbers written in decimal are read back |
| LabBuilder.DigitsParse | src/nublado/controller/services/builder/lab.py:250-258 | exactly what consists of digits is read as a number |
| LabBuilder.ValidateSizes | src/nublado/controller/config.py:1233-1245 | exactly the lists without a repeated size are accepted |
| LabBuilder.GetSizeDefinition | src/nublado/controller/config.py:1272-1293 | the definition of a size, missing exactly if there is none |
| LabBuilder.RecreateSize | src/nublado/controller/services/builder/lab.py:1116-1141 | the first size with these resources, or the custom one |
| LabBuilder.SizeComesBack | src/nublado/controller/services/builder/lab.py:1116-1141 | a size is read back iff no size defined before it has the same resources |
| LabBuilder.BuildEnvConfigMap | src/nublado/controller/services/builder/lab.py:333-395 | the layers of the environment, each over the ones before |
| LabBuilder.EnvLayers | src/nublado/controller/services/builder/lab.py:333-395 | a configured variable has its configured value whatever else is set; one that nothing else sets has the hub's |
| LabBuilder.EnvDescribes | src/nublado/controller/services/builder/lab.py:349-366 | image, description, digest, size and activity interval are written, unless configured otherwise |
| LabBuilder.EnvLocates | src/nublado/controller/services/builder/lab.py:366-376 | instance URL, configuration directory, start command and mounts directory are written, unless configured otherwise |
| LabBuilder.EnvHas | src/nublado/controller/services/builder/lab.py:338-387 | every variable that is read back has the value written, whatever the hub and the configuration set |
| LabBuilder.ReadNamesReserved | src/nublado/controller/config.py:74-79 | the configuration may set no variable that is read back |
| LabBuilder.AnnotationsHave | src/nublado/controller/services/builder/lab.py:620-630 | groups and name are read back iff the groups written can be and the configured annotations spare or repeat them |
| LabBuilder.AnnotationLayers | src/nublado/controller/services/builder/lab.py:620-630 | a configured annotation has its configured value; else there are those of every object and the user's, and no others |
| LabBuilder.QuotaComesBack | src/nublado/controller/services/builder/lab.py:495-509 | the quota in bytes and CPUs, or its absence, is read back iff both its forms agree and its number of CPUs can be read |
| LabBuilder.GigabyteBytes | src/nublado/controller/services/builder/lab.py:495-499 | a gigabyte of quota is 2^30 bytes, rounded down |
| LabBuilder.ResourcesComeBack | src/nublado/controller/services/builder/lab.py:355-366 | limits and requests are read back iff their numbers of CPUs can be, whatever the hub and the configuration set |
| LabBuilder.RecreateLabState | src/nublado/controller/services/builder/lab.py:200-285 | the state read from the objects found, nothing if anything is missing or malformed |
| LabBuilder.RecreateNeeds | src/nublado/controller/services/builder/lab.py:231-285 | a state is read iff nothing needed is missing and every number and the groups can be read |
| LabBuilder.RecreateReads | src/nublado/controller/services/builder/lab.py:231-285 | each part of the state comes from its own place: user and group from the first notebook container, options, resources and URL from the environment, the status from the phase alone, the quota from the quota |
| LabBuilder.RestartRoundTrip | src/nublado/controller/services/builder/lab.py:200-285 | the state read back is the one requested, with the status of the pod's phase and the lab's URL, iff the hub set no option, no earlier size is a twin, annotations agree, the quota's bytes agree, and the very numbers and groups written can be read |
| Purging.PurgedStaysPurged | src/nublado/purger/purger.py:108-180 | a file purged at some time would be purged at any later time |
| Purging.PurgedIsOld | src/nublado/purger/purger.py:146-180 | what is purged has outlived the interval it is purged for, which is not zero |
| Purging.OnlyDeniedFails | src/nublado/purger/purger.py:128-137 | the check fails exactly for files that may not be looked at |
| Purging.CheckTells | src/nublado/purger/purger.py:139-180 | a file's record has its size class, the first of access, creation and modification that is older than the interval its class sets, that interval and the age; a file has none iff it is a link, missing, or not older than any interval set |
| Purging.SortKeeps | src/nublado/purger/models/v1/policy.py:218-231 | the directories in ascending length, none lost |
| Purging.DeepestNow | src/nublado/purger/purger.py:63-85 | a directory not visited before lies deepest in the tree walked now |
| Purging.GetDirectoryPolicy | src/nublado/purger/purger.py:94-103 | the first policy listed for a path |
| Purging.CheckVisited | src/nublado/purger/purger.py:105-106 | whether the directory lies in a tree visited before |
| Purging.WalkTree | src/nublado/purger/purger.py:72-89 | the files of one tree not visited before are checked once each, against its policy |
| Purging.Purger.MakePlan | src/nublado/purger/purger.py:40-92 | succeeds iff every file under a policy directory may be looked at; then each is checked once, by the deepest directory's policy, and the plan has exactly one right record for each file that is too old |
| Purging.RecordsAreRight | src/nublado/purger/purger.py:72-92 | the records that the checks give are the right plan for them: one for each file that is too old, and no others |
| WebSocketCodec.Encode | client/src/rubin/nublado/client/_websocket.py:71-123 | the bytes of a message, an error exactly if the channel is missing or the length does not fit eight bytes |
| WebSocketCodec.RoundTrip | client/src/rubin/nublado/client/_websocket.py:14-123 | decoding what was encoded gives the message, with `{}` for absent parts |
| WebSocketCodec.OffsetsSpan | client/src/rubin/nublado/client/_websocket.py:103-120 | the offsets start at 56, never decrease and end at the length of the message |
| WebSocketCodec.LayoutReads | client/src/rubin/nublado/client/_websocket.py:43-59 | the offsets and the parts between them are read back from their places |
| WebSocketCodec.LittleReads | client/src/rubin/nublado/client/_websocket.py:45-52 | little-endian numbers are read back |
| WebSocketCodec.LittlePlaces | client/src/rubin/nublado/client/_websocket.py:119-120 | the bytes of a number come lowest first |
| WebSocketCodec.DecodeFails | client/src/rubin/nublado/client/_websocket.py:40-59 | exactly which frames decode and which raise each error: an index error iff fewer than six offsets and all parts up to the last are readable |
| WebSocketCodec.DecodeReads | client/src/rubin/nublado/client/_websocket.py:43-59 | what is decoded is read from between the offsets, channel, header, parent header, metadata and content in this order |
| WebSocketCodec.ShortFrameFails | client/src/rubin/nublado/client/_websocket.py:40-59 | an empty frame and one with a single offset raise an index error |
| DockerReferences.ParseIsTheFit | src/nublado/controller/models/domain/docker.py:9-16 | the greedy parse is the only way to split a reference to its end, and the only way at all with a digest |
| DockerReferences.NewlineIsSwallowed | src/nublado/controller/models/domain/docker.py:12-16 | without a digest a newline at the end goes to the last group |
| DockerReferences.ParseFits | src/nublado/controller/models/domain/docker.py:35-65 | what is parsed is well formed and prints as the string, except for a newline after a digest |
| DockerReferences.ParsesIffFits | src/nublado/controller/models/domain/docker.py:55-58 | a string parses iff the pattern can be matched at all |
| DockerReferences.PrintedParses | src/nublado/controller/models/domain/docker.py:67-74 | printing and parsing gives back exactly the well-formed references |
| DockerReferences.SeparatorsInside | src/nublado/controller/models/domain/docker.py:9-16 | only the first slash, the first colon behind it and the first at sign separate |

## Left out

- Registry: images with one tag have one digest, and all or none of them may be aliases; a tag that moves to another digest between two refreshes is left out.
- RSPImage.ResolveAlias: the display name that is built again is left out, as are the registry and the reference.
- ImageService.PrepullImagesForNode: stated for states in which no image for one architecture takes up a digest that its node is missing (`Unobstructed`), as are `PrepullAll` and `PrepullImages`; every state without images for one architecture is one (`GenericUnobstructed`), and so is every state right after a refresh.
- ImageService.PrepullImages: the pulls and their failures are left out; the tasks interleave between marks, each of which the program makes without suspending.
- Sortedness of image collections after `add`: alias resolution changes sort keys of images already in the lists, so it is stated for freshly built collections only.
- LabMonitor.RequestSpawn: whether there is a lab and whether it may be deleted first are inputs; the source computes the second from Kubernetes before an await, and nothing is claimed about that.
- LabMonitor.RequestDelete: whether the user has a lab is an input.
- LabMonitor: the lab's status and state, event queues, timeouts and exception reports (assumed not to raise or suspend) are not part of the protocol's state; whether the lab has a state is recorded beside the steps of a run where a theorem needs it (`Recorded`).
- The reaper's pass over several users: one lab's protocol is modelled, so a reaper held up by another user's lock is left out.
- `stop_monitor_tasks` and the cancellation of request handlers.
- LabManager.ReconcileRecords: the two passes that change records; the monitors started afterwards and the deletion of completed labs are operations of the protocol.
- The patterns that match tags: their groups are the input; display names are left out.
- How Kubernetes normalises quantities, and all objects that are not read back.
- LabBuilder.DigitsParse: spaces, signs and underscores, which Python's `int` also reads, are left out; the program writes none.
- LabBuilder.RestartRoundTrip: how floating-point numbers and JSON are printed and parsed is an input; the quota's bytes come from a library that is not part of this repository and are compared in `QuotaAgrees`.
- Purger: what `purge` does with a plan, and the removal of directories left empty.
- Directories reached through symbolic links: paths are compared as written, as in the source.
- WebSocketCodec.RoundTrip: JSON and UTF-8 are pairs of a printer and a parser that undoes it; text that cannot be encoded is left out.
- Docker registries, the Google Artifact Registry, Kubernetes watches, Slack, Sentry, metrics, HTTP handlers and templates.
- `FileserverManager`, which is a simpler version of the lab protocol.
