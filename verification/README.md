# Verification of the gigaevo store, snapshot cache and adversarial protocols

This project models, in Dafny, the parts of gigaevo whose correctness is hardest to see
from any single function, and proves what they promise over every input and every run:

* **The program store** (`Programs`, `MergeStrategies`, `Occ*`, `ProgramStore*`,
  `RedisProgramStorage`, `StateManager`, `LockTable`). `OccProtocol` is a state machine
  with one action per server command. Any number of clients run `update` and
  `atomic_state_transition` (WATCH, GET, INCR outside the transaction, merge, MULTI/EXEC,
  retry) next to unwatched bulk writers (INCRBY, then SETs; `OccMixed` adds the SREM and SADD
  of fast and batch transitions as commands of their own). Its safety and progress
  theorems hold for all interleavings and, unless stated otherwise, for every merge
  function. `RedisProgramStorage.Storage` is the same store as an object, one operation at
  a time, with the chunk loops of the source.
* **The epoch snapshot** (`SnapshotProtocol`, `SnapshotRuns`, `PopulationSnapshot`): runs of
  writes, full and incremental bumps, and fetches that wait for the server twice while others
  go on; the rules its users have to keep; and the object that performs the fetches.
* **The D-G tracker** (`DgTracker`, `DgTrackerStore`, `DgTrackerStage`, `SharedLineage`,
  `CompositionInjection`): five redundant indices, what feeds them, and who relies on them.
* **Drift-cap synchronisation** (`SyncHook`, `DriftProtocol`, `DriftTight`): one hook, any
  number of populations, the exact drift bound, and freedom from deadlock.
* **Smaller algorithms**: cell-stratified selection (`OpponentProvider`,
  `StratifiedProvider`), pipeline rewrites (`Digraph`, `PipelineGraph`, `PipelineBuilder`,
  `PipelineRewrites`), and the frontier scan (`Frontier`).

Objects that change in place are classes; each of their methods is proved against a
specification function, and the theorems are about those functions. The server is a set of
maps and sets with atomic commands. `dfyconfig.toml` names all files of the project.

## Where the code and its own claims differ

The code is modelled as it is. Each behaviour below follows from a lemma or contract in the
table; the remarks that cite a source line say where the claim is made.

* `merge_states` is called a lattice operation (gigaevo/database/merge_strategies.py:89),
  but QUEUED, RUNNING and DONE beat each other in a cycle, so three-way merges depend on the
  grouping (`MergeStatesAssociativeIff`).
* A program read from the store, changed and handed to `update` never changes a stored
  value or the code: the read copy carries at most the stored counter, and the merge prefers
  the stored side unless the incoming counter is greater (`CopiesNeverOverwrite`).
* `write_exclusive` reserves its stamp before it writes and can therefore lower a stored
  stamp (`ExclusiveWriteCanLowerStamp`); exactly when a commit overtakes a smaller
  reservation of its key (`StampsGrowIff`), which exclusive ownership excludes.
* A full bump followed by an incremental one before any fetch revives the old cache.
* A bump during a fetch labels what was read before it as the new epoch's. A full bump while
  an incremental fetch waits for its programs also empties the dictionary the fetch works on:
  the fetch then publishes only the programs it read again, without those it trusted, or
  raises `KeyError` if some id was to be deleted (`FullBumpSettles`).
* An unfinished program that is deleted between the two reads of an incremental fetch stays
  in the published list with its old entry (`WriteIff`).
* One iteration whose only values do not parse makes the plot statistics raise `IndexError`
  (`ComputePerIterationStats`).
* The chunk size of a batch by ids shows in the stamps and the count exactly when a program
  to be moved is listed twice (`ChunksAreOnePassIff`).
* `record_improvement` leaves the five indices of the tracker disagreeing unless the win of
  the pair is on record (`ImprovementKeepsAgreeIff`).
* A permanent mark for a pair with a bar in an id marks another pair too
  (`MarksOnlyThisPairIff`).
* Evicting a lock while another task waits for it lets two tasks work on one program.
* Repeating a pair in one batch leaves its last delta, not its best, in the global ranking.
* A failed reading of a population's own progress counts as 0 and passes the drift test, so it
  can break the drift bound, as a timeout can. Leaving the wait in either way is harmless
  exactly at a drift of at most max(cap, d0 + (K-1)*E) (`UncheckedExitIff`). The engine calls the hook once per run
  (gigaevo/evolution/engine/steady_state.py:116-117), which is never a call that tests the
  drift (`SyncCount`); the bound is about the hook called before every epoch, as its
  documentation describes.
* From a cache that is not empty the stratified provider returns one opponent, not none, for
  k < 1.

## Model

| member | source | states |
|---|---|---|
| Programs.MergeStatesTotal | gigaevo/programs/program_state.py:76-94 | the raising branch is dead: any two states merge, to one of the two, in either order, and DISCARDED always wins |
| Programs.MergeGoesForward | gigaevo/programs/program_state.py:29-94 | QUEUED with RUNNING merges to RUNNING, RUNNING with DONE to DONE, DONE with QUEUED to QUEUED, and anything with DISCARDED to DISCARDED, in either order; a transition is legal exactly when it stays or is one of these moves, and exactly when the merge takes the new state |
| Programs.MergeStatesAssociativeIff | gigaevo/programs/program_state.py:25-94 | merging three states is independent of the grouping exactly when they are not QUEUED, RUNNING and DONE in some order |
| MergeStrategies.MergeDictByProgTs | gigaevo/database/merge_strategies.py:9-32 | the loop yields the union of both dictionaries where shared keys go to the newer program and ties to the stored one |
| MergeStrategies.MergeLineageIsStableUnion | gigaevo/database/merge_strategies.py:35-60 | merged children are the union of both sides with the stored ones first, and free of repetitions exactly when the stored ones are and no child new to the store is listed twice |
| MergeStrategies.MergeLineageKeepsOrder | gigaevo/database/merge_strategies.py:46-53 | new children come over in the order and number in which they are listed |
| MergeStrategies.MergeFailsIff | gigaevo/database/merge_strategies.py:63-123 | a merge raises exactly for different ids or two different names |
| MergeStrategies.MergeAdditive | gigaevo/database/merge_strategies.py:63-123 | field by field what a merge gives: all keys of both sides, a shared one with the incoming value only if the incoming program is newer, the code likewise, the union of the children, the name filled in, the state moved on by a legal transition; no key, child or immutable of the stored program is lost, and a side that is not newer overwrites nothing |
| MergeStrategies.MergeOrderIndependentIff | gigaevo/database/merge_strategies.py:9-123 | when maps and code come out independent of the argument order: for different counters always, for equal ones exactly when the two sides agree where they overlap |
| OccSafety.FreshStep | gigaevo/database/redis_program_storage.py:186-208 | in every state any action leads to, a client whose watched key was not written since holds the blob stored now |
| OccSafety.ExecStores | gigaevo/database/redis_program_storage.py:186-208 | in every reachable state: if the key was not written since WATCH, EXEC stores exactly the merge of the blob stored now with the incoming program, or that program itself on an unknown key, under the stamp of its INCR, or the merge raises; otherwise nothing is written, and the client starts over or its merge raises |
| OccSafety.StepRefines | gigaevo/database/redis_program_storage.py:183-208 | one server command either leaves blobs and history alone or is one atomic merge-then-stamp against the blob stored at that instant |
| OccSafety.NoLostUpdate | gigaevo/database/redis_program_storage.py:180-210 | in every interleaving of any number of clients the stored blobs are the fold, in commit order, of merge-then-stamp over the committed programs |
| OccStamps.ExecRaisesStamp | gigaevo/database/redis_program_storage.py:418-484 | a successful EXEC stores a stamp above the stored one and above every stamp ever written to that key, although INCR ran outside the transaction |
| OccStamps.StampsGrow | gigaevo/database/redis_program_storage.py:186-208 | in every run, bulk writers included, each EXEC commit of a key is stamped above all earlier commits of that key, and no stamp exceeds the counter |
| OccStamps.StampsUnique | gigaevo/database/redis_program_storage.py:551-569 | all stamps written in a run, INCRBY ranges included, are pairwise distinct and above every stamp stored before |
| OccStamps.ExclusiveWriteCanLowerStamp | gigaevo/database/redis_program_storage.py:212-228 | from any initial state with two clients there is a run in which an exclusive write lowers a stored stamp |
| OccStamps.StampsGrowIff | gigaevo/database/redis_program_storage.py:180-228 | for every run that ends with all clients idle: every commit raises the stamp of its key if and only if no commit was ever made while another client held a smaller stamp for that key unwritten |
| OccStamps.OwnedStampsGrow | gigaevo/database/redis_program_storage.py:212-228 | if nobody commits to a program between its owner's reservation and write, no commit overtakes a reservation, so every commit of every kind raises the stamp of its key |
| OccPartition.MoveMemberKeepsIndex | gigaevo/database/redis_program_storage.py:432-457 | the SREM and SADD of one transition keep each id in exactly the set of its merged state, whatever old state the caller passes |
| OccPartition.ExecMoves | gigaevo/database/redis_program_storage.py:432-457 | whatever the sets held: after a successful EXEC of a transition the id is in the set of its new state and in neither the old one the caller names nor the one of the stored blob, nothing else moves, and an update moves nothing |
| OccPartition.BlindWriteKeepsIndexIff | gigaevo/database/redis_program_storage.py:180-228 | a write that does not touch the status sets keeps them matching exactly when the program was stored in the same state |
| OccPartition.IndexedStepIff | gigaevo/database/redis_program_storage.py:409-484 | one command keeps the status sets matching the blobs exactly when what it is about to write outside a transition is stored already in the same state |
| OccPartition.PartitionIff | gigaevo/database/redis_program_storage.py:180-228 | over any run of watched operations and plain exclusive writes the status sets match at every moment if and only if no `update` and no exclusive write is about to create a program or change a stored state |
| OccPartition.TransitionsPartition | gigaevo/database/redis_program_storage.py:432-457 | for any merge and any concurrent `atomic_state_transition` calls, each stored id is at every reachable state in exactly one set, the one of its blob |
| OccMixed.MixedPartition | gigaevo/database/redis_program_storage.py:486-651 | with the SREM and SADD of fast and batch transitions as commands of their own, in any mixture with updates, atomic transitions and exclusive writes: if callers own what they move, each id not just moving is at every moment in exactly the set of its blob, and whenever nothing moves all sets match |
| OccMixed.MixedStep | gigaevo/database/redis_program_storage.py:497-517 | one command of that mixture keeps this, and keeps a moving id in no set but the old and the new one, its blob in the new state once written |
| OccProgress.Conservation | gigaevo/database/redis_program_storage.py:180-228 | the writes begun are exactly those callers submitted, in order, and at any moment each is in exactly one place: committed once, in flight, or aborted by its merge |
| OccProgress.BoundedRetries | gigaevo/database/redis_program_storage.py:186-208 | N watched operations cause at most N(N-1)/2 failed EXECs and use at most 2N(N+1) commands, however they interleave |
| OccProgress.AllFinish | gigaevo/database/redis_program_storage.py:418-484 | once that many commands have run, every retry loop has ended |
| OccMerge.NothingDropped | gigaevo/database/merge_strategies.py:92-121 | between any two moments of any run of watched operations no program loses a map key, child or immutable, and no stamp falls |
| OccMerge.NothingDroppedSince | gigaevo/database/merge_strategies.py:92-121 | in a run from any initial state, the same holds from each of its moments to its end |
| OccMerge.CommitsMerge | gigaevo/database/redis_program_storage.py:189-201 | in every run of watched operations each commit stores the committed program as it is, or merges it field by field into the stored one: keys and children arrive, values and code too if it is newer |
| OccMerge.EveryCommitArrives | gigaevo/database/redis_program_storage.py:180-210 | at every moment of such a run every program committed so far is stored with all its keys and children |
| OccMerge.CopiesNeverOverwrite | gigaevo/database/redis_program_storage.py:189-201 | if every operation writes a copy read from the store before, no stored value and no code ever changes; keys are only added |
| OccMerge.StaleCopyAddsOnly | gigaevo/database/merge_strategies.py:21-32 | the commit of a copy read at any earlier moment of the run overwrites nothing in the program stored now |
| ProgramStoreSync.BatchIdsPointwise | gigaevo/database/redis_program_storage.py:602-649 | if no matching id is listed twice, the batch changes exactly the programs stored in the old state, in state and stamp only, uses one stamp for each and gives the i-th of them the i-th |
| ProgramStoreSync.BatchIdsSplit | gigaevo/database/redis_program_storage.py:602-649 | unless a program would be moved twice, a batch equals two batches over any split of the list, stamps running on across the border |
| ProgramStoreSync.ChunksAreOnePassIff | gigaevo/database/redis_program_storage.py:96-100 | for every list: all chunk sizes give the store of one pass if and only if no program in the old state is listed twice, or the state does not change |
| ProgramStoreSync.RepeatedIdShowsChunks | gigaevo/database/redis_program_storage.py:602-649 | for every list, chunks of one use one stamp for each matching program, one pass one for each time a matching program is listed |
| ProgramStoreSync.BatchStateSplit | gigaevo/database/redis_program_storage.py:542-579 | a batch of whole programs splits at any chunk border without changing the result, repetitions included |
| ProgramStoreSync.WriteAllWrites | gigaevo/database/redis_program_storage.py:542-579 | the SETs of a batch leave each listed program as the caller has it, in the new state, the i-th under the i-th stamp, the last one of a repeated id; no other blob changes |
| ProgramStoreSync.ChunksMove | gigaevo/database/redis_program_storage.py:581-651 | for any list and chunk size the batch by ids moves exactly the listed programs stored in the old state: new state and a new stamp, everything else of them kept, their ids moved between the two sets, nothing else changed |
| ProgramStoreSync.MoveSyncIff | gigaevo/database/redis_program_storage.py:664-700 | moving ids to a target set matches the rewritten blobs exactly when the stored ones were in the source or the target state |
| ProgramStoreSync.FastSyncIff | gigaevo/database/redis_program_storage.py:486-517 | a fast transition keeps the status sets matching exactly when the program carries the target state and was stored in the old or the target one |
| ProgramStoreSync.BatchStateSyncIff | gigaevo/database/redis_program_storage.py:519-579 | the same for a whole batch: exactly when each of its programs was absent or stored in the old or the target state |
| ProgramStoreSync.BatchIdsSync | gigaevo/database/redis_program_storage.py:581-651 | the batch by ids keeps the status sets matching for any list of ids, with no ownership needed |
| ProgramStoreSync.RecoverSync | gigaevo/database/redis_program_storage.py:731-772 | recovery keeps the status sets matching, and what it moves is exactly the programs whose blob is RUNNING |
| ProgramStoreSync.SyncStepIff | gigaevo/database/redis_program_storage.py:135-772 | for each of the ten operations, raising calls included: matching status sets still match afterwards if and only if the caller owned the state it claimed, or the call raised |
| ProgramStoreSync.SyncRunIff | gigaevo/database/redis_program_storage.py:135-772 | over every sequential run each stored program is at all times in exactly the set of its state if and only if every call that did not raise owned the state it claimed |
| RedisProgramStorage.Storage.Add | gigaevo/database/redis_program_storage.py:135-171 | the blob of the id is the given program under the next stamp, no other blob changes; the id is in the set of its state and no longer in that of an earlier one |
| RedisProgramStorage.Storage.Remove | gigaevo/database/redis_program_storage.py:230-254 | the blob goes and the membership of its state with it; an unknown id changes nothing |
| RedisProgramStorage.Storage.WriteExclusive | gigaevo/database/redis_program_storage.py:212-228 | the blob of the id is the given program, all of it, under the next stamp; no other blob and no status set is touched |
| RedisProgramStorage.Storage.Update | gigaevo/database/redis_program_storage.py:180-210 | the uncontended loop stores the program under the next stamp, merged field by field if the id is stored; exactly two different names raise, which uses a stamp and writes nothing |
| RedisProgramStorage.Storage.AtomicStateTransition | gigaevo/database/redis_program_storage.py:409-484 | as update, and in the same step the id moves to the set of the merged state, out of the named old state and the stored one |
| RedisProgramStorage.Storage.FastStateTransition | gigaevo/database/redis_program_storage.py:486-517 | the given program, all of it, is stored under the next stamp, and its id moves between the two named sets |
| RedisProgramStorage.Storage.BatchTransitionState | gigaevo/database/redis_program_storage.py:519-579 | the chunk loop does what one pass over the list would: every listed program stored in the new state under consecutive stamps, its id moved; an invalid transition raises before anything is written |
| RedisProgramStorage.Storage.BatchTransitionByIds | gigaevo/database/redis_program_storage.py:581-651 | whatever the chunk size, exactly the listed programs stored in the old state get the new one and a new stamp and move; the count is the number of stamps used, and of those programs if no id is repeated |
| RedisProgramStorage.Storage.RecoverStrandedPrograms | gigaevo/database/redis_program_storage.py:731-772 | in any order of members: stored RUNNING programs become QUEUED under stamps of their own, dangling members go, the RUNNING set ends empty, and the result is the number moved |
| RedisProgramStorage.Storage.RequeueRunningProgram | gigaevo/database/program_storage.py:379-397 | a RUNNING copy is stored as QUEUED under the next stamp and its id moved; any other leaves the store alone |
| RedisProgramStorage.Storage.Size | gigaevo/database/redis_program_storage.py:287-296 | the sum of the set sizes; with matching sets, the number of blobs |
| RedisProgramStorage.Storage.HasData | gigaevo/database/redis_program_storage.py:328-339 | true exactly when some set has a member; with matching sets, when there is a blob |
| RedisProgramStorage.Storage.GetAllProgramIds | gigaevo/database/redis_program_storage.py:320-326 | the ids of all sets; with matching sets, of all blobs |
| RedisProgramStorage.Storage.GetAll | gigaevo/database/redis_program_storage.py:298-318 | every stored program, each once |
| RedisProgramStorage.Storage.GetAllByStatus | gigaevo/database/redis_program_storage.py:375-389 | listed programs whose blob agrees, each once; with matching sets, all programs in that state |
| StateManager.SetStateSyncIff | gigaevo/database/state_manager.py:83-127 | a state change keeps the status sets matching exactly when it changes nothing, the caller's copy was in the stored state, or the store was in the new one |
| StateManager.Manager.SetProgramState | gigaevo/database/state_manager.py:83-127 | raises exactly for an invalid transition, changes nothing for the same state, else stores the caller's program in the new state under the next stamp and moves its id; the lock is dropped only after a real move to DONE or DISCARDED |
| StateManager.Manager.UpdateStageResult | gigaevo/database/state_manager.py:57-71 | the stored program has that stage set to that value and otherwise the caller's fields, under the next stamp; no other blob and no status set changes |
| LockTable.QuietRunsAreExclusive | gigaevo/database/state_manager.py:24-29 | over every run whose evictions find nobody waiting, no two tasks work on the same program |
| LockTable.EvictionWithWaiterBreaks | gigaevo/database/state_manager.py:125-127 | after an eviction with a waiter, three more steps put two tasks inside for one program |
| LockTable.EvictionSafeIff | gigaevo/database/state_manager.py:125-127 | an eviction keeps all later quiet runs exclusive if and only if nobody else was waiting for that program |
| SnapshotProtocol.RefreshExactIff | gigaevo/database/program_storage.py:100-132 | an undisturbed incremental refresh is the full fetch exactly when no program its cache holds as DONE or DISCARDED has changed visibly |
| SnapshotProtocol.UnfinishedAreReadAgain | gigaevo/database/program_storage.py:112-132 | an undisturbed incremental refresh delivers every stored program that is new to its cache, or QUEUED or RUNNING there, as it is stored now, and those cached as DONE or DISCARDED as they are cached |
| SnapshotProtocol.ProjectDropsOnly | gigaevo/database/program_storage.py:74-98 | excluded fields come back with their defaults and nothing else differs from what is stored |
| SnapshotProtocol.FetchDeliversSettled | gigaevo/database/program_storage.py:74-132 | the reads and resumptions of a fetch do not change what it is going to deliver, and its last one publishes just that as the list of the epoch it ends in, or raises and publishes nothing; a full fetch leaves the id cache empty, an incremental one filled with its list |
| SnapshotProtocol.CoherentStepIff | gigaevo/database/program_storage.py:56-137 | readers are served when a hit, and the fetch in flight, report each program as it was at some moment since the last bump; a write, bump, start, server read or resumption at any stage of a fetch keeps that exactly when the explicit condition for that event and stage holds |
| SnapshotProtocol.SnapshotCoherentIff | gigaevo/database/program_storage.py:56-137 | over all runs from the initial snapshot: readers are served at every moment if and only if every event met its condition |
| SnapshotProtocol.ReadersReceiveCurrent | gigaevo/database/program_storage.py:74-98 | in such a run every hit and every fetch that ends, which never raises, reports each program as it was at some moment since the last bump |
| SnapshotProtocol.QuietEpochIsFullFetch | gigaevo/database/program_storage.py:74-98 | while nothing was written since the bump, such a report is exactly the full fetch |
| SnapshotProtocol.HitIsFullFetch | gigaevo/database/program_storage.py:81-82 | while nothing was written since the bump, a hit on a served snapshot answers exactly the full fetch |
| SnapshotProtocol.MissIsFullFetch | gigaevo/database/program_storage.py:83-98 | an undisturbed miss delivers the full fetch of the store at that moment, an incremental one if and only if no program cached as DONE or DISCARDED has changed |
| SnapshotProtocol.FullThenIncrementalRevivesCache | gigaevo/database/program_storage.py:69-72 | after a full bump the next fetch is always right; if an incremental bump follows first, it trusts the old list again and is right exactly if no finished program of that list has changed |
| SnapshotProtocol.BumpIff | gigaevo/database/program_storage.py:56-72 | a bump of either kind during a fetch leaves readers served exactly under a guard on the store, what the fetch has read and the id cache, written out for each kind and stage: for instance, while the programs are awaited, a full bump is harmless exactly if nothing was to be deleted and every stored id is among those being read |
| SnapshotProtocol.FullBumpSettles | gigaevo/database/program_storage.py:69-72 | what a fetch delivers after a full bump, stage by stage: everything if it has no ids yet, the listed programs if it has, and once it waits for its programs only the refreshed ones, or it raises exactly if some id was to be deleted |
| SnapshotProtocol.FullBumpLosesTrusted | gigaevo/database/program_storage.py:107-132 | a program the fetch trusts its cache for is missing from what it publishes after a full bump during the second wait, unless it raises |
| SnapshotProtocol.IncrementalBumpSettles | gigaevo/database/program_storage.py:134-137 | an incremental bump does not change what the fetch delivers, unless a full one emptied the id cache before: then it goes on with the old list |
| SnapshotProtocol.WriteIff | gigaevo/database/program_storage.py:107-132 | a write during a fetch leaves readers served except, exactly, when a finished cached program comes back different or an unfinished one disappears between the two reads with an outdated entry |
| SnapshotRuns.RulesServeReaders | gigaevo/database/program_storage.py:15-137 | over all runs from the initial snapshot in which no bump meets a fetch in flight, no program is deleted and no id used again during an incremental fetch, and an incremental fetch starts only if no finished program changed since the last full one started: every hit and every fetch that ends, which never raises, reports each program as it was at some moment since the last bump |
| SnapshotProtocol.OneFetchPerEpoch | gigaevo/database/program_storage.py:74-98 | between bumps, readers with one exclude value cause at most one fetch, and it does not raise |
| PopulationSnapshot.Population.Bump | gigaevo/database/program_storage.py:56-72 | the object's bump is the protocol's, lazily rebuilt id cache included |
| PopulationSnapshot.Population.GetAll | gigaevo/database/program_storage.py:74-98 | with any answers of the server and any bumps of other tasks at its two awaits the object does what the protocol's fetch does: publishes under the epoch it ends in, or raises and publishes nothing; a hit changes nothing; an undisturbed miss returns exactly the stored programs, each as stored now unless an incremental one has it cached as DONE or DISCARDED |
| PopulationSnapshot.Population.IncrementalUpdate | gigaevo/database/program_storage.py:100-132 | it works on the id cache as other tasks' bumps leave it: what was read is entered, removed ids are deleted, and it raises exactly if one of them is no longer there, with some of the others deleted |
| PopulationSnapshot.Population.PrepareIdCache | gigaevo/database/program_storage.py:134-137 | the id cache is rebuilt from the cached list exactly when it is empty |
| DgTracker.SplitMemberIff | gigaevo/adversarial/dg_tracker.py:328-334 | splitting a composite member gives the pair back exactly when the improver id has no bar |
| DgTracker.MemberInjective | gigaevo/adversarial/dg_tracker.py:95-111 | ids without a bar give each pair a member of its own |
| DgTracker.MarksOnlyThisPairIff | gigaevo/adversarial/dg_tracker.py:95-111 | a composite member stands for one pair only exactly when neither id has a bar |
| DgTracker.BatchIsFoldIff | gigaevo/adversarial/dg_tracker.py:189-243 | one batch equals its pairs one after another except for the global scores, and for those exactly when no member's best delta is lost |
| DgTracker.GlobalScoresOfRun | gigaevo/adversarial/dg_tracker.py:200-223 | over any sequence of batches the global score of a member is the greatest of the last positive deltas its batches had for it, and exactly the members with one are ranked |
| DgTracker.BatchAdds | gigaevo/adversarial/dg_tracker.py:189-243 | one batch, from any state: a win of d over g is added exactly for a positive delta, an entry that g resisted d exactly for one that is not, and the record kept is the last one of the pair |
| DgTracker.IndicesTellHistory | gigaevo/adversarial/dg_tracker.py:189-243 | over any sequence of batches: d beat g exactly if some recorded pair has a positive delta, g resisted d exactly if some has not, and the stored record is the last one recorded |
| DgTracker.UniqueMembersLoseNothing | gigaevo/adversarial/dg_tracker.py:200-223 | without a repeated pair the last delta kept for the global ranking is the best one |
| DgTracker.RunsAgree | gigaevo/adversarial/dg_tracker.py:189-243 | after any sequence of batches: metrics keys are wins together with resisted pairs, scores exist for exactly the wins and are positive, and the global members are those of the wins |
| DgTracker.FiveIndicesAgree | gigaevo/adversarial/dg_tracker.py:189-276 | read by pair: d faced g iff d beat g or g resisted d; d beat g iff d scored for g iff the composite member has a global score |
| DgTracker.ImprovementKeepsAgreeIff | gigaevo/adversarial/dg_tracker.py:117-137 | a single recorded improvement keeps the five indices agreeing exactly when it is dropped or the win of the pair is on record |
| DgTracker.BatchGrows | gigaevo/adversarial/dg_tracker.py:189-243 | no batch removes a member from any index or lowers a score |
| DgTracker.ScoresAreMaximaOfRun | gigaevo/adversarial/dg_tracker.py:206-213 | each improvement score is the greatest positive delta ever recorded for its pair, over any sequence of batches, and every positive delta has one |
| DgTrackerStore.RevRange | gigaevo/adversarial/dg_tracker.py:302-328 | the first k members by score downwards, greater member first among equals |
| DgTrackerStore.TriplesAreThePairs | gigaevo/adversarial/dg_tracker.py:328-335 | members made from ids without a bar come back as the pairs they were made from, none dropped |
| DgTrackerStore.BestDUnique | gigaevo/adversarial/dg_tracker.py:302-312 | the best improver of a constructor is unique |
| DgTrackerStore.BestDIsArgmaxOfHistory | gigaevo/adversarial/dg_tracker.py:302-312 | over any sequence of batches it is the improver of the greatest positive delta ever recorded against that constructor |
| DgTrackerStore.Tracker.RecordBatch | gigaevo/adversarial/dg_tracker.py:160-253 | a record without a delta raises before anything is written; otherwise all five indices take the batch: wins for positive deltas only, resisted entries for the others only, the last record of each pair; the count is that of the positive deltas |
| DgTrackerStore.Tracker.RecordImprovement | gigaevo/adversarial/dg_tracker.py:117-137 | only the two scores can rise, and agreeing indices still agree afterwards if and only if the delta was dropped or the pair's win was on record |
| DgTrackerStore.Tracker.FacedByD | gigaevo/adversarial/dg_tracker.py:269-276 | in an agreeing tracker, everything d beat together with everything that resisted d |
| DgTrackerStore.Tracker.CountGBeatenByD | gigaevo/adversarial/dg_tracker.py:255-260 | the number of distinct constructors d beat; in an agreeing tracker, of those d has a score for |
| DgTrackerStore.Tracker.CountDResistedByG | gigaevo/adversarial/dg_tracker.py:262-267 | the number of distinct improvers g resisted; in an agreeing tracker, at most those it has metrics with |
| DgTrackerStore.Tracker.GetBestDForG | gigaevo/adversarial/dg_tracker.py:302-312 | none exactly when nobody improved g; otherwise the greatest score, the greatest id among equals |
| DgTrackerStore.Tracker.GetBestPairs | gigaevo/adversarial/dg_tracker.py:320-335 | the k globally best members split into pairs, all of them for k = 0 and all but the last -k for a negative k; from improver ids without a bar the very pairs and their scores come back |
| DgTrackerStore.Tracker.MarkPairInjected | gigaevo/adversarial/dg_tracker.py:103-111 | the pair counts as injected from now on and so does every pair that did; without bars in its ids no other pair newly does, with one some other pair shares its member |
| DgTrackerStage.Compute | gigaevo/adversarial/dg_tracker_stage.py:79-225 | a wrong role or misaligned lists feed nothing; otherwise exactly the measured opponents, in order, each with the forwarded record and delta, improver first |
| DgTrackerStage.MeasuredIff | gigaevo/adversarial/dg_tracker_stage.py:197-215 | a pair is fed exactly when that opponent's delta was measured, improver first on both sides |
| DgTrackerStage.BothSidesAgreeOnOrientation | gigaevo/adversarial/dg_tracker_stage.py:79-225 | whatever both populations run, the tracker only ever holds improvers first and constructors second, and every measured pair is there |
| SharedLineage.Preprocess | gigaevo/adversarial/shared_benchmark_lineage.py:100-188 | the parents returned are exactly those candidates that shared at least the minimum number of opponents and that storage still has, in order; the evidence of each is the sorted shared opponents with the child's first and the parent's second record of each; it skips exactly when none shared enough and raises exactly when a shared opponent is gone by the second read |
| SharedLineage.EvidenceFor | gigaevo/adversarial/shared_benchmark_lineage.py:152-171 | three lists of one length, sorted shared opponents and both sides' records entry for entry |
| SharedLineage.KeptShareEnough | gigaevo/adversarial/shared_benchmark_lineage.py:118-127 | a parent is kept exactly when it shares at least the minimum number of opponents with the child |
| SharedLineage.GrowingIsRefetchable | gigaevo/adversarial/shared_benchmark_lineage.py:121-171 | if reads only ever see more, the second read has every shared opponent |
| SharedLineage.BatchesOnlyGrow | gigaevo/adversarial/dg_tracker.py:189-243 | reads taken along any run of batches do only ever see more |
| CompositionInjection.AtMostOnce | gigaevo/adversarial/composition_injection.py:118-181 | there are as many composed programs as the permanent set has grown by since the hook started |
| CompositionInjection.AtMostOnceOverRuns | gigaevo/adversarial/composition_injection.py:97-202 | over any sequence of batches, inject_all calls and other changes of the store, from any permanent set: no pair is composed twice, none of an earlier life again, and each composed program used the improver of greatest delta its constructor had at a moment of the run |
| CompositionInjection.Hook.Choose | gigaevo/adversarial/composition_injection.py:120-155 | a pair is chosen exactly when the constructor has a best improver that was not injected with it, is archived and composes; it is that improver and that code |
| CompositionInjection.Hook.InjectOne | gigaevo/adversarial/composition_injection.py:118-181 | a chosen pair is injected and entered once; its child is QUEUED, made of the composed code, one generation after its sole parent, the constructor, with iteration and source ids in place; a constructor passed over changes nothing |
| CompositionInjection.Hook.InjectAll | gigaevo/adversarial/composition_injection.py:97-202 | the call is one event of those runs: every program made was justified, earlier ones are kept, and afterwards every constructor whose best improver is archived and composes has that pair injected |
| SyncHook.MinReading | gigaevo/adversarial/sync.py:190-193 | one of the readings, and no greater than any |
| SyncHook.Hook.Wait | gigaevo/adversarial/sync.py:229-281 | stops at the first poll within the cap or else at the first after the timeout, so with a positive poll interval the number of polls is bounded by timeout over interval |
| SyncHook.Hook.Call | gigaevo/adversarial/sync.py:199-281 | every K-th call synchronises, the first of those never blocks, and only the others wait |
| SyncHook.SyncCount | gigaevo/adversarial/sync.py:117-118 | of n calls exactly floor(n / K) synchronise, and fewer than 2K calls never test the drift |
| DriftProtocol.OwnStepKeepsInv | gigaevo/adversarial/sync.py:208-251 | a step of the population itself keeps the per-phase drift bound, because a test that passes on stale readings passes on the truth |
| DriftProtocol.DriftBound | gigaevo/adversarial/sync.py:199-251 | in every run of any number of populations, without timeout and failed own reading, nobody is ever more than max(cap + K*E, d0 + (2K-1)*E) ahead of its slowest opponent |
| DriftProtocol.BlockedOnFreePopulation | gigaevo/adversarial/sync.py:229-251 | a blocked population waits, directly or through others, for one that is further behind than its cap and not blocked: no cycle of waiting for any opponent lists and caps |
| DriftProtocol.LeastNeverBlocks | gigaevo/adversarial/sync.py:12-23 | the population with least progress always passes |
| DriftProtocol.NoDeadlock | gigaevo/adversarial/sync.py:12-23 | in every state some population can leave its phase at once |
| DriftTight.DriftBoundAttained | gigaevo/adversarial/sync.py:199-251 | with at least one program per epoch, for any population that is not its own opponent and from every start, a run reaches the drift bound exactly, so no smaller bound holds |
| DriftTight.FailedOwnReadExceedsBound | gigaevo/adversarial/sync.py:156-188 | with at least one program per epoch, for any population that is not its own opponent and from every start, a run with a single failed own reading, at a poll where the honest test would block, exceeds the drift bound |
| DriftTight.UncheckedExitIff | gigaevo/adversarial/sync.py:156-281 | at any moment of any honest run: if a population that is not its own opponent leaves its wait by a failed own reading or by timeout, every honest run that follows keeps it within the drift bound if and only if its drift at that moment is at most max(cap, d0 + (K-1)*E) |
| OpponentProvider.RankIsSort | gigaevo/adversarial/opponent_provider.py:254-256 | the ranking is the same opponents, greater fitness first, or smaller if lower is better, and the smaller id first among equals |
| Order.FirstDifferenceDecides | gigaevo/adversarial/opponent_provider.py:254-256 | ids are compared as strings: the first difference decides, and a prefix comes first |
| OpponentProvider.RankOrderFree | gigaevo/adversarial/opponent_provider.py:248-256 | if ids identify opponents, the ranking is the same for every order of the cache |
| OpponentProvider.StratifiedTopIsUnique | gigaevo/adversarial/opponent_provider.py:516-541 | the conditions on a stratified top leave one result only, and it depends on which opponents are cached, not on order or repetitions |
| StratifiedProvider.LoadedFrom | gigaevo/adversarial/opponent_provider.py:410-485 | every cached opponent comes from an archive entry with code and fitness, has a cell, and is identified by its id |
| StratifiedProvider.ArchiveIsOnePerCell | gigaevo/adversarial/opponent_provider.py:349-367 | an archive in which no program sits in two cells loads as one opponent per cell |
| StratifiedProvider.RedisProvider.GetTopK | gigaevo/adversarial/opponent_provider.py:242-256 | the first k of the ranking, none weaker than any opponent left out; a negative k drops that many from the end |
| StratifiedProvider.CellStratifiedProvider.RefreshCache | gigaevo/adversarial/opponent_provider.py:410-485 | the cache holds exactly the archive's programs that are stored with code and the fitness key, each with its own code and fitness, and the cell of its last entry |
| StratifiedProvider.LoadsAll | gigaevo/adversarial/opponent_provider.py:437-470 | one opponent for each loadable entry, in the order of the entries |
| StratifiedProvider.CellStratifiedProvider.GetTopK | gigaevo/adversarial/opponent_provider.py:487-567 | min(max(k,1), cells) opponents in distinct cells, in rank order, each the best of its cell, none outranked by an opponent of an unpicked cell; a new elite set is remembered |
| StratifiedProvider.StratifiedIsPlain | gigaevo/adversarial/opponent_provider.py:349-367 | with one program per cell and k >= 1 the stratified result is the plain top-k |
| Digraph.EliminationKeepsReach | gigaevo/adversarial/asymmetric_pipeline.py:275-307 | eliminating a stage without a self-loop keeps reachability between all others exactly |
| Digraph.EliminationKeepsAcyclic | gigaevo/adversarial/asymmetric_pipeline.py:275-307 | and keeps the graph acyclic in both directions |
| PipelineGraph.AddEdgeArrows | gigaevo/entrypoint/default_pipelines.py:95-102 | a data edge adds exactly its arrow, so the graph stays acyclic exactly when the edge's end does not already lead to its start |
| PipelineGraph.AddDepArrows | gigaevo/entrypoint/default_pipelines.py:114-118 | a dependency adds exactly the arrow from the stage it names, with the same condition |
| PipelineGraph.RemoveEdgeArrows | gigaevo/entrypoint/default_pipelines.py:104-111 | removing the edges between two stages removes their arrow and no other, unless a dependency draws it too |
| PipelineGraph.RemoveDepArrows | gigaevo/entrypoint/default_pipelines.py:120-125 | removing a dependency removes its arrow and no other, unless a data edge or another condition on the same stage draws it too |
| PipelineGraph.RemoveEdgeUndoesAddIff | gigaevo/entrypoint/default_pipelines.py:95-111 | removing undoes adding an edge exactly when there was none between the two stages |
| PipelineGraph.RemoveDepUndoesAddIff | gigaevo/entrypoint/default_pipelines.py:114-125 | removing undoes adding a dependency exactly when the stage had a list without it: a list that adding created stays behind |
| PipelineGraph.RemoveStageArrows | gigaevo/entrypoint/default_pipelines.py:82-92 | removing a stage removes exactly the data edges and dependencies at that stage |
| PipelineGraph.RemoveStageKeepsAcyclic | gigaevo/entrypoint/default_pipelines.py:82-92 | removing a stage never creates a cycle |
| PipelineGraph.RemoveUndoesAdd | gigaevo/entrypoint/default_pipelines.py:74-92 | removing a new stage undoes adding it, whatever edges and dependencies came with it |
| PipelineBuilder.Builder.AddStage | gigaevo/entrypoint/default_pipelines.py:74-76 | the name is among the stages, no edge, dependency or arrow changes, and for a new name removing the stage gives the builder back |
| PipelineBuilder.Builder.RemoveStage | gigaevo/entrypoint/default_pipelines.py:82-92 | the stage, its edges, its dependencies and those on it go, everything else stays in order, and exactly the arrows at it are gone |
| PipelineBuilder.Builder.AddDataFlowEdge | gigaevo/entrypoint/default_pipelines.py:95-102 | exactly one arrow is added, and the pipeline stays acyclic exactly when the destination did not lead to the source |
| PipelineBuilder.Builder.RemoveDataFlowEdge | gigaevo/entrypoint/default_pipelines.py:104-111 | exactly the arrow between the two stages goes, if no dependency draws it too |
| PipelineBuilder.Builder.AddExecDep | gigaevo/entrypoint/default_pipelines.py:114-118 | exactly one arrow is added, and the pipeline stays acyclic exactly when the stage did not lead to the one it now waits for |
| PipelineBuilder.Builder.RemoveExecDep | gigaevo/entrypoint/default_pipelines.py:120-125 | no arrow is added and none but the dependency's own can go |
| PipelineBuilder.Builder.InsertParseMetricsStage | gigaevo/adversarial/asymmetric_pipeline.py:255-315 | every edge that reads the validation result from the validator now reads it from the parse stage, in place; one edge feeds the raw output into it, and it runs after the validator succeeded |
| PipelineBuilder.Builder.AddTrackerCoverageStages | gigaevo/adversarial/asymmetric_pipeline.py:431-495 | the coverage stage of the role runs after the tracker succeeded; merge feeds the new merge stage first, the coverage stage second, and that feeds ensure as candidate; only the direct edge goes |
| PipelineRewrites.InsertParseKeepsMeaning | gigaevo/adversarial/asymmetric_pipeline.py:255-315 | for any graph that does not mention the new stage: reachability between old stages unchanged in both directions, acyclic exactly when it was, no validation result leaves the validator directly, every consumer still gets one |
| PipelineRewrites.CoverageKeepsMeaning | gigaevo/adversarial/asymmetric_pipeline.py:431-495 | merge and tracker reach ensure, no old stage loses a stage it reached, and reachability and acyclicity are exactly those of the old arrows with merge and tracker before ensure |
| PipelineRewrites.CoverageAcyclicIff | gigaevo/adversarial/asymmetric_pipeline.py:471-495 | where merge fed ensure directly, the result is acyclic exactly when the graph was and ensure does not lead to the tracker, and the direct edge is gone |
| Frontier.OptimumUnique | gigaevo/cli/plot.py:108-122 | the optimum of the frontier up to an iteration is one value |
| Frontier.OptimumMonotone | gigaevo/cli/plot.py:108-122 | the optimum never gets worse with later iterations |
| Frontier.ValuesAreRecorded | gigaevo/cli/plot.py:82-91 | an iteration gets a list of values from any entry that names it with a value present, empty exactly if none of them is a number, else ending in the last recorded one |
| Frontier.PointMembers | gigaevo/cli/plot.py:93-106 | the frontier points are those of exactly the entries whose step and value are numbers |
| Frontier.Scan | gigaevo/cli/plot.py:108-122 | the two-pointer scan records, for exactly the iterations at or after the first frontier point, the naive optimum of all points up to that iteration |
| Frontier.ComputePerIterationStats | gigaevo/cli/plot.py:73-146 | it raises exactly when some iteration has a value that is no number and none that is; otherwise the reported iterations are the recorded ones at or after the first frontier point, strictly increasing, each with the naive optimum in the metric's direction and the last recorded value, and bests never get worse |

## Left out

- Networking, JSON, key formatting, pickling, streams and status events, time-to-live expiry, the instance lock, run state and the read-only check: the server is maps, sets and atomic commands, blobs parse, and a call's body runs once.
- Crashes in the middle of an unwatched pipeline: such a call completes. In the sequential store it is one step under the exclusive ownership its documentation demands; in `OccMixed` its commands are separate steps.
- OccMixed.MixedPartition: add, remove and recovery are not commands of the concurrent machines; ownership is sufficient, and an exact condition for these mixtures is not stated.
- `transition_status` and `batch_move_status_sets` as free operations: they let sets and blobs differ by design; the latter appears only inside the requeue of one program.
- Sleeping and logging inside the retry loops, and redis errors other than a lost watch.
- SnapshotProtocol.CoherentStepIff: each of the two reads of a fetch is one moment, although SCAN and a long MGET are several commands; the programs in the lists are values, so changes a reader makes to a shared program object are not modelled.
- Order of the programs a fetch returns: the snapshot is compared as a map from ids to programs.
- SharedLineage.Preprocess: the switch that turns evidence off and the aggregation of the aligned records are left out; the evidence here is the aligned records.
- DgTrackerStage.Compute: a missing and a not-a-number delta are one case, and all other numbers are reals.
- CompositionInjection.Hook.InjectOne: the metadata entries `d_fitness` and `tracked_delta` are numbers and not part of the modelled metadata, and code composition is an arbitrary partial function.
- Fresh program ids: `CompositionInjection.Hook.InjectAll` is given distinct ids that are not stored, as generated UUIDs are.
- SyncHook.Hook.Wait: termination is stated for a positive poll interval; the constructor's rejection of a missing or negative cap and of an empty opponent list is a precondition of the types and configurations here.
- DriftProtocol.DriftBound: honest steps only; leaving a wait by timeout or by a failed own reading is outside this bound and has its own exact condition, `DriftTight.UncheckedExitIff`.
- StratifiedProvider.CellStratifiedProvider.GetTopK: cache age and the emitted telemetry events are left out, and fitness values are reals, so comparable.
- Frontier.ComputePerIterationStats: standard deviations and plotting are left out; numbers are integers and reals, so infinities and not-a-number are left out.
- Softmax and random sampling of opponents, seeded sampling, and numpy and pandas statistics.
- `replace_stage`, limits, stage factories and timeouts of the builder, and the other rewrites of the adversarial pipeline (source injection, gradient prompt, cache edges), which only add edges or stages by the same operations.
- LLM calls, prompts, subprocess execution, notifications, tools and launch scripts, configuration files and all other commands.
