# Verified models of the project service

Dafny models of the stateful cores of `project_service`, with proofs of what they guarantee over
whole runs. Every module follows one core; where the code changes state step by step the model is
a class or a method with the same steps, and its contract ties the new state to a specification
function about which the lemmas then speak.

- **Rate limiter** (`RateLimiter`, `RateLimiterRuns`, `RateLimiterTheorems`, `RateLimiterEviction`,
  `RateLimiterBoundary`). One timestamp log per key in an insertion-ordered dictionary with a cap. A
  run is any sequence of calls whose clock, read once in `check` and once more in `_evict`, never
  goes back. The reference is an unbounded log per key. `limit`, `window` and `max_ips` are
  arbitrary.
- **Knowledge-base creation** (`KbProtocol`, `KbTheorems`, `KbAgreement`, `KbHistory`, `KbDeletion`).
  Any number of callers of `_ensure_kb`, one lock per project, and an upstream that answers probes
  with any status, true or not, may refuse creates and may lose knowledge bases at any moment; the
  project may be deleted meanwhile. Agreement of all callers needs an upstream that says 404 only of
  what is gone (`Honest`); mutual exclusion, the account of creates and its bound do not. Every `await` is a step
  boundary. The write of a NULL `kb_id` is the no-op that `update_project` makes of it,
  although the log line before it says "clearing".
- **Search merge** (`MergeResults`, `MergeTheorems`, `MergeScores`, `Documents`, `DocumentIdentity`,
  `ScatterGather`, `ChunkedAnswers`, `RepeatedSearches`, `Query`). Duplicate removal by first occurrence, stable
  descending sort, threshold, cut; the fan-out over folders with its input clamps and its tolerance
  of failed searches. A search returns hits, several of which may be chunks of one document, and the
  merge keeps one entry per document. Scores are reals.
- **Folder forest** (`FolderStore`, `FolderForest`, `FolderMoves`, `FolderRaces`, `FolderCopy`,
  `ContentCopy`, `FolderRemoval`). The folder and file tables with their foreign-key actions, the
  ancestor walk, the copy of a project's folders and files, and the deletion of a folder with its
  files. Each store call is one step.
- **Conversations** (`Paging`, `MessageLog`, `Conversations`, `LatestRows`, `Snapshots`). Paged
  listing, forking by pages, snapshot and restore. Ascending reads order by time and then by
  insertion; the "latest n" query leaves ties open, so its answer is any one the SQL allows.
- **Gateway client** (`IdentityCache`, `VerifierRuns`, `VerifierExclusion`, `VerifierAnswers`,
  `RetryLoop`). The positive and negative identity caches under interleaved verifications, and the
  retry loop over a sequence of outcomes.
- **Storage quota** (`StorageQuota`). Measured usage, the check, and the copy or unlink that follows
  it, as one step each.

`Sequences` holds shared vocabulary: runs, filtering, counting and the stable sort; `TopAnswers` says
what a best-k answer is when keys can tie, for the search and for the message query.

Properties that a reader might expect but that the code has only under a condition are stated with
their exact condition:

- at every moment a project has its row if and only if every continuation that does not delete it
  keeps to the creation bound (`RowExactly`, `CreationBoundExactly`);
- the key table stays within its cap for a positive limit (`TableBoundedExactly`);
- the capped limiter is indistinguishable from the unbounded one, and keeps the plain limit, as long
  as no live key is evicted (`ForcedEvictionIsTheBoundary`, `PlainLimitExactly`), which is as long as
  the traffic leaves room for every new key (`RoomyExactly`);
- merging the folders' best hits gives the scores of ranking all hits if and only if every document
  that no answer mentions is matched by `top_k` returned documents at least as good (`MergeExactly`,
  `QueryIsExact`); several chunks of one document can fill an answer and push another document out
  (`ChunksPushDocumentOut`), and one folder is exact if and only if its answer holds as many
  documents as it could (`OneFolderExactly`);
- two moves validated against the same tables close a cycle exactly if each new parent lies at or
  below the folder the other one takes away (`RacingMovesExactly`);
- the copy of a project is complete and in place if and only if it has at most 500 folders and at most
  500 files, parents are listed before children, and all file names can be used
  (`CopyCompleteExactly`);
- removing a folder cleans up at most 500 files (`SurvivorsExactly`);
- the rows of a snapshot are determined if each kept message is later than the one before it
  (`RowsDeterminedExactly`), and what its restore gives back is the last messages if and only if
  messages of equal time that can reach it agree in role and content (`RoundTripExactly`);
- a token is live in both identity caches while its latest grant and a denial recorded after it are
  both younger than the time to live (`BothLiveExactly`), which takes overlapping requests
  (`NeverBoth`);
- a replacement is judged by the headroom without credit for the bytes it frees (`ReplaceExactly`).

Where comments and code disagree the model follows the code: `DELETE` belongs to the repeatable
methods although the comment at `project_service/engine/gateway_client.py:35` lists it among those
that are not retried, and `fork_chat` gets pages of 500 although it asks for 1000.

Run `dafny verify dfyconfig.toml` with Dafny 4.11.

## Model

| member | source | states |
|---|---|---|
| RateLimiter.Limiter.constructor | project_service/api/security.py:117-121 | a new limiter has an empty key table |
| RateLimiter.Limiter.Check | project_service/api/security.py:123-135 | one call decides and changes the table exactly as the step of the specification, with both clock readings, and nothing else |
| RateLimiter.Limiter.Evict | project_service/api/security.py:137-147 | eviction drops the stale keys, then the victims if the table is still full |
| RateLimiter.Limiter.StaleKeys | project_service/api/security.py:140 | the stale keys are those without a live hit, in dictionary order |
| RateLimiter.Limiter.EvictOldest | project_service/api/security.py:143-146 | drops the first keys of the stable order by oldest hit, as many as make room for one |
| RateLimiterRuns.BucketMeaning | project_service/api/security.py:123-147 | on every run, what a bucket holds of the window is exactly the admissions of its key since the key was last evicted while live; stale eviction does not show |
| RateLimiterRuns.DecisionMeaning | project_service/api/security.py:127-130 | a call is admitted if and only if fewer than `limit` admissions since that eviction lie in the window |
| RateLimiterRuns.RejectionsAreEarned | project_service/api/security.py:128-130 | a rejection happens only when `limit` admitted hits of that key lie in the window |
| RateLimiterRuns.BucketHistory | project_service/api/security.py:127-134 | a bucket holds only admitted times of its own key, none later than the clock |
| RateLimiterRuns.BucketShape | project_service/api/security.py:123-147 | for a positive limit a stored bucket is ascending, not empty and has at most `limit` entries |
| RateLimiterRuns.VictimsAreOldest | project_service/api/security.py:143-146 | eviction from a full table leaves room for exactly one key, and no evicted key is younger than one that stays |
| RateLimiterEviction.OldestHitGoesFirst | project_service/api/security.py:143-146 | every evicted key has a hit that is no later than any hit of any key that stays |
| RateLimiterEviction.EvictionIsOldestFirst | project_service/api/security.py:131-147 | on every run with a positive limit, when a live key is evicted and another key stays, the evicted one has a hit no later than any hit of the other |
| RateLimiterEviction.TiesGoByInsertion | project_service/api/security.py:144-146 | among keys with equal earliest hits the one inserted first goes first |
| RateLimiterEviction.NothingLostWithoutNeed | project_service/api/security.py:128-135 | no key is evicted, and no other bucket touched, unless a new key is admitted while the table is full |
| RateLimiterEviction.NewKeyGoesLast | project_service/api/security.py:131-146 | a new key goes behind all others and the keys that stay keep their order |
| RateLimiterRuns.TableBounded | project_service/api/security.py:131-135 | on every run with a positive limit the table has at most `max(1, max_ips)` keys |
| RateLimiterRuns.RejectedKeysPileUp | project_service/api/security.py:128-130 | with a non-positive limit, n rejected strangers leave n keys in the table |
| RateLimiterRuns.TableBoundedExactly | project_service/api/security.py:123-135 | the table stays within its cap on all runs if and only if the limit is positive |
| RateLimiterTheorems.AdmissionsAccounted | project_service/api/security.py:123-147 | admissions in the current window are covered by the bucket and by `limit` for each forced eviction of the key in the window |
| RateLimiterTheorems.RateBound | project_service/api/security.py:123-147 | in any past or present stretch no longer than the window a key is admitted at most `limit * (1 + e)` times, e being its forced evictions in that stretch |
| RateLimiterTheorems.UnforcedIsFaithful | project_service/api/security.py:123-147 | a run without forced evictions decides every call like the unbounded log |
| RateLimiterTheorems.RoomyIsFaithful | project_service/api/security.py:123-147 | if fewer than `max(1, max_ips)` keys have a hit in the window whenever a new key calls, a condition on the traffic alone, all decisions are those of the unbounded log |
| RateLimiterTheorems.BurstAdmitted | project_service/api/security.py:131-135 | a key that was just evicted is admitted `limit` times again at once |
| RateLimiterTheorems.VictimObserves | project_service/api/security.py:143-146 | right after the first forced eviction some client can tell the limiter from the unbounded one |
| RateLimiterTheorems.ForcedEvictionIsTheBoundary | project_service/api/security.py:123-147 | a run has no forced eviction if and only if at no moment of it a client can tell the difference by its own requests |
| RateLimiterBoundary.RoomyExactly | project_service/api/security.py:131-147 | for every `max_ips`, no live key is evicted on a run if and only if fewer than `max(1, max_ips)` keys have a hit in the window whenever a key without one calls |
| RateLimiterBoundary.TrafficIsTheBoundary | project_service/api/security.py:123-147 | clients can never tell the limiter from the unbounded one if and only if the traffic leaves that room |
| RateLimiterBoundary.PlainLimitExactly | project_service/api/security.py:123-147 | a run has no forced eviction if and only if at no moment of it a client can get more than `limit` requests admitted in a stretch no longer than the window |
| KbProtocol.Coordinator.UpdateProject | project_service/store/project_store.py:592-611 | a None value and a missing row leave the table unchanged, any other value replaces only that row's id |
| KbProtocol.Coordinator.DropRow | project_service/store/project_store.py:647-659 | deleting the project removes its row and leaves callers and locks as they are |
| KbProtocol.Coordinator.KbCreateLock | project_service/engine/rag_coordinator.py:45-50 | one lock object per project, created on first use and kept |
| KbProtocol.Coordinator.BeginCall | project_service/engine/rag_coordinator.py:52-55 | a new caller starts at its unlocked read |
| KbProtocol.Coordinator.FastRead | project_service/engine/rag_coordinator.py:55-58 | the unlocked read probes a stored id or goes for the lock |
| KbProtocol.Coordinator.FastAnswer | project_service/engine/rag_coordinator.py:58-61 | 200 and a second ambiguous answer return the id, 404 goes on to the clear, a first ambiguous answer probes again |
| KbProtocol.Coordinator.ClearStale | project_service/engine/rag_coordinator.py:60-64 | the clear writes nothing and the caller queues for the lock |
| KbProtocol.Coordinator.Acquire | project_service/engine/rag_coordinator.py:64 | a free lock is taken by one waiting caller |
| KbProtocol.Coordinator.LockedRead | project_service/engine/rag_coordinator.py:65-68 | the row is read again under the lock |
| KbProtocol.Coordinator.LockedAnswer | project_service/engine/rag_coordinator.py:68-72 | as outside, but 404 goes on to the create and a return gives the lock back |
| KbProtocol.Coordinator.CreateAnswered | project_service/engine/rag_coordinator.py:71-77 | a refused create or one without an id raises and gives the lock back |
| KbProtocol.Coordinator.SaveNew | project_service/engine/rag_coordinator.py:78-80 | the new id is written, returned, and the lock given back |
| KbTheorems.MutualExclusion | project_service/engine/rag_coordinator.py:45-80 | on no run, whatever upstream answers, are two callers of one project inside the lock |
| KbTheorems.OthersRemember | project_service/engine/rag_coordinator.py:64-80 | while a caller holds the lock, no other event changes the project's stored id, except by deleting the project |
| KbTheorems.Ledger | project_service/engine/rag_coordinator.py:52-80 | conservation on every run after which the project exists, whatever upstream answers: ids created plus failed replacements equal 404 answers inside the lock plus the change of the row plus work in progress |
| KbTheorems.CreationBound | project_service/engine/rag_coordinator.py:52-80 | while the project exists at most one id more than 404 answers inside the lock is created, true answers or not; none more if the row held an id at the start |
| KbAgreement.AllCallersAgree | project_service/engine/rag_coordinator.py:52-105 | if upstream loses nothing and says 404 only of what is gone, all returning callers of a project get the same id, the stored one |
| KbAgreement.AtMostOneCreate | project_service/engine/rag_coordinator.py:52-105 | under the same conditions at most one create succeeds, none if an id was stored; ambiguous probes never cause one |
| KbAgreement.OverwritesJustified | project_service/engine/rag_coordinator.py:82-105 | on every run a stored id is overwritten only after a lock holder was told 404 for that very id; with honest answers it was gone |
| KbAgreement.ReturnedWasStored | project_service/engine/rag_coordinator.py:52-80 | every id about to be or already returned for a project that still exists was at some moment its stored id |
| KbDeletion.CreationBoundExactly | project_service/engine/rag_coordinator.py:65-80 | the creation bound holds on all runs that do not delete the project if and only if it has a row |
| KbDeletion.RowExactly | project_service/engine/rag_coordinator.py:65-80 | at every moment of every run, the project has its row if and only if every continuation that does not delete it keeps to the creation bound |
| KbDeletion.Released | project_service/engine/rag_coordinator.py:64-80 | from every moment on the lock of a project can become free, without a create and without a 404 |
| KbDeletion.DeletionUnbindsCreation | project_service/engine/rag_coordinator.py:65-80 | whenever the project has no row, whoever is under way, the run can go on with any number of further creates, without a 404 |
| KbAgreement.LockOnlyWhenNeeded | project_service/engine/rag_coordinator.py:52-64 | a caller waits for the lock, or fails, only if it read no stored id or was told 404 for the one it read |
| KbAgreement.RaisedOnlyByCreate | project_service/engine/rag_coordinator.py:71-77 | a call raises only if its own create was refused or gave no id; ambiguous probes never raise |
| KbHistory.ReturnedExactly | project_service/engine/rag_coordinator.py:52-105 | on every run a call has returned an id if and only if its last answer confirmed that id, or its last two answers about it were ambiguous, or its own create was answered with it and saved |
| KbHistory.RefutedGoesOn | project_service/engine/rag_coordinator.py:57-72 | a call whose last event is a 404 is on its way to the lock or about to replace that very id, so a refuted id is never returned |
| KbHistory.AmbiguousAsksAgain | project_service/engine/rag_coordinator.py:89-105 | after a first ambiguous answer the same id is probed once more |
| KbAgreement.NoDeadlock | project_service/engine/rag_coordinator.py:45-80 | while a call is unfinished, some call in progress can take a step |
| KbAgreement.CallsAreShort | project_service/engine/rag_coordinator.py:52-105 | no call takes more than eleven steps of its own |
| MergeResults.Scan | project_service/engine/rag_coordinator.py:302-314 | the inner loop adds the unseen, identified entries of a group and keeps `seen` equal to the kept keys |
| MergeResults.Collect | project_service/engine/rag_coordinator.py:299-314 | the two loops compute the deduplication of all groups in sequence |
| MergeResults.Merge | project_service/engine/rag_coordinator.py:297-327 | the returned entries are the cut of the thresholded ranking; the count is the number of survivors scored below the threshold |
| MergeTheorems.DedupIsFirsts | project_service/engine/rag_coordinator.py:305-314 | an entry survives deduplication if and only if it is identified and no earlier entry has its key, whatever the scores |
| MergeTheorems.FirstsDistinct | project_service/engine/rag_coordinator.py:311-314 | surviving keys are distinct |
| DocumentIdentity.SameDocumentId | project_service/engine/rag_coordinator.py:305-314 | two hits with document ids are one document if and only if these are equal, whatever their other ids; the first is kept |
| DocumentIdentity.SameId | project_service/engine/rag_coordinator.py:305-314 | without document ids the plain ids decide |
| DocumentIdentity.SameThirdId | project_service/engine/rag_coordinator.py:305-314 | without both the third field decides |
| DocumentIdentity.AcrossFields | project_service/engine/rag_coordinator.py:305-314 | the three fields share one name space |
| DocumentIdentity.SkippedExactly | project_service/engine/rag_coordinator.py:303-310 | a hit is skipped if and only if it is no record or has none of the three ids |
| DocumentIdentity.ResultDocuments | project_service/engine/rag_coordinator.py:297-327 | no two returned entries share a document id and none is without any id |
| DocumentIdentity.ScorelessIsZero | project_service/engine/rag_coordinator.py:316-325 | a hit without a numeric score is dropped by every positive threshold and by no other |
| DocumentIdentity.ScoreDecides | project_service/engine/rag_coordinator.py:316-325 | a numeric score is compared with the threshold, equality passing |
| DocumentIdentity.ResultRanks | project_service/engine/rag_coordinator.py:316-327 | returned entries are in descending order of their numeric scores, one without standing where a zero would |
| MergeTheorems.DedupOfDistinct | project_service/engine/rag_coordinator.py:311-314 | distinct entries are all kept |
| MergeTheorems.Conservation | project_service/engine/rag_coordinator.py:301-327 | the raw entries without identity, the repeated ones, the first occurrences below the threshold, those cut off by `top_k` of the ones reaching it, and the returned ones, each counted by itself, add up to all raw entries |
| MergeTheorems.ResultIsBestPrefix | project_service/engine/rag_coordinator.py:322-327 | the ranking is a descending arrangement of the survivors; entries reaching the threshold are a prefix of it and the result a prefix of those |
| MergeTheorems.TiesKeepOrder | project_service/engine/rag_coordinator.py:322 | entries of equal score keep the order in which they were first seen |
| ScatterGather.TopKCount | project_service/engine/rag_coordinator.py:268-277 | a k-best answer holds, above every score, as many hits as the folder does, up to k |
| Documents.DocumentCount | project_service/engine/rag_coordinator.py:305-314 | deduplication leaves exactly one entry per document that has an identity |
| Documents.DocumentsAbove | project_service/engine/rag_coordinator.py:305-322 | when each document's best hit comes first, deduplication leaves above every score one entry per document with a hit above it |
| Documents.SortedIsBestFirst | project_service/engine/rag_coordinator.py:305-314 | that is so in every descending list |
| MergeScores.ResultCount | project_service/engine/rag_coordinator.py:297-327 | above every bound the result holds what the survivors hold above bound and threshold, up to `top_k`, in non-increasing order |
| ScatterGather.AnswersBestFirst | project_service/engine/rag_coordinator.py:268-282 | with documents disjoint between folders, the merge meets each document's best hit first, however often folders are searched |
| ScatterGather.MergeExactly | project_service/engine/rag_coordinator.py:268-282 | with documents disjoint between folders, merging best-k answers and cutting at k gives the score sequence of ranking all hits if and only if each document without a returned hit, whose score reaches the threshold, is matched by k returned documents at least as good |
| ScatterGather.ScatterGatherExact | project_service/engine/rag_coordinator.py:268-282 | the merge is exact for every threshold when each folder's answer holds k documents, or all the folder has |
| ChunkedAnswers.OneFolderExactly | project_service/engine/rag_coordinator.py:297-327 | for one folder the scores agree for every threshold if and only if the answer holds k documents, or all there are |
| ChunkedAnswers.ChunksPushDocumentOut | project_service/engine/rag_coordinator.py:297-327 | two chunks of one document fill an answer of two, and a worse document of another folder is returned for the one pushed out |
| ChunkedAnswers.DistinctHitsExact | project_service/engine/rag_coordinator.py:268-282 | with one hit per document over all folders, every best-k answer, in any order, gives an exact merge |
| RepeatedSearches.CoveredGroupIgnored | project_service/engine/rag_coordinator.py:301-314 | a group whose documents all occurred in earlier groups changes nothing |
| RepeatedSearches.RepeatedFolderIgnored | project_service/engine/rag_coordinator.py:255-262 | an answer that repeats an earlier one literally changes nothing, whatever the documents |
| RepeatedSearches.RepeatsAreHarmless | project_service/engine/rag_coordinator.py:255-282 | however often folders are searched and however each search breaks ties, one full answer per folder makes the merge exact |
| RepeatedSearches.RepeatedSearchIgnored | project_service/engine/rag_coordinator.py:255-282 | once nothing is missed, one more search of a folder, anywhere among the others, leaves the scores as they are |
| Query.ClampTopK | project_service/engine/rag_coordinator.py:222-225 | below 1 it is 1, above 50 it is 50, and values in between are left alone |
| Query.ClampThreshold | project_service/engine/rag_coordinator.py:226-229 | below 0 it is 0, above 1 it is 1, and values in between are left alone |
| Query.Scope | project_service/engine/rag_coordinator.py:248-254 | the first 32 of the named folders |
| Query.Searches | project_service/engine/rag_coordinator.py:248-264 | one search per folder in scope, one for the whole base if none is named |
| Query.RunQuery | project_service/engine/rag_coordinator.py:230-295 | manual mode without folders is empty; the first of the first 32 folders that is unknown or foreign is reported; otherwise the merge of the successful searches, the number of survivors below the threshold, and unavailable exactly if all searches failed |
| Query.RepliesFlatten | project_service/engine/rag_coordinator.py:268-280 | dropping failed and empty answers loses no entry |
| Query.AllHitsMerged | project_service/engine/rag_coordinator.py:268-282 | what is merged are the hits of all searches, one search after the other |
| Query.QueryIsExact | project_service/engine/rag_coordinator.py:204-295 | end to end, the query's scores are those of ranking all hits of the folders with a successful search, each counted once however often it was named, if and only if no document was missed that belongs to them |
| Query.FullQueryIsExact | project_service/engine/rag_coordinator.py:204-295 | in particular when the first answer of each folder holds `top_k` documents or all the folder has |
| FolderStore.Store.Walk | project_service/store/project_store.py:1224-1237 | the ancestor walk terminates on every table, cyclic ones included, and passes exactly if the chain ends without meeting the folder |
| FolderStore.Store.ValidateParent | project_service/store/project_store.py:1210-1237 | the four outcomes of the validation: empty, unknown, foreign, cyclic parent |
| FolderStore.Store.CreateFolder | project_service/store/project_store.py:1239-1261 | succeeds exactly for a new id in an existing project with no parent or one of the same project, and then adds exactly that row; any other call changes nothing |
| FolderStore.Store.UpdateFolder | project_service/store/project_store.py:1295-1313 | succeeds exactly if a given parent is in the project and its chain avoids the folder; then each given field holds the given value, each None field its old one, and no other row changes |
| FolderStore.Store.DeleteFolder | project_service/store/project_store.py:1315-1324 | exactly the folder's row goes; its children and files stay, all else equal, with a NULL reference |
| FolderStore.Store.DeleteProject | project_service/store/project_store.py:647-659 | exactly the project's folders and files go, references into them become NULL, all other fields stay |
| FolderStore.Store.CreateFile | project_service/store/project_store.py:1328-1361 | succeeds exactly for a new id in an existing project with no folder or one of the same project, and then adds exactly that row |
| FolderStore.Store.UpdateFile | project_service/store/project_store.py:1404-1423 | succeeds exactly if a given folder is in the file's project; then given fields hold the given values, None fields their old ones, and no other row changes |
| FolderStore.Store.DeleteFile | project_service/store/project_store.py:1425-1434 | the row goes, nothing else does |
| FolderForest.MoveAllowedExactly | project_service/store/project_store.py:1224-1237 | on a forest, a move below an existing folder of the project passes if and only if the table stays acyclic |
| FolderForest.CreateKeepsForest | project_service/store/project_store.py:1239-1261 | creating a folder keeps the forest |
| FolderForest.UpdateKeepsForest | project_service/store/project_store.py:1295-1313 | moving or renaming a folder keeps the forest |
| FolderForest.DeleteKeepsForest | project_service/store/project_store.py:1315-1324 | deleting a folder keeps the forest |
| FolderForest.ProjectDeleteKeepsForest | project_service/store/project_store.py:647-659 | deleting a project keeps the forest |
| FolderForest.AlwaysForest | project_service/store/project_store.py:1210-1434 | after any sequence of store calls parents exist in the same project, the parent relation is acyclic, and file links stay in their project |
| FolderMoves.MoveTakesAncestors | project_service/store/project_store.py:1295-1313 | a moved folder's chain of ancestors becomes its new parent followed by that parent's chain before the move |
| FolderMoves.OthersKeepAncestors | project_service/store/project_store.py:1295-1313 | folders outside the moved subtree keep all their ancestors |
| FolderMoves.DeletionCutsChains | project_service/store/project_store.py:1315-1324 | deleting a folder cuts every chain through it just below it and changes no other chain |
| FolderRaces.RacingMovesExactly | project_service/store/project_store.py:1295-1313 | two moves validated before either is written leave the table acyclic if and only if not both new parents lie at or below the folder the other move takes away |
| FolderRaces.RacingMovesCloseCycle | project_service/store/project_store.py:1303-1306 | two roots moved below each other are such a pair; validated in turn, the second move is refused |
| FolderCopy.CopyFolders | project_service/engine/project_manager.py:378-387 | the folder loop never fails, keeps the old rows, adds one copy per listed folder with its parent mapped, and keeps the forest |
| FolderCopy.CopiedFields | project_service/engine/project_manager.py:381-386 | each copy has the new project and the name and sort order of its original, and the old rows stay |
| FolderCopy.CopyFiles | project_service/engine/project_manager.py:388-418 | the file loop skips unsafe names and puts every other copy, named by the stem of the path it is written to, into the copy of its folder |
| FolderCopy.CopyStored | project_service/engine/project_manager.py:380-387 | each copy is in the table as written, no later copy overwrites it |
| FolderCopy.OthersUntouched | project_service/engine/project_manager.py:380-387 | no other row changes |
| FolderCopy.ParentKeptExactly | project_service/engine/project_manager.py:384 | a copied folder keeps its parent if and only if the parent was listed before it |
| FolderCopy.CopyChain | project_service/engine/project_manager.py:380-387 | the ancestors of a copy are copies of the original's ancestors, at the same height |
| FolderCopy.CopyIsomorphic | project_service/engine/project_manager.py:380-387 | with parents listed first, the whole chain of a copy is the copy of the chain |
| FolderCopy.MirrorsExactly | project_service/store/project_store.py:1276-1293 | the copies of the listed folders are in place if and only if the listing puts every parent before its children |
| FolderCopy.EarlyChildLosesParent | project_service/store/project_store.py:1276-1293 | a child whose name sorts first becomes a root of the copy |
| FolderCopy.FileFollowsFolder | project_service/engine/project_manager.py:391 | a copied file lies in the copy of its folder if and only if that folder was listed |
| ContentCopy.CopyContent | project_service/engine/project_manager.py:378-418 | both loops in sequence: every safe file ends up in the copy of its folder or at the top level, unsafe ones are skipped, old rows stay, and the folders remain a forest |
| ContentCopy.FoldersCompleteExactly | project_service/engine/project_manager.py:378-387 | every folder of the project has a copy in its place if and only if there are at most 500 and parents are listed before children |
| ContentCopy.FilesCompleteExactly | project_service/engine/project_manager.py:388-418 | every file has a copy in its place if and only if there are at most 500, all names are usable and all their folders were listed; exactly the files beyond 500 are not looked at |
| ContentCopy.CopyCompleteExactly | project_service/engine/project_manager.py:378-418 | nothing is lost or displaced if and only if both counts are at most 500, parents come first and all names are usable |
| FolderRemoval.RemoveFolder | project_service/engine/knowledge_manager.py:176-185 | exactly the listed files and the folder go, other files stay with a NULL reference if they were in it; an unknown folder changes nothing |
| FolderRemoval.SurvivorsExactly | project_service/engine/knowledge_manager.py:176-185 | exactly the files beyond the first 500 survive, as top-level files |
| FolderRemoval.OthersStay | project_service/engine/knowledge_manager.py:176-185 | files and folders outside the removed folder stay as they are and the forest is kept |
| Paging.Paginate | project_service/store/project_store.py:243-254 | the limit lands in 1..500, a missing one is 500, a non-positive one 100, and the offset is never negative |
| MessageLog.MessageStore.CountMessages | project_service/store/project_store.py:1125-1129 | the number of the chat's rows |
| MessageLog.MessageStore.ListMessages | project_service/store/project_store.py:1106-1123 | a page of the ascending listing, at most 500 rows whatever was asked for |
| MessageLog.ListingExactly | project_service/store/project_store.py:1118-1122 | the ascending listing is exactly the chat's rows, no later one before an earlier one, and rows of equal time in the order of their insertion |
| MessageLog.MessageStore.CreateBatch | project_service/store/project_store.py:1160-1180 | appends the messages in order, bodies and JSON columns as given, with new ids and one timestamp, touching no other row |
| MessageLog.MessageStore.ReplaceChat | project_service/store/project_store.py:1182-1206 | the chat's rows are exactly the new ones, the rows of other chats are as before |
| Conversations.PageCopied | project_service/engine/chat_manager.py:152-160 | one round extends the copied stretch of the source by the next page and leaves the source as it was |
| Conversations.CopyPages | project_service/engine/chat_manager.py:150-160 | the loop ends with every message from its start to the end copied in order |
| Conversations.ForkMessages | project_service/engine/chat_manager.py:144-160 | terminates with exactly the last `min(total, cap)` source messages, message by message and in order, in the new chat, and no other chat changed |
| Snapshots.CreateSnapshot | project_service/engine/chat_manager.py:166-186 | records role, content and time of the latest messages the database answers, and the full count |
| Snapshots.RestoreSnapshot | project_service/engine/chat_manager.py:193-207 | the chat holds exactly the recorded roles and contents in order, without JSON columns and with one new timestamp; other chats are as before |
| LatestRows.LatestIsAnswer | project_service/store/project_store.py:1131-1142 | the end of the ascending listing is always an answer of the latest-n query |
| LatestRows.LatestUnique | project_service/store/project_store.py:1131-1142 | with strictly increasing times it is the only one |
| LatestRows.AnswerAt | project_service/store/project_store.py:1136-1141 | every answer has, position by position, the times of the end of the listing |
| LatestRows.TieGivesTwoAnswers | project_service/store/project_store.py:1136-1141 | any two tied rows, the later of them kept, give a second answer |
| LatestRows.RowsDeterminedExactly | project_service/store/project_store.py:1131-1145 | the rows are determined if and only if each kept row is later than the one before it |
| LatestRows.TextDeterminedExactly | project_service/store/project_store.py:1131-1145 | what is recorded, and what a restore gives back, is determined if and only if tied rows that can reach the kept part agree in role and content |
| LatestRows.StrictAgrees | project_service/store/project_store.py:1131-1142 | a strict listing meets that condition |
| LatestRows.DistinctIsStrict | project_service/store/project_store.py:1131-1142 | messages with distinct times list strictly |
| Snapshots.RestoreGivesBack | project_service/engine/chat_manager.py:193-207 | a restore gives back role and content of exactly the rows the snapshot's query answered, whatever happened since, and no other chat changes |
| Snapshots.SnapshotRoundTrip | project_service/engine/chat_manager.py:166-207 | snapshot, any edits, restore: role and content of the last `min(n, cap)` messages at snapshot time when ties agree in both, other chats untouched |
| Snapshots.RoundTripExactly | project_service/engine/chat_manager.py:166-207 | every answer the database may give comes back as the last messages if and only if ties that can reach the snapshot agree in role and content |
| Snapshots.RestoredChatTies | project_service/store/project_store.py:1187-1194 | all rows of a restored chat tie, so from two messages on the next snapshot of it has a second answer |
| Snapshots.RestoredTextDetermined | project_service/store/project_store.py:1187-1194 | its text stays determined if and only if all restored messages have the same role and content |
| IdentityCache.Verifier.Begin | project_service/engine/gateway_client.py:345-355 | a live positive entry answers first, then a live negative one, else the request goes out |
| IdentityCache.Verifier.Finish | project_service/engine/gateway_client.py:358-384 | the outcome is recorded with an expiry counted from the time before the request |
| IdentityCache.Verifier.VerifySync | project_service/engine/gateway_client.py:386-432 | the blocking form does and answers what the two events of one asynchronous verification do and answer, one right after the other |
| VerifierAnswers.AskExactly | project_service/engine/gateway_client.py:345-359 | on every interleaving a new verification is answered with the claims of the latest grant while that is younger than `ttl`, else with a denial while one since is, and otherwise, and only then, asks the identity service |
| VerifierAnswers.ReplyExactly | project_service/engine/gateway_client.py:358-384 | verified claims are granted, a body that does not parse breaks, everything else is refused |
| VerifierAnswers.RecordingPrunes | project_service/engine/gateway_client.py:366-382 | after a recording a cache has at most 1024 entries or none that had expired when the request began |
| VerifierAnswers.SerialAnswer | project_service/engine/gateway_client.py:386-432 | called any number of times, the blocking verifier answers with the claims of the latest grant while that is younger than `ttl`, else a live denial, else what the identity service says now |
| VerifierAnswers.SerialVerifierIsOracle | project_service/engine/gateway_client.py:386-432 | with a fixed verdict per token the blocking verifier answers that verdict every time |
| VerifierAnswers.VerifyNext | project_service/engine/gateway_client.py:386-432 | one more call on the object keeps the cache of the run and gives the run's answer |
| VerifierRuns.CachedAnswersAreFresh | project_service/engine/gateway_client.py:338-384 | under any interleaving a cached answer was given by the identity service for that token to a request begun less than `ttl` ago |
| VerifierRuns.CachedVerifierIsOracle | project_service/engine/gateway_client.py:338-384 | with a fixed verdict per token every answer, cached or not, is the verdict |
| VerifierRuns.PruningInvisible | project_service/engine/gateway_client.py:366-382 | pruning past 1024 entries changes no later answer on any interleaving |
| VerifierRuns.VerdictRemembered | project_service/engine/gateway_client.py:345-384 | for `ttl` from the start of its request an answer spares every further request for its token, and a grant stays that grant, whatever happens to other tokens, pruning included |
| VerifierExclusion.CachesExactly | project_service/engine/gateway_client.py:345-384 | on every interleaving, what is live in each cache is exactly the latest grant, and the latest denial since, for `ttl` from the start of its request |
| VerifierExclusion.BothLiveExactly | project_service/engine/gateway_client.py:363-382 | a token is live in both caches if and only if its latest grant and a denial recorded after it stem from requests begun less than `ttl` ago |
| VerifierExclusion.SerialApart | project_service/engine/gateway_client.py:386-432 | one verification at a time, a denial since the latest grant begins only when that grant has expired |
| VerifierExclusion.NeverBoth | project_service/engine/gateway_client.py:386-432 | on sequential runs no token is live in both caches |
| VerifierExclusion.InterleavingAllowsBoth | project_service/engine/gateway_client.py:363-380 | two overlapping requests for one token, granted and then denied, leave it live in both, and the grant wins |
| RetryLoop.Request | project_service/engine/gateway_client.py:132-176 | attempts, result, sleep and metrics are determined by the first final outcome within the budget |
| RetryLoop.FirstFinal | project_service/engine/gateway_client.py:140-168 | the index found is final and every earlier outcome is not |
| RetryLoop.FinalMeans | project_service/engine/gateway_client.py:33-38 | an outcome is tried again if and only if it is a transport error or one of 429, 500, 502, 503, 504 under GET, HEAD, OPTIONS, PUT or DELETE |
| RetryLoop.LastStatusIs | project_service/engine/gateway_client.py:151-172 | the status reported on exhaustion is that of the latest attempt that got one |
| RetryLoop.SleepsOnce | project_service/engine/gateway_client.py:169-170 | each attempt that is followed by another is waited for once, with its own jitter |
| RetryLoop.DefaultSleep | project_service/engine/gateway_client.py:39-46 | with the default of three retries the waits are at most 0.4, 0.8 and 1.6 seconds, 2.8 in all |
| RetryLoop.LongestSleep | project_service/engine/gateway_client.py:43-46 | the bound on the total is reached by the largest jitters |
| RetryLoop.SleepBound | project_service/engine/gateway_client.py:43-46 | the sleeps of n retries add up to at most `0.4 * (2^n - 1)` |
| RetryLoop.EarlierAttempts | project_service/engine/gateway_client.py:150-164 | every attempt but the last failed in transport or with a retryable status of a repeatable method |
| RetryLoop.BoundedRequest | project_service/engine/gateway_client.py:122-176 | attempts go on exactly while they fail in a way that is tried again, at most `retries + 1` times; the result is that of the last attempt, or the latest status when all are spent; the sleep is bounded, one metric is recorded unless a body did not parse, and a method that must not be repeated gets no attempt after a response |
| StorageQuota.FileStore.ProjectUsage | project_service/store/file_store.py:70-83 | the walk sums the measured files of the project |
| StorageQuota.FileStore.GlobalUsage | project_service/store/file_store.py:85-97 | the walk sums the measured files of all projects |
| StorageQuota.FileStore.CheckQuota | project_service/store/file_store.py:99-116 | accepts exactly a non-negative addition that keeps every positive quota |
| StorageQuota.FileStore.UploadFile | project_service/engine/knowledge_manager.py:269-299 | if the check accepts the size, stores the file under its name, or under a generated one if that is taken; else changes nothing |
| StorageQuota.FileStore.ReplaceFile | project_service/engine/knowledge_manager.py:338-348 | swaps the file if the check accepts the full new size, else changes nothing |
| StorageQuota.FileStore.DeleteFile | project_service/engine/knowledge_manager.py:251-256 | a deleted file leaves the disk unless the unlink fails |
| StorageQuota.PutSwaps | project_service/engine/knowledge_manager.py:97-109 | a copy onto a path exchanges the old bytes for the new in the project's and the global usage, no other project changes |
| StorageQuota.RemovalFrees | project_service/engine/knowledge_manager.py:251-256 | a delete frees exactly the bytes at its path |
| StorageQuota.UsageExactly | project_service/store/file_store.py:70-97 | usage is additive over files, a measured file counting its size for its own project and over all, a link or unreadable file nothing |
| StorageQuota.WriteLands | project_service/engine/knowledge_manager.py:97-109 | after a write the path holds the new bytes and every other path what it held before |
| StorageQuota.UploadLands | project_service/engine/knowledge_manager.py:291-299 | an accepted upload lands under its name, or under the generated one if that is taken |
| StorageQuota.ReplaceLands | project_service/engine/knowledge_manager.py:338-348 | an accepted replacement lands at the very path |
| StorageQuota.DeleteExactly | project_service/engine/knowledge_manager.py:251-256 | a delete takes the file at its path away and no other |
| StorageQuota.FailureChangesNothing | project_service/engine/knowledge_manager.py:284-299 | a refused or failed write and a failed unlink change nothing |
| StorageQuota.UploadExactly | project_service/engine/knowledge_manager.py:284-299 | an upload to a free name is accepted if and only if its result keeps the quotas |
| StorageQuota.ReplaceExactly | project_service/engine/knowledge_manager.py:338-348 | a replacement is accepted if and only if the new size fits the headroom, while its result keeps the quotas if and only if it fits the headroom plus the old size |
| StorageQuota.FullProjectRefusesReplace | project_service/engine/knowledge_manager.py:338-343 | a full project refuses even a smaller non-empty replacement |
| StorageQuota.ReplaceRefusedThoughItFits | project_service/engine/knowledge_manager.py:338-343 | a concrete replacement that is refused although its result fits |
| StorageQuota.DeleteThenUploadIsExact | project_service/engine/knowledge_manager.py:251-299 | with the old file deleted first, the check accepts exactly what fits |
| StorageQuota.UsageLedger | project_service/engine/knowledge_manager.py:251-348 | on every interleaving a project's usage is what it started with plus the bytes stored minus the bytes freed |
| StorageQuota.NeverOverruns | project_service/store/file_store.py:99-116 | from any disk, no run lifts a usage above the larger of its positive quota and its starting value |
| StorageQuota.QuotasHold | project_service/store/file_store.py:99-116 | every interleaving of uploads, replacements and deletes that starts within the positive quotas stays within them |
| StorageQuota.PathsUnique | project_service/engine/knowledge_manager.py:291-299 | no run puts two files on one path, and a path in use stays in use unless a delete frees it |
| StorageQuota.UploadOverwritesNothing | project_service/engine/knowledge_manager.py:291-299 | an upload leaves the bytes of every existing path alone when its generated name is unused |

## Left out

- KB protocol scope: one coordinator in one process, no cancelled task, and nobody else writes `kb_id`; a deleted project id is not used again; the lock may go to any waiter, which covers the queue order of asyncio.
- KB creates without a reply: a create that upstream carried out but whose answer was lost or repeated in transport is not counted, because the coordinator never learns its id.
- Indexing: what `index_file`, `index_folder` and `remove_file_index` do after `_ensure_kb`, the status column of a file, and always-include context.
- Upstream search: that a search returns its folder's best hits, the best hit of each document first, and that no document lies in two folders are the hypotheses of the exactness theorems, and scores are reals (no NaN, no booleans); document identities are strings; values that cannot be converted to numbers are not modelled, and the configurable maxima 50 and 32 have their defaults.
- Query side effects: the query log, metrics and the conversion of hits to sources.
- Store races: a store call is one step although the code releases its cursor between validation and write; `RacingMovesExactly` says which pairs of moves that can harm, races with other calls are not modelled.
- FolderRemoval.RemoveFolder: no other call runs between the deletions of the listed files.
- FolderStore.Store.DeleteFolder: timestamps and the columns that carry no link are not part of the rows.
- FolderCopy.CopyFolders: the listing is any page of at most 500 rows in the documented order that is complete when not full; which rows a full page holds is left open. The contents of the copied files, chats, instructions and agents are not part of the model.
- FolderCopy.CopyFiles: the path check on the destination and the name rules are one flag per file.
- Conversations.ForkMessages: nobody writes to the source or the new chat while the fork runs, and the chat row and the snapshot taken with it are not modelled.
- Snapshots.RestoreSnapshot: the payload is a sequence of records, so JSON encoding and a corrupt payload are not modelled; the id that a snapshot records is dropped because a restore does not read it.
- IdentityCache.Verifier: metrics and the missing service token are not modelled; answers abstract from error texts.
- RetryLoop.Request: the network and the clock are a sequence of outcomes and of jitter values; latency is not recorded.
- StorageQuota.FileStore: project ids are valid, a file's path lies in its own project's directory, whether a file can be measured does not change by itself, and the quotas stay the same; the partial file of a crashed copy is not modelled.
- StorageQuota.QuotasHold: covers uploads, replacements and deletes only; copying a project and temporary attachments do not call the quota check.
- Tenant and path checks, HTTP, sockets and MCP transports, SQLite with its journal and migrations, export, LLM streaming, prompt assembly and logging.
